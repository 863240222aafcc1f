/** `POST /api/chat/basic`: check the request, ask the completion API for a
    whole answer (`stream: false`) and pass the first choice's text back. */
module ChatBasic {
  import opened Js
  import opened ChatRelay

  /** The reply of the handler's `catch`. */
  const ServerError: Reply := Reply(500, ErrorBody("서버 측에서 오류가 발생했습니다."))

  /** `choices[0].message.content`. */
  const AnswerPath: seq<Key> := [Name("choices"), Index(0), Name("message"), Name("content")]

  /** What the handler resolves to, and the request it sent upstream, if any. */
  datatype Handled = Handled(reply: Reply, sent: Option<CompletionRequest>)

  /** `(await response.json()).choices[0].message.content`: throws when the body
      is not JSON or a link of the chain is null or undefined. */
  function AnswerContent(data: Parsed): Access
  {
    match data
    case SyntaxError => Throws
    case Parsed(v) => Path(Some(v), AnswerPath)
  }

  /** The handler, with the request body, the environment's API key and what
      fetch resolves to taken as inputs. */
  function Post(body: Parsed, apiKey: Option<string>, upstream: Fetched<Parsed>): (h: Handled)
    // both checks come before the fetch, the message check first
    ensures h.sent.Some? <==> Validate(body, apiKey).Accepted?
    ensures Validate(body, apiKey).Rejected? ==> h.reply == Validate(body, apiKey).reply
    ensures Validate(body, apiKey).Unreadable? ==> h.reply == ServerError
    // the request asks for the whole answer, system prompt first, then the user's message
    ensures h.sent.Some? ==>
      var q := h.sent.value;
      && q.stream == false
      && q.url == CompletionsUrl && q.httpMethod == "POST" && q.model == ModelName
      && q.authorization == "Bearer " + apiKey.value
      && q.messages == [ChatMessage("system", JString(SystemPrompt)),
                        ChatMessage("user", Validate(body, apiKey).message)]
    // what the upstream call decides
    ensures h.sent.Some? && upstream.NetworkError? ==> h.reply == ServerError
    // a non-ok status is passed through, unless no JSON reply can carry it:
    // then building the reply throws and the catch answers 500
    ensures h.sent.Some? && upstream.Response? && !IsOk(upstream.status) ==>
      h.reply == if NullBodyStatus(upstream.status) then ServerError
                 else Reply(upstream.status, ErrorBody(UpstreamError))
    ensures h.sent.Some? && upstream.Response? && IsOk(upstream.status) ==>
      h.reply == match AnswerContent(upstream.body)
                 case Throws => ServerError
                 case Got(content) => Reply(200, AnswerBody(true, content))
  {
    match Validate(body, apiKey)
    case Unreadable => Handled(ServerError, None)
    case Rejected(reply) => Handled(reply, None)
    case Accepted(message, key) =>
      var request := Completion(message, key, false);
      match upstream
      case NetworkError => Handled(ServerError, Some(request))
      case Response(status, data) =>
        if !IsOk(status) then
          if NullBodyStatus(status) then Handled(ServerError, Some(request))
          else Handled(Reply(status, ErrorBody(UpstreamError)), Some(request))
        else
          match AnswerContent(data)
          case Throws => Handled(ServerError, Some(request))
          case Got(content) => Handled(Reply(200, AnswerBody(true, content)), Some(request))
  }

  /** A success reply is only ever built from an ok upstream answer to a request
      that passed both checks; and every status other than 200, 400 and 500 is
      the upstream's own; no reply has a status that cannot carry its body. */
  lemma {:induction false} ReplyProvenance(body: Parsed, apiKey: Option<string>, upstream: Fetched<Parsed>)
    ensures var h := Post(body, apiKey, upstream);
      && (h.reply.body.AnswerBody? <==>
            h.sent.Some? && upstream.Response? && IsOk(upstream.status)
            && AnswerContent(upstream.body).Got?)
      && (h.reply.body.AnswerBody? ==> h.reply.status == 200 && h.reply.body.success)
      && (h.reply.status !in {200, 400, 500} ==>
            h.sent.Some? && upstream.Response? && h.reply.status == upstream.status)
      && !NullBodyStatus(h.reply.status)
  {
  }

  /** An upstream `304 Not Modified` is not passed through: the error reply
      cannot be built with that status, and the handler replies 500. */
  lemma NotModifiedIsServerError(body: Parsed, apiKey: Option<string>, data: Parsed)
    requires Validate(body, apiKey).Accepted?
    ensures Post(body, apiKey, Response(304, data)).reply == ServerError
  {
  }

  /** An upstream answer without `choices`, or with an empty `choices`, makes
      the chain throw, and the handler replies 500. */
  lemma {:induction false} MissingChoicesIsServerError(body: Parsed, apiKey: Option<string>, status: Status, data: map<string, Json>)
    requires Validate(body, apiKey).Accepted? && IsOk(status)
    requires "choices" !in data || data["choices"] == JArray([])
    ensures Post(body, apiKey, Response(status, Parsed(JObject(data)))).reply == ServerError
  {
    var path := AnswerPath;
    var w := Member(Some(JObject(data)), path[0]).v;
    assert path[1..][1..] == path[2..];
    if w.None? {
      assert Member(w, path[1]).Throws?;
    } else {
      assert Member(w, path[1]) == Got(None);
      assert Member(None, path[2]).Throws?;
    }
  }
}

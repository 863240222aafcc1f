/** What the two chat route handlers (`/api/chat/basic` and
    `/api/chat/stream`) have in common: the replies they build, the two checks
    they make before calling the completion API, and the request they send it. */
module ChatRelay {
  import opened Js

  const CompletionsUrl: string := "https://api.openai.com/v1/chat/completions"
  const ModelName: string := "gpt-3.5-turbo"
  const SystemPrompt: string := "You are a helpful assistant. Respond in Korean."
  const MissingMessageError: string := "메세지가 누락되었습니다."
  const MissingKeyError: string := "OpenAI API Key가 설정되어있지 않습니다."
  const UpstreamError: string := "Open AI API 오류"

  /** A status that fetch can report for an HTTP response. */
  type Status = s: int | 200 <= s < 600 witness 200

  /** `response.ok`. */
  predicate IsOk(status: int)
  {
    200 <= status < 300
  }

  /** A status whose response may not carry a body (a null body status of the
      Fetch standard): `NextResponse.json` throws a TypeError for it. */
  predicate NullBodyStatus(status: int)
  {
    status in {101, 103, 204, 205, 304}
  }

  /** The JSON body of a reply: `{error}` or `{success, message}` (an undefined
      `message` is dropped when the body is serialised). */
  datatype ReplyBody = ErrorBody(error: string) | AnswerBody(success: bool, message: Option<Json>)

  /** What `NextResponse.json(body, {status})` builds. */
  datatype Reply = Reply(status: int, body: ReplyBody)

  datatype ChatMessage = ChatMessage(role: string, content: Json)

  /** The POST the handlers send to the completion API: URL, headers and the
      JSON body's fields. */
  datatype CompletionRequest = CompletionRequest(
    url: string,
    httpMethod: string,
    contentType: string,
    authorization: string,
    model: string,
    messages: seq<ChatMessage>,
    stream: bool)

  /** What `fetch` gives back: it throws, or it resolves to a response with a
      status and a body of type B. */
  datatype Fetched<B> = NetworkError | Response(status: Status, body: B)

  /** The two checks before any network call: the request carried a truthy
      `message`, and the API key is configured. `Unreadable` is the path where
      reading the request body throws (it is not JSON, or it is JSON `null`,
      which cannot be destructured). */
  datatype Validation = Unreadable | Rejected(reply: Reply) | Accepted(message: Json, apiKey: string)

  /** `const { message } = await request.json()`. */
  function MessageField(body: Parsed): Access
  {
    match body
    case SyntaxError => Throws
    case Parsed(v) => Member(Some(v), Name("message"))
  }

  /** `process.env.OPENAI_API_KEY` is truthy. */
  predicate KeyConfigured(apiKey: Option<string>)
  {
    apiKey.Some? && apiKey.value != ""
  }

  function Validate(body: Parsed, apiKey: Option<string>): (v: Validation)
    ensures v.Unreadable? <==> MessageField(body).Throws?
    ensures v == Rejected(Reply(400, ErrorBody(MissingMessageError))) <==>
      MessageField(body).Got? && !Truthy(MessageField(body).v)
    ensures v == Rejected(Reply(500, ErrorBody(MissingKeyError))) <==>
      MessageField(body).Got? && Truthy(MessageField(body).v) && !KeyConfigured(apiKey)
    ensures v.Accepted? <==>
      MessageField(body).Got? && Truthy(MessageField(body).v) && KeyConfigured(apiKey)
    ensures v.Accepted? ==>
      MessageField(body) == Got(Some(v.message)) && apiKey == Some(v.apiKey)
  {
    match MessageField(body)
    case Throws => Unreadable
    case Got(m) =>
      if !Truthy(m) then Rejected(Reply(400, ErrorBody(MissingMessageError)))
      else if !KeyConfigured(apiKey) then Rejected(Reply(500, ErrorBody(MissingKeyError)))
      else Accepted(m.value, apiKey.value)
  }

  /** The request both handlers send; they differ only in `stream`. */
  function Completion(message: Json, apiKey: string, stream: bool): CompletionRequest
  {
    CompletionRequest(
      CompletionsUrl, "POST", "application/json", "Bearer " + apiKey, ModelName,
      [ChatMessage("system", JString(SystemPrompt)), ChatMessage("user", message)],
      stream)
  }
}

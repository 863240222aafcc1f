/** `POST /api/chat/stream`: the same two checks as the basic route, a
    completion request with `stream: true`, and a ReadableStream whose `start`
    callback reads the upstream body chunk by chunk. Each chunk is decoded and
    written to the console; nothing is enqueued on the stream, and the handler
    never returns the stream: after constructing it, it falls off the end of
    its `try` and resolves to `undefined`. */
module ChatStream {
  import opened Js
  import opened ChatRelay

  /** The reply of the handler's outer `catch`. */
  const ServerError: Reply := Reply(500, ErrorBody("서버 측에 오류가 발생하였습니다."))
  /** The console line written after every decoded chunk. */
  const ChunkSeparator: string := "-----------------------------------"
  /** The label of the console line written when reading or decoding fails. */
  const StreamErrorLabel: string := "스트림 처리 오류:"

  /** What one `reader.read()` settles to: a chunk, which the decoder turns into
      text or fails on (`None`); the end of the body; or a rejected read. */
  datatype ReadOutcome = Chunk(decoded: Option<string>) | Done | Fail

  /** What the handler resolves to: a JSON reply, or nothing after it built the
      stream over the upstream body (`None` when `response.body` is null). */
  datatype Outcome = Replied(reply: Reply) | NoReply(upstreamBody: Option<seq<ReadOutcome>>)

  datatype Handled = Handled(outcome: Outcome, sent: Option<CompletionRequest>)

  /** The handler's decisions up to the construction of the stream; the
      stream's `start` is `Start` below. */
  function Post(body: Parsed, apiKey: Option<string>, upstream: Fetched<Option<seq<ReadOutcome>>>): (h: Handled)
    // both checks come before the fetch, the message check first
    ensures h.sent.Some? <==> Validate(body, apiKey).Accepted?
    ensures Validate(body, apiKey).Rejected? ==> h.outcome == Replied(Validate(body, apiKey).reply)
    ensures Validate(body, apiKey).Unreadable? ==> h.outcome == Replied(ServerError)
    ensures h.sent.Some? ==>
      var q := h.sent.value;
      && q.stream == true
      && q.url == CompletionsUrl && q.httpMethod == "POST" && q.model == ModelName
      && q.authorization == "Bearer " + apiKey.value
      && q.messages == [ChatMessage("system", JString(SystemPrompt)),
                        ChatMessage("user", Validate(body, apiKey).message)]
    ensures h.sent.Some? && upstream.NetworkError? ==> h.outcome == Replied(ServerError)
    ensures h.sent.Some? && upstream.Response? && !IsOk(upstream.status) ==>
      h.outcome == Replied(if NullBodyStatus(upstream.status) then ServerError
                           else Reply(upstream.status, ErrorBody(UpstreamError)))
    // a stream is built only over an ok upstream response, and then nothing is returned
    ensures h.outcome.NoReply? <==> h.sent.Some? && upstream.Response? && IsOk(upstream.status)
    ensures h.outcome.NoReply? ==> h.outcome.upstreamBody == upstream.body
  {
    match Validate(body, apiKey)
    case Unreadable => Handled(Replied(ServerError), None)
    case Rejected(reply) => Handled(Replied(reply), None)
    case Accepted(message, key) =>
      var request := Completion(message, key, true);
      match upstream
      case NetworkError => Handled(Replied(ServerError), Some(request))
      case Response(status, upstreamBody) =>
        if !IsOk(status) then
          if NullBodyStatus(status) then Handled(Replied(ServerError), Some(request))
          else Handled(Replied(Reply(status, ErrorBody(UpstreamError))), Some(request))
        else Handled(NoReply(upstreamBody), Some(request))
  }

  /** Whether a read ends the loop: the body is done, the read rejected, or the
      decoder threw. */
  predicate Stops(o: ReadOutcome)
  {
    !o.Chunk? || o.decoded.None?
  }

  /** The position of the first read that ends the loop, or |s| when no read
      in s does. */
  function FirstStop(s: seq<ReadOutcome>): (k: nat)
    ensures k <= |s|
    ensures k < |s| ==> Stops(s[k])
  {
    if s == [] then 0
    else if Stops(s[0]) then 0
    else 1 + FirstStop(s[1..])
  }

  /** Every read before the first stopping one is a decoded chunk. */
  lemma {:induction false} FirstStopIsFirst(s: seq<ReadOutcome>)
    ensures forall i :: 0 <= i < FirstStop(s) ==> !Stops(s[i])
  {
    if s != [] && !Stops(s[0]) {
      FirstStopIsFirst(s[1..]);
      forall i | 0 < i < FirstStop(s)
        ensures !Stops(s[i])
      {
        assert s[i] == s[1..][i - 1];
      }
    }
  }

  /** A read at or before the first stopping one is that one exactly when it
      stops the loop. */
  lemma FirstStopStep(s: seq<ReadOutcome>, t: nat)
    requires t <= FirstStop(s) && t < |s|
    ensures Stops(s[t]) ==> FirstStop(s) == t
    ensures !Stops(s[t]) ==> t + 1 <= FirstStop(s)
  {
    FirstStopIsFirst(s);
  }

  /** The log of one more read. */
  lemma ChunkLogStep(s: seq<ReadOutcome>, t: nat)
    requires t < |s|
    ensures ChunkLog(s[..t + 1]) == ChunkLog(s[..t])
      + (if s[t].Chunk? && s[t].decoded.Some? then [s[t].decoded.value, ChunkSeparator] else [])
  {
    assert s[..t + 1][..t] == s[..t];
  }

  /** Whatever follows the first stopping read is never looked at. */
  lemma {:induction false} FirstStopIgnoresRest(s: seq<ReadOutcome>, rest: seq<ReadOutcome>)
    requires FirstStop(s) < |s|
    ensures FirstStop(s + rest) == FirstStop(s)
  {
    if !Stops(s[0]) {
      assert (s + rest)[1..] == s[1..] + rest;
      FirstStopIgnoresRest(s[1..], rest);
    }
  }

  /** The console lines of the decoded chunks of s, each followed by the
      separator line. */
  function ChunkLog(s: seq<ReadOutcome>): (lines: seq<string>)
  {
    if s == [] then []
    else
      var last := s[|s| - 1];
      ChunkLog(s[..|s| - 1])
      + (if last.Chunk? && last.decoded.Some? then [last.decoded.value, ChunkSeparator] else [])
  }

  /** For reads that all decode, the log has two lines per chunk: its text,
      then the separator. */
  lemma {:induction false} ChunkLogShape(s: seq<ReadOutcome>)
    requires forall i :: 0 <= i < |s| ==> s[i].Chunk? && s[i].decoded.Some?
    ensures |ChunkLog(s)| == 2 * |s|
    ensures forall i :: 0 <= i < |s| ==>
      ChunkLog(s)[2 * i] == s[i].decoded.value && ChunkLog(s)[2 * i + 1] == ChunkSeparator
  {
    if s != [] {
      var init := s[..|s| - 1];
      ChunkLogShape(init);
      assert ChunkLog(s) == ChunkLog(init) + [s[|s| - 1].decoded.value, ChunkSeparator];
    }
  }

  datatype StreamState = Readable | Closed | Errored

  /** The stream's controller: its state, what was enqueued on it, and how
      often `close()` and `error()` were called. */
  class Controller {
    var state: StreamState
    var enqueued: seq<string>
    var closeCalls: nat
    var errorCalls: nat

    constructor ()
      ensures state == Readable && enqueued == [] && closeCalls == 0 && errorCalls == 0
    {
      state := Readable;
      enqueued := [];
      closeCalls := 0;
      errorCalls := 0;
    }

    /** `controller.close()`; only a readable stream may be closed. */
    method Close()
      requires state == Readable
      modifies this
      ensures state == Closed && closeCalls == old(closeCalls) + 1
      ensures enqueued == old(enqueued) && errorCalls == old(errorCalls)
    {
      state := Closed;
      closeCalls := closeCalls + 1;
    }

    /** `controller.error(e)`. */
    method Error()
      requires state == Readable
      modifies this
      ensures state == Errored && errorCalls == old(errorCalls) + 1
      ensures enqueued == old(enqueued) && closeCalls == old(closeCalls)
    {
      state := Errored;
      errorCalls := errorCalls + 1;
    }
  }

  /** The reader of the upstream body: the outcomes its reads will settle to,
      how many were taken, and its lock. */
  class Reader {
    const script: seq<ReadOutcome>
    var taken: nat
    var locked: bool
    var releases: nat

    ghost predicate Valid()
      reads this
    {
      taken <= |script|
    }

    /** `response.body.getReader()`: a fresh reader holds the lock. */
    constructor (script: seq<ReadOutcome>)
      ensures Valid() && this.script == script
      ensures taken == 0 && locked && releases == 0
    {
      this.script := script;
      taken := 0;
      locked := true;
      releases := 0;
    }

    /** `await reader.read()`. `None` stands for a read that never settles:
        the body neither yields more nor ends. */
    method Read() returns (r: Option<ReadOutcome>)
      requires Valid() && locked
      modifies this
      ensures Valid() && locked == old(locked) && releases == old(releases)
      ensures old(taken) < |script| ==> r == Some(script[old(taken)]) && taken == old(taken) + 1
      ensures old(taken) == |script| ==> r == None && taken == old(taken)
    {
      if taken < |script| {
        r := Some(script[taken]);
        taken := taken + 1;
      } else {
        r := None;
      }
    }

    /** `reader.releaseLock()`; only a held lock can be released. */
    method ReleaseLock()
      requires Valid() && locked
      modifies this
      ensures Valid() && !locked && releases == old(releases) + 1 && taken == old(taken)
    {
      locked := false;
      releases := releases + 1;
    }
  }

  /** The server console. */
  class Console {
    var lines: seq<string>

    constructor ()
      ensures lines == []
    {
      lines := [];
    }

    method Log(line: string)
      modifies this
      ensures lines == old(lines) + [line]
    {
      lines := lines + [line];
    }
  }

  /** The stream's `start` callback. With no reader the stream is closed at
      once. Otherwise the loop reads until the body is done (close) or a read
      or decode fails (log and error), and then releases the lock, exactly
      once on either path. If a read never settles, the loop waits forever:
      the stream stays readable and the lock stays held. */
  method Start(controller: Controller, reader: Reader?, console: Console)
    requires controller.state == Readable
    requires reader != null ==> reader.Valid() && reader.locked && reader.taken == 0 && reader.releases == 0
    modifies controller, reader, console
    ensures controller.enqueued == old(controller.enqueued)
    ensures reader == null ==>
      && controller.state == Closed
      && controller.closeCalls == old(controller.closeCalls) + 1
      && controller.errorCalls == old(controller.errorCalls)
      && console.lines == old(console.lines)
    ensures reader != null ==>
      var s, k := reader.script, FirstStop(reader.script);
      && reader.taken == (if k < |s| then k + 1 else |s|)
      && (k < |s| ==>
            && (s[k] == Done ==>
                  && controller.state == Closed
                  && controller.closeCalls == old(controller.closeCalls) + 1
                  && controller.errorCalls == old(controller.errorCalls))
            && (s[k] != Done ==>
                  && controller.state == Errored
                  && controller.errorCalls == old(controller.errorCalls) + 1
                  && controller.closeCalls == old(controller.closeCalls))
            && !reader.locked && reader.releases == 1
            && console.lines == old(console.lines) + ChunkLog(s[..k])
                                + (if s[k] == Done then [] else [StreamErrorLabel]))
      && (k == |s| ==>
            && controller.state == Readable
            && controller.closeCalls == old(controller.closeCalls)
            && controller.errorCalls == old(controller.errorCalls)
            && reader.locked && reader.releases == 0
            && console.lines == old(console.lines) + ChunkLog(s))
  {
    if reader == null {
      controller.Close();
      return;
    }
    ghost var s := reader.script;
    while true
      invariant reader.Valid() && reader.locked && reader.releases == 0 && reader.script == s
      invariant reader.taken <= FirstStop(s)
      invariant controller.state == Readable && controller.enqueued == old(controller.enqueued)
      invariant controller.closeCalls == old(controller.closeCalls)
      invariant controller.errorCalls == old(controller.errorCalls)
      invariant console.lines == old(console.lines) + ChunkLog(s[..reader.taken])
      decreases |s| - reader.taken
    {
      ghost var t := reader.taken;
      var r := reader.Read();
      if r.None? {
        assert s[..t] == s;
        return;
      }
      FirstStopStep(s, t);
      ChunkLogStep(s, t);
      match r.value
      case Done =>
        controller.Close();
        break;
      case Fail =>
        console.Log(StreamErrorLabel);
        controller.Error();
        break;
      case Chunk(decoded) =>
        if decoded.None? {
          console.Log(StreamErrorLabel);
          controller.Error();
          break;
        }
        console.Log(decoded.value);
        console.Log(ChunkSeparator);
    }
    reader.ReleaseLock();
  }
}

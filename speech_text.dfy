/** The speech-to-text panel built directly on the browser's SpeechRecognition:
    a support flag and a recognition instance set up on mount, a listening flag
    toggled by the start and stop buttons and by the `end` and `error` events,
    and a transcript that grows by one line per final recognition result. */
module SpeechText {

  /** One entry of `event.results`: whether it is final, and the transcript of
      its first alternative (`result[0].transcript`). */
  datatype SpeechResult = SpeechResult(isFinal: bool, transcript: string)

  /** What one result adds to the text: its transcript and a line break when
      it is final, nothing when it is interim. */
  function Contribution(r: SpeechResult): string
  {
    if r.isFinal then r.transcript + "\n" else ""
  }

  /** The text a run of results adds, in order. */
  function FinalText(rs: seq<SpeechResult>): string
  {
    if rs == [] then ""
    else FinalText(rs[..|rs| - 1]) + Contribution(rs[|rs| - 1])
  }

  /** The text one result event adds: the final results from `resultIndex` on.
      An index past the end adds nothing. */
  function EventText(results: seq<SpeechResult>, resultIndex: nat): string
  {
    if resultIndex <= |results| then FinalText(results[resultIndex..]) else ""
  }

  lemma {:induction false} FinalTextAppend(a: seq<SpeechResult>, b: seq<SpeechResult>)
    ensures FinalText(a + b) == FinalText(a) + FinalText(b)
    decreases |b|
  {
    if b == [] {
      assert a + b == a;
    } else {
      var init, last := b[..|b| - 1], b[|b| - 1];
      assert (a + b)[..|a + b| - 1] == a + init;
      assert (a + b)[|a + b| - 1] == last;
      FinalTextAppend(a, init);
    }
  }

  lemma FinalTextStep(rs: seq<SpeechResult>, from: nat, i: nat)
    requires from <= i < |rs|
    ensures FinalText(rs[from..i + 1]) == FinalText(rs[from..i]) + Contribution(rs[i])
  {
    assert rs[from..i + 1][..i - from] == rs[from..i];
  }

  /** Interim results add nothing. */
  lemma {:induction false} InterimAddsNothing(rs: seq<SpeechResult>)
    requires forall i :: 0 <= i < |rs| ==> !rs[i].isFinal
    ensures FinalText(rs) == ""
  {
    if rs != [] {
      InterimAddsNothing(rs[..|rs| - 1]);
    }
  }

  /** The transcripts of the final results, in order. */
  function FinalTranscripts(rs: seq<SpeechResult>): seq<string>
  {
    if rs == [] then []
    else FinalTranscripts(rs[..|rs| - 1]) + (if rs[|rs| - 1].isFinal then [rs[|rs| - 1].transcript] else [])
  }

  /** The text holds no line break. */
  predicate NoBreak(s: string)
  {
    forall j :: 0 <= j < |s| ==> s[j] != '\n'
  }

  /** The position of the first line break of t, or |t| when it has none. */
  function LineEnd(t: string): (i: nat)
    ensures i <= |t| && (i < |t| ==> t[i] == '\n')
  {
    if t == [] || t[0] == '\n' then 0 else 1 + LineEnd(t[1..])
  }

  /** No line break comes before the first one. */
  lemma {:induction false} LineEndIsFirst(t: string)
    ensures NoBreak(t[..LineEnd(t)])
  {
    if t != [] && t[0] != '\n' {
      LineEndIsFirst(t[1..]);
      assert t[..LineEnd(t)] == [t[0]] + t[1..][..LineEnd(t[1..])];
    }
  }

  /** The lines of a text, each without its closing line break; text after
      the last line break is not a line. */
  function Lines(t: string): seq<string>
    decreases |t|
  {
    var i := LineEnd(t);
    if i == |t| then [] else [t[..i]] + Lines(t[i + 1..])
  }

  /** The first line break is no later than any line break. */
  lemma {:induction false} LineEndBound(t: string, k: nat)
    requires k < |t| && t[k] == '\n'
    ensures LineEnd(t) <= k
  {
    if t[0] != '\n' {
      assert t[1..][k - 1] == '\n';
      LineEndBound(t[1..], k - 1);
    }
  }

  /** The first line break is no earlier than the end of a break-free prefix. */
  lemma {:induction false} LineEndAtLeast(t: string, k: nat)
    requires k <= |t| && NoBreak(t[..k])
    ensures LineEnd(t) >= k
  {
    if k > 0 {
      assert t[0] == t[..k][0];
      assert t[1..][..k - 1] == t[..k][1..];
      LineEndAtLeast(t[1..], k - 1);
    }
  }

  lemma LineEndAt(t: string, k: nat)
    requires k < |t| && t[k] == '\n' && NoBreak(t[..k])
    ensures LineEnd(t) == k
  {
    LineEndBound(t, k);
    LineEndAtLeast(t, k);
  }

  /** A line followed by a line break is the first line. */
  lemma LinesOfLine(line: string, rest: string)
    requires NoBreak(line)
    ensures Lines(line + "\n" + rest) == [line] + Lines(rest)
  {
    var t := line + "\n" + rest;
    assert t[..|line|] == line;
    LineEndAt(t, |line|);
    assert t[|line| + 1..] == rest;
  }

  /** A text with a line break is its first line, that break and the rest. */
  lemma SplitFirstLine(a: string) returns (line: string, rest: string)
    requires a != [] && a[|a| - 1] == '\n'
    ensures a == line + "\n" + rest && NoBreak(line)
    ensures Lines(a) == [line] + Lines(rest)
    ensures rest == "" || rest[|rest| - 1] == '\n'
  {
    LineEndBound(a, |a| - 1);
    LineEndIsFirst(a);
    var i := LineEnd(a);
    line, rest := a[..i], a[i + 1..];
    assert a == line + "\n" + rest;
  }

  /** A text that ends a line does not run into the text after it. */
  lemma {:induction false} LinesAppend(a: string, b: string)
    requires a == "" || a[|a| - 1] == '\n'
    ensures Lines(a + b) == Lines(a) + Lines(b)
    decreases |a|
  {
    if a == "" {
      assert a + b == b;
    } else {
      var line, rest := SplitFirstLine(a);
      LinesAppend(rest, b);
      Regroup(a, line, rest, b);
      LinesOfLine(line, rest + b);
      Reassociate([line], Lines(rest), Lines(b));
    }
  }

  lemma Regroup(a: string, line: string, rest: string, b: string)
    requires a == line + "\n" + rest
    ensures a + b == line + "\n" + (rest + b)
  {
  }

  lemma Reassociate<T>(x: seq<T>, y: seq<T>, z: seq<T>)
    ensures x + (y + z) == (x + y) + z
  {
  }

  /** A line with its line break is that one line. */
  lemma OneLine(line: string)
    requires NoBreak(line)
    ensures Lines(line + "\n") == [line]
  {
    LinesOfLine(line, "");
    assert line + "\n" + "" == line + "\n";
    assert Lines("") == [];
  }

  /** Adding a line and its line break to a text of whole lines adds exactly
      that line. */
  lemma AddLine(prev: string, line: string)
    requires prev == "" || prev[|prev| - 1] == '\n'
    requires NoBreak(line)
    ensures Lines(prev + line + "\n") == Lines(prev) + [line]
  {
    assert prev + line + "\n" == prev + (line + "\n");
    LinesAppend(prev, line + "\n");
    OneLine(line);
  }

  /** What one result adds is one line, its transcript, when it is final, and
      nothing otherwise. */
  lemma ContributionLines(r: SpeechResult)
    requires NoBreak(r.transcript)
    ensures Lines(Contribution(r)) == if r.isFinal then [r.transcript] else []
  {
    if r.isFinal {
      OneLine(r.transcript);
    } else {
      assert Lines("") == [];
    }
  }

  /** The added text loses nothing: when no transcript holds a line break, its
      lines are exactly the final transcripts, in order. */
  lemma {:induction false} FinalTextLines(rs: seq<SpeechResult>)
    requires forall i :: 0 <= i < |rs| ==> NoBreak(rs[i].transcript)
    ensures Lines(FinalText(rs)) == FinalTranscripts(rs)
  {
    if rs != [] {
      var init, last := rs[..|rs| - 1], rs[|rs| - 1];
      var t := FinalText(init);
      FinalTextLines(init);
      FinalTextEndsLine(init);
      calc {
        Lines(FinalText(rs));
      ==
        Lines(t + Contribution(last));
      ==  { LinesAppend(t, Contribution(last)); }
        Lines(t) + Lines(Contribution(last));
      ==  { ContributionLines(last); }
        FinalTranscripts(init) + (if last.isFinal then [last.transcript] else []);
      }
    }
  }

  lemma {:induction false} FinalTextEndsLine(rs: seq<SpeechResult>)
    ensures var t := FinalText(rs); t == "" || t[|t| - 1] == '\n'
  {
    if rs != [] {
      FinalTextEndsLine(rs[..|rs| - 1]);
    }
  }

  /** One step of the loop keeps the text equal to the earlier text followed
      by what the results seen so far add. */
  lemma AppendStep(prev: string, done: string, text: string, r: SpeechResult)
    requires text == prev + done
    ensures r.isFinal ==> text + r.transcript + "\n" == prev + (done + Contribution(r))
    ensures !r.isFinal ==> text == prev + (done + Contribution(r))
  {
    if !r.isFinal {
      assert done + Contribution(r) == done;
    }
  }

  /** The loop of `onresult`: for each result from `resultIndex` to the end
      that is final, the update `prev + result[0].transcript + "\n"` is applied
      to the text, in order. */
  method AppendFinalResults(prev: string, results: seq<SpeechResult>, resultIndex: nat) returns (text: string)
    ensures text == prev + EventText(results, resultIndex)
  {
    text := prev;
    if resultIndex > |results| {
      assert text == text + "";
      return;
    }
    var i := resultIndex;
    while i < |results|
      invariant resultIndex <= i <= |results|
      invariant text == prev + FinalText(results[resultIndex..i])
    {
      var result := results[i];
      FinalTextStep(results, resultIndex, i);
      AppendStep(prev, FinalText(results[resultIndex..i]), text, result);
      if result.isFinal {
        text := text + result.transcript + "\n";
      }
      i := i + 1;
    }
    assert results[resultIndex..i] == results[resultIndex..];
  }

  /** The component's state. */
  class Recognizer {
    var hasSTTSupport: bool
    var hasRecognition: bool
    var isListening: bool
    var userText: string

    ghost predicate Valid()
      reads this
    {
      (hasRecognition ==> hasSTTSupport) && (isListening ==> hasRecognition)
    }

    constructor ()
      ensures Valid() && !hasSTTSupport && !hasRecognition && !isListening && userText == ""
    {
      hasSTTSupport := false;
      hasRecognition := false;
      isListening := false;
      userText := "";
    }

    /** The mount effect: in a browser that offers a SpeechRecognition
        constructor, record support and create the instance. */
    method Mount(inBrowser: bool, constructorAvailable: bool)
      requires Valid()
      modifies this
      ensures Valid()
      ensures hasSTTSupport == (old(hasSTTSupport) || (inBrowser && constructorAvailable))
      ensures hasRecognition == (old(hasRecognition) || (inBrowser && constructorAvailable))
      ensures isListening == old(isListening) && userText == old(userText)
    {
      if !inBrowser {
        return;
      }
      if constructorAvailable {
        hasSTTSupport := true;
        hasRecognition := true;
      }
    }

    /** `onresult`: the text grows by the event's final results. */
    method OnResult(results: seq<SpeechResult>, resultIndex: nat)
      requires Valid()
      modifies this
      ensures Valid()
      ensures userText == old(userText) + EventText(results, resultIndex)
      ensures hasSTTSupport == old(hasSTTSupport) && hasRecognition == old(hasRecognition)
      ensures isListening == old(isListening)
    {
      userText := AppendFinalResults(userText, results, resultIndex);
    }

    /** `onend` and `onerror`: the recognition session is over. */
    method OnSessionEnd()
      requires Valid()
      modifies this
      ensures Valid() && !isListening
      ensures hasSTTSupport == old(hasSTTSupport) && hasRecognition == old(hasRecognition)
      ensures userText == old(userText)
    {
      isListening := false;
    }

    /** `handleStartListening`; `startThrows` says whether `recognition.start()`
        throws (it does when a session is already running). */
    method StartListening(startThrows: bool)
      requires Valid()
      modifies this
      ensures Valid()
      ensures isListening == (old(isListening) || (hasSTTSupport && hasRecognition && !startThrows))
      ensures hasSTTSupport == old(hasSTTSupport) && hasRecognition == old(hasRecognition)
      ensures userText == old(userText)
    {
      if !hasSTTSupport || !hasRecognition {
        return;
      }
      if !startThrows {
        isListening := true;
      }
    }

    /** `handleStopListening`; `stopThrows` says whether `recognition.stop()`
        throws. */
    method StopListening(stopThrows: bool)
      requires Valid()
      modifies this
      ensures Valid()
      ensures isListening == (old(isListening) && (!hasRecognition || stopThrows))
      ensures hasSTTSupport == old(hasSTTSupport) && hasRecognition == old(hasRecognition)
      ensures userText == old(userText)
    {
      if !hasRecognition {
        return;
      }
      if !stopThrows {
        isListening := false;
      }
    }

    /** The text area's `onChange`: the user edits the text. */
    method Edit(text: string)
      requires Valid()
      modifies this
      ensures Valid() && userText == text
      ensures hasSTTSupport == old(hasSTTSupport) && hasRecognition == old(hasRecognition)
      ensures isListening == old(isListening)
    {
      userText := text;
    }
  }
}

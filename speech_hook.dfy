/** The speech-to-text panel built on the `useSpeechRecognition` hook: the hook
    reports an interim `transcript` and a `finalTranscript`; an effect on
    `finalTranscript` moves every non-empty final transcript into the text as
    one line and then resets the hook's transcripts. */
module SpeechHook {
  import SpeechText

  /** The effect's update of the text for one value of `finalTranscript`: a
      non-empty one is added followed by a line break, an empty one adds
      nothing. */
  function Absorb(prev: string, finalTranscript: string): string
  {
    if finalTranscript != "" then prev + finalTranscript + "\n" else prev
  }

  /** The effect only ever extends the text: the old text stays a prefix,
      and the text grows by the final transcript and a line break, or not at
      all when the final transcript is empty. */
  lemma AbsorbExtends(prev: string, finalTranscript: string)
    ensures var text := Absorb(prev, finalTranscript);
      && |text| == |prev| + (if finalTranscript == "" then 0 else |finalTranscript| + 1)
      && text[..|prev|] == prev
  {
  }

  /** The text after the effect absorbed each of `fts`, in order. */
  function Feed(prev: string, fts: seq<string>): string
  {
    if fts == [] then prev else Absorb(Feed(prev, fts[..|fts| - 1]), fts[|fts| - 1])
  }

  /** The non-empty entries of `fts`, in order. */
  function NonEmpty(fts: seq<string>): seq<string>
  {
    if fts == [] then []
    else NonEmpty(fts[..|fts| - 1]) + (if fts[|fts| - 1] != "" then [fts[|fts| - 1]] else [])
  }

  /** After the effect, the hook's final transcript is empty, so the effect run
      that the reset triggers changes nothing. */
  lemma AbsorbThenReset(prev: string, finalTranscript: string)
    ensures Absorb(Absorb(prev, finalTranscript), "") == Absorb(prev, finalTranscript)
  {
  }

  /** A text of whole lines stays a text of whole lines. */
  lemma {:induction false} FeedEndsLine(prev: string, fts: seq<string>)
    requires prev == "" || prev[|prev| - 1] == '\n'
    ensures var t := Feed(prev, fts); t == "" || t[|t| - 1] == '\n'
  {
    if fts != [] {
      FeedEndsLine(prev, fts[..|fts| - 1]);
    }
  }

  /** One run of the effect adds the final transcript as one line, or
      nothing when it is empty. */
  lemma AbsorbLines(prev: string, finalTranscript: string)
    requires prev == "" || prev[|prev| - 1] == '\n'
    requires SpeechText.NoBreak(finalTranscript)
    ensures finalTranscript == "" ==> Absorb(prev, finalTranscript) == prev
    ensures finalTranscript != "" ==>
      SpeechText.Lines(Absorb(prev, finalTranscript)) == SpeechText.Lines(prev) + [finalTranscript]
  {
    if finalTranscript != "" {
      SpeechText.AddLine(prev, finalTranscript);
    }
  }

  /** Nothing is lost or merged: when no final transcript holds a line break,
      the text's lines are its earlier lines followed by the non-empty final
      transcripts, one per line, in order. */
  lemma {:induction false} FeedLines(prev: string, fts: seq<string>)
    requires prev == "" || prev[|prev| - 1] == '\n'
    requires forall i :: 0 <= i < |fts| ==> SpeechText.NoBreak(fts[i])
    ensures SpeechText.Lines(Feed(prev, fts)) == SpeechText.Lines(prev) + NonEmpty(fts)
  {
    if fts != [] {
      var init, ft := fts[..|fts| - 1], fts[|fts| - 1];
      FeedLines(prev, init);
      FeedEndsLine(prev, init);
      AbsorbLines(Feed(prev, init), ft);
      assert NonEmpty(fts) == NonEmpty(init) + (if ft != "" then [ft] else []);
    }
  }

  /** A call the panel makes on the speech recognition library. */
  datatype Request = Start(language: string, continuous: bool, interimResults: bool) | Stop

  /** The panel's state and the hook's transcripts. `since` and `absorbed` are
      the text as the user last left it and the final transcripts absorbed
      after that. */
  class Panel {
    var hasSTTSupport: bool
    var userText: string
    var transcript: string
    var finalTranscript: string
    var requests: seq<Request>
    var resets: nat
    ghost var since: string
    ghost var absorbed: seq<string>

    ghost predicate Valid()
      reads this
    {
      userText == Feed(since, absorbed)
    }

    constructor ()
      ensures Valid() && !hasSTTSupport && userText == ""
      ensures transcript == "" && finalTranscript == "" && requests == [] && resets == 0
    {
      hasSTTSupport := false;
      userText := "";
      transcript := "";
      finalTranscript := "";
      requests := [];
      resets := 0;
      since := "";
      absorbed := [];
    }

    /** The mount effect: support is recorded only when the browser reports it. */
    method Mount(browserSupports: bool)
      requires Valid()
      modifies this
      ensures Valid()
      ensures hasSTTSupport == (old(hasSTTSupport) || browserSupports)
      ensures userText == old(userText) && transcript == old(transcript)
      ensures finalTranscript == old(finalTranscript)
      ensures requests == old(requests) && resets == old(resets)
    {
      if browserSupports {
        hasSTTSupport := true;
      }
    }

    /** The hook reports new transcripts; when `finalTranscript` changed, the
        effect runs: a non-empty final transcript is appended as a line and
        both transcripts are reset (the effect run that reset triggers finds
        an empty final transcript and does nothing). */
    method Hear(t: string, ft: string)
      requires Valid()
      modifies this
      ensures Valid()
      ensures ft == old(finalTranscript) ==>
        userText == old(userText) && transcript == t && finalTranscript == ft && resets == old(resets)
      ensures ft != old(finalTranscript) ==> userText == Absorb(old(userText), ft)
      ensures ft != old(finalTranscript) && ft != "" ==>
        transcript == "" && finalTranscript == "" && resets == old(resets) + 1
      ensures ft != old(finalTranscript) && ft == "" ==>
        transcript == t && finalTranscript == "" && resets == old(resets)
      ensures since == old(since)
      ensures absorbed == old(absorbed) + (if ft != old(finalTranscript) && ft != "" then [ft] else [])
      ensures hasSTTSupport == old(hasSTTSupport) && requests == old(requests)
    {
      var changed := ft != finalTranscript;
      transcript, finalTranscript := t, ft;
      if changed && finalTranscript != "" {
        userText := userText + finalTranscript + "\n";
        absorbed := absorbed + [finalTranscript];
        assert absorbed[..|absorbed| - 1] == old(absorbed);
        transcript, finalTranscript := "", "";
        resets := resets + 1;
      }
    }

    /** `handleStartListening`: without support nothing happens; otherwise the
        library is asked to listen continuously in Korean with interim
        results (an exception it throws is swallowed). */
    method StartListening()
      requires Valid()
      modifies this
      ensures Valid()
      ensures requests == old(requests) + (if hasSTTSupport then [Start("ko-KR", true, true)] else [])
      ensures hasSTTSupport == old(hasSTTSupport) && userText == old(userText)
      ensures transcript == old(transcript) && finalTranscript == old(finalTranscript)
      ensures resets == old(resets)
    {
      if !hasSTTSupport {
        return;
      }
      requests := requests + [Start("ko-KR", true, true)];
    }

    /** `handleStopListening`: the library is always asked to stop. */
    method StopListening()
      requires Valid()
      modifies this
      ensures Valid() && requests == old(requests) + [Stop]
      ensures hasSTTSupport == old(hasSTTSupport) && userText == old(userText)
      ensures transcript == old(transcript) && finalTranscript == old(finalTranscript)
      ensures resets == old(resets)
    {
      requests := requests + [Stop];
    }

    /** The text area's `onChange`. */
    method Edit(text: string)
      requires Valid()
      modifies this
      ensures Valid() && userText == text && since == text && absorbed == []
      ensures hasSTTSupport == old(hasSTTSupport) && requests == old(requests)
      ensures transcript == old(transcript) && finalTranscript == old(finalTranscript)
      ensures resets == old(resets)
    {
      userText := text;
      since := text;
      absorbed := [];
    }
  }
}

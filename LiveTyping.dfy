/** The live-typing entry point, `aqua_voice.py`: interim transcripts are
    typed as previews and replaced in place, final transcripts are typed for
    good, and the session controller starts, stops and cancels a session. */
module LiveTyping {
  import opened Text
  import opened Session
  import opened Gesture

  /** The reconciler's fields: `final_text`, `last_interim`, `all_typed`. */
  datatype Reconciler = Reconciler(finalText: seq<string>, lastInterim: string, allTyped: string)

  /** The state `start_recording` resets to. */
  const Fresh: Reconciler := Reconciler([], "", "")

  /** What the session has typed is its confirmed segments, each with its
      space, followed by at most one interim preview. */
  predicate Consistent(r: Reconciler) {
    r.allTyped == Committed(r.finalText) + r.lastInterim
  }

  /** The pending interim is always the tail of what was typed, so
      retracting it deletes exactly the preview and nothing before it. */
  lemma InterimIsSuffix(r: Reconciler)
    requires Consistent(r)
    ensures |r.lastInterim| <= |r.allTyped|
    ensures r.allTyped[|r.allTyped| - |r.lastInterim|..] == r.lastInterim
    ensures r.allTyped[..|r.allTyped| - |r.lastInterim|] == Committed(r.finalText)
  {
    var c := Committed(r.finalText);
    assert r.allTyped[|c|..] == r.lastInterim;
    assert r.allTyped[..|c|] == c;
  }

  /** Python's `s[:-n]` for `n > 0`: a prefix of `s`, `n` characters
      shorter, or empty when `s` has fewer than `n`. */
  function DropLast(s: string, n: nat): (r: string)
    requires n > 0
    ensures r <= s && |r| == (if n <= |s| then |s| - n else 0)
  {
    if n <= |s| then s[..|s| - n] else []
  }

  /** The text to type and the state after one transcript callback, with
      the keystrokes it issues (the body of `_on_transcript` once the
      recording check has passed). */
  function Step(r: Reconciler, p: Payload): (Reconciler, seq<Action>) {
    if p.Malformed? || p.text == [] then (r, [])
    else
      var n := |r.lastInterim|;
      var kept := if n > 0 then DropLast(r.allTyped, n) else r.allTyped;
      if p.isFinal then
        (Reconciler(r.finalText + [p.text], "", kept + (p.text + " ")), Backspaces(n) + [Type(p.text + " ")])
      else
        (Reconciler(r.finalText, p.text, kept + p.text), Backspaces(n) + [Type(p.text)])
  }

  /** A payload without text changes nothing and types nothing. */
  lemma StepIgnoresEmpty(r: Reconciler, p: Payload)
    requires p.Malformed? || p.text == []
    ensures Step(r, p) == (r, [])
  {
  }

  /** A payload with text first retracts the pending interim with exactly
      one backspace per character, then types the new text: a final one
      with a trailing space, which it confirms and clears the interim, an
      interim one without, which becomes the pending interim. */
  lemma StepEdits(r: Reconciler, p: Payload)
    requires p.Transcript? && p.text != []
    ensures Step(r, p).1 == Backspaces(|r.lastInterim|) + [Type(if p.isFinal then p.text + " " else p.text)]
    ensures p.isFinal ==> Step(r, p).0.finalText == r.finalText + [p.text] && Step(r, p).0.lastInterim == []
    ensures !p.isFinal ==> Step(r, p).0.finalText == r.finalText && Step(r, p).0.lastInterim == p.text
  {
  }

  /** One callback keeps the session's text in shape, and what it records
      as typed is exactly what its keystrokes leave on screen, without ever
      deleting text the session did not type. */
  lemma StepConsistent(r: Reconciler, p: Payload)
    requires Consistent(r)
    ensures Consistent(Step(r, p).0)
    ensures Apply(r.allTyped, Step(r, p).1) == Step(r, p).0.allTyped
    ensures Contained(r.allTyped, Step(r, p).1)
  {
    if p.Transcript? && p.text != [] {
      var n := |r.lastInterim|;
      var typed := if p.isFinal then p.text + " " else p.text;
      var kept := Committed(r.finalText);
      Retract(r);
      ApplyConcat(r.allTyped, Backspaces(n), [Type(typed)]);
      ApplyType(kept, typed);
      var next := Step(r, p).0;
      assert next.allTyped == kept + typed;
      if p.isFinal {
        CommittedSnoc(r.finalText, p.text);
      }
    }
  }

  /** Retracting the pending interim leaves exactly the committed text. */
  lemma Retract(r: Reconciler)
    requires Consistent(r)
    ensures Apply(r.allTyped, Backspaces(|r.lastInterim|)) == Committed(r.finalText)
    ensures Contained(r.allTyped, Backspaces(|r.lastInterim|))
    ensures (if |r.lastInterim| > 0 then DropLast(r.allTyped, |r.lastInterim|) else r.allTyped) == Committed(r.finalText)
  {
    var n := |r.lastInterim|;
    ApplyBackspaces(r.allTyped, n);
    assert r.allTyped[..|r.allTyped| - n] == Committed(r.finalText);
  }

  /** One callback at the end of a session's log keeps the screen equal to
      `all_typed`. */
  lemma SessionStep(session: seq<Action>, r: Reconciler, p: Payload)
    requires Consistent(r) && Apply("", session) == r.allTyped && Contained("", session)
    ensures Consistent(Step(r, p).0)
    ensures Apply("", session + Step(r, p).1) == Step(r, p).0.allTyped
    ensures Contained("", session + Step(r, p).1)
  {
    StepConsistent(r, p);
    ApplyConcat("", session, Step(r, p).1);
  }

  /** A series of callbacks from a given state, with every keystroke issued. */
  function Run(r: Reconciler, ps: seq<Payload>): (Reconciler, seq<Action>)
    decreases |ps|
  {
    if ps == [] then (r, [])
    else
      var first := Step(r, ps[0]);
      var rest := Run(first.0, ps[1..]);
      (rest.0, first.1 + rest.1)
  }

  /** Across any series of callbacks, `all_typed` is the replay of every
      type and backspace issued, at most one interim is outstanding, and no
      backspace reaches text the session did not type. */
  lemma {:induction false} RunConsistent(r: Reconciler, ps: seq<Payload>)
    requires Consistent(r)
    ensures Consistent(Run(r, ps).0)
    ensures Apply(r.allTyped, Run(r, ps).1) == Run(r, ps).0.allTyped
    ensures Contained(r.allTyped, Run(r, ps).1)
    decreases |ps|
  {
    if ps != [] {
      var first := Step(r, ps[0]);
      StepConsistent(r, ps[0]);
      RunConsistent(first.0, ps[1..]);
      ApplyConcat(r.allTyped, first.1, Run(first.0, ps[1..]).1);
    }
  }

  /** From a fresh session, the screen holds exactly `all_typed`. */
  lemma FreshRunOnScreen(ps: seq<Payload>)
    ensures Apply("", Run(Fresh, ps).1) == Run(Fresh, ps).0.allTyped
    ensures Contained("", Run(Fresh, ps).1)
  {
    RunConsistent(Fresh, ps);
  }

  /** Interim "how", interim "how are", final "how are you": type "how",
      delete 3, type "how are", delete 7, type "how are you ". */
  lemma HowAreYou()
    ensures Run(Fresh, [Transcript("how", false), Transcript("how are", false), Transcript("how are you", true)])
         == (Reconciler(["how are you"], "", "how are you "),
             [Type("how")] + Backspaces(3) + [Type("how are")] + Backspaces(7) + [Type("how are you ")])
  {
    var p1, p2, p3 := Transcript("how", false), Transcript("how are", false), Transcript("how are you", true);
    var ps := [p1, p2, p3];
    var r1 := Reconciler([], "how", "how");
    var r2 := Reconciler([], "how are", "how are");
    var r3 := Reconciler(["how are you"], "", "how are you ");
    var e1, e2, e3 := [Type("how")], Backspaces(3) + [Type("how are")], Backspaces(7) + [Type("how are you ")];
    assert Fresh.allTyped + "how" == "how";
    assert Step(Fresh, p1).1 == Backspaces(0) + [Type("how")] == e1;
    assert Step(Fresh, p1) == (r1, e1);
    assert DropLast("how", 3) + "how are" == "how are";
    assert Step(r1, p2) == (r2, e2);
    assert DropLast("how are", 7) + ("how are you" + " ") == "how are you ";
    assert r2.finalText + ["how are you"] == ["how are you"];
    assert "how are you" + " " == "how are you ";
    assert Step(r2, p3) == (r3, e3);
    assert ps[1..] == [p2, p3] && ps[1..][1..] == [p3] && ps[1..][1..][1..] == [];
    assert Run(r2, [p3]) == (r3, e3 + []);
    assert Run(r1, [p2, p3]) == (r3, e2 + (e3 + []));
    assert Run(Fresh, ps) == (r3, e1 + (e2 + (e3 + [])));
    assert e1 + (e2 + (e3 + [])) == [Type("how")] + Backspaces(3) + [Type("how are")] + Backspaces(7) + [Type("how are you ")];
  }

  /** The keys the keyboard listener reacts to on release. */
  datatype Key = RightOption | Escape | OtherKey

  /** The live-typing app: session flag, reconciler fields, tap detection,
      the connection and audio handles, and the log of keystrokes and
      clipboard writes it has issued. */
  class AquaVoice {
    var recording: bool
    var finalText: seq<string>
    var lastInterim: string
    var allTyped: string
    var lastOptionTap: int
    var optionTapCount: int
    /** A transcription connection has been started and not finished. */
    var connectionOpen: bool
    /** The audio device and its input stream are held. */
    var streamOpen: bool
    var log: seq<Action>
    /** Where the current session's actions begin in `log`. */
    ghost var sessionStart: nat

    function State(): Reconciler
      reads this
    {
      Reconciler(finalText, lastInterim, allTyped)
    }

    /** While recording, `all_typed` is exactly what the session's
        keystrokes left on screen, and they never deleted anything else. */
    ghost predicate Valid()
      reads this
    {
      sessionStart <= |log| && optionTapCount >= 0 && Consistent(State()) && streamOpen == recording &&
      (recording ==> Apply("", log[sessionStart..]) == allTyped && Contained("", log[sessionStart..]))
    }

    /** The session fields are as they were. */
    twostate predicate SessionUnchanged()
      reads this
    {
      recording == old(recording) && State() == old(State()) && connectionOpen == old(connectionOpen) &&
      streamOpen == old(streamOpen) && log == old(log) && sessionStart == old(sessionStart)
    }

    /** `start_recording`'s effect when idle: the reconciler is reset and a
        new session begins in the log; recording stays on only if both the
        connection and the audio device opened. A connection that started
        before the audio device failed is left open. */
    twostate predicate Started(connectOk: bool, audioOk: bool)
      reads this
    {
      State() == Fresh && log == old(log) && sessionStart == |log| &&
      recording == (connectOk && audioOk) && connectionOpen == connectOk && streamOpen == (connectOk && audioOk)
    }

    /** `stop_recording`'s effect when recording: handles released, the
        typed text left in place, and the joined final segments copied when
        they are not blank. */
    twostate predicate Stopped()
      reads this
    {
      !recording && !connectionOpen && !streamOpen && State() == old(State()) &&
      sessionStart == old(sessionStart) && sessionStart <= |log| &&
      log == old(log) + StopCopy(finalText) &&
      Apply("", log[sessionStart..]) == allTyped && Contained("", log[sessionStart..])
    }

    /** `cancel_recording`'s effect when recording: handles released, the
        typed text copied and then erased with one backspace per character. */
    twostate predicate Cancelled()
      reads this
    {
      !recording && !connectionOpen && !streamOpen && State() == old(State()) &&
      sessionStart == old(sessionStart) && sessionStart <= |log| &&
      log == old(log) + (if allTyped != [] then [Copy(allTyped)] + Backspaces(|allTyped|) else []) &&
      Apply("", log[sessionStart..]) == [] && Contained("", log[sessionStart..])
    }

    /** A tap at `now`: does what `TapPolicy` says and remembers the time. */
    twostate predicate Tapped(now: int, connectOk: bool, audioOk: bool)
      reads this
    {
      var o := TapPolicy(old(recording), now, old(lastOptionTap), old(optionTapCount));
      lastOptionTap == now && optionTapCount == o.count &&
      (o.command == StopSession ==> Stopped()) &&
      (o.command == StartSession ==> Started(connectOk, audioOk)) &&
      (o.command == NoCommand ==> SessionUnchanged())
    }

    constructor ()
      ensures Valid() && !recording && State() == Fresh && log == []
      ensures lastOptionTap == 0 && optionTapCount == 0 && !connectionOpen && !streamOpen
    {
      recording := false;
      finalText, lastInterim, allTyped := [], "", "";
      lastOptionTap, optionTapCount := 0, 0;
      connectionOpen, streamOpen := false, false;
      log := [];
      sessionStart := 0;
    }

    /** `start_recording`: a no-op while recording. */
    method StartRecording(connectOk: bool, audioOk: bool)
      requires Valid()
      modifies this
      ensures Valid()
      ensures old(recording) ==> unchanged(this)
      ensures !old(recording) ==> Started(connectOk, audioOk)
      ensures lastOptionTap == old(lastOptionTap) && optionTapCount == old(optionTapCount)
    {
      if recording {
        return;
      }
      recording := true;
      finalText, lastInterim, allTyped := [], "", "";
      sessionStart := |log|;
      if !connectOk {
        connectionOpen := false;
        recording := false;
        return;
      }
      connectionOpen := true;
      if !audioOk {
        recording := false;
        return;
      }
      streamOpen := true;
      assert log[sessionStart..] == [];
    }

    /** `stop_recording`: a no-op when not recording. */
    method StopRecording()
      requires Valid()
      modifies this
      ensures Valid()
      ensures !old(recording) ==> SessionUnchanged()
      ensures old(recording) ==> Stopped()
      ensures lastOptionTap == old(lastOptionTap) && optionTapCount == old(optionTapCount)
    {
      if !recording {
        return;
      }
      recording := false;
      connectionOpen := false;
      streamOpen := false;
      var final := ClipboardText(finalText);
      if final != [] {
        SuffixAppend(log, [Copy(final)], sessionStart);
        ApplyCopy("", log[sessionStart..], final);
        log := log + [Copy(final)];
      }
    }

    /** `cancel_recording`: a no-op when not recording. */
    method CancelRecording()
      requires Valid()
      modifies this
      ensures Valid()
      ensures !old(recording) ==> SessionUnchanged()
      ensures old(recording) ==> Cancelled()
      ensures lastOptionTap == old(lastOptionTap) && optionTapCount == old(optionTapCount)
    {
      if !recording {
        return;
      }
      recording := false;
      connectionOpen := false;
      streamOpen := false;
      if allTyped != [] {
        var presses := PressBackspace(|allTyped|);
        var edits := [Copy(allTyped)] + presses;
        log := log + edits;
        assert log[sessionStart..] == old(log)[sessionStart..] + edits;
        ApplyConcat("", old(log)[sessionStart..], edits);
        EraseAll(allTyped);
      }
    }

    /** `_on_transcript`: ignored when not recording, otherwise one step of
        the reconciler with its keystrokes appended to the log. */
    method OnTranscript(p: Payload)
      requires Valid()
      modifies this
      ensures Valid()
      ensures !old(recording) ==> State() == old(State()) && log == old(log)
      ensures old(recording) ==> State() == Step(old(State()), p).0 && log == old(log) + Step(old(State()), p).1
      ensures recording == old(recording) && sessionStart == old(sessionStart)
      ensures connectionOpen == old(connectionOpen) && streamOpen == old(streamOpen)
      ensures lastOptionTap == old(lastOptionTap) && optionTapCount == old(optionTapCount)
    {
      if !recording {
        return;
      }
      if p.Malformed? {
        StepIgnoresEmpty(State(), p);
        return;
      }
      var text := p.text;
      if text == [] {
        StepIgnoresEmpty(State(), p);
        return;
      }
      Reconcile(text, p.isFinal);
    }

    /** The part of `_on_transcript` that edits the screen: retract the
        pending interim with one backspace per character, then type the
        new text, a final one with its space. */
    method Reconcile(text: string, isFinal: bool)
      requires Valid() && recording && text != []
      modifies this
      ensures Valid()
      ensures State() == Step(old(State()), Transcript(text, isFinal)).0
      ensures log == old(log) + Step(old(State()), Transcript(text, isFinal)).1
      ensures recording == old(recording) && sessionStart == old(sessionStart)
      ensures connectionOpen == old(connectionOpen) && streamOpen == old(streamOpen)
      ensures lastOptionTap == old(lastOptionTap) && optionTapCount == old(optionTapCount)
    {
      ghost var before := State();
      ghost var out := Step(before, Transcript(text, isFinal));
      SessionStep(log[sessionStart..], before, Transcript(text, isFinal));
      SuffixAppend(log, out.1, sessionStart);
      var edits: seq<Action> := [];
      if lastInterim != [] {
        edits := PressBackspace(|lastInterim|);
        allTyped := DropLast(allTyped, |lastInterim|);
      }
      if isFinal {
        var toType := text + " ";
        edits := edits + [Type(toType)];
        allTyped := allTyped + toType;
        finalText := finalText + [text];
        lastInterim := "";
      } else {
        edits := edits + [Type(text)];
        allTyped := allTyped + text;
        lastInterim := text;
      }
      assert edits == out.1;
      assert State() == out.0;
      log := log + edits;
    }

    /** `_handle_option_tap`: acts as `TapPolicy` says, then remembers the
        tap's time. */
    method HandleOptionTap(now: int, connectOk: bool, audioOk: bool)
      requires Valid()
      modifies this
      ensures Valid()
      ensures Tapped(now, connectOk, audioOk)
    {
      if recording {
        StopRecording();
        optionTapCount := 0;
      } else {
        if now - lastOptionTap < DoubleTapThresholdMs {
          optionTapCount := optionTapCount + 1;
          if optionTapCount >= 1 {
            StartRecording(connectOk, audioOk);
            optionTapCount := 0;
          }
        } else {
          optionTapCount := 0;
        }
      }
      lastOptionTap := now;
    }

    /** The listener's `on_release`: Right Option is a tap, Escape cancels
        while recording, any other key does nothing. */
    method OnKeyRelease(key: Key, now: int, connectOk: bool, audioOk: bool)
      requires Valid()
      modifies this
      ensures Valid()
      ensures key == RightOption ==> Tapped(now, connectOk, audioOk)
      ensures key == Escape && old(recording) ==> Cancelled()
      ensures key == Escape && !old(recording) ==> SessionUnchanged()
      ensures key == OtherKey ==> SessionUnchanged()
      ensures key != RightOption ==> lastOptionTap == old(lastOptionTap) && optionTapCount == old(optionTapCount)
    {
      if key == RightOption {
        HandleOptionTap(now, connectOk, audioOk);
      } else if key == Escape {
        if recording {
          CancelRecording();
        }
      }
    }
  }
}

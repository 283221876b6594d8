/** The menu-bar entry point, `aqua_voice_app.py`: the `.env` loader, and
    the batch-mode app where final transcripts pass through a FIFO queue to
    a single consumer that types them, with the Option press/release edge
    detector and the Enter/Escape keys. */
module MenuBarApp {
  import opened Text
  import opened Session
  import opened Gesture

  datatype Option<T> = None | Some(value: T)

  /** `NSEventTypeFlagsChanged`. */
  const FlagsChangedEvent: int := 12
  /** `kCGEventKeyDown`. */
  const KeyDownEvent: int := 10
  const RightOptionKeycode: int := 61
  const EnterKeycode: int := 36
  const EscapeKeycode: int := 53

  // ---------------------------------------------------------------------
  // `.env` loading

  /** One line of a `.env` file: stripped, then ignored when blank, a `#`
      comment or without `=`; otherwise split at the first `=` into a
      stripped key and a stripped value. */
  function ParseEnvLine(line: string): (r: Option<(string, string)>)
    ensures r.None? <==> Strip(line) == [] || Strip(line)[0] == '#' || '=' !in Strip(line)
  {
    var l := Strip(line);
    if l == [] || l[0] == '#' || '=' !in l then None
    else
      var i := FirstIndex(l, '=');
      Some((Strip(l[..i]), Strip(l[i + 1..])))
  }

  /** A parsed key never contains `=` (the split is at the first one), and
      neither key nor value has outer whitespace. */
  lemma ParsedEntry(line: string)
    requires ParseEnvLine(line).Some?
    ensures '=' !in ParseEnvLine(line).value.0
    ensures IsStripped(ParseEnvLine(line).value.0) && IsStripped(ParseEnvLine(line).value.1)
  {
    var l := Strip(line);
    var i := FirstIndex(l, '=');
    var key := Strip(l[..i]);
    forall k | 0 <= k < |key| ensures key[k] != '=' {
      StripInfix(l[..i], k);
    }
  }

  /** The environment after a `.env` file's lines, in order. */
  function EnvFold(env: map<string, string>, lines: seq<string>): map<string, string>
    decreases |lines|
  {
    if lines == [] then env
    else
      var before := EnvFold(env, lines[..|lines| - 1]);
      match ParseEnvLine(lines[|lines| - 1])
      case None => before
      case Some(kv) => before[kv.0 := kv.1]
  }

  /** The environment after one more line of the file. */
  lemma EnvFoldStep(env: map<string, string>, lines: seq<string>, i: nat)
    requires i < |lines|
    ensures EnvFold(env, lines[..i + 1]) ==
              match ParseEnvLine(lines[i])
              case None => EnvFold(env, lines[..i])
              case Some(kv) => EnvFold(env, lines[..i])[kv.0 := kv.1]
  {
    assert lines[..i + 1][..i] == lines[..i];
  }

  /** The value of the last line that assigns `key`, if any. */
  function LastAssignment(lines: seq<string>, key: string): Option<string>
    decreases |lines|
  {
    if lines == [] then None
    else
      var p := ParseEnvLine(lines[|lines| - 1]);
      if p.Some? && p.value.0 == key then Some(p.value.1)
      else LastAssignment(lines[..|lines| - 1], key)
  }

  /** Later lines overwrite earlier ones: each key holds the value of the
      last line that assigns it, and keys no line assigns keep their old
      value or stay absent. */
  lemma {:induction false} EnvLookup(env: map<string, string>, lines: seq<string>, key: string)
    ensures LastAssignment(lines, key).Some? ==>
              key in EnvFold(env, lines) && EnvFold(env, lines)[key] == LastAssignment(lines, key).value
    ensures LastAssignment(lines, key).None? ==>
              (key in EnvFold(env, lines) <==> key in env) &&
              (key in env ==> EnvFold(env, lines)[key] == env[key])
    decreases |lines|
  {
    if lines != [] {
      EnvLookup(env, lines[..|lines| - 1], key);
    }
  }

  /** A well-formed entry parses back to itself: a key without `=` and
      without outer whitespace that does not start with `#`, and a value
      without outer whitespace, which may itself contain `=`. */
  lemma ParseFormatted(key: string, value: string)
    requires '=' !in key && IsStripped(key) && IsStripped(value)
    requires key == [] || key[0] != '#'
    ensures ParseEnvLine(key + "=" + value) == Some((key, value))
  {
    var line := key + "=" + value;
    FormattedLine(key, value);
    StripStripped(line);
    SplitAround(key, value, '=');
    assert ParseEnvLine(line) == Some((Strip(key), Strip(value)));
    StripStripped(key);
    StripStripped(value);
  }

  /** The line `key=value` of a well-formed entry: already stripped, not a
      comment, and its first `=` is the one after the key. */
  lemma FormattedLine(key: string, value: string)
    requires '=' !in key && IsStripped(key) && IsStripped(value)
    requires key == [] || key[0] != '#'
    ensures IsStripped(key + "=" + value) && (key + "=" + value)[0] != '#'
    ensures '=' in key + "=" + value && FirstIndex(key + "=" + value, '=') == |key|
  {
    var line := key + "=" + value;
    assert line[|key|] == '=';
    assert line[0] == if key == [] then '=' else key[0];
    assert line[|line| - 1] == if value == [] then '=' else value[|value| - 1];
  }

  /** `load_env`: when a `.env` file was found, each of its lines in turn
      goes into the environment; reports whether a file was found. */
  method LoadEnv(file: Option<seq<string>>, env: map<string, string>) returns (found: bool, result: map<string, string>)
    ensures found <==> file.Some?
    ensures result == if file.Some? then EnvFold(env, file.value) else env
  {
    result := env;
    if file.None? {
      return false, result;
    }
    var lines := file.value;
    var i := 0;
    while i < |lines|
      invariant 0 <= i <= |lines|
      invariant result == EnvFold(env, lines[..i])
    {
      EnvFoldStep(env, lines, i);
      var entry := ParseEnvLine(lines[i]);
      if entry.Some? {
        result := result[entry.value.0 := entry.value.1];
      }
      i := i + 1;
    }
    assert lines[..|lines|] == lines;
    return true, result;
  }

  // ---------------------------------------------------------------------
  // The batch-mode app

  /** The menu-bar app: session flag, confirmed segments and typed text,
      the transcript queue and its consumer's run flag, tap detection, the
      connection and audio handles, and the log of keystrokes and clipboard
      writes it has issued. */
  class AquaVoiceApp {
    var recording: bool
    var finalText: seq<string>
    var allTyped: string
    var queue: seq<string>
    var queueRunning: bool
    var lastOptionTap: int
    var optionTapCount: int
    var rightOptionPressed: bool
    /** A transcription connection has been started and not finished. */
    var connectionOpen: bool
    /** The audio device and its input stream are held. */
    var streamOpen: bool
    var log: seq<Action>
    /** Where the current session's actions begin in `log`. */
    ghost var sessionStart: nat

    /** What holds at every step, also inside stop: the typed text is the
        confirmed segments, each with its space. */
    ghost predicate Sound()
      reads this
    {
      sessionStart <= |log| && optionTapCount >= 0 && allTyped == Committed(finalText) && streamOpen == recording
    }

    /** The session's keystrokes leave exactly `all_typed` on screen and
        never delete anything else. */
    ghost predicate OnScreen()
      reads this
      requires sessionStart <= |log|
    {
      Apply("", log[sessionStart..]) == allTyped && Contained("", log[sessionStart..])
    }

    /** Between callbacks: nothing is queued outside a session, and while
        recording the screen holds exactly `all_typed`. */
    ghost predicate Valid()
      reads this
    {
      Sound() && (!recording ==> queue == []) && (recording ==> OnScreen())
    }

    /** The session fields are as they were. */
    twostate predicate SessionUnchanged()
      reads this
    {
      recording == old(recording) && finalText == old(finalText) && allTyped == old(allTyped) &&
      queue == old(queue) && queueRunning == old(queueRunning) && connectionOpen == old(connectionOpen) &&
      streamOpen == old(streamOpen) && log == old(log) && sessionStart == old(sessionStart)
    }

    /** `start_recording`'s effect when idle: text reset, queue emptied and
        its consumer running, a new session begun in the log; recording
        stays on only if both the connection and the audio device opened.
        A failed start leaves the consumer's run flag set, and a connection
        that started before the audio device failed is left open. */
    twostate predicate Started(connectOk: bool, audioOk: bool)
      reads this
    {
      finalText == [] && allTyped == [] && queue == [] && queueRunning &&
      log == old(log) && sessionStart == |log| &&
      recording == (connectOk && audioOk) && connectionOpen == connectOk && streamOpen == (connectOk && audioOk)
    }

    /** `stop_recording`'s effect when recording: handles released, the
        consumer stopped after typing every queued segment, the typed text
        left in place, and the joined final segments copied when they are
        not blank. */
    twostate predicate Stopped()
      reads this
    {
      !recording && !connectionOpen && !streamOpen && !queueRunning && queue == [] &&
      finalText == old(finalText) + old(queue) && allTyped == old(allTyped) + Committed(old(queue)) &&
      sessionStart == old(sessionStart) && sessionStart <= |log| &&
      log == old(log) + TypeAll(old(queue)) +
             StopCopy(finalText) &&
      OnScreen()
    }

    /** `cancel_recording`'s effect when recording: queue dropped, handles
        released, and the typed text erased with one backspace per
        character, without copying it anywhere. */
    twostate predicate Cancelled()
      reads this
    {
      !recording && !connectionOpen && !streamOpen && !queueRunning && queue == [] &&
      finalText == old(finalText) && allTyped == old(allTyped) &&
      sessionStart == old(sessionStart) && sessionStart <= |log| &&
      log == old(log) + Backspaces(|allTyped|) &&
      Apply("", log[sessionStart..]) == [] && Contained("", log[sessionStart..])
    }

    /** A tap at `now`: does what `TapPolicy` says and remembers the time. */
    twostate predicate Tapped(now: int, connectOk: bool, audioOk: bool)
      reads this
    {
      var o := TapPolicy(old(recording), now, old(lastOptionTap), old(optionTapCount));
      lastOptionTap == now && optionTapCount == o.count &&
      (o.command == StopSession ==> Stopped()) &&
      (o.command == StartSession ==> Started(connectOk, audioOk)) &&
      (o.command == NoCommand ==> SessionUnchanged())
    }

    constructor ()
      ensures Valid() && !recording && finalText == [] && allTyped == [] && queue == [] && log == []
      ensures !queueRunning && lastOptionTap == 0 && optionTapCount == 0 && !rightOptionPressed
      ensures !connectionOpen && !streamOpen
    {
      recording := false;
      finalText, allTyped := [], "";
      queue, queueRunning := [], false;
      lastOptionTap, optionTapCount, rightOptionPressed := 0, 0, false;
      connectionOpen, streamOpen := false, false;
      log := [];
      sessionStart := 0;
    }

    /** `_on_transcript`: while recording, a non-empty transcript is queued
        as it is, final or not; nothing else changes. */
    method OnTranscript(p: Payload)
      requires Valid()
      modifies this
      ensures Valid()
      ensures queue == if old(recording) && p.Transcript? && p.text != [] then old(queue) + [p.text] else old(queue)
      ensures recording == old(recording) && finalText == old(finalText) && allTyped == old(allTyped)
      ensures queueRunning == old(queueRunning) && log == old(log) && sessionStart == old(sessionStart)
      ensures connectionOpen == old(connectionOpen) && streamOpen == old(streamOpen)
      ensures lastOptionTap == old(lastOptionTap) && optionTapCount == old(optionTapCount)
      ensures rightOptionPressed == old(rightOptionPressed)
    {
      if !recording {
        return;
      }
      if p.Malformed? {
        return;
      }
      var text := p.text;
      if text == [] {
        return;
      }
      queue := queue + [text];
    }

    /** One turn of `_process_transcript_queue`'s loop once `get` has
        returned the oldest queued segment: type it with a trailing space
        and confirm it. */
    method ProcessNext()
      requires Sound() && queue != []
      modifies this`queue, this`finalText, this`allTyped, this`log
      ensures Sound()
      ensures old(OnScreen()) ==> OnScreen()
      ensures queue == old(queue)[1..] && finalText == old(finalText) + [old(queue)[0]]
      ensures allTyped == old(allTyped) + (old(queue)[0] + " ") && log == old(log) + [Type(old(queue)[0] + " ")]
    {
      var text := queue[0];
      queue := queue[1..];
      var toType := text + " ";
      SuffixAppend(log, [Type(toType)], sessionStart);
      SessionType(log[sessionStart..], toType);
      log := log + [Type(toType)];
      allTyped := allTyped + toType;
      CommittedSnoc(finalText, text);
      finalText := finalText + [text];
    }

    /** The consumer until the queue is empty: every queued segment is typed
        and confirmed, oldest first. */
    method DrainQueue()
      requires Sound() && OnScreen()
      modifies this`queue, this`finalText, this`allTyped, this`log
      ensures Sound() && OnScreen()
      ensures queue == [] && finalText == old(finalText) + old(queue)
      ensures allTyped == old(allTyped) + Committed(old(queue)) && log == old(log) + TypeAll(old(queue))
    {
      ghost var done: seq<string> := [];
      while queue != []
        invariant Sound() && sessionStart <= |log|
        invariant done + queue == old(queue)
        invariant finalText == old(finalText) + done
        invariant log == old(log) + TypeAll(done)
        decreases |queue|
      {
        ghost var segment := queue[0];
        ghost var rest := queue[1..];
        assert done + [segment] + rest == old(queue);
        ProcessNext();
        TypeAllSnoc(done, segment);
        done := done + [segment];
      }
      assert done == old(queue);
      CommittedConcat(old(finalText), done);
      SuffixAppend(old(log), TypeAll(done), sessionStart);
      SessionTypeAll(old(log)[sessionStart..], done);
    }

    /** `start_recording`: a no-op while recording. */
    method StartRecording(connectOk: bool, audioOk: bool)
      requires Valid()
      modifies this
      ensures Valid()
      ensures old(recording) ==> unchanged(this)
      ensures !old(recording) ==> Started(connectOk, audioOk)
      ensures lastOptionTap == old(lastOptionTap) && optionTapCount == old(optionTapCount)
      ensures rightOptionPressed == old(rightOptionPressed)
    {
      if recording {
        return;
      }
      recording := true;
      finalText, allTyped := [], "";
      queue := [];
      queueRunning := true;
      sessionStart := |log|;
      if !connectOk {
        connectionOpen := false;
        recording := false;
        return;
      }
      connectionOpen := true;
      if !audioOk {
        recording := false;
        return;
      }
      streamOpen := true;
      assert log[sessionStart..] == [];
    }

    /** `stop_recording`: a no-op when not recording. */
    method StopRecording()
      requires Valid()
      modifies this`recording, this`connectionOpen, this`streamOpen, this`queueRunning
      modifies this`queue, this`finalText, this`allTyped, this`log
      ensures Valid()
      ensures !old(recording) ==> SessionUnchanged()
      ensures old(recording) ==> Stopped()
    {
      if !recording {
        return;
      }
      recording := false;
      connectionOpen := false;
      streamOpen := false;
      queueRunning := false;
      assert Sound() && OnScreen();
      DrainQueue();
      CopyFinalText();
    }

    /** The end of `stop_recording`: the joined final segments, stripped,
        go to the clipboard unless they are blank. */
    method CopyFinalText()
      requires sessionStart <= |log| && OnScreen()
      modifies this`log
      ensures sessionStart <= |log| && OnScreen()
      ensures log == old(log) + StopCopy(finalText)
    {
      var final := ClipboardText(finalText);
      if final != [] {
        SuffixAppend(log, [Copy(final)], sessionStart);
        ApplyCopy("", log[sessionStart..], final);
        log := log + [Copy(final)];
      } else {
        assert StopCopy(finalText) == [];
      }
    }

    /** `cancel_recording`: a no-op when not recording. */
    method CancelRecording()
      requires Valid()
      modifies this
      ensures Valid()
      ensures !old(recording) ==> SessionUnchanged()
      ensures old(recording) ==> Cancelled()
      ensures lastOptionTap == old(lastOptionTap) && optionTapCount == old(optionTapCount)
      ensures rightOptionPressed == old(rightOptionPressed)
    {
      if !recording {
        return;
      }
      recording := false;
      queueRunning := false;
      queue := [];
      connectionOpen := false;
      streamOpen := false;
      if allTyped != [] {
        var presses := PressBackspace(|allTyped|);
        SuffixAppend(log, presses, sessionStart);
        ApplyConcat("", log[sessionStart..], presses);
        EraseAllNoCopy(allTyped);
        log := log + presses;
      } else {
        assert log + Backspaces(0) == log;
      }
    }

    /** `_handle_option_tap`. */
    method HandleOptionTap(now: int, connectOk: bool, audioOk: bool)
      requires Valid()
      modifies this
      ensures Valid()
      ensures Tapped(now, connectOk, audioOk)
      ensures rightOptionPressed == old(rightOptionPressed)
    {
      if recording {
        StopRecording();
        optionTapCount := 0;
      } else {
        if now - lastOptionTap < DoubleTapThresholdMs {
          optionTapCount := optionTapCount + 1;
          if optionTapCount >= 1 {
            StartRecording(connectOk, audioOk);
            optionTapCount := 0;
          }
        } else {
          optionTapCount := 0;
        }
      }
      lastOptionTap := now;
    }

    /** `handle_modifier_event`: only a flags-changed event for Right Option
        matters; the press edge is remembered and the release edge after a
        press is a tap. */
    method HandleModifierEvent(eventType: int, keycode: int, flags: bv64, now: int, connectOk: bool, audioOk: bool)
      requires Valid()
      modifies this
      ensures Valid()
      ensures eventType != FlagsChangedEvent || keycode != RightOptionKeycode ==> unchanged(this)
      ensures eventType == FlagsChangedEvent && keycode == RightOptionKeycode ==>
                var edge := OptionEdge(old(rightOptionPressed), flags & OptionFlag != 0);
                rightOptionPressed == edge.0 &&
                (edge.1 ==> Tapped(now, connectOk, audioOk)) &&
                (!edge.1 ==> SessionUnchanged() && lastOptionTap == old(lastOptionTap) && optionTapCount == old(optionTapCount))
    {
      if eventType != FlagsChangedEvent {
        return;
      }
      if keycode == RightOptionKeycode {
        var optionPressed := flags & OptionFlag != 0;
        if optionPressed && !rightOptionPressed {
          rightOptionPressed := true;
        } else if !optionPressed && rightOptionPressed {
          rightOptionPressed := false;
          HandleOptionTap(now, connectOk, audioOk);
        }
      }
    }

    /** `cg_event_callback`: while recording, Enter stops and Escape
        cancels; any other event, or any key while idle, does nothing. */
    method OnKeyDown(eventType: int, keycode: int)
      requires Valid()
      modifies this
      ensures Valid()
      ensures old(recording) && eventType == KeyDownEvent && keycode == EnterKeycode ==> Stopped()
      ensures old(recording) && eventType == KeyDownEvent && keycode == EscapeKeycode ==> Cancelled()
      ensures !(old(recording) && eventType == KeyDownEvent && (keycode == EnterKeycode || keycode == EscapeKeycode)) ==>
                unchanged(this)
      ensures lastOptionTap == old(lastOptionTap) && optionTapCount == old(optionTapCount)
      ensures rightOptionPressed == old(rightOptionPressed)
    {
      if eventType == KeyDownEvent {
        if recording {
          if keycode == EnterKeycode {
            StopRecording();
          } else if keycode == EscapeKeycode {
            CancelRecording();
          }
        }
      }
    }
  }
}

# Aqua Voice, modelled in Dafny

Aqua Voice is a macOS dictation tool. The user double-taps Right Option to start a
session. Microphone audio streams to a speech-to-text connection. The transcripts
that come back are typed into whatever window has focus by simulated keystrokes.
Another tap, or Enter in the menu-bar app, stops the session and copies the
confirmed text to the clipboard. Escape cancels: it deletes everything the session
typed with one backspace per character.

There are two entry points, and each is modelled here as a class whose methods
update its fields in place:

- `aqua_voice.py`, the live-typing controller (`LiveTyping.AquaVoice`). Interim
  transcripts are typed as previews. Each one is retracted with backspaces when the
  next transcript arrives. Final transcripts are typed for good, each with a
  trailing space.
- `aqua_voice_app.py`, the menu-bar app (`MenuBarApp.AquaVoiceApp`). Final
  transcripts go into a FIFO queue. A single consumer types them in order. This
  module also holds the `.env` loader (`load_env`), the Right Option press/release
  edge detector, and the Enter/Escape key handler.

The outside world is an append-only log of `Action`s: `Type(text)` is `kb.type`,
`Backspace` is one press/release pair, and `Copy(text)` is `pbcopy`. `Apply` replays
a log against the session's own text on screen. `Contained` says that no backspace
was issued while none of the session's text was left. The central invariant of both
classes is that, while recording, replaying the session's part of the log gives
exactly `all_typed`, and no backspace has reached text the session did not type.
Stop and cancel are proved to leave the screen as their sources intend: stop leaves
the text in place, and cancel leaves the session's part of the screen empty.

Modules:

- `Text`: Python's `str.strip()` (with the full `str.isspace` set), `' '.join`, and
  the cut point of `str.split(sep, 1)`.
- `Session`: the action log, its replay, the typed text of confirmed segments, and
  the clipboard text.
- `Gesture`: the tap policy and the Option edge detector. Both entry points share
  them.
- `LiveTyping`: the reconciler as pure functions (`Step`, `Run`) and the
  `AquaVoice` class, which is proved against them.
- `MenuBarApp`: `load_env` and the `AquaVoiceApp` class.

Behaviour of the code worth knowing:

- An empty transcript is dropped before the pending interim is retracted
  (aqua_voice.py:234-238). The interim stays on screen until the next transcript
  that has text.
- A start that fails on the audio device leaves the transcription connection started
  and never finished. In the menu-bar app, any failed start also leaves the
  consumer's run flag set (aqua_voice_app.py:303, 323-327, 342-346).
- The tap counter makes a single tap start recording when it comes within 350 ms of
  the previous tap (`option_tap_count >= 1` right after the increment). A tap that
  stops a session counts as "the previous tap", so a quick second tap restarts
  straight away (`Gesture.CounterStaysZero`, `Gesture.QuickTapAfterStopRestarts`).
- Cancel in `aqua_voice.py` copies the typed text to the clipboard before erasing
  it. Cancel in the menu-bar app does not.

## Model

| member | source | states |
|---|---|---|
| Gesture.TapPolicy | aqua_voice.py:267-285 | a tap stops exactly when recording; it starts exactly when idle and within the threshold of the previous tap; a command resets the counter; an out-of-threshold tap resets it to 0 |
| Gesture.CounterStaysZero | aqua_voice_app.py:250-266 | from 0, the tap counter is 0 after any series of taps, so a second counted tap is never awaited |
| Gesture.QuickTapAfterStopRestarts | aqua_voice.py:267-285 | a tap that stops a session, followed by another tap within 350 ms, starts a new session |
| Gesture.OptionEdge | aqua_voice_app.py:173-179 | the remembered pressed state follows the Option bit, and a tap is reported exactly on a release edge after a press |
| Gesture.TapsNeedPresses | aqua_voice_app.py:173-179 | starting released, there are never more reported taps than samples with the Option bit set |
| Text.Strip | aqua_voice_app.py:57 | `strip()` leaves no whitespace at either end and never lengthens the string |
| Text.StripParts | aqua_voice_app.py:57 | `s` is its all-whitespace leading part, its strip and its all-whitespace trailing part, in that order: `strip()` drops only whitespace, and only at the ends |
| Text.StripBlank | aqua_voice_app.py:57-58 | a line strips to nothing exactly when all of its characters are whitespace |
| Text.StripStripped | aqua_voice_app.py:60 | a string without outer whitespace is its own strip |
| Text.StripInfix | aqua_voice_app.py:60 | every character that `strip()` keeps comes from its argument |
| Text.StripTrailingSpace | aqua_voice.py:151 | trailing whitespace added to a string does not survive `strip()` |
| Text.FirstIndex | aqua_voice_app.py:59 | `split('=', 1)` cuts at an `=` with no `=` before it |
| Session.PressBackspace | aqua_voice.py:239-241 | the backspace loop issues exactly `n` backspace presses |
| Session.ApplyBackspaces | aqua_voice_app.py:438-442 | `n` backspaces remove exactly the last `n` characters and never reach beyond the session's text |
| Session.ApplyTypeAll | aqua_voice_app.py:496-499 | typing confirmed segments in turn appends their committed text and deletes nothing |
| Session.SessionTypeAll | aqua_voice_app.py:488-499 | the same typing at the end of a session's log appends the committed text to what that log leaves on screen |
| Session.CommittedConcat | aqua_voice_app.py:496-499 | the committed text of two batches of segments is the first batch's followed by the second's |
| Session.EraseAll | aqua_voice.py:192-196 | copying the typed text and then pressing backspace once per character leaves none of it on screen, deleting nothing else |
| Session.EraseAllNoCopy | aqua_voice_app.py:438-442 | the backspaces alone erase the typed text and delete nothing else |
| Session.JoinCommitted | aqua_voice.py:151 | the space-joined final segments plus one space are exactly the text typed for them |
| Session.ClipboardIsCommittedText | aqua_voice_app.py:384 | the clipboard text on stop is the typed committed text with outer whitespace removed |
| Session.HelloWorld | aqua_voice.py:151-153 | final segments "hello" and "world" leave "hello world " typed and copy "hello world" |
| LiveTyping.DropLast | aqua_voice.py:244 | `s[:-n]` is a prefix of `s`, `n` characters shorter, or empty when `s` has fewer than `n` characters |
| LiveTyping.InterimIsSuffix | aqua_voice.py:238-244 | the pending interim is the tail of `all_typed`, and what precedes it is the committed text |
| LiveTyping.StepIgnoresEmpty | aqua_voice.py:219-235 | a callback without a result, a channel, an alternative or text changes nothing and types nothing |
| LiveTyping.StepEdits | aqua_voice.py:238-258 | a transcript with text retracts the interim with one backspace per character, then types a final one with its space and confirms it, or an interim one bare and keeps it pending |
| LiveTyping.Retract | aqua_voice.py:238-244 | retracting the interim leaves exactly the committed text, on screen and in `all_typed` |
| LiveTyping.StepConsistent | aqua_voice.py:238-258 | one callback keeps `all_typed` = committed text + interim, its keystrokes turn the old `all_typed` into the new one, and they delete nothing else |
| LiveTyping.SessionStep | aqua_voice.py:238-258 | after a callback at the end of a session's log, the screen still shows exactly `all_typed` |
| LiveTyping.RunConsistent | aqua_voice.py:213-261 | across any series of callbacks the invariant holds, the replay of every keystroke is `all_typed`, and nothing else is deleted |
| LiveTyping.FreshRunOnScreen | aqua_voice.py:78-80 | from the state that start resets to, the session's keystrokes leave exactly `all_typed` on screen |
| LiveTyping.HowAreYou | aqua_voice.py:238-258 | interims "how", "how are" and a final "how are you" type, retract 3, type, retract 7, and type "how are you " |
| LiveTyping.AquaVoice.StartRecording | aqua_voice.py:70-117 | a no-op while recording; otherwise resets the reconciler and begins a new session, with recording left on only if both the connection and the audio device opened |
| LiveTyping.AquaVoice.StopRecording | aqua_voice.py:119-157 | a no-op when idle; otherwise releases the handles, leaves the typed text on screen with no backspace having reached beyond it, and copies the stripped joined final segments unless they are blank |
| LiveTyping.AquaVoice.CancelRecording | aqua_voice.py:159-201 | a no-op when idle; otherwise releases the handles, copies the typed text, and erases it so that the session's part of the screen is empty |
| LiveTyping.AquaVoice.OnTranscript | aqua_voice.py:213-261 | ignored when idle; otherwise performs exactly one reconciler `Step` and appends its keystrokes, keeping the screen equal to `all_typed` |
| LiveTyping.AquaVoice.Reconcile | aqua_voice.py:238-258 | the in-place retract-and-type equals the reconciler `Step` for a transcript with text |
| LiveTyping.AquaVoice.HandleOptionTap | aqua_voice.py:267-285 | does what `TapPolicy` decides (stop, start or only count) and records the tap time |
| LiveTyping.AquaVoice.OnKeyRelease | aqua_voice.py:289-294 | a Right Option release is a tap, Escape cancels while recording, and other keys change nothing |
| MenuBarApp.ParseEnvLine | aqua_voice_app.py:57-60 | a line is skipped exactly when its stripped form is blank, starts with `#` or has no `=` |
| MenuBarApp.ParsedEntry | aqua_voice_app.py:59-60 | a parsed key contains no `=`, and neither key nor value has outer whitespace |
| MenuBarApp.ParseFormatted | aqua_voice_app.py:57-60 | a well-formed `key=value` line parses back to its key and value, even when the value contains `=` |
| MenuBarApp.EnvLookup | aqua_voice_app.py:55-60 | after loading, each key holds the value of the last line assigning it, and other keys keep their prior value or stay absent |
| MenuBarApp.LoadEnv | aqua_voice_app.py:51-62 | reports whether a file was found, and the environment becomes the fold of its lines in order |
| MenuBarApp.AquaVoiceApp.OnTranscript | aqua_voice_app.py:458-484 | while recording, a transcript with text is appended to the queue unchanged; anything else changes nothing |
| MenuBarApp.AquaVoiceApp.ProcessNext | aqua_voice_app.py:492-499 | the oldest queued segment is typed with a trailing space, appended to `final_text` and `all_typed`, and the screen still shows `all_typed` |
| MenuBarApp.AquaVoiceApp.DrainQueue | aqua_voice_app.py:486-501 | the consumer empties the queue oldest first; `final_text`, `all_typed` and the log grow by exactly the queued segments' typing |
| MenuBarApp.AquaVoiceApp.StartRecording | aqua_voice_app.py:285-346 | a no-op while recording; otherwise clears the text and the queue, sets the consumer running and begins a session, recording only if both the connection and the audio device opened |
| MenuBarApp.AquaVoiceApp.StopRecording | aqua_voice_app.py:348-391 | a no-op when idle; otherwise releases the handles, types every queued segment, stops the consumer and copies the stripped joined final segments unless they are blank, with the screen showing `all_typed` |
| MenuBarApp.AquaVoiceApp.CopyFinalText | aqua_voice_app.py:384-390 | appends one clipboard write of the stripped joined segments when they are not blank, and nothing otherwise, leaving the screen unchanged |
| MenuBarApp.AquaVoiceApp.CancelRecording | aqua_voice_app.py:393-445 | a no-op when idle; otherwise drops the queue, stops the consumer, releases the handles and erases the typed text, with no copy, so the session's part of the screen is empty |
| MenuBarApp.AquaVoiceApp.HandleOptionTap | aqua_voice_app.py:250-266 | does what `TapPolicy` decides (stop, start or only count) and records the tap time |
| MenuBarApp.AquaVoiceApp.HandleModifierEvent | aqua_voice_app.py:164-181 | only a flags-changed event for keycode 61 matters; the press edge is remembered, and a release after a press is a tap |
| MenuBarApp.AquaVoiceApp.OnKeyDown | aqua_voice_app.py:200-211 | while recording, key-down Enter stops and Escape cancels; everything else changes nothing |

## Left out

- The speech-to-text SDK and its connection. Whether `connection.start` succeeds is a boolean parameter, `connectOk`. A transcript callback is a `Payload`: `Malformed` covers a missing result, channel or alternative.
- PyAudio and the capture loop (`_capture_audio`). Whether the device and stream open is the parameter `audioOk`. Audio bytes are not modelled. The separate `self.audio` handle is folded into `streamOpen`.
- Threads, the lock and the join timeouts. Each callback is one atomic method call. The menu-bar consumer's concurrent loop is modelled as `ProcessNext` steps, which `StopRecording` runs until the queue is empty.
- `MenuBarApp.AquaVoiceApp.StopRecording`: the two-second join is modelled as a full drain. A consumer that is still typing when the timeout expires is not modelled.
- `MenuBarApp.AquaVoiceApp.CancelRecording`: a segment that the consumer is typing while cancel runs is not modelled. Cancel sees the state before or after that segment.
- `time.time()` is a parameter `now` in integer milliseconds, with the 0.35 s threshold as 350. Sub-millisecond differences are not modelled.
- The `time.sleep` delays between backspaces are left out. They only affect timing.
- `kb.type`, the backspace presses and `pbcopy` are assumed never to fail. A failure would leave `all_typed` trimmed while `last_interim` still holds the old interim (aqua_voice.py:244, 249-258), so the next transcript would retract it a second time. In `aqua_voice.py` a failing `pbcopy` would also escape stop or cancel (aqua_voice.py:151-153, 192-197), and in cancel it would skip the backspace loop after `recording` was already cleared.
- A backspace is modelled as deleting one Unicode code point, the unit that Python's `len` counts and that sets the number of presses (aqua_voice.py:194, 239; aqua_voice_app.py:439). A macOS text field deletes one grapheme cluster per backspace. For flag, skin-tone or joined emoji, and for decomposed accents, the real app therefore deletes more than the session typed. The screen invariant (`Apply` gives `all_typed`) and `Contained` hold only under the code-point assumption.
- `LiveTyping.AquaVoice.StartRecording`, `MenuBarApp.AquaVoiceApp.StartRecording`: `connectionOpen` describes only the current connection handle. A start overwrites `self.connection` without finishing the one an earlier start left open after an audio failure (aqua_voice.py:82; aqua_voice_app.py:308). That leaked connection is not tracked.
- `find_env` and file reading are left out. The `.env` file is an optional sequence of lines. `os.environ` is a map. Python's `ValueError` for an empty key in `os.environ` is not modelled.
- The rumps menu, titles, status items, logging and `print` output are left out. They do not affect the session state.
- `manual_start`, `manual_stop` and `quit_app` are not modelled. They only call the modelled start and stop.
- Accessibility checks, event-tap installation and `_on_error` (logging only) are left out.
- The `KeyboardInterrupt` path of `run` only calls the modelled stop, and is left out.
- `setup.py` is packaging metadata and is not part of this model.

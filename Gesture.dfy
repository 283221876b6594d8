/** The Right Option gesture, identical in both entry points: what a tap
    asks the session to do, and how the menu-bar app turns modifier-flag
    changes into taps. Times are integer milliseconds. */
module Gesture {

  /** `DOUBLE_TAP_THRESHOLD = 0.35` seconds. */
  const DoubleTapThresholdMs: int := 350

  /** `NSEventModifierFlagOption`, the bit tested in the modifier flags. */
  const OptionFlag: bv64 := 0x80000

  datatype Command = StartSession | StopSession | NoCommand

  /** What a tap does, and the new `option_tap_count`. */
  datatype TapOutcome = TapOutcome(command: Command, count: int)

  /** `_handle_option_tap`, as written: while recording a tap stops; while
      idle a tap closer than the threshold to the previous one bumps the
      counter and starts once the counter is at least 1; any other tap
      resets the counter. */
  function TapPolicy(recording: bool, now: int, lastTap: int, count: int): (r: TapOutcome)
    ensures r.command == StopSession <==> recording
    ensures r.command == StartSession <==> !recording && now - lastTap < DoubleTapThresholdMs && count >= 0
    ensures r.command != NoCommand ==> r.count == 0
    ensures r.command == NoCommand && !recording && now - lastTap < DoubleTapThresholdMs ==> r.count == count + 1
    ensures !recording && now - lastTap >= DoubleTapThresholdMs ==> r == TapOutcome(NoCommand, 0)
  {
    if recording then TapOutcome(StopSession, 0)
    else if now - lastTap < DoubleTapThresholdMs then
      if count + 1 >= 1 then TapOutcome(StartSession, 0) else TapOutcome(NoCommand, count + 1)
    else TapOutcome(NoCommand, 0)
  }

  /** The tap counter never leaves zero: starting at 0, every tap leaves it
      at 0, so a single tap within the threshold of the previous tap starts
      a session; nothing ever waits for a second counted tap. */
  lemma {:induction false} CounterStaysZero(recording: seq<bool>, times: seq<int>, lastTap: int)
    requires |recording| == |times|
    ensures TapCounts(recording, times, lastTap, 0) == 0
    decreases |times|
  {
    if times != [] {
      var o := TapPolicy(recording[0], times[0], lastTap, 0);
      assert o.count == 0;
      CounterStaysZero(recording[1..], times[1..], times[0]);
    }
  }

  /** The counter after a series of taps at `times`, each seeing the
      recording flag in `recording`. */
  function TapCounts(recording: seq<bool>, times: seq<int>, lastTap: int, count: int): int
    requires |recording| == |times|
    decreases |times|
  {
    if times == [] then count
    else TapCounts(recording[1..], times[1..], times[0], TapPolicy(recording[0], times[0], lastTap, count).count)
  }

  /** A tap that stops a session is itself the "previous tap": another tap
      within the threshold starts a new session straight away. */
  lemma QuickTapAfterStopRestarts(t1: int, t2: int, lastTap: int)
    requires 0 <= t2 - t1 < DoubleTapThresholdMs
    ensures TapPolicy(true, t1, lastTap, 0) == TapOutcome(StopSession, 0)
    ensures TapPolicy(false, t2, t1, 0).command == StartSession
  {
  }

  /** The press/release edge detector of `handle_modifier_event`: from the
      remembered state and whether the Option bit is set now, the new
      remembered state and whether a tap happened. */
  function OptionEdge(wasPressed: bool, optionDown: bool): (r: (bool, bool))
    ensures r.0 == optionDown
    ensures r.1 <==> wasPressed && !optionDown
  {
    if optionDown && !wasPressed then (true, false)
    else if !optionDown && wasPressed then (false, true)
    else (wasPressed, false)
  }

  /** The number of taps the edge detector reports for a series of flag
      samples. */
  function TapsOf(wasPressed: bool, samples: seq<bool>): nat
    decreases |samples|
  {
    if samples == [] then 0
    else (if OptionEdge(wasPressed, samples[0]).1 then 1 else 0) + TapsOf(samples[0], samples[1..])
  }

  /** The number of samples with the Option bit set. */
  function Presses(samples: seq<bool>): nat {
    if samples == [] then 0 else (if samples[0] then 1 else 0) + Presses(samples[1..])
  }

  /** A tap needs a press seen before it: from the released state there are
      never more taps than samples with the key down. */
  lemma {:induction false} TapsNeedPresses(wasPressed: bool, samples: seq<bool>)
    ensures TapsOf(wasPressed, samples) <= Presses(samples) + (if wasPressed then 1 else 0)
    decreases |samples|
  {
    if samples != [] {
      TapsNeedPresses(samples[0], samples[1..]);
    }
  }
}

/**
 * The cursor-hide system: a two-state latch remembering whether the cursor
 * was last hidden, and window calls made only when the desired state
 * (`focused && hide`) differs from the latch.
 */
module CursorHide {
  import opened Ecs

  /** The calls one frame makes, from the latch and the desired state. */
  function HideCalls(isHidden: bool, shouldBeHidden: bool): (calls: seq<WindowCall>)
    ensures calls == [] <==> isHidden == shouldBeHidden
    ensures calls != [] ==> calls == [GrabCursorCall(shouldBeHidden), HideCursorCall(shouldBeHidden)]
  {
    if !isHidden && shouldBeHidden then [GrabCursorCall(true), HideCursorCall(true)]
    else if isHidden && !shouldBeHidden then [GrabCursorCall(false), HideCursorCall(false)]
    else []
  }

  /** The calls over frames whose desired states are `desired`, from `latch`. */
  function CallsOver(latch: bool, desired: seq<bool>): seq<WindowCall>
    decreases desired
  {
    if desired == [] then [] else HideCalls(latch, desired[0]) + CallsOver(desired[0], desired[1..])
  }

  /** The latch after frames whose desired states are `desired`. */
  function LatchAfter(latch: bool, desired: seq<bool>): bool
    decreases desired
  {
    if desired == [] then latch else LatchAfter(desired[0], desired[1..])
  }

  /** How many frames want a state other than the one before them. */
  function Changes(latch: bool, desired: seq<bool>): nat
    decreases desired
  {
    if desired == [] then 0
    else (if desired[0] != latch then 1 else 0) + Changes(desired[0], desired[1..])
  }

  /**
   * A call trace without redundant calls: grab-then-hide pairs whose state
   * flips each time, starting from the opposite of `latch`.
   */
  predicate Alternating(latch: bool, calls: seq<WindowCall>)
    decreases calls
  {
    calls == []
    || (|calls| >= 2
        && calls[0] == GrabCursorCall(!latch)
        && calls[1] == HideCursorCall(!latch)
        && Alternating(!latch, calls[2..]))
  }

  /** After any non-empty run of frames the latch holds the last desired state. */
  lemma {:induction false} LatchFollowsLastFrame(latch: bool, desired: seq<bool>)
    requires desired != []
    decreases desired
    ensures LatchAfter(latch, desired) == desired[|desired| - 1]
  {
    if |desired| > 1 {
      LatchFollowsLastFrame(desired[0], desired[1..]);
    }
  }

  /** Unchanged inputs: only the first frame makes calls. */
  lemma {:induction false} SteadyInputCallsOnce(latch: bool, d: bool, n: nat)
    ensures CallsOver(latch, seq(n + 1, _ => d)) == HideCalls(latch, d)
  {
    var ds := seq(n + 1, _ => d);
    if n > 0 {
      assert ds[1..] == seq(n, _ => d);
      SteadyInputCallsOnceFrom(d, n - 1);
    } else {
      assert ds[1..] == [];
    }
  }

  lemma {:induction false} SteadyInputCallsOnceFrom(d: bool, n: nat)
    ensures CallsOver(d, seq(n + 1, _ => d)) == []
  {
    var ds := seq(n + 1, _ => d);
    if n > 0 {
      assert ds[1..] == seq(n, _ => d);
      SteadyInputCallsOnceFrom(d, n - 1);
    } else {
      assert ds[1..] == [];
    }
  }

  /** Every frame that changes the desired state costs exactly two calls. */
  lemma {:induction false} TwoCallsPerChange(latch: bool, desired: seq<bool>)
    decreases desired
    ensures |CallsOver(latch, desired)| == 2 * Changes(latch, desired)
  {
    if desired != [] {
      TwoCallsPerChange(desired[0], desired[1..]);
    }
  }

  /** The calls never repeat a state the window already has. */
  lemma {:induction false} CallsAlternate(latch: bool, desired: seq<bool>)
    decreases desired
    ensures Alternating(latch, CallsOver(latch, desired))
  {
    if desired != [] {
      CallsAlternate(desired[0], desired[1..]);
      var rest := CallsOver(desired[0], desired[1..]);
      if desired[0] != latch {
        var calls := HideCalls(latch, desired[0]) + rest;
        assert calls[2..] == rest;
      } else {
        assert HideCalls(latch, desired[0]) + rest == rest;
      }
    }
  }

  class CursorHideSystem {
    /** Whether the cursor was last hidden; the cursor is assumed hidden at start-up. */
    var isHidden: bool

    constructor ()
      ensures isHidden
    {
      isHidden := true;
    }

    /**
     * One frame. A failed grab or release is only logged (`errorLogged`): the
     * hide call and the latch update happen regardless.
     */
    method Run(hideCursor: HideCursor, focus: WindowFocus, window: Window, grabSucceeds: bool)
      returns (errorLogged: bool)
      modifies this, window
      ensures isHidden == (focus.isFocused && hideCursor.shouldHide)
      ensures window.calls == old(window.calls) + HideCalls(old(isHidden), focus.isFocused && hideCursor.shouldHide)
      ensures errorLogged <==> old(isHidden) != (focus.isFocused && hideCursor.shouldHide) && !grabSucceeds
    {
      errorLogged := false;
      var shouldBeHidden := focus.isFocused && hideCursor.shouldHide;
      if !isHidden && shouldBeHidden {
        var ok := window.GrabCursor(true, grabSucceeds);
        if !ok {
          errorLogged := true;
        }
        window.HideCursor(true);
        isHidden := true;
      } else if isHidden && !shouldBeHidden {
        var ok := window.GrabCursor(false, grabSucceeds);
        if !ok {
          errorLogged := true;
        }
        window.HideCursor(false);
        isHidden := false;
      }
    }
  }

  /** What one frame brings: the focus flag, the `hide` wish and the platform's answer to a grab. */
  datatype FrameInput = FrameInput(focused: bool, shouldHide: bool, grabSucceeds: bool)

  /** The desired cursor state of each frame. */
  function Desired(frames: seq<FrameInput>): (desired: seq<bool>)
    ensures |desired| == |frames|
    ensures forall i :: 0 <= i < |frames| ==> desired[i] == (frames[i].focused && frames[i].shouldHide)
  {
    seq(|frames|, i requires 0 <= i < |frames| => frames[i].focused && frames[i].shouldHide)
  }

  /** The first frame's desired state, then the rest's. */
  lemma DesiredStep(frames: seq<FrameInput>)
    requires frames != []
    ensures Desired(frames) == [frames[0].focused && frames[0].shouldHide] + Desired(frames[1..])
  {
    assert Desired(frames)[1..] == Desired(frames[1..]);
  }

  /** The calls and latch over frames are the first frame's, then the rest's from the latch it leaves. */
  lemma CallsStep(calls: seq<WindowCall>, latch: bool, desired: seq<bool>)
    requires desired != []
    ensures calls + CallsOver(latch, desired) == calls + HideCalls(latch, desired[0]) + CallsOver(desired[0], desired[1..])
    ensures LatchAfter(latch, desired) == LatchAfter(desired[0], desired[1..])
  {
    var first, rest := HideCalls(latch, desired[0]), CallsOver(desired[0], desired[1..]);
    assert CallsOver(latch, desired) == first + rest;
    assert calls + (first + rest) == calls + first + rest;
  }

  /** Writes one frame's inputs into the resources and runs the system once. */
  method RunFrame(system: CursorHideSystem, hideCursor: HideCursor, focus: WindowFocus, window: Window,
                  frame: FrameInput)
    modifies system, hideCursor, focus, window
    ensures focus.isFocused == frame.focused && hideCursor.shouldHide == frame.shouldHide
    ensures system.isHidden == (frame.focused && frame.shouldHide)
    ensures window.calls == old(window.calls) + HideCalls(old(system.isHidden), frame.focused && frame.shouldHide)
  {
    focus.isFocused := frame.focused;
    hideCursor.shouldHide := frame.shouldHide;
    var _ := system.Run(hideCursor, focus, window, frame.grabSucceeds);
  }

  /**
   * Runs the system once per frame, first frame first, the resources holding
   * that frame's values: the calls are `CallsOver` the desired states and the
   * latch ends at the last desired state.
   */
  method RunFrames(system: CursorHideSystem, hideCursor: HideCursor, focus: WindowFocus, window: Window,
                   frames: seq<FrameInput>)
    modifies system, hideCursor, focus, window
    decreases |frames|
    ensures window.calls == old(window.calls) + CallsOver(old(system.isHidden), Desired(frames))
    ensures system.isHidden == LatchAfter(old(system.isHidden), Desired(frames))
    ensures frames != [] ==> system.isHidden == (frames[|frames| - 1].focused && frames[|frames| - 1].shouldHide)
    ensures frames != [] ==> focus.isFocused == frames[|frames| - 1].focused
    ensures frames != [] ==> hideCursor.shouldHide == frames[|frames| - 1].shouldHide
    ensures frames == [] ==> focus.isFocused == old(focus.isFocused) && hideCursor.shouldHide == old(hideCursor.shouldHide)
  {
    if frames != [] {
      ghost var latch0, calls0 := system.isHidden, window.calls;
      DesiredStep(frames);
      CallsStep(calls0, latch0, Desired(frames));
      RunFrame(system, hideCursor, focus, window, frames[0]);
      RunFrames(system, hideCursor, focus, window, frames[1..]);
      if 1 < |frames| {
        assert frames[1..][|frames[1..]| - 1] == frames[|frames| - 1];
      }
    }
  }

  /** Inserts `HideCursor` with its default value and sets the latch. */
  method BuildCursorHideSystem(defaultHide: bool) returns (system: CursorHideSystem, hideCursor: HideCursor)
    ensures fresh(system) && fresh(hideCursor)
    ensures system.isHidden
    ensures hideCursor.shouldHide == defaultHide
  {
    system := new CursorHideSystem();
    hideCursor := new HideCursor(defaultHide);
  }
}

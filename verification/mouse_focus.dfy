/**
 * The mouse-focus update system: it reads the window events written since
 * its last run and copies every focus change into `WindowFocus`.
 */
module MouseFocus {
  import opened Ecs

  predicate IsFocusEvent(e: Event) {
    e.WindowEvent? && e.windowEvent.Focused?
  }

  /** The focus flag after reading `events` in order, starting from `focused`. */
  function FocusAfter(focused: bool, events: seq<Event>): (r: bool)
    ensures r == focused || exists k :: 0 <= k < |events| && IsFocusEvent(events[k]) && r == events[k].windowEvent.focused
  {
    if events == [] then focused
    else
      var e := events[|events| - 1];
      if IsFocusEvent(e) then e.windowEvent.focused
      else
        var init := events[..|events| - 1];
        assert forall k :: 0 <= k < |init| ==> init[k] == events[k];
        FocusAfter(focused, init)
  }

  /** Last write wins: the last focus event decides the flag. */
  lemma {:induction false} LastFocusEventWins(focused: bool, events: seq<Event>, k: nat)
    requires k < |events| && IsFocusEvent(events[k])
    requires forall j :: k < j < |events| ==> !IsFocusEvent(events[j])
    ensures FocusAfter(focused, events) == events[k].windowEvent.focused
  {
    if k < |events| - 1 {
      LastFocusEventWins(focused, events[..|events| - 1], k);
    }
  }

  /** Without a focus event the flag keeps its value. */
  lemma {:induction false} NoFocusEventKeepsFocus(focused: bool, events: seq<Event>)
    requires forall j :: 0 <= j < |events| ==> !IsFocusEvent(events[j])
    ensures FocusAfter(focused, events) == focused
  {
    if events != [] {
      NoFocusEventKeepsFocus(focused, events[..|events| - 1]);
    }
  }

  /** Reading two batches in two runs gives the flag one run over both gives. */
  lemma {:induction false} FocusAfterConcat(focused: bool, a: seq<Event>, b: seq<Event>)
    ensures FocusAfter(focused, a + b) == FocusAfter(FocusAfter(focused, a), b)
  {
    if b == [] {
      assert a + b == a;
    } else {
      assert (a + b)[..|a + b| - 1] == a + b[..|b| - 1];
      FocusAfterConcat(focused, a, b[..|b| - 1]);
    }
  }

  /** No event other than a focus change affects the flag. */
  lemma {:induction false} OtherEventsIgnored(focused: bool, events: seq<Event>)
    ensures FocusAfter(focused, Filter(IsFocusEvent, events)) == FocusAfter(focused, events)
  {
    if events != [] {
      var init := events[..|events| - 1];
      var rest := Filter(IsFocusEvent, init);
      OtherEventsIgnored(focused, init);
      if IsFocusEvent(events[|events| - 1]) {
        assert (rest + [events[|events| - 1]])[..|rest|] == rest;
      }
    }
  }

  class MouseFocusUpdateSystem {
    /** This system's read position in the event channel. */
    var reader: nat

    constructor (reader: nat)
      ensures this.reader == reader
    {
      this.reader := reader;
    }

    /** One frame: read every new event, in order, into `focus`. */
    method Run(channel: EventChannel, focus: WindowFocus)
      requires reader <= |channel.events|
      modifies this, focus
      ensures reader == |channel.events|
      ensures focus.isFocused == FocusAfter(old(focus.isFocused), channel.events[old(reader)..])
    {
      var batch := channel.events[reader..];
      reader := |channel.events|;
      var i := 0;
      while i < |batch|
        invariant 0 <= i <= |batch|
        invariant reader == |channel.events|
        invariant focus.isFocused == FocusAfter(old(focus.isFocused), batch[..i])
      {
        var event := batch[i];
        if event.WindowEvent? {
          if event.windowEvent.Focused? {
            focus.isFocused := event.windowEvent.focused;
          }
        }
        assert batch[..i + 1][..i] == batch[..i];
        i := i + 1;
      }
      assert batch[..i] == batch;
    }
  }

  /** Inserts `WindowFocus` with its initial value and registers a reader. */
  method BuildMouseFocusUpdateSystem(channel: EventChannel, initiallyFocused: bool)
    returns (system: MouseFocusUpdateSystem, focus: WindowFocus)
    ensures fresh(system) && fresh(focus)
    ensures system.reader == |channel.events|
    ensures focus.isFocused == initiallyFocused
  {
    focus := new WindowFocus(initiallyFocused);
    var reader := channel.RegisterReader();
    system := new MouseFocusUpdateSystem(reader);
  }
}

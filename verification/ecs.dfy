/**
 * The world the control systems run against: entities with their optional
 * components, the broadcast event channel, the two shared resources and the
 * window whose cursor is grabbed and hidden.
 */
module Ecs {
  import opened Wrappers
  import opened Geometry

  type EntityId = nat

  /** Orbit the entity `target` at `distance`. */
  datatype ArcBallControl = ArcBallControl(target: EntityId, distance: real)

  /**
   * The components of one entity that the systems look at: the `FlyControl`
   * marker, `ArcBallControl`, `Rotation` and `Translation`.
   */
  datatype Entity = Entity(
    flyControl: bool,
    arcBallControl: Option<ArcBallControl>,
    rotation: Option<Quat>,
    translation: Option<Vec3>)

  class World {
    var entities: map<EntityId, Entity>

    constructor (entities: map<EntityId, Entity>)
      ensures this.entities == entities
    {
      this.entities := entities;
    }
  }

  datatype WindowEvent = Focused(focused: bool) | OtherWindowEvent
  datatype DeviceEvent = MouseMotion(dx: real, dy: real) | OtherDeviceEvent
  datatype Event =
    | WindowEvent(windowEvent: WindowEvent)
    | DeviceEvent(deviceEvent: DeviceEvent)
    | OtherEvent

  /** The events of `events` that satisfy `p`, in order. */
  function Filter(p: Event -> bool, events: seq<Event>): (r: seq<Event>)
    ensures |r| <= |events|
    ensures forall j :: 0 <= j < |r| ==> p(r[j])
    ensures forall e :: e in r <==> e in events && p(e)
    ensures |events| == 1 ==> r == if p(events[0]) then events else []
  {
    if events == [] then []
    else
      var rest := Filter(p, events[..|events| - 1]);
      assert events == events[..|events| - 1] + [events[|events| - 1]];
      if p(events[|events| - 1]) then rest + [events[|events| - 1]] else rest
  }

  /**
   * Filtering distributes over concatenation; with the one-event case of
   * `Filter`'s contract this fixes the kept events in their original order.
   */
  lemma {:induction false} FilterAppend(p: Event -> bool, a: seq<Event>, b: seq<Event>)
    ensures Filter(p, a + b) == Filter(p, a) + Filter(p, b)
  {
    if b == [] {
      assert a + b == a;
    } else {
      var init := b[..|b| - 1];
      assert (a + b)[..|a + b| - 1] == a + init;
      FilterAppend(p, a, init);
    }
  }

  /**
   * An append-only broadcast log. A reader is the index of the first event it
   * has not read yet; every reader advances on its own.
   */
  class EventChannel {
    var events: seq<Event>

    constructor ()
      ensures events == []
    {
      events := [];
    }

    method SingleWrite(e: Event)
      modifies this
      ensures events == old(events) + [e]
    {
      events := events + [e];
    }

    /** A new reader sees only the events written after it was registered. */
    method RegisterReader() returns (reader: nat)
      ensures reader == |events|
    {
      reader := |events|;
    }
  }

  /** Whether the window has the input focus. */
  class WindowFocus {
    var isFocused: bool

    constructor (isFocused: bool)
      ensures this.isFocused == isFocused
    {
      this.isFocused := isFocused;
    }
  }

  /** Whether the cursor should be hidden while the window is focused. */
  class HideCursor {
    /** The source's `hide` field (`hide` is a reserved word in Dafny). */
    var shouldHide: bool

    constructor (shouldHide: bool)
      ensures this.shouldHide == shouldHide
    {
      this.shouldHide := shouldHide;
    }
  }

  datatype WindowCall = GrabCursorCall(grab: bool) | HideCursorCall(hidden: bool)

  /** The window, seen through the calls made on it. */
  class Window {
    var calls: seq<WindowCall>

    constructor ()
      ensures calls == []
    {
      calls := [];
    }

    /** Grabbing or releasing the cursor may fail; `succeeds` is the platform's answer. */
    method GrabCursor(grab: bool, succeeds: bool) returns (ok: bool)
      modifies this
      ensures calls == old(calls) + [GrabCursorCall(grab)]
      ensures ok == succeeds
    {
      calls := calls + [GrabCursorCall(grab)];
      ok := succeeds;
    }

    method HideCursor(hidden: bool)
      modifies this
      ensures calls == old(calls) + [HideCursorCall(hidden)]
    {
      calls := calls + [HideCursorCall(hidden)];
    }
  }
}

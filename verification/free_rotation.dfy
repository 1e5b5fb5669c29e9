/**
 * The free-rotation system: every mouse motion read since its last run turns
 * every fly-controlled entity, while the window is focused and the cursor is
 * meant to be hidden.
 */
module FreeRotation {
  import opened Wrappers
  import opened Geometry
  import opened Ecs

  predicate IsMouseMotion(e: Event) {
    e.DeviceEvent? && e.deviceEvent.MouseMotion?
  }

  /**
   * The rotation one mouse motion composes onto an orientation: vertical
   * motion turns about the x axis (roll), horizontal motion about the y axis
   * (pitch), both negated and scaled by the sensitivities, which are degrees.
   */
  function MotionRotation(l: Libm, sensitivityX: real, sensitivityY: real, dx: real, dy: real): (delta: Quat)
    ensures dx == 0.0 && dy == 0.0 ==> delta == Identity
  {
    FromEulerAngles(l, ToRadians(-dy * sensitivityY), ToRadians(-dx * sensitivityX), 0.0)
  }

  /** `rotation` after every mouse motion of `events` is right-multiplied onto it, in order. */
  function RotationAfter(l: Libm, sensitivityX: real, sensitivityY: real, rotation: Quat, events: seq<Event>): Quat
    decreases events
  {
    if events == [] then rotation
    else
      var before := RotationAfter(l, sensitivityX, sensitivityY, rotation, events[..|events| - 1]);
      var e := events[|events| - 1];
      if IsMouseMotion(e)
      then Mul(before, MotionRotation(l, sensitivityX, sensitivityY, e.deviceEvent.dx, e.deviceEvent.dy))
      else before
  }

  /** The query `(Read<FlyControl>, Write<Rotation>)`. */
  predicate InFreeRotationQuery(e: Entity) {
    e.flyControl && e.rotation.Some?
  }

  /** One entity after a frame whose events are `events`; `active` is `focused && hide`. */
  function RotatedEntity(l: Libm, sensitivityX: real, sensitivityY: real, e: Entity, events: seq<Event>, active: bool): Entity {
    if active && InFreeRotationQuery(e)
    then e.(rotation := Some(RotationAfter(l, sensitivityX, sensitivityY, e.rotation.value, events)))
    else e
  }

  /** All entities after a frame whose events are `events`. */
  function RotateFlyEntities(
    l: Libm, sensitivityX: real, sensitivityY: real,
    entities: map<EntityId, Entity>, events: seq<Event>, active: bool): (r: map<EntityId, Entity>)
    ensures r.Keys == entities.Keys
    ensures !active ==> r == entities
    ensures forall id :: id in r ==> r[id].(rotation := entities[id].rotation) == entities[id]
    ensures forall id :: id in r && !InFreeRotationQuery(entities[id]) ==> r[id] == entities[id]
  {
    map id | id in entities :: RotatedEntity(l, sensitivityX, sensitivityY, entities[id], events, active)
  }

  /** Two frames compose like one frame over both batches: the order of motions is kept. */
  lemma {:induction false} RotationAfterConcat(
    l: Libm, sensitivityX: real, sensitivityY: real, rotation: Quat, a: seq<Event>, b: seq<Event>)
    ensures RotationAfter(l, sensitivityX, sensitivityY, rotation, a + b)
         == RotationAfter(l, sensitivityX, sensitivityY, RotationAfter(l, sensitivityX, sensitivityY, rotation, a), b)
    decreases b
  {
    if b == [] {
      assert a + b == a;
    } else {
      assert (a + b)[..|a + b| - 1] == a + b[..|b| - 1];
      RotationAfterConcat(l, sensitivityX, sensitivityY, rotation, a, b[..|b| - 1]);
    }
  }

  /** Without mouse motions the rotation is unchanged. */
  lemma {:induction false} NoMotionKeepsRotation(
    l: Libm, sensitivityX: real, sensitivityY: real, rotation: Quat, events: seq<Event>)
    requires forall j :: 0 <= j < |events| ==> !IsMouseMotion(events[j])
    ensures RotationAfter(l, sensitivityX, sensitivityY, rotation, events) == rotation
    decreases events
  {
    if events != [] {
      NoMotionKeepsRotation(l, sensitivityX, sensitivityY, rotation, events[..|events| - 1]);
    }
  }

  /** A mouse motion of zero length read in a frame does not turn anything. */
  lemma {:induction false} ZeroMotionKeepsRotation(
    l: Libm, sensitivityX: real, sensitivityY: real, rotation: Quat, a: seq<Event>, b: seq<Event>)
    ensures RotationAfter(l, sensitivityX, sensitivityY, rotation, a + [DeviceEvent(MouseMotion(0.0, 0.0))] + b)
         == RotationAfter(l, sensitivityX, sensitivityY, rotation, a + b)
  {
    var zero := [DeviceEvent(MouseMotion(0.0, 0.0))];
    RotationAfterConcat(l, sensitivityX, sensitivityY, rotation, a + zero, b);
    RotationAfterConcat(l, sensitivityX, sensitivityY, rotation, a, b);
    assert (a + zero)[..|a + zero| - 1] == a;
  }

  /** Events other than mouse motions do not turn anything. */
  lemma {:induction false} OtherEventsIgnored(
    l: Libm, sensitivityX: real, sensitivityY: real, rotation: Quat, events: seq<Event>)
    ensures RotationAfter(l, sensitivityX, sensitivityY, rotation, Filter(IsMouseMotion, events))
         == RotationAfter(l, sensitivityX, sensitivityY, rotation, events)
    decreases events
  {
    if events != [] {
      var init := events[..|events| - 1];
      var rest := Filter(IsMouseMotion, init);
      OtherEventsIgnored(l, sensitivityX, sensitivityY, rotation, init);
      if IsMouseMotion(events[|events| - 1]) {
        assert (rest + [events[|events| - 1]])[..|rest|] == rest;
      }
    }
  }

  class FreeRotationSystem {
    const sensitivityX: real
    const sensitivityY: real
    /** This system's read position in the event channel. */
    var reader: nat

    constructor (sensitivityX: real, sensitivityY: real, reader: nat)
      ensures this.sensitivityX == sensitivityX && this.sensitivityY == sensitivityY
      ensures this.reader == reader
    {
      this.sensitivityX := sensitivityX;
      this.sensitivityY := sensitivityY;
      this.reader := reader;
    }

    /**
     * One frame: the new events are read (and so consumed) whether or not the
     * gate is open; each mouse motion turns every fly-controlled entity once.
     */
    method Run(l: Libm, channel: EventChannel, focus: WindowFocus, hideCursor: HideCursor, world: World)
      requires reader <= |channel.events|
      modifies this, world
      ensures reader == |channel.events|
      ensures world.entities == RotateFlyEntities(l, sensitivityX, sensitivityY, old(world.entities),
                                                  channel.events[old(reader)..], focus.isFocused && hideCursor.shouldHide)
    {
      var focused := focus.isFocused;
      var batch := channel.events[reader..];
      reader := |channel.events|;
      ghost var start := world.entities;
      var k := 0;
      while k < |batch|
        invariant 0 <= k <= |batch|
        invariant reader == |channel.events|
        invariant world.entities.Keys == start.Keys
        invariant forall id :: id in start ==>
          world.entities[id] == RotatedEntity(l, sensitivityX, sensitivityY, start[id], batch[..k], focused && hideCursor.shouldHide)
      {
        var event := batch[k];
        assert batch[..k + 1][..k] == batch[..k];
        if focused && hideCursor.shouldHide {
          if event.DeviceEvent? {
            if event.deviceEvent.MouseMotion? {
              var delta := MotionRotation(l, sensitivityX, sensitivityY, event.deviceEvent.dx, event.deviceEvent.dy);
              TurnAll(world, delta);
            }
          }
        }
        k := k + 1;
      }
      assert batch[..k] == batch;
    }
  }

  /** `rotation.0 *= delta` on one entity of the query. */
  function Turned(e: Entity, delta: Quat): Entity {
    if InFreeRotationQuery(e) then e.(rotation := Some(Mul(e.rotation.value, delta))) else e
  }

  /** `rotation.0 *= delta` on every entity of the query. */
  method TurnAll(world: World, delta: Quat)
    modifies world
    ensures world.entities.Keys == old(world.entities).Keys
    ensures forall id :: id in world.entities ==> world.entities[id] == Turned(old(world.entities)[id], delta)
  {
    ghost var before := world.entities;
    var todo := world.entities.Keys;
    while todo != {}
      invariant todo <= before.Keys
      invariant world.entities.Keys == before.Keys
      invariant forall id :: id in before ==>
        world.entities[id] == if id in todo then before[id] else Turned(before[id], delta)
      decreases todo
    {
      var id :| id in todo;
      var e := world.entities[id];
      if e.flyControl && e.rotation.Some? {
        world.entities := world.entities[id := e.(rotation := Some(Mul(e.rotation.value, delta)))];
      }
      todo := todo - {id};
    }
  }

  /** Registers a reader for the system. */
  method BuildFreeRotationSystem(channel: EventChannel, sensitivityX: real, sensitivityY: real)
    returns (system: FreeRotationSystem)
    ensures fresh(system)
    ensures system.sensitivityX == sensitivityX && system.sensitivityY == sensitivityY
    ensures system.reader == |channel.events|
  {
    var reader := channel.RegisterReader();
    system := new FreeRotationSystem(sensitivityX, sensitivityY, reader);
  }
}

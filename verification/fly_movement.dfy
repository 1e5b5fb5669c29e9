/**
 * The fly-movement system: the three movement axes form an input vector;
 * unless it is (nearly) zero, every fly-controlled entity is shifted by the
 * same step along its direction.
 */
module FlyMovement {
  import opened Wrappers
  import opened Geometry
  import opened Ecs

  /** The norm below which the input counts as no input. */
  const MinNorm: real := 0.000001

  /**
   * The shift of one frame: the unit direction of (x, y, z) times the frame
   * time times the speed, or nothing when the input is nearly zero.
   */
  function Displacement(l: Libm, x: real, y: real, z: real, deltaSeconds: real, speed: real): (d: Option<Vec3>)
    ensures d.None? <==> NormSquared(Vec3(x, y, z)) <= MinNorm * MinNorm
  {
    match TryNormalize(l, Vec3(x, y, z), MinNorm)
    case None => None
    case Some(dir) => Some(Scale(Scale(dir, deltaSeconds), speed))
  }

  /** The query `(Read<FlyControl>, Write<Translation>)`. */
  predicate InFlyMovementQuery(e: Entity) {
    e.flyControl && e.translation.Some?
  }

  /** `trans.0 *= Translation3::from(d)`: translations compose by adding their vectors. */
  function Shifted(e: Entity, d: Vec3): Entity {
    if InFlyMovementQuery(e) then e.(translation := Some(Add(e.translation.value, d))) else e
  }

  /** All entities after a frame whose displacement is `d`. */
  function MoveFlyEntities(entities: map<EntityId, Entity>, d: Option<Vec3>): (r: map<EntityId, Entity>)
    ensures r.Keys == entities.Keys
    ensures d.None? ==> r == entities
    ensures forall id :: id in r ==> r[id].(translation := entities[id].translation) == entities[id]
    ensures forall id :: id in r && !InFlyMovementQuery(entities[id]) ==> r[id] == entities[id]
  {
    match d
    case None => entities
    case Some(v) => map id | id in entities :: Shifted(entities[id], v)
  }

  /** Every moved entity moves by the same vector, and that vector is the displacement. */
  lemma SameShiftForAll(entities: map<EntityId, Entity>, d: Option<Vec3>, a: EntityId, b: EntityId)
    requires d.Some?
    requires a in entities && InFlyMovementQuery(entities[a])
    requires b in entities && InFlyMovementQuery(entities[b])
    ensures Sub(MoveFlyEntities(entities, d)[a].translation.value, entities[a].translation.value)
         == Sub(MoveFlyEntities(entities, d)[b].translation.value, entities[b].translation.value)
         == d.value
  {
  }

  /** Entities that differ only in their rotations end up differing only in their rotations. */
  lemma RotationNotConsulted(e1: map<EntityId, Entity>, e2: map<EntityId, Entity>, d: Option<Vec3>)
    requires e1.Keys == e2.Keys
    requires forall id :: id in e1 ==> e1[id].(rotation := e2[id].rotation) == e2[id]
    ensures var r1, r2 := MoveFlyEntities(e1, d), MoveFlyEntities(e2, d);
      forall id :: id in r1 ==> r1[id].(rotation := r2[id].rotation) == r2[id]
  {
  }

  /** With an exact square root, the step is exactly `deltaSeconds * speed` long. */
  lemma StepLength(l: Libm, x: real, y: real, z: real, deltaSeconds: real, speed: real)
    requires l.sqrt(NormSquared(Vec3(x, y, z))) * l.sqrt(NormSquared(Vec3(x, y, z))) == NormSquared(Vec3(x, y, z))
    ensures var d := Displacement(l, x, y, z, deltaSeconds, speed);
      d.Some? ==> NormSquared(d.value) == (deltaSeconds * speed) * (deltaSeconds * speed)
  {
    var v := Vec3(x, y, z);
    NormalizedIsUnit(l, v, MinNorm);
    var n := TryNormalize(l, v, MinNorm);
    if n.Some? {
      var u := n.value;
      ScaleTwice(u, deltaSeconds, speed);
      ScaledNormSquared(u, deltaSeconds * speed);
    }
  }

  /** Input (1, 0, 0) at speed 2 over half a second moves one unit along x. */
  lemma UnitHorizontalStep(l: Libm)
    requires l.sqrt(1.0) == 1.0
    ensures Displacement(l, 1.0, 0.0, 0.0, 0.5, 2.0) == Some(Vec3(1.0, 0.0, 0.0))
  {
    var v := Vec3(1.0, 0.0, 0.0);
    assert NormSquared(v) == 1.0;
    assert TryNormalize(l, v, MinNorm) == Some(Scale(v, 1.0 / 1.0)) == Some(v);
    assert Scale(Scale(v, 0.5), 2.0) == v;
  }

  class FlyMovementSystem {
    const speed: real

    constructor (speed: real)
      ensures this.speed == speed
    {
      this.speed := speed;
    }

    /**
     * One frame with axis values `x`, `y`, `z` (an unbound axis reads 0) and
     * frame time `deltaSeconds`.
     */
    method Run(l: Libm, world: World, x: real, y: real, z: real, deltaSeconds: real)
      modifies world
      ensures world.entities == MoveFlyEntities(old(world.entities), Displacement(l, x, y, z, deltaSeconds, speed))
    {
      var dir := TryNormalize(l, Vec3(x, y, z), MinNorm);
      if dir.Some? {
        ghost var before := world.entities;
        var todo := world.entities.Keys;
        while todo != {}
          invariant todo <= before.Keys
          invariant world.entities.Keys == before.Keys
          invariant forall id :: id in before ==>
            world.entities[id] == if id in todo then before[id] else Shifted(before[id], Scale(Scale(dir.value, deltaSeconds), speed))
          decreases todo
        {
          var id :| id in todo;
          var e := world.entities[id];
          if e.flyControl && e.translation.Some? {
            var step := Scale(Scale(dir.value, deltaSeconds), speed);
            world.entities := world.entities[id := e.(translation := Some(Add(e.translation.value, step)))];
          }
          todo := todo - {id};
        }
      }
    }
  }
}

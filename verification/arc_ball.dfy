/**
 * The arc-ball system: every arc-ball entity is placed `distance` behind its
 * own forward axis from its target, keeping its rotation. An entity whose
 * target translation cannot be read is left where it is.
 */
module ArcBall {
  import opened Wrappers
  import opened Geometry
  import opened Ecs

  /** The query `(Read<ArcBallControl>, Read<Rotation>, Write<Translation>)`. */
  predicate InArcBallQuery(e: Entity) {
    e.arcBallControl.Some? && e.rotation.Some? && e.translation.Some?
  }

  /** `rot.0 * (-Vector3::z() * distance)`: the offset from the entity to its target. */
  function PosVec(rotation: Quat, distance: real): Vec3 {
    Rotate(rotation, Scale(Neg(UnitZ), distance))
  }

  /**
   * `get_component::<Translation>(target)` on the part of the world left over
   * by `split_for_query`. It fails for a missing entity, for an entity without
   * a translation, and for an entity the query itself holds, whose translation
   * the query borrows mutably. `readable` says which other entities the
   * remainder still grants access to; the library decides that, so it is a
   * parameter here.
   */
  function TargetTranslation(entities: map<EntityId, Entity>, readable: EntityId -> bool, target: EntityId): Option<Vec3> {
    if target in entities && readable(target) && entities[target].translation.Some? && !InArcBallQuery(entities[target])
    then Some(entities[target].translation.value)
    else None
  }

  /** One entity after the frame, with target lookups in `entities`. */
  function ArcBallEntity(entities: map<EntityId, Entity>, readable: EntityId -> bool, e: Entity): Entity {
    if InArcBallQuery(e) then
      match TargetTranslation(entities, readable, e.arcBallControl.value.target)
      case None => e
      case Some(t) => e.(translation := Some(Sub(t, PosVec(e.rotation.value, e.arcBallControl.value.distance))))
    else e
  }

  /** All entities after one frame. */
  function ArcBallStep(entities: map<EntityId, Entity>, readable: EntityId -> bool): (r: map<EntityId, Entity>)
    ensures r.Keys == entities.Keys
    ensures forall id :: id in r ==> r[id].(translation := entities[id].translation) == entities[id]
    ensures forall id :: id in r ==> InArcBallQuery(r[id]) == InArcBallQuery(entities[id])
    ensures forall id :: id in r && !InArcBallQuery(entities[id]) ==> r[id] == entities[id]
  {
    map id | id in entities :: ArcBallEntity(entities, readable, entities[id])
  }

  /** A map in the middle of the frame: every entity is either untouched or already placed. */
  ghost predicate PartlyPlaced(before: map<EntityId, Entity>, current: map<EntityId, Entity>, readable: EntityId -> bool) {
    current.Keys == before.Keys
    && forall id :: id in before ==> current[id] == before[id] || current[id] == ArcBallEntity(before, readable, before[id])
  }

  /**
   * Placing entities never changes what a target lookup returns, so the order
   * in which the query visits its entities does not matter.
   */
  lemma LookupUnaffected(before: map<EntityId, Entity>, readable: EntityId -> bool, current: map<EntityId, Entity>, target: EntityId)
    requires PartlyPlaced(before, current, readable)
    ensures TargetTranslation(current, readable, target) == TargetTranslation(before, readable, target)
  {
  }

  /**
   * An entity of the query whose target translation `t` is read is placed at
   * `t - rot * (-z * distance)`.
   */
  lemma PlacedAtOffsetFromTarget(entities: map<EntityId, Entity>, readable: EntityId -> bool, id: EntityId)
    requires id in entities && InArcBallQuery(entities[id])
    requires TargetTranslation(entities, readable, entities[id].arcBallControl.value.target).Some?
    ensures var e := entities[id];
      var t := TargetTranslation(entities, readable, e.arcBallControl.value.target).value;
      ArcBallStep(entities, readable)[id].translation == Some(Sub(t, PosVec(e.rotation.value, e.arcBallControl.value.distance)))
  {
  }

  /** An entity of the query whose target translation cannot be read keeps its translation. */
  lemma MissingTargetSkipped(entities: map<EntityId, Entity>, readable: EntityId -> bool, id: EntityId)
    requires id in entities && InArcBallQuery(entities[id])
    requires TargetTranslation(entities, readable, entities[id].arcBallControl.value.target).None?
    ensures ArcBallStep(entities, readable)[id] == entities[id]
  {
  }

  /** A target whose translation is read is never written. */
  lemma TargetNeverWritten(entities: map<EntityId, Entity>, readable: EntityId -> bool, id: EntityId)
    requires id in entities && InArcBallQuery(entities[id])
    requires TargetTranslation(entities, readable, entities[id].arcBallControl.value.target).Some?
    ensures var target := entities[id].arcBallControl.value.target;
      ArcBallStep(entities, readable)[target] == entities[target]
  {
  }

  /** Running the system twice places every entity where running it once does. */
  lemma {:induction false} StepIdempotent(entities: map<EntityId, Entity>, readable: EntityId -> bool)
    ensures ArcBallStep(ArcBallStep(entities, readable), readable) == ArcBallStep(entities, readable)
  {
    var once := ArcBallStep(entities, readable);
    assert PartlyPlaced(entities, once, readable);
    forall id | id in once
      ensures ArcBallEntity(once, readable, once[id]) == once[id]
    {
      if InArcBallQuery(entities[id]) {
        LookupUnaffected(entities, readable, once, entities[id].arcBallControl.value.target);
      }
    }
  }

  /**
   * A camera whose target is itself an arc-ball entity never moves, whatever
   * the library grants: the target's translation is held by the same query.
   */
  lemma ChainedCameraStays(entities: map<EntityId, Entity>, readable: EntityId -> bool, id: EntityId)
    requires id in entities && InArcBallQuery(entities[id])
    requires var target := entities[id].arcBallControl.value.target;
      target in entities && InArcBallQuery(entities[target])
    ensures ArcBallStep(entities, readable)[id] == entities[id]
  {
    MissingTargetSkipped(entities, readable, id);
  }

  /** With the identity rotation the offset points `distance` along -z. */
  lemma OffsetOfIdentity(distance: real)
    ensures PosVec(Identity, distance) == Vec3(0.0, 0.0, -distance)
  {
    var n := Neg(UnitZ);
    assert n == Vec3(0.0, 0.0, -1.0);
    assert Scale(n, distance) == Vec3(0.0, 0.0, -distance);
    RotateByIdentity(Scale(n, distance));
  }

  /**
   * An arc-ball entity with the identity rotation sits `distance` along +z
   * from its target; with the target at the origin and distance 5, at (0, 0, 5).
   */
  lemma OrbitWithIdentityRotation(entities: map<EntityId, Entity>, readable: EntityId -> bool, id: EntityId, target: EntityId, distance: real)
    requires id in entities && target in entities
    requires entities[id].arcBallControl == Some(ArcBallControl(target, distance))
    requires entities[id].rotation == Some(Identity) && entities[id].translation.Some?
    requires entities[target].translation.Some? && entities[target].arcBallControl.None? && readable(target)
    ensures var t := entities[target].translation.value;
      ArcBallStep(entities, readable)[id].translation == Some(Vec3(t.x, t.y, t.z + distance))
  {
    var t := entities[target].translation.value;
    assert TargetTranslation(entities, readable, target) == Some(t);
    PlacedAtOffsetFromTarget(entities, readable, id);
    IdentityOffsetFrom(t, distance);
  }

  lemma IdentityOffsetFrom(t: Vec3, distance: real)
    ensures Sub(t, PosVec(Identity, distance)) == Vec3(t.x, t.y, t.z + distance)
  {
    OffsetOfIdentity(distance);
    SubNegZ(t, distance);
  }

  lemma SubNegZ(t: Vec3, distance: real)
    ensures Sub(t, Vec3(0.0, 0.0, -distance)) == Vec3(t.x, t.y, t.z + distance)
  {
  }

  /** One frame of the arc-ball system over `world`. */
  method RunArcBallRotationSystem(world: World, readable: EntityId -> bool)
    modifies world
    ensures world.entities == ArcBallStep(old(world.entities), readable)
  {
    ghost var before := world.entities;
    var todo := world.entities.Keys;
    while todo != {}
      invariant todo <= before.Keys
      invariant world.entities.Keys == before.Keys
      invariant forall id :: id in before ==>
        world.entities[id] == if id in todo then before[id] else ArcBallEntity(before, readable, before[id])
      decreases todo
    {
      var id :| id in todo;
      var e := world.entities[id];
      if e.arcBallControl.Some? && e.rotation.Some? && e.translation.Some? {
        var control := e.arcBallControl.value;
        var posVec := PosVec(e.rotation.value, control.distance);
        assert PartlyPlaced(before, world.entities, readable);
        LookupUnaffected(before, readable, world.entities, control.target);
        var targetTrans := TargetTranslation(world.entities, readable, control.target);
        if targetTrans.Some? {
          var newPos := Sub(targetTrans.value, posVec);
          world.entities := world.entities[id := e.(translation := Some(newPos))];
        }
      }
      todo := todo - {id};
    }
  }
}

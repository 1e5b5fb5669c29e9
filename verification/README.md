# Camera control systems of `amethyst_controls`, modelled in Dafny

This project models the five per-frame camera-control systems of
`amethyst_controls/src/systems.rs`:

- **mouse-focus update**: reads the window events written since its last run and copies every
  `Focused(b)` into the `WindowFocus` resource, so the last one wins;
- **cursor hide**: a latch (`is_hidden`, initially `true`) that grabs and hides, or releases and
  shows, the cursor only when `focus.is_focused && hide.hide` differs from the latch;
- **free rotation**: while focused and `hide.hide` holds, right-multiplies the rotation of every
  `FlyControl` entity by one Euler rotation per mouse motion, in event order; the events are read
  either way;
- **fly movement**: shifts every `FlyControl` translation by the normalised input direction times
  the frame time times the speed, unless the input vector is nearly zero;
- **arc ball**: places every arc-ball entity at `target - rot * (-z * distance)`, and leaves it
  alone when the target's translation cannot be read.

The world is a `World` object holding a map from entity id to the components the systems use
(`FlyControl`, `ArcBallControl`, `Rotation`, `Translation`). `WindowFocus`, `HideCursor`, the event
channel and the window are objects too. Each system is a class or a method that changes them in
place. Every system's `Run` is proved against a specification function of the old state: `FocusAfter`,
`HideCalls`, `RotateFlyEntities`, `MoveFlyEntities` and `ArcBallStep`. The lemmas prove the
properties the systems promise about those functions.

Modules:

- `Wrappers`: `Option`.
- `Geometry`: vectors and quaternions over exact reals. The floating-point `sqrt`, `sin` and `cos`
  are passed in as a `Libm` record.
- `Ecs`: entities, events, the channel, the resources and the window.
- One module per system: `MouseFocus`, `CursorHide`, `FreeRotation`, `FlyMovement`, `ArcBall`.

Two details of the code that are easy to misread, and that the model follows exactly:

- Fly movement adds the displacement to the translation in world space (`Translation3`
  composition). It does not rotate the displacement into the entity's frame first.
- The mouse delta feeds `from_euler_angles(roll, pitch, yaw)` as
  roll = `to_radians(-dy * sensitivity_y)` and pitch = `to_radians(-dx * sensitivity_x)`. This is a turn about the x axis
  and then one about the y axis. The model keeps nalgebra's argument names.

`hide` is a reserved word in Dafny, so `HideCursor.hide` is called `shouldHide` here.

## Model

| member | source | states |
|---|---|---|
| `MouseFocus.MouseFocusUpdateSystem.Run` | amethyst_controls/src/systems.rs:141-152 | reads exactly the events written since its own cursor; the cursor ends at the end of the channel; `is_focused` becomes `FocusAfter` of the old flag over those events; nothing else changes |
| `MouseFocus.BuildMouseFocusUpdateSystem` | amethyst_controls/src/systems.rs:130-137 | inserts a fresh `WindowFocus` and registers a reader that starts after every event already written |
| `MouseFocus.FocusAfter` | amethyst_controls/src/systems.rs:145-151 | the flag after a batch is either its old value or the value of one of the batch's focus events, never anything else |
| `MouseFocus.MouseFocusUpdateSystem.constructor` | amethyst_controls/src/systems.rs:133-136 | the system keeps the reader it was given |
| `MouseFocus.LastFocusEventWins` | amethyst_controls/src/systems.rs:145-151 | if a focus event is followed by no other focus event, the flag ends up with that event's value |
| `MouseFocus.NoFocusEventKeepsFocus` | amethyst_controls/src/systems.rs:145-151 | a batch without focus events leaves the flag unchanged (the empty batch of a re-run included) |
| `MouseFocus.OtherEventsIgnored` | amethyst_controls/src/systems.rs:146-147 | dropping every non-focus event from a batch does not change the result |
| `MouseFocus.FocusAfterConcat` | amethyst_controls/src/systems.rs:145 | reading two batches in two frames gives the flag that reading both in one frame gives, so a skipped frame loses no event |
| `Ecs.EventChannel.RegisterReader` | amethyst_controls/src/systems.rs:96-99 | a new reader starts at the current end of the channel |
| `Ecs.Filter` | amethyst_controls/src/systems.rs:113-114 | the events of a batch that pass a test: every kept event passes, an event is kept exactly when it is in the batch and passes, and a one-event batch is kept whole or dropped |
| `Ecs.FilterAppend` | amethyst_controls/src/systems.rs:113-114 | filtering a concatenation is the concatenation of the filtered parts; with the one-event case this keeps the kept events in their order and multiplicity |
| `Ecs.Window.GrabCursor` | amethyst_controls/src/systems.rs:176 | records one `grab_cursor(grab)` call on the window and returns whether the platform granted it |
| `Ecs.Window.HideCursor` | amethyst_controls/src/systems.rs:179 | records one `hide_cursor(hidden)` call on the window |
| `CursorHide.HideCalls` | amethyst_controls/src/systems.rs:174-187 | no call when the latch already matches `focused && hide`; otherwise `grab_cursor(d)` followed by `hide_cursor(d)` for the desired state `d` |
| `CursorHide.CursorHideSystem.Run` | amethyst_controls/src/systems.rs:170-188 | the latch becomes `focused && hide`; the window receives `HideCalls(old latch, desired)`; a failed grab or release is only logged, and the hide call and latch update still happen |
| `CursorHide.CursorHideSystem.constructor` | amethyst_controls/src/systems.rs:162 | the latch starts as hidden |
| `CursorHide.BuildCursorHideSystem` | amethyst_controls/src/systems.rs:158-165 | inserts a fresh `HideCursor` with its default and a system whose latch is hidden |
| `CursorHide.Desired` | amethyst_controls/src/systems.rs:174 | one desired state per frame, each `focused && hide` of that frame's inputs |
| `CursorHide.RunFrames` | amethyst_controls/src/systems.rs:170-188 | runs the system once per frame, in order: the window receives exactly `CallsOver(old latch, desired states)` and the latch ends at `LatchAfter` of them, which after a non-empty run is the last frame's desired state; `WindowFocus` and `HideCursor` end holding the last frame's values, or are unchanged when there is no frame |
| `CursorHide.LatchFollowsLastFrame` | amethyst_controls/src/systems.rs:174-187 | after any non-empty run of frames the latch equals the last frame's desired state; with `RunFrames`'s latch clause it says where the repeated `Run` leaves the latch |
| `CursorHide.SteadyInputCallsOnce` | amethyst_controls/src/systems.rs:175-187 | with unchanged inputs, all frames together make only the first frame's calls (at most one grab/hide pair) |
| `CursorHide.TwoCallsPerChange` | amethyst_controls/src/systems.rs:175-187 | over any run of frames, the number of window calls is twice the number of frames whose desired state differs from the one before |
| `CursorHide.CallsAlternate` | amethyst_controls/src/systems.rs:175-187 | the calls are grab-then-hide pairs whose state flips each time, starting opposite to the initial latch, so no call is redundant |
| `FreeRotation.FreeRotationSystem.Run` | amethyst_controls/src/systems.rs:106-126 | reads exactly the events since its own cursor whether or not the gate is open; entities become `RotateFlyEntities` of the old ones, with the gate `focused && hide` |
| `FreeRotation.FreeRotationSystem.constructor` | amethyst_controls/src/systems.rs:96-99 | the system keeps the two sensitivities and the reader it was given |
| `FreeRotation.MotionRotation` | amethyst_controls/src/systems.rs:116-120 | the per-motion rotation `from_euler_angles(to_radians(-dy * sy), to_radians(-dx * sx), 0)`; a motion of zero length gives the identity |
| `FreeRotation.RotationAfter` | amethyst_controls/src/systems.rs:111-121 | the rotation after right-multiplying one `MotionRotation` per mouse motion, in stream order; its properties are the lemmas below |
| `FreeRotation.ZeroMotionKeepsRotation` | amethyst_controls/src/systems.rs:114-120 | inserting a zero-length mouse motion anywhere in a batch does not change the resulting rotation |
| `FreeRotation.InFreeRotationQuery` | amethyst_controls/src/systems.rs:105 | the query `(Read<FlyControl>, Write<Rotation>)`: the entities with `FlyControl` and a rotation, the only ones the system turns |
| `FreeRotation.RotatedEntity` | amethyst_controls/src/systems.rs:110-121 | one entity after the frame: with the gate open and the entity in the query, its rotation becomes `RotationAfter` of the batch; otherwise unchanged |
| `FreeRotation.Turned` | amethyst_controls/src/systems.rs:115-116 | `rotation.0 *= delta` on one entity of the query; other entities unchanged |
| `FreeRotation.TurnAll` | amethyst_controls/src/systems.rs:115-121 | right-multiplies the rotation of every entity with `FlyControl` and `Rotation` by one delta and leaves every other entity as it was |
| `FreeRotation.BuildFreeRotationSystem` | amethyst_controls/src/systems.rs:91-105 | keeps the two sensitivities and registers a reader at the end of the channel |
| `FreeRotation.RotateFlyEntities` | amethyst_controls/src/systems.rs:110-121 | same entity ids; a closed gate changes nothing; only rotations change, and only those of `FlyControl` entities |
| `FreeRotation.RotationAfterConcat` | amethyst_controls/src/systems.rs:111-121 | motions compose in stream order: two batches in two frames give the rotation that one frame over both gives |
| `FreeRotation.NoMotionKeepsRotation` | amethyst_controls/src/systems.rs:113-114 | a batch without mouse motions leaves a rotation unchanged |
| `FreeRotation.OtherEventsIgnored` | amethyst_controls/src/systems.rs:113-114 | dropping every event other than a mouse motion does not change the rotation |
| `FlyMovement.Displacement` | amethyst_controls/src/systems.rs:44-52 | no displacement exactly when the input vector's norm is at most 1e-6 |
| `FlyMovement.InFlyMovementQuery` | amethyst_controls/src/systems.rs:39 | the query `(Read<FlyControl>, Write<Translation>)`: the entities with `FlyControl` and a translation, the only ones the system moves |
| `FlyMovement.Shifted` | amethyst_controls/src/systems.rs:50-52 | one entity after `trans.0 *= Translation3::from(d)`: its translation moved by `d` when it has `FlyControl` and a translation |
| `FlyMovement.MoveFlyEntities` | amethyst_controls/src/systems.rs:49-54 | same entity ids; no displacement changes nothing; only translations change, and only those of `FlyControl` entities |
| `FlyMovement.FlyMovementSystem.Run` | amethyst_controls/src/systems.rs:40-55 | entities become `MoveFlyEntities` of the old ones with this frame's `Displacement` |
| `FlyMovement.FlyMovementSystem.constructor` | amethyst_controls/src/systems.rs:29-35 | keeps the configured speed |
| `FlyMovement.SameShiftForAll` | amethyst_controls/src/systems.rs:50-53 | every moved entity moves by the same vector, the displacement |
| `FlyMovement.RotationNotConsulted` | amethyst_controls/src/systems.rs:39-53 | worlds that differ only in rotations end up differing only in rotations |
| `FlyMovement.StepLength` | amethyst_controls/src/systems.rs:49-52 | with an exact square root, the step's length is `delta_seconds * speed` |
| `FlyMovement.UnitHorizontalStep` | amethyst_controls/src/systems.rs:44-52 | input (1, 0, 0), speed 2 and half a second give a step of (1, 0, 0) |
| `Geometry.TryNormalize` | amethyst_controls/src/systems.rs:49 | `Unit::try_new` fails exactly when the norm is at most the threshold; otherwise it scales the vector by a positive factor |
| `Geometry.NormalizedIsUnit` | amethyst_controls/src/systems.rs:49 | with an exact square root, the normalised direction has length one |
| `Geometry.ToRadians` | amethyst_controls/src/systems.rs:117-118 | `to_radians` keeps the sign of its argument and maps only zero to zero |
| `Geometry.FromEulerAngles` | amethyst_controls/src/systems.rs:116-120 | nalgebra's half-angle formula for roll about x, pitch about y and yaw about z; all-zero angles give the identity |
| `Geometry.Mul` | amethyst_controls/src/systems.rs:116 | the Hamilton product behind `rotation.0 *= q`; the identity is a unit on both sides |
| `Geometry.Rotate` | amethyst_controls/src/systems.rs:75 | `rot.0 * v` as the vector part of q·(0, v)·q*; see `RotateByIdentity` |
| `Geometry.RotateByIdentity` | amethyst_controls/src/systems.rs:75 | rotating by the identity quaternion leaves a vector unchanged |
| `ArcBall.InArcBallQuery` | amethyst_controls/src/systems.rs:67 | the query `(Read<ArcBallControl>, Read<Rotation>, Write<Translation>)`: the entities with all three components, the only ones the system places |
| `ArcBall.PosVec` | amethyst_controls/src/systems.rs:75 | the offset `rot * (-z * distance)` from an arc-ball entity to its target; see `OffsetOfIdentity` |
| `ArcBall.TargetTranslation` | amethyst_controls/src/systems.rs:72-76 | the target's translation when the target exists, the library grants access to it (`readable`), it has a translation and the query does not hold it; otherwise nothing |
| `ArcBall.ArcBallEntity` | amethyst_controls/src/systems.rs:74-79 | one entity of the query after the frame: moved to `t - PosVec` when its target lookup gives `t`, unchanged otherwise; entities outside the query are unchanged |
| `ArcBall.ArcBallStep` | amethyst_controls/src/systems.rs:72-80 | same entity ids; only translations are written, and only those of entities with `ArcBallControl`, `Rotation` and `Translation`; query membership is kept |
| `ArcBall.RunArcBallRotationSystem` | amethyst_controls/src/systems.rs:65-81 | entities become `ArcBallStep` of the old ones, whatever order the query visits them in |
| `ArcBall.PlacedAtOffsetFromTarget` | amethyst_controls/src/systems.rs:75-78 | an entity whose target translation `t` is read moves to `t - rot * (-z * distance)` |
| `ArcBall.MissingTargetSkipped` | amethyst_controls/src/systems.rs:76-79 | an entity whose target translation cannot be read is left exactly as it was |
| `ArcBall.TargetNeverWritten` | amethyst_controls/src/systems.rs:72-78 | a target whose translation is read is not written in the same frame |
| `ArcBall.LookupUnaffected` | amethyst_controls/src/systems.rs:72-76 | placing entities part-way through a frame does not change any target lookup |
| `ArcBall.ChainedCameraStays` | amethyst_controls/src/systems.rs:72-79 | an arc-ball entity whose target is itself an arc-ball entity is never moved, whatever access the library grants |
| `ArcBall.StepIdempotent` | amethyst_controls/src/systems.rs:72-80 | a second frame with nothing else changed places every entity where the first one did |
| `ArcBall.OffsetOfIdentity` | amethyst_controls/src/systems.rs:75 | with the identity rotation the offset is `distance` along -z |
| `ArcBall.OrbitWithIdentityRotation` | amethyst_controls/src/systems.rs:75-78 | with the identity rotation an entity sits `distance` along +z from its target, e.g. (0, 0, 5) for a target at the origin and distance 5 |

## Left out

- Floating point: all arithmetic is on exact reals. `f32` rounding is not modelled, and neither is the `f64` to `f32` cast of the mouse delta. `to_radians` uses a real approximation of pi.
- `sqrt`, `sin` and `cos` are not computable on reals. They come in as a `Libm` parameter. The model assumes only that the square root of a positive number is positive and that `sin 0 = 0` and `cos 0 = 1` exactly.
- Geometry.Rotate: it is nalgebra's rotation of a vector only for a quaternion of norm one. The model does not keep rotations at norm one: nothing is assumed about `sin² + cos²`, and products of unit quaternions are not renormalised. So facts about `Rotate` for other quaternions say nothing about the original.
- Geometric facts, such as yaw accumulating across motions or the arc-ball distance being preserved under any rotation, are not proved. Only the identity-rotation case of the arc ball is.
- `get_input_axis_simple` and `InputHandler` are not part of this model. The three axis values are inputs to `FlyMovementSystem.Run`. An unbound axis reads 0 there.
- `Time` is not part of this model. `delta_seconds` is an input.
- The initial values of `WindowFocus::new()` and `HideCursor::default()` are set in the resources module, which is not part of this model. The builders take them as parameters.
- The result of `grab_cursor` comes from the platform, so it is an input. `log::error!` is modelled only as the `errorLogged` result.
- `SystemBuilder`, queries, `Schedulable`, the dispatcher and the profiler macros are not modelled. A query is a predicate on an entity. The order in which a query visits entities is arbitrary (`:|`), and the results are proved not to depend on it.
- ArcBall.TargetTranslation: `split_for_query` and `get_component` belong to the ECS library, which is not part of this model. One part of the lookup rule is built in: an entity the arc-ball query holds is never readable, because the query holds its `Translation` mutably. Everything else the library may refuse is the `readable` parameter, and no property depends on what it is. So a chained camera (whose target is another arc-ball entity) never moves, whatever `readable` says.
- Building the free-rotation and mouse-focus systems unwraps the `EventChannel<Event>` resource and panics when it is missing. The model takes the channel as a parameter, so it always exists and the panic is not modelled.
- The `shrev` channel is an unbounded sequence. A reader is an index into it, and its ring buffer is not modelled.
- `examples/prefab/main.rs` (start-up, assets, rendering), `lib.rs` (re-exports only) and the bundles are not part of this model.

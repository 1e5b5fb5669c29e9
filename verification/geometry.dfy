/**
 * The vector and quaternion arithmetic behind the `Translation` and
 * `Rotation` components, over exact reals. The floating-point library
 * functions (square root, sine, cosine) cannot be computed on reals and are
 * supplied as a `Libm` record.
 */
module Geometry {
  import opened Wrappers

  datatype Vec3 = Vec3(x: real, y: real, z: real)

  function Add(a: Vec3, b: Vec3): Vec3 {
    Vec3(a.x + b.x, a.y + b.y, a.z + b.z)
  }

  function Sub(a: Vec3, b: Vec3): Vec3 {
    Vec3(a.x - b.x, a.y - b.y, a.z - b.z)
  }

  function Scale(v: Vec3, s: real): Vec3 {
    Vec3(v.x * s, v.y * s, v.z * s)
  }

  function Neg(v: Vec3): Vec3 {
    Vec3(-v.x, -v.y, -v.z)
  }

  function NormSquared(v: Vec3): real {
    v.x * v.x + v.y * v.y + v.z * v.z
  }

  lemma ScaleTwice(v: Vec3, a: real, b: real)
    ensures Scale(Scale(v, a), b) == Scale(v, a * b)
  {
    assert v.x * a * b == v.x * (a * b);
    assert v.y * a * b == v.y * (a * b);
    assert v.z * a * b == v.z * (a * b);
  }

  /** Scaling by `s` scales the squared norm by `s * s`. */
  lemma ScaledNormSquared(v: Vec3, s: real)
    ensures NormSquared(Scale(v, s)) == NormSquared(v) * (s * s)
  {
    assert (v.x * s) * (v.x * s) == v.x * v.x * (s * s);
    assert (v.y * s) * (v.y * s) == v.y * v.y * (s * s);
    assert (v.z * s) * (v.z * s) == v.z * v.z * (s * s);
  }

  /** `Vector3::z()` */
  const UnitZ: Vec3 := Vec3(0.0, 0.0, 1.0)

  /** The quaternion w + i·x + j·y + k·z. */
  datatype Quat = Quat(w: real, i: real, j: real, k: real)

  const Identity: Quat := Quat(1.0, 0.0, 0.0, 0.0)

  /** Hamilton product: `p * q` is `q` applied first, in the frame of `p`. */
  function Mul(p: Quat, q: Quat): (r: Quat)
    ensures q == Identity ==> r == p
    ensures p == Identity ==> r == q
  {
    Quat(p.w * q.w - p.i * q.i - p.j * q.j - p.k * q.k,
         p.w * q.i + p.i * q.w + p.j * q.k - p.k * q.j,
         p.w * q.j - p.i * q.k + p.j * q.w + p.k * q.i,
         p.w * q.k + p.i * q.j - p.j * q.i + p.k * q.w)
  }

  function Conjugate(q: Quat): Quat {
    Quat(q.w, -q.i, -q.j, -q.k)
  }

  /**
   * The vector part of q·(0, v)·q*. This is the rotation `q * v` only when `q`
   * has norm one; for any other `q` it also scales `v` by the squared norm.
   */
  function Rotate(q: Quat, v: Vec3): Vec3 {
    var r := Mul(Mul(q, Quat(0.0, v.x, v.y, v.z)), Conjugate(q));
    Vec3(r.i, r.j, r.k)
  }

  /** Rotating by the identity quaternion leaves a vector as it is. */
  lemma RotateByIdentity(v: Vec3)
    ensures Rotate(Identity, v) == v
  {
    var p := Quat(0.0, v.x, v.y, v.z);
    assert Mul(Identity, p) == p;
    assert Conjugate(Identity) == Identity;
    assert Mul(p, Identity) == p;
  }

  /** The floating-point library functions the numerics call. */
  datatype LibmFunctions = LibmFunctions(sqrt: real -> real, sin: real -> real, cos: real -> real)

  /**
   * The facts the model relies on: the square root of a positive number is
   * positive, and sine and cosine are exact at zero.
   */
  ghost predicate LibmFacts(l: LibmFunctions) {
    && (forall r: real :: 0.0 < r ==> 0.0 < l.sqrt(r))
    && l.sin(0.0) == 0.0
    && l.cos(0.0) == 1.0
  }

  type Libm = l: LibmFunctions | LibmFacts(l)
    ghost witness LibmFunctions(r => if 0.0 < r then 1.0 else 0.0, r => 0.0, r => 1.0)

  const Pi: real := 3.14159265358979323846

  /** `f32::to_radians` */
  function ToRadians(degrees: real): (radians: real)
    ensures 0.0 < degrees <==> 0.0 < radians
    ensures degrees == 0.0 <==> radians == 0.0
  {
    degrees * (Pi / 180.0)
  }

  /**
   * `UnitQuaternion::from_euler_angles(roll, pitch, yaw)`: the rotation about
   * the x axis by `roll`, then y by `pitch`, then z by `yaw`, from the half
   * angles' sines and cosines.
   */
  function FromEulerAngles(l: Libm, roll: real, pitch: real, yaw: real): (q: Quat)
    ensures roll == 0.0 && pitch == 0.0 && yaw == 0.0 ==> q == Identity
  {
    var sr, cr := l.sin(roll * 0.5), l.cos(roll * 0.5);
    var sp, cp := l.sin(pitch * 0.5), l.cos(pitch * 0.5);
    var sy, cy := l.sin(yaw * 0.5), l.cos(yaw * 0.5);
    Quat(cr * cp * cy + sr * sp * sy,
         sr * cp * cy - cr * sp * sy,
         cr * sp * cy + sr * cp * sy,
         cr * cp * sy - sr * sp * cy)
  }

  /**
   * `Unit::try_new(v, minNorm)`: `v` divided by its norm, or nothing when the
   * norm does not exceed `minNorm` (compared as squares, as the library does).
   */
  function TryNormalize(l: Libm, v: Vec3, minNorm: real): (r: Option<Vec3>)
    ensures r.None? <==> NormSquared(v) <= minNorm * minNorm
    ensures r.Some? ==> exists s: real :: 0.0 < s && r.value == Scale(v, s)
  {
    var sqNorm := NormSquared(v);
    if sqNorm > minNorm * minNorm then
      var s := 1.0 / l.sqrt(sqNorm);
      assert 0.0 < s;
      Some(Scale(v, s))
    else
      None
  }

  /** With an exact square root, the normalised vector has length one. */
  lemma NormalizedIsUnit(l: Libm, v: Vec3, minNorm: real)
    requires l.sqrt(NormSquared(v)) * l.sqrt(NormSquared(v)) == NormSquared(v)
    ensures TryNormalize(l, v, minNorm).Some? ==> NormSquared(TryNormalize(l, v, minNorm).value) == 1.0
  {
    var n := NormSquared(v);
    if n > minNorm * minNorm {
      var root := l.sqrt(n);
      assert 0.0 < root;
      var s := 1.0 / root;
      var u := Scale(v, s);
      calc {
        NormSquared(u);
        (v.x * s) * (v.x * s) + (v.y * s) * (v.y * s) + (v.z * s) * (v.z * s);
        n * (s * s);
        { assert s * s * (root * root) == 1.0; }
        1.0;
      }
    }
  }
}

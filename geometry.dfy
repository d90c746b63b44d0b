/** Vectors in three.js's coordinate system (y is up, the ground is the
    x/z plane) and the few operations of THREE.Vector3 the simulation uses.
    Square roots are never taken: distances are compared by their squares,
    and the length a normalisation divides by is an abstract parameter. */
module Geometry {

  datatype Vec3 = Vec3(x: real, y: real, z: real)

  const Origin := Vec3(0.0, 0.0, 0.0)

  function Add(a: Vec3, b: Vec3): (r: Vec3) {
    Vec3(a.x + b.x, a.y + b.y, a.z + b.z)
  }

  function Sub(a: Vec3, b: Vec3): (r: Vec3) {
    Vec3(a.x - b.x, a.y - b.y, a.z - b.z)
  }

  function Scale(v: Vec3, s: real): (r: Vec3) {
    Vec3(v.x * s, v.y * s, v.z * s)
  }

  /** The square of `v.length()`. */
  function LengthSq(v: Vec3): (r: real)
    ensures 0.0 <= r
  {
    v.x * v.x + v.y * v.y + v.z * v.z
  }

  /** The square of `a.distanceTo(b)`. */
  function DistSq(a: Vec3, b: Vec3): (d: real) {
    LengthSq(Sub(a, b))
  }

  /** `Vector3.length()`: a square root, left abstract. */
  type LengthFn = Vec3 -> real

  /** What a faithful `length()` satisfies. Only the lemmas about step
      lengths assume it; everything else holds for any `len`. */
  ghost predicate IsLength(len: LengthFn) {
    forall v :: 0.0 <= len(v) && len(v) * len(v) == LengthSq(v)
  }

  /** `Vector3.normalize()`, which divides by `length() || 1`: the zero
      vector stays zero instead of becoming NaN, and the result points the
      same way as `v`. */
  function Normalize(v: Vec3, len: LengthFn): (u: Vec3)
    ensures v == Origin ==> u == Origin
    ensures v.y == 0.0 ==> u.y == 0.0
  {
    var l := len(v);
    var d := if l == 0.0 then 1.0 else l;
    Vec3(v.x / d, v.y / d, v.z / d)
  }

  /** The normalised vector is parallel to `v`, and points the same way
      whenever the length is not negative (as a true length never is). */
  lemma NormalizeIsParallel(v: Vec3, len: LengthFn)
    ensures var u := Normalize(v, len);
      && u.x * v.y == u.y * v.x && u.y * v.z == u.z * v.y && u.x * v.z == u.z * v.x
      && (0.0 <= len(v) ==> 0.0 <= u.x * v.x && 0.0 <= u.y * v.y && 0.0 <= u.z * v.z)
  {
  }

  /** With a faithful length, normalising a vector of non-zero length gives a unit
      vector. */
  lemma {:induction false} NormalizeIsUnit(v: Vec3, len: LengthFn)
    requires IsLength(len) && 0.0 < LengthSq(v)
    ensures LengthSq(Normalize(v, len)) == 1.0
  {
    var l := len(v);
    assert l * l == LengthSq(v);
    var u := Normalize(v, len);
    assert u == Vec3(v.x / l, v.y / l, v.z / l);
    var m := l * l;
    QuotientSquare(u.x, v.x, l);
    QuotientSquare(u.y, v.y, l);
    QuotientSquare(u.z, v.z, l);
    SumTimes(u.x * u.x, u.y * u.y, u.z * u.z, m);
    calc {
      LengthSq(u) * m;
      u.x * u.x * m + u.y * u.y * m + u.z * u.z * m;
      v.x * v.x + v.y * v.y + v.z * v.z;
      LengthSq(v);
      m;
    }
    Cancel(LengthSq(u), m);
  }

  lemma QuotientSquare(q: real, a: real, l: real)
    requires l != 0.0 && q == a / l
    ensures q * q * (l * l) == a * a
  {
    assert q * l == a;
    assert q * q * (l * l) == (q * l) * (q * l);
  }

  lemma SumTimes(a: real, b: real, c: real, m: real)
    ensures (a + b + c) * m == a * m + b * m + c * m
  {
  }

  lemma Cancel(x: real, m: real)
    requires m != 0.0 && x * m == m
    ensures x == 1.0
  {
    assert (x - 1.0) * m == 0.0;
  }

  /** `p.addScaledVector(dir.normalize(), step)` with `dir = toward - p`:
      one step of `step` units from `p` toward `toward`. */
  function Advance(p: Vec3, toward: Vec3, step: real, len: LengthFn): (r: Vec3)
    ensures step == 0.0 ==> r == p
    ensures p == toward ==> r == p
    ensures p.y == toward.y ==> r.y == p.y
  {
    Add(p, Scale(Normalize(Sub(toward, p), len), step))
  }

  /** With a faithful length, a step from `p` toward a point apart from it
      covers exactly `step` units. */
  lemma {:induction false} AdvanceCoversStep(p: Vec3, toward: Vec3, step: real, len: LengthFn)
    requires IsLength(len) && 0.0 < DistSq(toward, p)
    ensures DistSq(Advance(p, toward, step, len), p) == step * step
  {
    var d := Sub(toward, p);
    var u := Normalize(d, len);
    NormalizeIsUnit(d, len);
    var r := Advance(p, toward, step, len);
    assert Sub(r, p) == Scale(u, step);
    calc {
      DistSq(r, p);
      LengthSq(Scale(u, step));
      (u.x * u.x + u.y * u.y + u.z * u.z) * (step * step);
      step * step;
    }
  }
}

/**
 * Immutable 2D vectors (danogl.util.Vector2) over the reals.
 *
 * Square roots are floating-point library calls, so the operations that need a
 * magnitude (`normalized`, `flipped`, `zeroedAlongNormal`, `rotatedToNearestAxis`)
 * receive it as an argument that must behave like the square root of the
 * squared magnitude (`IsMagnitude`).
 */
module Vectors {

  datatype Vec = Vec(x: real, y: real)

  const ZERO := Vec(0.0, 0.0)
  const UP := Vec(0.0, -1.0)
  const LEFT := Vec(-1.0, 0.0)
  const RIGHT := Vec(1.0, 0.0)
  const DOWN := Vec(0.0, 1.0)
  const ONES := Vec(1.0, 1.0)

  /** Squared distance under which two vectors count as approximately equal. */
  const EPSILON_FOR_COMPARING_VECTORS: real := 0.1

  /** `equals`: exact comparison of both coordinates. */
  predicate Equals(a: Vec, b: Vec) {
    a.x == b.x && a.y == b.y
  }

  predicate IsZero(v: Vec) {
    v.x == 0.0 && v.y == 0.0
  }

  function Add(v: Vec, other: Vec): (r: Vec)
    ensures Equals(other, ZERO) ==> r == v
    ensures r.x == v.x + other.x && r.y == v.y + other.y
  {
    if Equals(other, ZERO) then v else Vec(v.x + other.x, v.y + other.y)
  }

  function Subtract(v: Vec, other: Vec): (r: Vec)
    ensures Equals(other, ZERO) ==> r == v
    ensures r.x == v.x - other.x && r.y == v.y - other.y
  {
    if Equals(other, ZERO) then v else Vec(v.x - other.x, v.y - other.y)
  }

  function Mult(v: Vec, factor: real): (r: Vec)
    ensures factor == 1.0 ==> r == v
    ensures r.x == factor * v.x && r.y == factor * v.y
  {
    if factor == 1.0 then v else Vec(factor * v.x, factor * v.y)
  }

  function MultX(v: Vec, factor: real): (r: Vec)
    ensures factor == 1.0 ==> r == v
    ensures r.x == factor * v.x && r.y == v.y
  {
    if factor == 1.0 then v else Vec(factor * v.x, v.y)
  }

  function MultY(v: Vec, factor: real): (r: Vec)
    ensures factor == 1.0 ==> r == v
    ensures r.x == v.x && r.y == factor * v.y
  {
    if factor == 1.0 then v else Vec(v.x, factor * v.y)
  }

  function Dot(a: Vec, b: Vec): real {
    a.x * b.x + a.y * b.y
  }

  function SqrMagnitude(v: Vec): real {
    v.x * v.x + v.y * v.y
  }

  /** The 2D cross product: the component of `a` perpendicular to `b`, scaled by |b|. */
  function Cross(a: Vec, b: Vec): real {
    a.x * b.y - a.y * b.x
  }

  function Abs(r: real): real {
    if r < 0.0 then -r else r
  }

  function Signum(r: real): real {
    if r > 0.0 then 1.0 else if r < 0.0 then -1.0 else 0.0
  }

  /**
   * `mag` is what `magnitude()` returns for `v`: a non-negative square root of
   * the squared magnitude, zero exactly for the zero vector.
   */
  predicate IsMagnitude(v: Vec, mag: real) {
    mag >= 0.0 && mag * mag == SqrMagnitude(v) && (mag == 0.0 <==> IsZero(v))
  }

  /** `approximatelyEquals`: the squared distance is below the epsilon. */
  predicate ApproximatelyEquals(a: Vec, b: Vec) {
    var dx := a.x - b.x;
    var dy := a.y - b.y;
    dx * dx + dy * dy < EPSILON_FOR_COMPARING_VECTORS
  }

  lemma DivMul(a: real, s: real)
    requires s != 0.0
    ensures (a / s) * s == a
  {
  }

  lemma ScaledSqrMagnitude(v: Vec, f: real)
    ensures SqrMagnitude(Mult(v, f)) == (f * f) * SqrMagnitude(v)
  {
    assert (f * v.x) * (f * v.x) == (f * f) * (v.x * v.x);
    assert (f * v.y) * (f * v.y) == (f * f) * (v.y * v.y);
  }

  lemma InverseSquare(m: real)
    requires m != 0.0
    ensures ((1.0 / m) * (1.0 / m)) * (m * m) == 1.0
  {
    DivMul(1.0, m);
    assert ((1.0 / m) * (1.0 / m)) * (m * m) == ((1.0 / m) * m) * ((1.0 / m) * m);
  }

  /**
   * `normalized`: the zero vector stays zero; any other vector is multiplied by
   * the reciprocal of its magnitude, so scaling the result back by the magnitude
   * gives the vector again and the result has length 1.
   */
  function Normalized(v: Vec, mag: real): (r: Vec)
    requires IsMagnitude(v, mag)
    ensures IsZero(v) ==> r == ZERO
    ensures !IsZero(v) ==> Mult(r, mag) == v && SqrMagnitude(r) == 1.0
  {
    if IsZero(v) then ZERO
    else
      ScaledSqrMagnitude(v, 1.0 / mag);
      InverseSquare(mag);
      DivMul(v.x * 1.0, mag);
      assert (1.0 / mag * v.x) * mag == v.x;
      assert (1.0 / mag * v.y) * mag == v.y;
      Mult(v, 1.0 / mag)
  }

  lemma DivSign(d: real, m: real)
    requires m > 0.0
    ensures d / m < 0.0 <==> d < 0.0
  {
    DivMul(d, m);
    if d / m < 0.0 {
      NegPosMul(d / m, m);
    } else {
      NonNegPosMul(d / m, m);
    }
  }

  lemma NegPosMul(a: real, b: real)
    requires a < 0.0 && b > 0.0
    ensures a * b < 0.0
  {
  }

  lemma NonNegPosMul(a: real, b: real)
    requires a >= 0.0 && b > 0.0
    ensures a * b >= 0.0
  {
  }

  lemma ZeroDot(v: Vec, n: Vec)
    requires IsZero(n)
    ensures Dot(v, n) == 0.0 && Cross(v, n) == 0.0
  {
  }

  /** Moving `v` by `k` times `n` changes its projection on `n` by `k |n|^2` and keeps its cross product with `n`. */
  lemma ShiftAlongNormal(v: Vec, n: Vec, k: real)
    ensures Dot(Vec(v.x - n.x * k, v.y - n.y * k), n) == Dot(v, n) - k * SqrMagnitude(n)
    ensures Cross(Vec(v.x - n.x * k, v.y - n.y * k), n) == Cross(v, n)
  {
    assert (v.x - n.x * k) * n.x == v.x * n.x - k * (n.x * n.x);
    assert (v.y - n.y * k) * n.y == v.y * n.y - k * (n.y * n.y);
    assert (v.x - n.x * k) * n.y == v.x * n.y - k * (n.x * n.y);
    assert (v.y - n.y * k) * n.x == v.y * n.x - k * (n.x * n.y);
  }

  lemma ProjectionFactor(d: real, m: real, c: real)
    requires m > 0.0
    ensures (c * (d / m) / m) * (m * m) == c * d
  {
    DivMul(d, m);
    DivMul(c * (d / m), m);
  }

  /**
   * `flipped`: with a non-negative projection on the normal the receiver is
   * returned unchanged; otherwise the component along the normal is negated
   * and the perpendicular component kept. A zero normal makes the Java
   * projection NaN, which is never negative, so it returns the receiver too.
   */
  function Flipped(v: Vec, normal: Vec, normalMag: real): (r: Vec)
    requires IsMagnitude(normal, normalMag)
    ensures Dot(v, normal) >= 0.0 ==> r == v
    ensures Dot(v, normal) < 0.0 ==>
              Dot(r, normal) == -Dot(v, normal) && Cross(r, normal) == Cross(v, normal)
  {
    if normalMag == 0.0 then
      ZeroDot(v, normal);
      v
    else
      var proj := Dot(v, normal) / normalMag;
      DivSign(Dot(v, normal), normalMag);
      if proj < 0.0 then
        ShiftAlongNormal(v, normal, 2.0 * proj / normalMag);
        ProjectionFactor(Dot(v, normal), normalMag, 2.0);
        Reflected(v, normal, normalMag)
      else v
  }

  /** The new vector `flipped` builds: the receiver moved back by twice its projection along the normal. */
  function Reflected(v: Vec, normal: Vec, normalMag: real): Vec
    requires normalMag != 0.0
  {
    var k := 2.0 * (Dot(v, normal) / normalMag) / normalMag;
    Vec(v.x - normal.x * k, v.y - normal.y * k)
  }

  /**
   * `zeroedAlongNormal`: the component perpendicular to the normal. Its
   * projection on the normal is zero and its cross product with the normal is
   * the receiver's.
   */
  function ZeroedAlongNormal(v: Vec, normal: Vec, normalMag: real): (r: Vec)
    requires IsMagnitude(normal, normalMag) && !IsZero(normal)
    ensures Dot(r, normal) == 0.0 && Cross(r, normal) == Cross(v, normal)
  {
    var proj := Dot(v, normal) / normalMag;
    var k := 1.0 * proj / normalMag;
    ShiftAlongNormal(v, normal, k);
    ProjectionFactor(Dot(v, normal), normalMag, 1.0);
    Vec(v.x - normal.x * k, v.y - normal.y * k)
  }

  lemma SignedMagnitudeSquare(c: real, mag: real)
    ensures (Signum(c) * mag) * (Signum(c) * mag) == (if c == 0.0 then 0.0 else mag * mag)
  {
    if c < 0.0 {
      assert Signum(c) * mag == -mag;
      assert (-mag) * (-mag) == mag * mag;
    }
  }

  /** Putting a whole magnitude on one axis, with the sign of a nonzero component, keeps the squared length. */
  lemma AxisVectorLength(c: real, mag: real, sqr: real)
    requires c != 0.0 && mag * mag == sqr
    ensures SqrMagnitude(Vec(Signum(c) * mag, 0.0)) == sqr
    ensures SqrMagnitude(Vec(0.0, Signum(c) * mag)) == sqr
  {
    SignedMagnitudeSquare(c, mag);
  }

  /**
   * `rotatedToNearestAxis`: the whole magnitude goes on the axis whose
   * component is larger in absolute value (the y axis on ties), with that
   * component's sign; the length is unchanged.
   */
  function RotatedToNearestAxis(v: Vec, mag: real): (r: Vec)
    requires IsMagnitude(v, mag)
    ensures SqrMagnitude(r) == SqrMagnitude(v)
    ensures Abs(v.x) > Abs(v.y) ==> r == Vec(Signum(v.x) * mag, 0.0)
    ensures Abs(v.x) <= Abs(v.y) ==> r == Vec(0.0, Signum(v.y) * mag)
  {
    if Abs(v.x) > Abs(v.y) then
      AxisVectorLength(v.x, mag, SqrMagnitude(v));
      Vec(Signum(v.x) * mag, 0.0)
    else if v.y == 0.0 then
      assert IsZero(v);
      Vec(0.0, Signum(v.y) * mag)
    else
      AxisVectorLength(v.y, mag, SqrMagnitude(v));
      Vec(0.0, Signum(v.y) * mag)
  }

  /** `equals` is exactly value equality of the modelled vector. */
  lemma EqualsIsIdentity(a: Vec, b: Vec)
    ensures Equals(a, b) <==> a == b
  {
  }

  /** Subtracting what was added gives back the original vector, and vice versa. */
  lemma SubtractUndoesAdd(v: Vec, o: Vec)
    ensures Subtract(Add(v, o), o) == v
    ensures Add(Subtract(v, o), o) == v
  {
  }

  /** `approximatelyEquals` is reflexive and symmetric, and implied by `equals`. */
  lemma ApproximatelyEqualsProperties(a: Vec, b: Vec)
    ensures ApproximatelyEquals(a, a)
    ensures ApproximatelyEquals(a, b) <==> ApproximatelyEquals(b, a)
    ensures Equals(a, b) ==> ApproximatelyEquals(a, b)
  {
    var dx := a.x - b.x;
    var dy := a.y - b.y;
    assert (b.x - a.x) * (b.x - a.x) == dx * dx;
    assert (b.y - a.y) * (b.y - a.y) == dy * dy;
  }

  /** A flipped vector no longer opposes the normal, so flipping it again changes nothing. */
  lemma FlipIsIdempotent(v: Vec, n: Vec, nMag: real)
    requires IsMagnitude(n, nMag)
    ensures Dot(Flipped(v, n, nMag), n) >= 0.0
    ensures Flipped(Flipped(v, n, nMag), n, nMag) == Flipped(v, n, nMag)
  {
  }

  /** The perpendicular part has no component along the normal left to remove, so zeroing twice is zeroing once. */
  lemma ZeroedAlongNormalIsIdempotent(v: Vec, n: Vec, nMag: real)
    requires IsMagnitude(n, nMag) && !IsZero(n)
    ensures ZeroedAlongNormal(ZeroedAlongNormal(v, n, nMag), n, nMag) == ZeroedAlongNormal(v, n, nMag)
  {
    var r := ZeroedAlongNormal(v, n, nMag);
    assert Dot(r, n) == 0.0;
    assert Dot(r, n) / nMag == 0.0;
  }
}

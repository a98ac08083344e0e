/**
 * The normalisation step of `AABBCollision.getNormal`: dividing the raw
 * normal by its magnitude changes no sign that the collision resolver tests,
 * so the model's `AABB.GetNormal` can hand out the raw normal.
 */
module AABBNormals {
  import opened Vectors

  /** Scaling a vector by a positive factor keeps the sign of each coordinate and of its dot product with any direction. */
  lemma PositiveScalingKeepsSigns(v: Vec, f: real, dir: Vec)
    requires f > 0.0
    ensures (Mult(v, f).x < 0.0 <==> v.x < 0.0) && (Mult(v, f).y < 0.0 <==> v.y < 0.0)
    ensures (Dot(dir, Mult(v, f)) < 0.0 <==> Dot(dir, v) < 0.0) && (Dot(dir, Mult(v, f)) > 0.0 <==> Dot(dir, v) > 0.0)
  {
    assert Dot(dir, Mult(v, f)) == f * Dot(dir, v);
    SignOfPositiveMultiple(v.x, f);
    SignOfPositiveMultiple(v.y, f);
    SignOfPositiveMultiple(Dot(dir, v), f);
  }

  lemma SignOfPositiveMultiple(a: real, f: real)
    requires f > 0.0
    ensures (f * a < 0.0 <==> a < 0.0) && (f * a > 0.0 <==> a > 0.0)
  {
    if a < 0.0 { NegPosMul(a, f); }
    else if a > 0.0 { NegPosMul(-a, f); }
  }

  /** The signs the resolver tests: of each coordinate, and of the dot product with a direction. */
  predicate SameSigns(a: Vec, b: Vec, dir: Vec) {
    (a.x < 0.0 <==> b.x < 0.0) && (a.y < 0.0 <==> b.y < 0.0)
    && (Dot(dir, a) < 0.0 <==> Dot(dir, b) < 0.0) && (Dot(dir, a) > 0.0 <==> Dot(dir, b) > 0.0)
  }

  lemma ScaledBackSigns(u: Vec, n: Vec, mag: real, dir: Vec)
    requires mag > 0.0 && Mult(u, mag) == n
    ensures SameSigns(u, n, dir)
  {
    PositiveScalingKeepsSigns(u, mag, dir);
  }

  lemma ZeroSigns(u: Vec, n: Vec, dir: Vec)
    requires IsZero(u) && IsZero(n)
    ensures SameSigns(u, n, dir)
  {
    ZeroDot(dir, u);
    ZeroDot(dir, n);
  }

  /** Normalising the raw normal (by its magnitude `mag`) changes none of the signs the resolver tests. */
  lemma NormalizationKeepsSigns(n: Vec, mag: real, dir: Vec)
    requires IsMagnitude(n, mag)
    ensures SameSigns(Normalized(n, mag), n, dir)
  {
    var u := Normalized(n, mag);
    if IsZero(n) {
      ZeroSigns(u, n, dir);
    } else {
      ScaledBackSigns(u, n, mag, dir);
    }
  }
}

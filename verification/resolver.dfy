/**
 * danogl.collisions.CollisionResolver: keeps two colliding objects from
 * sinking into each other when both ask for it. Objects live in the world
 * map and are re-read at every step, so the second object's view sees the
 * first object's correction exactly as the Java objects would.
 */
module Resolver {
  import opened Wrappers
  import opened Vectors
  import opened Geometry
  import opened Pairs
  import T = Transforms
  import P = Physics
  import GO = GameObjects
  import A = AABB

  /** Every game object, by reference. */
  type World = map<ObjRef, GO.GameObject>

  /** `SMALL_PENETRATION`: overlaps below this on both axes are left alone. */
  const SMALL_PENETRATION: real := 10.0

  /** Both objects stand still and nothing accelerates them. */
  predicate IsStatic(go1: GO.GameObject, go2: GO.GameObject) {
    Equals(go1.transform.velocity, ZERO) && Equals(go2.transform.velocity, ZERO)
    && Equals(go1.transform.acceleration, ZERO) && Equals(go2.transform.acceleration, ZERO)
  }

  /**
   * `shouldResolve`, in the source's order: a static pair, an object that
   * does not prevent intersections, a pair moving apart along a prevented
   * direction, a normal not facing a prevented direction, or a small overlap
   * all say no. The answer comes with the pair data as the queries left it.
   */
  function ShouldResolve(world: World, o1: ObjRef, o2: ObjRef, d: A.AABBData, fp: A.Fingerprint): (r: Result<(bool, A.AABBData)>)
    requires o1 in world && o2 in world
    ensures IsStatic(world[o1], world[o2]) ==> r == Ok((false, d))
    ensures (!IsStatic(world[o1], world[o2])
             && (world[o1].physics.dirToPrevent.None? || world[o2].physics.dirToPrevent.None?)) ==> r == Ok((false, d))
    ensures r.Ok? && r.value.0 ==>
              var go1, go2 := world[o1], world[o2];
              var (v, d1) := A.GetRelativeVelocity(d, 0, go1, go2);
              !IsStatic(go1, go2) && go1.physics.dirToPrevent.Some? && go2.physics.dirToPrevent.Some?
              && A.GetNormal(d1, 0, go1, go2, fp).Ok?
              && var (n, d2) := A.GetNormal(d1, 0, go1, go2, fp).value;
                 var dir1, dir2 := go1.physics.dirToPrevent.value, go2.physics.dirToPrevent.value;
                 (IsZero(dir1) || (Dot(dir1, v) >= 0.0 && Dot(dir1, n) < 0.0))
                 && (IsZero(dir2) || (Dot(dir2, v) <= 0.0 && Dot(dir2, n) > 0.0))
                 && var (pen, d3) := A.GetPenetrationArea(d2, go1, go2, fp).value;
                    (pen.x >= SMALL_PENETRATION || pen.y >= SMALL_PENETRATION) && r.value.1 == d3
    ensures (var go1, go2 := world[o1], world[o2];
             var (v, d1) := A.GetRelativeVelocity(d, 0, go1, go2);
             !IsStatic(go1, go2) && go1.physics.dirToPrevent.Some? && go2.physics.dirToPrevent.Some?
             && A.GetNormal(d1, 0, go1, go2, fp).Ok?
             && var (n, d2) := A.GetNormal(d1, 0, go1, go2, fp).value;
                var dir1, dir2 := go1.physics.dirToPrevent.value, go2.physics.dirToPrevent.value;
                (IsZero(dir1) || (Dot(dir1, v) >= 0.0 && Dot(dir1, n) < 0.0))
                && (IsZero(dir2) || (Dot(dir2, v) <= 0.0 && Dot(dir2, n) > 0.0))
                && A.GetPenetrationArea(d2, go1, go2, fp).Ok?
                && var (pen, _) := A.GetPenetrationArea(d2, go1, go2, fp).value;
                   pen.x >= SMALL_PENETRATION || pen.y >= SMALL_PENETRATION)
            ==> r.Ok? && r.value.0
    ensures r.Ok? ==> r.value.1.side1 == d.side1
  {
    var go1, go2 := world[o1], world[o2];
    if IsStatic(go1, go2) then Ok((false, d))
    else if go1.physics.dirToPrevent.None? || go2.physics.dirToPrevent.None? then Ok((false, d))
    else
      var dir1, dir2 := go1.physics.dirToPrevent.value, go2.physics.dirToPrevent.value;
      var (v, d1) := A.GetRelativeVelocity(d, 0, go1, go2);
      if (!IsZero(dir1) && Dot(dir1, v) < 0.0) || (!IsZero(dir2) && Dot(dir2, v) > 0.0) then Ok((false, d1))
      else
        match A.GetNormal(d1, 0, go1, go2, fp)
        case Err(e) => Err(e)
        case Ok((n, d2)) =>
          if (!IsZero(dir1) && Dot(dir1, n) >= 0.0) || (!IsZero(dir2) && Dot(dir2, n) <= 0.0) then Ok((false, d2))
          else
            match A.GetPenetrationArea(d2, go1, go2, fp)
            case Err(e) => Err(e)
            case Ok((pen, d3)) =>
              if pen.x < SMALL_PENETRATION && pen.y < SMALL_PENETRATION then Ok((false, d3))
              else Ok((true, d3))
  }

  /** The weights are defined unless the masses differ, neither is immovable, and they sum to zero. */
  predicate WeightsDefined(m1: real, m2: real) {
    m1 == m2 || m1 == P.IMMOVABLE_MASS || m2 == P.IMMOVABLE_MASS || m1 + m2 != 0.0
  }

  /**
   * How much of the correction each object makes: half each for equal
   * masses, all of it for the partner of an immovable object, otherwise in
   * inverse proportion to the masses.
   */
  function Weights(m1: real, m2: real): (w: (real, real))
    requires WeightsDefined(m1, m2)
    ensures w.0 + w.1 == 1.0
    ensures m1 == m2 ==> w == (0.5, 0.5)
    ensures m1 != m2 && m1 == P.IMMOVABLE_MASS ==> w == (0.0, 1.0)
    ensures m1 != m2 && m2 == P.IMMOVABLE_MASS ==> w == (1.0, 0.0)
    ensures m1 != m2 && m1 != P.IMMOVABLE_MASS && m2 != P.IMMOVABLE_MASS ==> w.0 * (m1 + m2) == m2 && w.1 * (m1 + m2) == m1
  {
    if m1 == m2 then (0.5, 0.5)
    else if m1 == P.IMMOVABLE_MASS then (0.0, 1.0)
    else if m2 == P.IMMOVABLE_MASS then (1.0, 0.0)
    else
      FractionsSumToOne(m1, m2);
      (m2 / (m1 + m2), m1 / (m1 + m2))
  }

  lemma FractionsSumToOne(m1: real, m2: real)
    requires m1 + m2 != 0.0
    ensures m2 / (m1 + m2) + m1 / (m1 + m2) == 1.0
    ensures (m2 / (m1 + m2)) * (m1 + m2) == m2 && (m1 / (m1 + m2)) * (m1 + m2) == m1
  {
  }

  /** With positive masses both weights lie in [0, 1], and the heavier object makes the smaller share. */
  lemma HeavierMovesLess(m1: real, m2: real)
    requires 0.0 < m1 && 0.0 < m2
    ensures 0.0 <= Weights(m1, m2).0 <= 1.0 && 0.0 <= Weights(m1, m2).1 <= 1.0
    ensures m1 > m2 && m1 != P.IMMOVABLE_MASS && m2 != P.IMMOVABLE_MASS ==> Weights(m1, m2).0 < Weights(m1, m2).1
  {
    var w := Weights(m1, m2);
    if m1 != m2 && m1 != P.IMMOVABLE_MASS && m2 != P.IMMOVABLE_MASS {
      var s := m1 + m2;
      assert w.0 * s == m2 && w.1 * s == m1;
      PositiveShare(w.0, s, m2);
      PositiveShare(w.1, s, m1);
      if m1 > m2 {
        assert (w.1 - w.0) * s == m1 - m2;
        PositiveShare(w.1 - w.0, s, m1 - m2);
      }
    }
  }

  lemma PositiveShare(w: real, s: real, m: real)
    requires s > 0.0 && m > 0.0 && w * s == m
    ensures w > 0.0
  {
    if w <= 0.0 {
      NonPositiveTimesPositive(w, s);
    }
  }

  lemma NonPositiveTimesPositive(w: real, s: real)
    requires w <= 0.0 && s > 0.0
    ensures w * s <= 0.0
  {
    NonNegPosMul(-w, s);
  }

  /** `yDir`/`xDir`: -1 for a negative normal coordinate, else 1. */
  function DirOf(c: real): (s: real)
    ensures s == 1.0 || s == -1.0
    ensures s < 0.0 <==> c < 0.0
  {
    if c < 0.0 then -1.0 else 1.0
  }

  /** Which correction `resolveOneObject` applies. */
  datatype Axis = Vertical | Horizontal | NoCorrection

  /** The branch condition: a mostly vertical overlap not already moving apart, else a mostly horizontal one. */
  function ChooseAxis(pen: Vec, relV: Vec, n: Vec): (a: Axis)
    ensures a == Vertical <==> pen.x > pen.y && relV.y * DirOf(n.y) <= 0.0
    ensures a == Horizontal ==> pen.y > pen.x && relV.x * DirOf(n.x) <= 0.0
    ensures pen.x == pen.y ==> a == NoCorrection
  {
    if pen.x > pen.y && relV.y * DirOf(n.y) <= 0.0 then Vertical
    else if pen.y > pen.x && relV.x * DirOf(n.x) <= 0.0 then Horizontal
    else NoCorrection
  }

  /**
   * The vertical correction of one transform: shift by weight·yDir·(pen - 1),
   * keeping one unit of overlap so the contact persists; remove the weight's
   * share of an approaching relative velocity; and disable acceleration that
   * pushes into the other object.
   */
  function CorrectY(t: T.Transform, w: real, yDir: real, penY: real, relVY: real): (r: T.Transform)
    ensures r.topLeft == Vec(t.topLeft.x, t.topLeft.y + w * (yDir * (penY - 1.0)))
    ensures r.velocity == (if relVY * yDir < 0.0 then Vec(t.velocity.x, t.velocity.y - w * relVY) else t.velocity)
    ensures r.accelerationEnabled <==> t.accelerationEnabled && t.acceleration.y * yDir >= 0.0
    ensures r.dims == t.dims && r.acceleration == t.acceleration && r.stepVelocity == t.stepVelocity
  {
    var t1 := T.SetTopLeftCornerY(t, t.topLeft.y + w * (yDir * (penY - 1.0)));
    var t2 := if relVY * yDir < 0.0 then T.SetVelocityY(t1, t1.velocity.y - w * relVY) else t1;
    T.SetAccelerationEnabled(t2, t2.accelerationEnabled && t2.acceleration.y * yDir >= 0.0)
  }

  /** The horizontal counterpart of `CorrectY`. */
  function CorrectX(t: T.Transform, w: real, xDir: real, penX: real, relVX: real): (r: T.Transform)
    ensures r.topLeft == Vec(t.topLeft.x + xDir * w * (penX - 1.0), t.topLeft.y)
    ensures r.velocity == (if relVX * xDir < 0.0 then Vec(t.velocity.x - w * relVX, t.velocity.y) else t.velocity)
    ensures r.accelerationEnabled <==> t.accelerationEnabled && t.acceleration.x * xDir >= 0.0
    ensures r.dims == t.dims && r.acceleration == t.acceleration && r.stepVelocity == t.stepVelocity
  {
    var t1 := T.SetTopLeftCornerX(t, t.topLeft.x + xDir * w * (penX - 1.0));
    var t2 := if relVX * xDir < 0.0 then T.SetVelocityX(t1, t1.velocity.x - w * relVX) else t1;
    T.SetAccelerationEnabled(t2, t2.accelerationEnabled && t2.acceleration.x * xDir >= 0.0)
  }

  /** The object at slot `index` of the pair. */
  function Slot(o1: ObjRef, o2: ObjRef, index: int): ObjRef {
    if index == 0 then o1 else o2
  }

  /** Only the object `o` may change, and only its transform's corner, velocity and acceleration flag. */
  predicate OnlyTransformOf(world: World, world': World, o: ObjRef)
    requires o in world
  {
    world'.Keys == world.Keys
    && (forall k :: k in world && k != o ==> world'[k] == world[k])
    && var go, go' := world[o], world'[o];
       go' == go.(transform := go'.transform)
       && go'.transform.dims == go.transform.dims
       && go'.transform.acceleration == go.transform.acceleration
       && go'.transform.stepVelocity == go.transform.stepVelocity
       && (go'.transform.accelerationEnabled ==> go.transform.accelerationEnabled)
  }

  /**
   * `resolveOneObject` for the view `index` (0 for go1, 1 for go2): nothing
   * for a zero weight; otherwise the view's relative velocity, normal and
   * penetration choose a vertical or horizontal correction of that object.
   */
  function ResolveOneObject(world: World, o1: ObjRef, o2: ObjRef, index: int, w: real,
                            d: A.AABBData, fp: A.Fingerprint): (r: Result<(World, A.AABBData)>)
    requires o1 in world && o2 in world && (index == 0 || index == 1)
    ensures w == 0.0 ==> r == Ok((world, d))
    ensures r.Ok? ==> OnlyTransformOf(world, r.value.0, Slot(o1, o2, index))
    ensures r.Ok? && w != 0.0 ==>
              var (v, d1) := A.GetRelativeVelocity(d, index, world[o1], world[o2]);
              A.GetNormal(d1, index, world[o1], world[o2], fp).Ok?
              && var (n, d2) := A.GetNormal(d1, index, world[o1], world[o2], fp).value;
                 var (pen, _) := A.GetPenetrationArea(d2, world[o1], world[o2], fp).value;
                 var t, t' := world[Slot(o1, o2, index)].transform, r.value.0[Slot(o1, o2, index)].transform;
                 (ChooseAxis(pen, v, n) == Vertical ==> t' == CorrectY(t, w, DirOf(n.y), pen.y, v.y))
                 && (ChooseAxis(pen, v, n) == Horizontal ==> t' == CorrectX(t, w, DirOf(n.x), pen.x, v.x))
                 && (ChooseAxis(pen, v, n) == NoCorrection ==> r.value.0 == world)
  {
    if w == 0.0 then Ok((world, d))
    else
      var go1, go2 := world[o1], world[o2];
      var o := Slot(o1, o2, index);
      var (v, d1) := A.GetRelativeVelocity(d, index, go1, go2);
      match A.GetNormal(d1, index, go1, go2, fp)
      case Err(e) => Err(e)
      case Ok((n, d2)) =>
        match A.GetPenetrationArea(d2, go1, go2, fp)
        case Err(e) => Err(e)
        case Ok((pen, d3)) =>
          match ChooseAxis(pen, v, n)
          case NoCorrection => Ok((world, d3))
          case Vertical =>
            // the penetration is asked again; the objects have not moved, so the answer is the same
            var (pen', d4) := A.GetPenetrationArea(d3, go1, go2, fp).value;
            var go := world[o];
            Ok((world[o := go.(transform := CorrectY(go.transform, w, DirOf(n.y), pen'.y, v.y))], d4))
          case Horizontal =>
            var (pen', d4) := A.GetPenetrationArea(d3, go1, go2, fp).value;
            var go := world[o];
            Ok((world[o := go.(transform := CorrectX(go.transform, w, DirOf(n.x), pen'.x, v.x))], d4))
  }

  /**
   * `resolve`: decide with go1's view; split the correction by mass; correct
   * go1 through its view, then go2 through its own, seeing go1 moved.
   */
  function Resolve(world: World, o1: ObjRef, o2: ObjRef, d: A.AABBData, fp: A.Fingerprint): (r: Result<(World, A.AABBData)>)
    requires o1 in world && o2 in world
    requires WeightsDefined(world[o1].physics.mass, world[o2].physics.mass)
    ensures r.Ok? ==> r.value.0.Keys == world.Keys
    ensures r.Ok? ==> forall k :: k in world && k != o1 && k != o2 ==> r.value.0[k] == world[k]
    ensures r.Ok? ==> forall k :: k in world ==> r.value.0[k] == world[k].(transform := r.value.0[k].transform)
    ensures ShouldResolve(world, o1, o2, d, fp).Ok? && !ShouldResolve(world, o1, o2, d, fp).value.0 ==>
              r == Ok((world, ShouldResolve(world, o1, o2, d, fp).value.1))
    ensures ShouldResolve(world, o1, o2, d, fp).Err? ==> r.Err?
    ensures ShouldResolve(world, o1, o2, d, fp).Ok? && ShouldResolve(world, o1, o2, d, fp).value.0 ==>
              var (w1, w2) := Weights(world[o1].physics.mass, world[o2].physics.mass);
              var first := ResolveOneObject(world, o1, o2, 0, w1, ShouldResolve(world, o1, o2, d, fp).value.1, fp);
              (first.Err? ==> r.Err?)
              && (first.Ok? ==> r == ResolveOneObject(first.value.0, o1, o2, 1, w2, first.value.1, fp))
  {
    match ShouldResolve(world, o1, o2, d, fp)
    case Err(e) => Err(e)
    case Ok((should, d1)) =>
      if !should then Ok((world, d1))
      else
        var (w1, w2) := Weights(world[o1].physics.mass, world[o2].physics.mass);
        match ResolveOneObject(world, o1, o2, 0, w1, d1, fp)
        case Err(e) => Err(e)
        case Ok((world1, d2)) => ResolveOneObject(world1, o1, o2, 1, w2, d2, fp)
  }

  /** A pair at rest, with nothing accelerating it, is never touched. */
  lemma StaticPairUntouched(world: World, o1: ObjRef, o2: ObjRef, d: A.AABBData, fp: A.Fingerprint)
    requires o1 in world && o2 in world && WeightsDefined(world[o1].physics.mass, world[o2].physics.mass)
    requires IsStatic(world[o1], world[o2])
    ensures Resolve(world, o1, o2, d, fp) == Ok((world, d))
  {
  }

  /** An immovable object is never moved by a partner of different mass. */
  lemma ImmovableNeverMoves(world: World, o1: ObjRef, o2: ObjRef, d: A.AABBData, fp: A.Fingerprint)
    requires o1 in world && o2 in world && o1 != o2
    requires world[o1].physics.mass == P.IMMOVABLE_MASS && world[o2].physics.mass != P.IMMOVABLE_MASS
    ensures Resolve(world, o1, o2, d, fp).Ok? ==> Resolve(world, o1, o2, d, fp).value.0[o1] == world[o1]
  {
    var s := ShouldResolve(world, o1, o2, d, fp);
    if s.Ok? && s.value.0 {
      var (w1, w2) := Weights(world[o1].physics.mass, world[o2].physics.mass);
      assert w1 == 0.0;
      var r1 := ResolveOneObject(world, o1, o2, 0, w1, s.value.1, fp);
      assert r1 == Ok((world, s.value.1));
    }
  }

  /** A correction never turns acceleration back on, for either object. */
  lemma ResolveNeverEnablesAcceleration(world: World, o1: ObjRef, o2: ObjRef, d: A.AABBData, fp: A.Fingerprint, k: ObjRef)
    requires o1 in world && o2 in world && WeightsDefined(world[o1].physics.mass, world[o2].physics.mass)
    requires k in world && Resolve(world, o1, o2, d, fp).Ok?
    ensures var world' := Resolve(world, o1, o2, d, fp).value.0;
            world'[k].transform.accelerationEnabled ==> world[k].transform.accelerationEnabled
    ensures var world' := Resolve(world, o1, o2, d, fp).value.0;
            world'[k].transform.dims == world[k].transform.dims && world'[k].physics == world[k].physics
  {
    var s := ShouldResolve(world, o1, o2, d, fp);
    if s.value.0 {
      var (w1, w2) := Weights(world[o1].physics.mass, world[o2].physics.mass);
      var (world1, d2) := ResolveOneObject(world, o1, o2, 0, w1, s.value.1, fp).value;
      assert OnlyTransformOf(world, world1, o1);
      assert OnlyTransformOf(world1, Resolve(world, o1, o2, d, fp).value.0, o2);
    }
  }

  /**
   * An object that does the whole vertical correction (its partner is
   * immovable) and was approaching ends with exactly its partner's vertical
   * velocity: the approach is stopped, no more and no less.
   */
  lemma FullCorrectionStopsApproach(t: T.Transform, other: Vec, yDir: real, penY: real)
    requires yDir == 1.0 || yDir == -1.0
    requires (t.velocity.y - other.y) * yDir < 0.0
    ensures CorrectY(t, 1.0, yDir, penY, t.velocity.y - other.y).velocity.y == other.y
  {
  }
}

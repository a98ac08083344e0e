/**
 * The AABB narrow phase (danogl.collisions.AABB): world-space boxes of two
 * objects and their intersection, the per-pair cache that recomputes the
 * intersection at most once per frame and only when a fingerprint of the
 * inputs changed, and the two per-side views (`AABBCollision`) with their
 * normal, contact point, penetration and memoised relative velocity.
 *
 * The fingerprint (a sum of `hashCode`s in Java) is the parameter `fp`:
 * equal fingerprints do not imply equal inputs, and the model does not
 * pretend they do.
 */
module AABB {
  import opened Wrappers
  import opened Vectors
  import opened Geometry
  import P = Physics
  import GO = GameObjects

  /** The change fingerprint of both corners, both dimensions and both collider rectangles. */
  type Fingerprint = (Vec, Vec, Vec, Vec, Rect, Rect) -> int

  /** `((AABBCollider) go.physics().collider()).getRectangle()`: a null collider or a user collider throws. */
  function ColliderRect(go: GO.GameObject): (r: Result<Rect>)
    ensures go.physics.collider.None? <==> r == Err(NullPointer)
    ensures go.physics.collider.Some? && go.physics.collider.value.AABBCollider? <==> r.Ok?
    ensures r.Ok? ==> r.value == go.physics.collider.value.rect
    ensures go.physics.collider.Some? && go.physics.collider.value.OtherCollider? <==> r == Err(ClassCast)
  {
    match go.physics.collider
    case None => Err(NullPointer)
    case Some(AABBCollider(rect)) => Ok(rect)
    case Some(OtherCollider(_)) => Err(ClassCast)
  }

  /** `supportsPair`: both colliders report type "AABB" (evaluated left to right; a null collider throws). */
  function SupportsPair(go1: GO.GameObject, go2: GO.GameObject): (r: Result<bool>)
    ensures go1.physics.collider.None? ==> r == Err(NullPointer)
    ensures r == Ok(true) <==> go1.physics.collider.Some? && go2.physics.collider.Some?
                               && P.ColliderType(go1.physics.collider.value) == P.AABB_COLLIDER_TYPE
                               && P.ColliderType(go2.physics.collider.value) == P.AABB_COLLIDER_TYPE
    ensures go1.physics.collider.Some? && P.ColliderType(go1.physics.collider.value) != P.AABB_COLLIDER_TYPE
            ==> r == Ok(false)
    ensures go1.physics.collider.Some? && go2.physics.collider.Some? ==> r.Ok?
  {
    match go1.physics.collider
    case None => Err(NullPointer)
    case Some(c1) =>
      if P.ColliderType(c1) != P.AABB_COLLIDER_TYPE then Ok(false)
      else if go2.physics.collider.None? then Err(NullPointer)
      else Ok(P.ColliderType(go2.physics.collider.value) == P.AABB_COLLIDER_TYPE)
  }

  /** An object-space rectangle placed in the world: offset by the corner, scaled by the dimensions. */
  function WorldRect(go: GO.GameObject, r: Rect): (w: Rect)
  {
    var tl, d := go.transform.topLeft, go.transform.dims;
    Rect(tl.x + r.x * d.x, tl.y + r.y * d.y, r.width * d.x, r.height * d.y)
  }

  /** The two world rectangles and, when they overlap, their intersection. */
  datatype Overlap = Overlap(rect1World: Rect, rect2World: Rect, intersection: Option<Rect>)

  /** `calcIntersectionRect`: the world rectangles, and null unless they intersect. */
  function CalcIntersectionRect(go1: GO.GameObject, go2: GO.GameObject): (r: Result<Overlap>)
    ensures r.Ok? <==> ColliderRect(go1).Ok? && ColliderRect(go2).Ok?
    ensures r.Ok? ==> r.value.rect1World == WorldRect(go1, ColliderRect(go1).value)
                      && r.value.rect2World == WorldRect(go2, ColliderRect(go2).value)
    ensures r.Ok? ==> (r.value.intersection.Some? <==> Intersects(r.value.rect1World, r.value.rect2World))
    ensures r.Ok? && r.value.intersection.Some? ==>
              r.value.intersection.value == Intersection(r.value.rect1World, r.value.rect2World)
  {
    match ColliderRect(go1)
    case Err(e) => Err(e)
    case Ok(c1) =>
      match ColliderRect(go2)
      case Err(e) => Err(e)
      case Ok(c2) =>
        var w1, w2 := WorldRect(go1, c1), WorldRect(go2, c2);
        Ok(Overlap(w1, w2, if Intersects(w1, w2) then Some(Intersection(w1, w2)) else None))
  }

  /**
   * The intersection found is never empty, is the same whichever object
   * comes first, and holds exactly the points of both world rectangles.
   */
  lemma IntersectionIsCommonPart(go1: GO.GameObject, go2: GO.GameObject, p: Vec)
    requires CalcIntersectionRect(go1, go2).Ok?
    ensures CalcIntersectionRect(go2, go1).Ok?
    ensures var o, o' := CalcIntersectionRect(go1, go2).value, CalcIntersectionRect(go2, go1).value;
            o'.rect1World == o.rect2World && o'.rect2World == o.rect1World && o'.intersection == o.intersection
    ensures var o := CalcIntersectionRect(go1, go2).value;
            o.intersection.Some? ==>
              !IsEmpty(o.intersection.value)
              && (ContainsPoint(o.intersection.value, p) <==> ContainsPoint(o.rect1World, p) && ContainsPoint(o.rect2World, p))
  {
    var o := CalcIntersectionRect(go1, go2).value;
    IntersectsSymmetric(o.rect1World, o.rect2World);
    if o.intersection.Some? {
      IntersectsIffNonEmptyIntersection(o.rect1World, o.rect2World);
      IntersectionContainsPoint(o.rect1World, o.rect2World, p);
    }
  }

  /** The memo of one side: whether its relative velocity was computed this frame, and its value. */
  datatype SideState = SideState(relVelComputed: bool, relVel: Vec)

  /**
   * `AABBPairCollisionData`'s state: whether the world rectangles exist yet,
   * the last stored fingerprint, the cached rectangles and intersection, the
   * per-frame "computed" flag and the two sides' memos.
   */
  datatype AABBData = AABBData(
    inited: bool,
    lastHash: int,
    rect1World: Rect,
    rect2World: Rect,
    intersection: Option<Rect>,
    computed: bool,
    side0: SideState,
    side1: SideState)

  const NO_RECT := Rect(0.0, 0.0, 0.0, 0.0)
  const FRESH_SIDE := SideState(false, ZERO)

  /** The constructor: nothing computed, no rectangles, the stored fingerprint at its default 0. */
  function NewData(): (d: AABBData)
    ensures !d.inited && d.lastHash == 0 && d.intersection.None? && !d.computed
    ensures !d.side0.relVelComputed && !d.side1.relVelComputed
  {
    AABBData(false, 0, NO_RECT, NO_RECT, None, false, FRESH_SIDE, FRESH_SIDE)
  }

  /**
   * `computeCollisionData`: null for pairs the handler does not support or
   * whose boxes do not intersect, otherwise fresh data (go1 in slot 0 is the
   * caller's key). A user collider that claims to be "AABB" fails the cast.
   */
  function ComputeCollisionData(go1: GO.GameObject, go2: GO.GameObject): (r: Result<Option<AABBData>>)
    ensures r.Ok? && r.value.Some? <==>
              SupportsPair(go1, go2) == Ok(true) && CalcIntersectionRect(go1, go2).Ok?
              && CalcIntersectionRect(go1, go2).value.intersection.Some?
    ensures r.Ok? && r.value.Some? ==> r.value.value == NewData()
    ensures (go1.physics.collider.Some? && go1.physics.collider.value.AABBCollider?
             && go2.physics.collider.Some? && go2.physics.collider.value.AABBCollider?) ==> r.Ok?
  {
    match SupportsPair(go1, go2)
    case Err(e) => Err(e)
    case Ok(supported) =>
      if !supported then Ok(None)
      else
        match CalcIntersectionRect(go1, go2)
        case Err(e) => Err(e)
        case Ok(o) => if o.intersection.None? then Ok(None) else Ok(Some(NewData()))
  }

  /** Two objects with AABB colliders get collision data exactly when their world boxes intersect. */
  lemma CollisionDataIffIntersecting(go1: GO.GameObject, go2: GO.GameObject)
    requires go1.physics.collider.Some? && go1.physics.collider.value.AABBCollider?
    requires go2.physics.collider.Some? && go2.physics.collider.value.AABBCollider?
    ensures ComputeCollisionData(go1, go2).Ok?
    ensures ComputeCollisionData(go1, go2).value.Some? <==>
              Intersects(WorldRect(go1, go1.physics.collider.value.rect), WorldRect(go2, go2.physics.collider.value.rect))
  {
  }

  /** The current fingerprint; the casts can throw. */
  function CurrentHash(go1: GO.GameObject, go2: GO.GameObject, fp: Fingerprint): (r: Result<int>)
    ensures r.Ok? <==> ColliderRect(go1).Ok? && ColliderRect(go2).Ok?
    ensures r.Ok? ==> r.value == fp(go1.transform.topLeft, go2.transform.topLeft, go1.transform.dims,
                                    go2.transform.dims, ColliderRect(go1).value, ColliderRect(go2).value)
  {
    match ColliderRect(go1)
    case Err(e) => Err(e)
    case Ok(r1) =>
      match ColliderRect(go2)
      case Err(e) => Err(e)
      case Ok(r2) =>
        Ok(fp(go1.transform.topLeft, go2.transform.topLeft, go1.transform.dims, go2.transform.dims, r1, r2))
  }

  /**
   * `hasAnythingChanged`: true before the first computation (without storing
   * a fingerprint); afterwards true exactly when the fingerprint differs from
   * the stored one, which is then replaced.
   */
  function HasAnythingChanged(d: AABBData, go1: GO.GameObject, go2: GO.GameObject, fp: Fingerprint): (r: Result<(bool, AABBData)>)
    ensures !d.inited ==> r == Ok((true, d))
    ensures d.inited ==> (r.Ok? <==> CurrentHash(go1, go2, fp).Ok?)
    ensures d.inited && r.Ok? ==>
              var h := CurrentHash(go1, go2, fp).value;
              (r.value.0 <==> h != d.lastHash) && r.value.1 == d.(lastHash := h)
  {
    if !d.inited then Ok((true, d))
    else
      match CurrentHash(go1, go2, fp)
      case Err(e) => Err(e)
      case Ok(h) => if h == d.lastHash then Ok((false, d)) else Ok((true, d.(lastHash := h)))
  }

  /**
   * `updateIntersectionRect`: nothing once computed this frame or when nothing
   * changed; otherwise the rectangles and intersection are recomputed and the
   * frame is marked computed. The side memos are never touched.
   */
  function UpdateIntersectionRect(d: AABBData, go1: GO.GameObject, go2: GO.GameObject, fp: Fingerprint): (r: Result<AABBData>)
    ensures d.computed ==> r == Ok(d)
    ensures r.Ok? ==> r.value.side0 == d.side0 && r.value.side1 == d.side1
    ensures r.Ok? && !r.value.computed ==> r.value == d.(lastHash := r.value.lastHash) && r.value.inited
    ensures r.Ok? && !d.computed && r.value.computed ==>
              CalcIntersectionRect(go1, go2).Ok? &&
              var o := CalcIntersectionRect(go1, go2).value;
              r.value.inited && r.value.rect1World == o.rect1World && r.value.rect2World == o.rect2World
              && r.value.intersection == o.intersection
    ensures !d.computed && !d.inited ==> (r.Ok? <==> CalcIntersectionRect(go1, go2).Ok?)
    ensures !d.computed && !d.inited && r.Ok? ==> r.value.computed
  {
    if d.computed then Ok(d)
    else
      match HasAnythingChanged(d, go1, go2, fp)
      case Err(e) => Err(e)
      case Ok((changed, d')) =>
        if !changed then Ok(d')
        else
          match CalcIntersectionRect(go1, go2)
          case Err(e) => Err(e)
          case Ok(o) =>
            Ok(d'.(inited := true, rect1World := o.rect1World, rect2World := o.rect2World,
                   intersection := o.intersection, computed := true))
  }

  /**
   * Asking again with the objects unchanged changes nothing: after an update
   * either the frame is marked computed or the stored fingerprint is the
   * current one.
   */
  lemma UpdateIsIdempotent(d: AABBData, go1: GO.GameObject, go2: GO.GameObject, fp: Fingerprint)
    requires UpdateIntersectionRect(d, go1, go2, fp).Ok?
    ensures var d' := UpdateIntersectionRect(d, go1, go2, fp).value;
            UpdateIntersectionRect(d', go1, go2, fp) == Ok(d')
  {
  }

  /**
   * A stale intersection survives when the fingerprint happens to match the
   * stored one, even if an object moved: the cache trusts the fingerprint.
   */
  lemma EqualFingerprintKeepsCache(d: AABBData, go1: GO.GameObject, go2: GO.GameObject, fp: Fingerprint)
    requires d.inited && !d.computed && CurrentHash(go1, go2, fp) == Ok(d.lastHash)
    ensures UpdateIntersectionRect(d, go1, go2, fp) == Ok(d)
  {
  }

  /** `areColliding`: after an update attempt, an intersection that is there and not empty. */
  function AreColliding(d: AABBData, go1: GO.GameObject, go2: GO.GameObject, fp: Fingerprint): (r: Result<(bool, AABBData)>)
    ensures r.Ok? <==> UpdateIntersectionRect(d, go1, go2, fp).Ok?
    ensures r.Ok? ==> r.value.1 == UpdateIntersectionRect(d, go1, go2, fp).value
    ensures r.Ok? ==> (r.value.0 <==> r.value.1.intersection.Some? && !IsEmpty(r.value.1.intersection.value))
  {
    match UpdateIntersectionRect(d, go1, go2, fp)
    case Err(e) => Err(e)
    case Ok(d') => Ok((d'.intersection.Some? && !IsEmpty(d'.intersection.value), d'))
  }

  /** When the answer was freshly computed, the pair collides exactly when the world boxes intersect. */
  lemma FreshAnswerIsIntersection(d: AABBData, go1: GO.GameObject, go2: GO.GameObject, fp: Fingerprint)
    requires !d.computed && AreColliding(d, go1, go2, fp).Ok? && AreColliding(d, go1, go2, fp).value.1.computed
    ensures var o := CalcIntersectionRect(go1, go2).value;
            AreColliding(d, go1, go2, fp).value.0 <==> Intersects(o.rect1World, o.rect2World)
  {
    var o := CalcIntersectionRect(go1, go2).value;
    if Intersects(o.rect1World, o.rect2World) {
      IntersectsIffNonEmptyIntersection(o.rect1World, o.rect2World);
    }
  }

  /** `onFrameStart`: the frame is no longer computed and both sides forget their relative velocity. */
  function OnFrameStart(d: AABBData): (r: AABBData)
    ensures !r.computed && !r.side0.relVelComputed && !r.side1.relVelComputed
    ensures r.side0.relVel == d.side0.relVel && r.side1.relVel == d.side1.relVel
    ensures r == d.(computed := false, side0 := r.side0, side1 := r.side1)
  {
    d.(computed := false, side0 := d.side0.(relVelComputed := false), side1 := d.side1.(relVelComputed := false))
  }

  /** `getRectWorld`: index 0 is the first object's rectangle, any other index the second's. */
  function GetRectWorld(d: AABBData, index: int): (r: Rect)
    ensures index == 0 ==> r == d.rect1World
    ensures index != 0 ==> r == d.rect2World
  {
    if index == 0 then d.rect1World else d.rect2World
  }

  function Side(d: AABBData, index: int): SideState {
    if index == 0 then d.side0 else d.side1
  }

  function WithSide(d: AABBData, index: int, s: SideState): (r: AABBData)
    requires index == 0 || index == 1
    ensures Side(r, index) == s && Side(r, 1 - index) == Side(d, 1 - index)
  {
    if index == 0 then d.(side0 := s) else d.(side1 := s)
  }

  /**
   * `getRelativeVelocity` of side `index`: the memo if computed this frame;
   * otherwise the exact negation of the partner's value if the partner
   * computed this frame; otherwise my velocity minus the partner's, now.
   */
  function GetRelativeVelocity(d: AABBData, index: int, go1: GO.GameObject, go2: GO.GameObject): (r: (Vec, AABBData))
    requires index == 0 || index == 1
    ensures Side(d, index).relVelComputed ==> r == (Side(d, index).relVel, d)
    ensures !Side(d, index).relVelComputed && Side(d, 1 - index).relVelComputed ==>
              r.0 == Vec(-Side(d, 1 - index).relVel.x, -Side(d, 1 - index).relVel.y)
    ensures !Side(d, index).relVelComputed && !Side(d, 1 - index).relVelComputed ==>
              var mine, theirs := if index == 0 then go1 else go2, if index == 0 then go2 else go1;
              r.0 == Vec(mine.transform.velocity.x - theirs.transform.velocity.x,
                         mine.transform.velocity.y - theirs.transform.velocity.y)
    ensures r.1 == WithSide(d, index, SideState(true, r.0))
  {
    var mine := Side(d, index);
    if mine.relVelComputed then (mine.relVel, d)
    else
      var partner := Side(d, 1 - index);
      var v := if partner.relVelComputed then Mult(partner.relVel, -1.0)
               else if index == 0 then Subtract(go1.transform.velocity, go2.transform.velocity)
               else Subtract(go2.transform.velocity, go1.transform.velocity);
      (v, WithSide(d, index, SideState(true, v)))
  }

  /**
   * Once both sides were asked in a frame, their relative velocities are exact
   * negations, even if the velocities changed between the two questions.
   */
  lemma RelativeVelocitiesOpposite(d: AABBData, index: int, go1: GO.GameObject, go2: GO.GameObject,
                                   go1': GO.GameObject, go2': GO.GameObject)
    requires index == 0 || index == 1
    requires !d.side0.relVelComputed && !d.side1.relVelComputed
    ensures var (v, d1) := GetRelativeVelocity(d, index, go1, go2);
            var (w, _) := GetRelativeVelocity(d1, 1 - index, go1', go2');
            w == Vec(-v.x, -v.y)
            && GetRelativeVelocity(d1, index, go1', go2').0 == v
  {
  }

  /** Every side query first brings the intersection up to date; NullPointerException if there is none. */
  function Intersected(d: AABBData, go1: GO.GameObject, go2: GO.GameObject, fp: Fingerprint): (r: Result<(Rect, AABBData)>)
    ensures r.Ok? <==> UpdateIntersectionRect(d, go1, go2, fp).Ok?
                       && UpdateIntersectionRect(d, go1, go2, fp).value.intersection.Some?
    ensures r.Ok? ==> r.value.1 == UpdateIntersectionRect(d, go1, go2, fp).value
                      && r.value.0 == r.value.1.intersection.value
  {
    match UpdateIntersectionRect(d, go1, go2, fp)
    case Err(e) => Err(e)
    case Ok(d') => if d'.intersection.None? then Err(NullPointer) else Ok((d'.intersection.value, d'))
  }

  /**
   * `getNormal` of side `index`, before normalisation: from the intersection's
   * centre to the centre of my world rectangle. Java then normalises it;
   * `AABBNormals.NormalizationKeepsSigns` shows that changes no sign the resolver tests.
   */
  function GetNormal(d: AABBData, index: int, go1: GO.GameObject, go2: GO.GameObject, fp: Fingerprint): (r: Result<(Vec, AABBData)>)
    ensures r.Ok? <==> Intersected(d, go1, go2, fp).Ok?
    ensures r.Ok? ==> var (i, d') := Intersected(d, go1, go2, fp).value;
                      r.value.1 == d'
                      && r.value.0 == Vec(CenterX(GetRectWorld(d', index)) - CenterX(i),
                                          CenterY(GetRectWorld(d', index)) - CenterY(i))
  {
    match Intersected(d, go1, go2, fp)
    case Err(e) => Err(e)
    case Ok((i, d')) =>
      var mine := GetRectWorld(d', index);
      Ok((Vec(CenterX(mine) - CenterX(i), CenterY(mine) - CenterY(i)), d'))
  }

  /** `getCollisionPoint`: the centre of the intersection. */
  function GetCollisionPoint(d: AABBData, go1: GO.GameObject, go2: GO.GameObject, fp: Fingerprint): (r: Result<(Vec, AABBData)>)
    ensures r.Ok? <==> Intersected(d, go1, go2, fp).Ok?
    ensures r.Ok? ==> var (i, d') := Intersected(d, go1, go2, fp).value;
                      r.value == (Vec(CenterX(i), CenterY(i)), d')
  {
    match Intersected(d, go1, go2, fp)
    case Err(e) => Err(e)
    case Ok((i, d')) => Ok((Vec(CenterX(i), CenterY(i)), d'))
  }

  /** `getPenetrationArea`: the intersection's width and height. */
  function GetPenetrationArea(d: AABBData, go1: GO.GameObject, go2: GO.GameObject, fp: Fingerprint): (r: Result<(Vec, AABBData)>)
    ensures r.Ok? <==> Intersected(d, go1, go2, fp).Ok?
    ensures r.Ok? ==> var (i, d') := Intersected(d, go1, go2, fp).value;
                      r.value == (Vec(i.width, i.height), d')
  {
    match Intersected(d, go1, go2, fp)
    case Err(e) => Err(e)
    case Ok((i, d')) => Ok((Vec(i.width, i.height), d'))
  }

  /**
   * From a freshly computed intersection, the two sides' normals never point
   * the same way on an axis: the intersection's centre lies between the two
   * boxes' centres. The contact point lies in both boxes.
   */
  lemma NormalsOppose(d: AABBData, go1: GO.GameObject, go2: GO.GameObject, fp: Fingerprint)
    requires !d.computed && Intersected(d, go1, go2, fp).Ok? && Intersected(d, go1, go2, fp).value.1.computed
    ensures var n0, n1 := GetNormal(d, 0, go1, go2, fp).value.0, GetNormal(d, 1, go1, go2, fp).value.0;
            (n0.x <= 0.0 <= n1.x || n1.x <= 0.0 <= n0.x) && (n0.y <= 0.0 <= n1.y || n1.y <= 0.0 <= n0.y)
    ensures var (p, d') := GetCollisionPoint(d, go1, go2, fp).value;
            ContainsPoint(d'.rect1World, p) && ContainsPoint(d'.rect2World, p)
  {
    var (i, d') := Intersected(d, go1, go2, fp).value;
    var a, b := d'.rect1World, d'.rect2World;
    assert Intersects(a, b) && i == Intersection(a, b);
    IntersectionContainsPoint(a, b, Vec(CenterX(i), CenterY(i)));
  }
}

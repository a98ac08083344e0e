/**
 * danogl.components.GameObjectPhysics and the collider it holds: mass, the
 * direction from which intersections are prevented (null: not solid) and the
 * collider, of which the engine itself defines only the axis-aligned box
 * (danogl.collisions.AABB.AABBCollider).
 */
module Physics {
  import opened Wrappers
  import opened Vectors
  import opened Geometry

  const AABB_COLLIDER_TYPE: string := "AABB"

  /** `Float.MAX_VALUE`, (2 - 2^-23) * 2^127, written out exactly. */
  const IMMOVABLE_MASS: real := 340282346638528859811704183484516925440.0

  /**
   * A collider: the AABB collider with its object-space rectangle (fixed at
   * construction, there being no setter), or a user-defined collider known
   * only by the type string it reports.
   */
  datatype Collider = AABBCollider(rect: Rect) | OtherCollider(typeName: string)

  /** `colliderType()`: an AABB collider always reports "AABB". */
  function ColliderType(c: Collider): (s: string)
    ensures c.AABBCollider? ==> s == AABB_COLLIDER_TYPE
  {
    match c
    case AABBCollider(_) => AABB_COLLIDER_TYPE
    case OtherCollider(t) => t
  }

  /** `new AABBCollider(x, y, w, h)`: its rectangle is exactly what was given. */
  function NewAABBCollider(x: real, y: real, width: real, height: real): (c: Collider)
    ensures c.AABBCollider? && c.rect == Rect(x, y, width, height)
    ensures ColliderType(c) == AABB_COLLIDER_TYPE
  {
    AABBCollider(Rect(x, y, width, height))
  }

  /**
   * `AABBCollider.containsPoint`: the point, in object coordinates, against
   * the object-space rectangle. A user collider answers through `other`.
   */
  function ColliderContainsPoint(c: Collider, p: Vec, other: (string, Vec) -> bool): (b: bool)
    ensures c.AABBCollider? ==> (b <==> p.x >= c.rect.x && p.y >= c.rect.y
                                        && p.x < c.rect.x + c.rect.width && p.y < c.rect.y + c.rect.height)
    ensures c.OtherCollider? ==> b == other(c.typeName, p)
  {
    match c
    case AABBCollider(r) => ContainsPoint(r, p)
    case OtherCollider(t) => other(t, p)
  }

  datatype PhysicsState = PhysicsState(collider: Option<Collider>, dirToPrevent: Option<Vec>, mass: real)

  /** `new GameObjectPhysics()`: mass 1, no prevented direction (not solid), no collider yet. */
  function Create(): (p: PhysicsState)
    ensures p.mass == 1.0 && p.dirToPrevent.None? && p.collider.None?
  {
    PhysicsState(None, None, 1.0)
  }

  /** `preventIntersectionsFromDirection`: null clears the direction, anything else is stored as an equal copy. */
  function PreventIntersectionsFromDirection(p: PhysicsState, dir: Option<Vec>): (r: PhysicsState)
    ensures dir.None? ==> r.dirToPrevent.None?
    ensures dir.Some? ==> r.dirToPrevent.Some? && Equals(r.dirToPrevent.value, dir.value)
    ensures r.mass == p.mass && r.collider == p.collider
  {
    match dir
    case None => p.(dirToPrevent := None)
    case Some(d) => p.(dirToPrevent := Some(Vec(d.x, d.y)))
  }

  function SetMass(p: PhysicsState, mass: real): (r: PhysicsState)
    ensures r.mass == mass && r.collider == p.collider && r.dirToPrevent == p.dirToPrevent
  {
    p.(mass := mass)
  }

  function SetCollider(p: PhysicsState, c: Option<Collider>): (r: PhysicsState)
    ensures r.collider == c && r.mass == p.mass && r.dirToPrevent == p.dirToPrevent
  {
    p.(collider := c)
  }

  /** Setting a direction and reading it back gives an equal direction; a second call overrides the first. */
  lemma PreventDirectionRoundTrip(p: PhysicsState, d1: Option<Vec>, d2: Option<Vec>)
    ensures PreventIntersectionsFromDirection(PreventIntersectionsFromDirection(p, d1), d2)
              == PreventIntersectionsFromDirection(p, d2)
  {
  }
}

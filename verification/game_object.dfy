/**
 * danogl.GameObject: a transform, a renderer, physics settings, a coordinate
 * space, a tag and a lazily created, deferred list of components. Objects are
 * values here; who refers to which object is kept by the collections that
 * hold `Pairs.ObjRef` references to them.
 */
module GameObjects {
  import opened Wrappers
  import opened Vectors
  import opened Geometry
  import T = Transforms
  import P = Physics
  import R = Renderers
  import DL = DeferredList
  import CL = ComponentLists
  import ST = ScheduledTasks
  import Tr = Transitions

  datatype CoordinateSpace = WorldCoordinates | CameraCoordinates

  datatype GameObject = GameObject(
    transform: T.Transform,
    renderer: R.Renderer,
    physics: P.PhysicsState,
    space: CoordinateSpace,
    tag: string,
    components: Option<DL.ModList<CL.ComponentId>>)

  /** The collider every new object gets: the whole object, in object coordinates. */
  const DEFAULT_COLLIDER: P.Collider := P.NewAABBCollider(0.0, 0.0, 1.0, 1.0)

  /**
   * The constructor: a transform at the given corner and size, a renderer for
   * the given renderable, default physics with the unit AABB collider, world
   * coordinates, the empty tag and no component list yet.
   */
  function Create(topLeft: Vec, dims: Vec, renderable: Option<R.Renderable>): (go: GameObject)
    ensures go.transform == T.Create(topLeft, dims) && go.renderer == R.Create(renderable)
    ensures go.physics.collider == Some(P.AABBCollider(Rect(0.0, 0.0, 1.0, 1.0)))
    ensures go.physics.mass == 1.0 && go.physics.dirToPrevent.None?
    ensures go.space == WorldCoordinates && go.tag == "" && go.components.None?
  {
    GameObject(T.Create(topLeft, dims), R.Create(renderable),
               P.SetCollider(P.Create(), Some(DEFAULT_COLLIDER)), WorldCoordinates, "", None)
  }

  /**
   * `update(dt)`: integrate the transform, re-enable acceleration (the
   * resolver may have disabled it), update the renderer, run the committed
   * components in order and flush the component list. Components call
   * `addComponent` and `removeComponent` on the object while they run; `fx`
   * says which calls each component makes in this update, and they reach the
   * list before the flush. The result carries the ids of the components run,
   * in order; what a component does besides those calls is modelled by the
   * component's own module.
   */
  function Update(go: GameObject, dt: real, fx: CL.Requests): (r: Result<(GameObject, seq<CL.ComponentId>)>)
    ensures r.Err? <==> R.Update(go.renderer, dt).Err?
    ensures r.Ok? ==>
              var (go', ran) := r.value;
              go'.transform == T.SetAccelerationEnabled(T.Update(go.transform, dt), true)
              && go'.renderer == R.Update(go.renderer, dt).value
              && go'.physics == go.physics && go'.space == go.space && go'.tag == go.tag
              && (go.components.None? ==> ran == [] && go'.components.None?)
              && (go.components.Some? ==> ran == go.components.value.list
                                          && go'.components == Some(DL.Flush(CL.Apply(go.components.value, CL.Requested(ran, fx)))))
    ensures r.Ok? && go.components.Some? ==>
              var m, m' := go.components.value, r.value.0.components.value;
              (CL.ListValid(m) ==> CL.ListValid(m'))
              && (forall c :: c in m'.list ==> c in m.toAdd || c in m.list || exists k :: k in m.list && CL.AddRequest(c) in fx(k))
              && (forall c :: c in m.list && c !in m.toRemove && (forall k :: k in m.list ==> CL.RemoveRequest(c) !in fx(k)) ==> c in m'.list)
              && ((forall k :: k in m.list ==> fx(k) == []) ==> m' == DL.Flush(m))
  {
    var transform := T.SetAccelerationEnabled(T.Update(go.transform, dt), true);
    match R.Update(go.renderer, dt)
    case Err(e) => Err(e)
    case Ok(renderer) =>
      match go.components
      case None => Ok((go.(transform := transform, renderer := renderer), []))
      case Some(m) =>
        var m1 := CL.Apply(m, CL.Requested(m.list, fx));
        RunAndFlushFacts(m, fx);
        Ok((go.(transform := transform, renderer := renderer, components := Some(DL.Flush(m1))), m.list))
  }

  /** What running the committed components of `m` and then flushing keeps, brings in and leaves alone. */
  lemma RunAndFlushFacts(m: DL.ModList<CL.ComponentId>, fx: CL.Requests)
    ensures var m' := DL.Flush(CL.Apply(m, CL.Requested(m.list, fx)));
            (CL.ListValid(m) ==> CL.ListValid(m'))
            && (forall c :: c in m'.list ==> c in m.toAdd || c in m.list || exists k :: k in m.list && CL.AddRequest(c) in fx(k))
            && (forall c :: c in m.list && c !in m.toRemove && (forall k :: k in m.list ==> CL.RemoveRequest(c) !in fx(k)) ==> c in m'.list)
            && ((forall k :: k in m.list ==> fx(k) == []) ==> m' == DL.Flush(m))
  {
    var reqs := CL.Requested(m.list, fx);
    var m1 := CL.Apply(m, reqs);
    var m' := DL.Flush(m1);
    if CL.ListValid(m) {
      CL.ApplyKeepsValid(m, reqs);
    }
    forall c | c in m'.list
      ensures c in m.toAdd || c in m.list || exists k :: k in m.list && CL.AddRequest(c) in fx(k)
    {
      assert c in m1.toAdd || c in m1.list;
      if c in m1.toAdd && c !in m.toAdd && c !in m.list {
        CL.PendingAdditionRequested(m, reqs, c);
      }
    }
    forall c | c in m.list && c !in m.toRemove && (forall k :: k in m.list ==> CL.RemoveRequest(c) !in fx(k))
      ensures c in m'.list
    {
      CL.NoRemovalKeepsCommitted(m, reqs, c);
    }
    if forall k :: k in m.list ==> fx(k) == [] {
      CL.NothingRequested(m.list, fx, m);
    }
  }

  /** `addComponent`: creates the list on first use; the component is queued. */
  function AddComponent(go: GameObject, c: CL.ComponentId): (r: GameObject)
    ensures r.components == Some(CL.AddComponent(go.components, c))
    ensures r == go.(components := r.components)
  {
    go.(components := Some(CL.AddComponent(go.components, c)))
  }

  /** `removeComponent`: NullPointerException before any `addComponent`; otherwise the removal is queued. */
  function RemoveComponent(go: GameObject, c: CL.ComponentId): (r: Result<GameObject>)
    ensures r.Err? <==> go.components.None?
    ensures r.Ok? ==> r.value == go.(components := Some(CL.RemoveComponent(go.components, c).value))
  {
    match CL.RemoveComponent(go.components, c)
    case Err(e) => Err(e)
    case Ok(m) => Ok(go.(components := Some(m)))
  }

  /**
   * A component added to an object does not run in the next update, which
   * only flushes it in (unless a component of that update asks to remove
   * it); it runs in the update after that.
   */
  lemma ComponentRunsFromTheFollowingUpdate(go: GameObject, c: CL.ComponentId, dt1: real, dt2: real,
                                            fx1: CL.Requests, fx2: CL.Requests)
    requires go.components.Some? ==> CL.ListValid(go.components.value) && c !in go.components.value.list
    requires forall k :: CL.RemoveRequest(c) !in fx1(k)
    requires Update(AddComponent(go, c), dt1, fx1).Ok?
    ensures var (go1, ran1) := Update(AddComponent(go, c), dt1, fx1).value;
            c !in ran1 && go1.components.Some? && c in go1.components.value.list
            && (Update(go1, dt2, fx2).Ok? ==> c in Update(go1, dt2, fx2).value.1)
  {
    var go0 := AddComponent(go, c);
    var m := go0.components.value;
    assert CL.ListValid(m) && c !in m.list && c in m.toAdd by {
      if go.components.Some? {
        assert m == DL.Add(go.components.value, c).0;
      }
    }
    var reqs := CL.Requested(m.list, fx1);
    assert CL.RemoveRequest(c) !in reqs;
    CL.StaysInAll(m, reqs, c);
    CL.ApplyKeepsValid(m, reqs);
    DL.ContainsAgreesWithFlush(CL.Apply(m, reqs), c);
  }

  /**
   * A one-shot scheduled task that fires while its object updates is no
   * longer among the object's components afterwards, unless some component
   * adds it again in the same update.
   */
  lemma FiredOneShotTaskIsGone(go: GameObject, dt: real, fx: CL.Requests, id: CL.ComponentId, task: ST.ScheduledTask)
    requires go.components.Some? && CL.ListValid(go.components.value) && id in go.components.value.list
    requires !task.repeat && task.timePassed + dt >= task.waitTime
    requires forall q :: q in CL.SelfRemoval(id, ST.Update(task, dt).1.removeSelf) ==> q in fx(id)
    requires forall k :: CL.AddRequest(id) !in fx(k)
    requires R.Update(go.renderer, dt).Ok?
    ensures Update(go, dt, fx).Ok? && id !in Update(go, dt, fx).value.0.components.value.list
  {
    var m := go.components.value;
    assert CL.RemoveRequest(id) in fx(id);
    var reqs := CL.Requested(m.list, fx);
    CL.RemovalTakesEffect(m, reqs, id);
    CL.ApplyKeepsValid(m, reqs);
    DL.ContainsAgreesWithFlush(CL.Apply(m, reqs), id);
  }

  /**
   * A ONCE transition whose update reaches the final value is no longer
   * among its object's components afterwards, unless some component adds it
   * again in the same update.
   */
  lemma FinishedOnceTransitionIsGone<V>(go: GameObject, dt: real, fx: CL.Requests, id: CL.ComponentId, tr: Tr.Transition<V>)
    requires go.components.Some? && CL.ListValid(go.components.value) && id in go.components.value.list
    requires Tr.Valid(tr) && tr.kind == Tr.TransitionOnce && tr.factor == 1 && tr.t + dt / tr.transitionTime >= 1.0
    requires forall q :: q in CL.SelfRemoval(id, Tr.Update(tr, dt).1.removeSelf) ==> q in fx(id)
    requires forall k :: CL.AddRequest(id) !in fx(k)
    requires R.Update(go.renderer, dt).Ok?
    ensures Update(go, dt, fx).Ok? && id !in Update(go, dt, fx).value.0.components.value.list
  {
    Tr.OnceFinishes(tr, dt);
    var m := go.components.value;
    assert CL.RemoveRequest(id) in fx(id);
    var reqs := CL.Requested(m.list, fx);
    CL.RemovalTakesEffect(m, reqs, id);
    CL.ApplyKeepsValid(m, reqs);
    DL.ContainsAgreesWithFlush(CL.Apply(m, reqs), id);
  }

  /** `setCoordinateSpace`: null is refused with IllegalArgumentException. */
  function SetCoordinateSpace(go: GameObject, space: Option<CoordinateSpace>): (r: Result<GameObject>)
    ensures space.None? <==> r == Err(IllegalArgument)
    ensures space.Some? ==> r == Ok(go.(space := space.value))
  {
    match space
    case None => Err(IllegalArgument)
    case Some(s) => Ok(go.(space := s))
  }

  /**
   * `worldToObjectCoords`: relative to the top-left corner, in units of the
   * dimensions. With a zero dimension Java multiplies by an infinite
   * reciprocal; that case is `None`.
   */
  function WorldToObjectCoords(go: GameObject, p: Vec): (r: Option<Vec>)
    ensures r.None? <==> go.transform.dims.x == 0.0 || go.transform.dims.y == 0.0
  {
    var d := go.transform.dims;
    var tl := go.transform.topLeft;
    if d.x == 0.0 || d.y == 0.0 then None
    else Some(Vec((p.x - tl.x) * (1.0 / d.x), (p.y - tl.y) * (1.0 / d.y)))
  }

  /** `objectToWorldCoords`: scale by the dimensions, then offset by the top-left corner. */
  function ObjectToWorldCoords(go: GameObject, p: Vec): (r: Vec)
  {
    Vec(p.x * go.transform.dims.x + go.transform.topLeft.x, p.y * go.transform.dims.y + go.transform.topLeft.y)
  }

  /** With non-zero dimensions the two conversions are inverse to each other, both ways round. */
  lemma CoordinateConversionsRoundTrip(go: GameObject, p: Vec, q: Vec)
    requires go.transform.dims.x != 0.0 && go.transform.dims.y != 0.0
    ensures ObjectToWorldCoords(go, WorldToObjectCoords(go, p).value) == p
    ensures WorldToObjectCoords(go, ObjectToWorldCoords(go, q)) == Some(q)
  {
    var d := go.transform.dims;
    ReciprocalCancels(p.x - go.transform.topLeft.x, d.x);
    ReciprocalCancels(p.y - go.transform.topLeft.y, d.y);
    ObjectToWorldThenBack(go, q);
  }

  lemma ObjectToWorldThenBack(go: GameObject, q: Vec)
    requires go.transform.dims.x != 0.0 && go.transform.dims.y != 0.0
    ensures WorldToObjectCoords(go, ObjectToWorldCoords(go, q)) == Some(q)
  {
    var d, tl := go.transform.dims, go.transform.topLeft;
    var w := ObjectToWorldCoords(go, q);
    var a, b := w.x - tl.x, w.y - tl.y;
    assert a == q.x * d.x && b == q.y * d.y;
    ReciprocalCancels(q.x, d.x);
    ReciprocalCancels(q.y, d.y);
    assert a * (1.0 / d.x) == q.x && b * (1.0 / d.y) == q.y;
    var r := WorldToObjectCoords(go, w);
    assert r.Some?;
    assert r.value.x == a * (1.0 / d.x);
    assert r.value.y == b * (1.0 / d.y);
    assert r.value == q;
  }

  lemma ReciprocalCancels(a: real, d: real)
    requires d != 0.0
    ensures a * (1.0 / d) * d == a && a * d * (1.0 / d) == a
  {
    DivMul(1.0, d);
    assert a * (1.0 / d) * d == a * ((1.0 / d) * d);
    assert a * d * (1.0 / d) == a * ((1.0 / d) * d);
  }

  /**
   * `containsPoint`: the collider asked about the point in object
   * coordinates; NullPointerException without a collider. With a zero
   * dimension the object coordinates are infinite or NaN and the AABB
   * comparisons all fail; a user collider answers through `other`, which is
   * told whether the point is finite.
   */
  function ContainsPoint(go: GameObject, p: Vec, other: (string, Option<Vec>) -> bool): (r: Result<bool>)
    ensures go.physics.collider.None? <==> r == Err(NullPointer)
    ensures go.physics.collider.Some? && WorldToObjectCoords(go, p).Some? ==>
              r == Ok(P.ColliderContainsPoint(go.physics.collider.value, WorldToObjectCoords(go, p).value,
                                              (t, q) => other(t, Some(q))))
    ensures go.physics.collider.Some? && go.physics.collider.value.AABBCollider? && WorldToObjectCoords(go, p).None? ==>
              r == Ok(false)
  {
    match go.physics.collider
    case None => Err(NullPointer)
    case Some(c) =>
      match WorldToObjectCoords(go, p)
      case Some(q) => Ok(P.ColliderContainsPoint(c, q, (t, q) => other(t, Some(q))))
      case None => Ok(if c.AABBCollider? then false else other(c.typeName, None))
  }
}

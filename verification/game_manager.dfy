/**
 * danogl.GameManager: the frame loop and mouse dispatch. A frame updates
 * every committed object in drawing order, then the camera, then flushes
 * the collection's pending additions and removals, then runs the collision
 * pass over what is now committed. The window, rendering and input
 * listeners are not part of this model.
 */
module Game {
  import opened Wrappers
  import opened Vectors
  import opened Seqs
  import opened Pairs
  import GO = GameObjects
  import Cam = Cameras
  import C = Collection
  import L = Layers
  import A = AABB
  import R = Resolver
  import CL = ComponentLists
  import DL = DeferredList

  const DEFAULT_WINDOW_TITLE: string := "DanoGameLab"

  /** `objects` is null until `initializeGame`; so is the camera until one is set. */
  datatype Manager = Manager(
    title: string,
    windowDims: Option<Vec>,
    objects: Option<C.Collection>,
    camera: Option<Cam.Camera>)

  /** The constructors: a null title becomes the default one; the no-argument constructor passes the default title itself. */
  function Create(title: Option<string>, windowDims: Option<Vec>): (m: Manager)
    ensures m.title == (if title.None? then DEFAULT_WINDOW_TITLE else title.value)
    ensures m.windowDims == windowDims && m.objects.None? && m.camera.None?
  {
    Manager(if title.None? then DEFAULT_WINDOW_TITLE else title.value, windowDims, None, None)
  }

  /** `initializeGame`: a fresh collection and no camera. */
  function InitializeGame(m: Manager): (r: Manager)
    ensures r.objects == Some(C.Create()) && r.camera.None?
    ensures r.title == m.title && r.windowDims == m.windowDims
  {
    m.(objects := Some(C.Create()), camera := None)
  }

  /** `setCamera`: the camera (possibly none) used from now on. */
  function SetCamera(m: Manager, camera: Option<Cam.Camera>): (r: Manager)
    ensures r.camera == camera && r.objects == m.objects && r.title == m.title
  {
    m.(camera := camera)
  }

  /**
   * The component changes asked for during one frame: for each object, and
   * for the camera, what each of its components asks of that object when it
   * runs (see `GameObjects.Update`).
   */
  datatype FrameRequests = FrameRequests(objects: ObjRef -> CL.Requests, camera: CL.Requests)

  /** The components an object ran during its update. */
  datatype Ran = Ran(obj: ObjRef, components: seq<CL.ComponentId>)

  /** `obj.update(deltaTime)` for each object in turn; the first exception ends the frame. */
  function UpdateObjects(world: R.World, objs: seq<ObjRef>, dt: real, fx: ObjRef -> CL.Requests): (r: Result<(R.World, seq<Ran>)>)
    requires forall o :: o in objs ==> o in world
    ensures r.Ok? ==> r.value.0.Keys == world.Keys
    ensures r.Ok? ==> |r.value.1| == |objs| && forall k :: 0 <= k < |objs| ==> r.value.1[k].obj == objs[k]
    ensures r.Ok? ==> forall o :: o in world && o !in objs ==> r.value.0[o] == world[o]
    ensures r.Ok? ==> forall o :: o in world ==>
              r.value.0[o].physics == world[o].physics && r.value.0[o].space == world[o].space
    decreases |objs|
  {
    if objs == [] then Ok((world, []))
    else
      match GO.Update(world[objs[0]], dt, fx(objs[0]))
      case Err(e) => Err(e)
      case Ok((go, ran)) =>
        var world1 := world[objs[0] := go];
        match UpdateObjects(world1, objs[1..], dt, fx)
        case Err(e) => Err(e)
        case Ok((world2, trace)) => Ok((world2, [Ran(objs[0], ran)] + trace))
  }

  /**
   * Objects that are iterated once each are each updated exactly once:
   * their final state is one `GameObject.update` of their initial state, and
   * the trace records the components that update ran.
   */
  lemma {:induction false} EachObjectUpdatedOnce(world: R.World, objs: seq<ObjRef>, dt: real, fx: ObjRef -> CL.Requests, k: nat)
    requires forall o :: o in objs ==> o in world
    requires NoDuplicates(objs) && k < |objs| && UpdateObjects(world, objs, dt, fx).Ok?
    ensures GO.Update(world[objs[k]], dt, fx(objs[k])).Ok?
    ensures UpdateObjects(world, objs, dt, fx).value.0[objs[k]] == GO.Update(world[objs[k]], dt, fx(objs[k])).value.0
    ensures UpdateObjects(world, objs, dt, fx).value.1[k].components == GO.Update(world[objs[k]], dt, fx(objs[k])).value.1
    decreases |objs|
  {
    var (go, ran) := GO.Update(world[objs[0]], dt, fx(objs[0])).value;
    var world1 := world[objs[0] := go];
    var rest := UpdateObjects(world1, objs[1..], dt, fx).value;
    if k == 0 {
      assert objs[0] !in objs[1..];
    } else {
      assert NoDuplicates(objs[1..]) by {
        forall i, j | 0 <= i < j < |objs[1..]| ensures objs[1..][i] != objs[1..][j] {
          assert objs[1..][i] == objs[i + 1] && objs[1..][j] == objs[j + 1];
        }
      }
      assert objs[1..][k - 1] == objs[k] && objs[k] != objs[0];
      EachObjectUpdatedOnce(world1, objs[1..], dt, fx, k - 1);
    }
  }

  /** The outcome of one frame. */
  datatype Frame = Frame(m: Manager, world: R.World, ran: seq<Ran>, cameraRan: seq<CL.ComponentId>, events: seq<C.Event>)

  /** What a frame needs of the manager and the world. */
  ghost predicate Ready(m: Manager, world: R.World) {
    m.objects.Some? && L.Valid(m.objects.value.layers)
    && C.Known(m.objects.value, world) && C.MassesDefined(world)
    && (m.camera.Some? && m.camera.value.follow.Some? ==> m.camera.value.follow.value in world)
  }

  /** A world whose keys and object physics are unchanged still knows every object and can weigh every pair. */
  lemma SameObjectsStillReady(col: C.Collection, world: R.World, world': R.World)
    requires C.Known(col, world) && C.MassesDefined(world)
    requires world'.Keys == world.Keys && forall o :: o in world ==> world'[o].physics == world[o].physics
    ensures C.Known(col, world') && C.MassesDefined(world')
  {
  }

  /** The end of a frame: flush the collection, then run the collision pass over what is now committed. */
  function FlushAndCollide(col: C.Collection, world: R.World, shouldCollide: (ObjRef, ObjRef) -> bool,
                           fp: A.Fingerprint): (r: Result<(C.Collection, R.World, seq<C.Event>)>)
    requires L.Valid(col.layers) && C.Known(col, world) && C.MassesDefined(world)
    ensures r.Ok? ==> r.value.0.layers == L.FlushChanges(col.layers) && r.value.1.Keys == world.Keys
    ensures r.Ok? ==> L.Valid(r.value.0.layers) && C.Known(r.value.0, r.value.1) && C.MassesDefined(r.value.1)
    ensures L.CommittedKnown(C.Update(col).layers) && C.Populated(C.Update(col), world)
            && r == C.HandleCollisions(C.Update(col), world, shouldCollide, fp)
  {
    FlushedReady(col, world);
    var r := C.HandleCollisions(C.Update(col), world, shouldCollide, fp);
    if r.Ok? then
      C.KnownAfterPass(C.Update(col), world, r.value.0, r.value.1);
      r
    else r
  }

  /** After the flush every object the collection holds is still known, and the pass may walk the committed ones. */
  lemma FlushedReady(col: C.Collection, world: R.World)
    requires L.Valid(col.layers) && C.Known(col, world)
    ensures L.Valid(C.Update(col).layers) && L.CommittedKnown(C.Update(col).layers)
    ensures C.Known(C.Update(col), world) && C.Populated(C.Update(col), world)
  {
    C.FlushKeepsKnown(col, world);
    L.ValidCommittedKnown(C.Update(col).layers);
    C.KnownIsPopulated(C.Update(col), world);
  }

  /** The start of a frame: every committed object in drawing order, then the camera. */
  function UpdateObjectsAndCamera(m: Manager, world: R.World, dt: real, fx: FrameRequests): (r: Result<(R.World, seq<Ran>, Option<Cam.Camera>, seq<CL.ComponentId>)>)
    requires m.objects.Some? && Ready(m, world)
    ensures L.CommittedKnown(m.objects.value.layers) && C.Populated(m.objects.value, world)
    ensures r.Ok? ==> var objs := Flatten(L.LayerLists(m.objects.value.layers));
              UpdateObjects(world, objs, dt, fx.objects).Ok? && r.value.1 == UpdateObjects(world, objs, dt, fx.objects).value.1
              && r.value.0 == UpdateObjects(world, objs, dt, fx.objects).value.0
    ensures r.Ok? ==> r.value.0.Keys == world.Keys && C.Known(m.objects.value, r.value.0) && C.MassesDefined(r.value.0)
    ensures r.Ok? && m.camera.Some? ==> r.value.2.Some? && r.value.2.value.follow == m.camera.value.follow
    ensures r.Ok? && m.camera.None? ==> r.value.2.None?
  {
    var col := m.objects.value;
    L.ValidCommittedKnown(col.layers);
    C.KnownIsPopulated(col, world);
    match UpdateObjects(world, Flatten(L.LayerLists(col.layers)), dt, fx.objects)
    case Err(e) => Err(e)
    case Ok((world1, ran)) =>
      SameObjectsStillReady(col, world, world1);
      match UpdateCamera(m.camera, dt, fx.camera, world1)
      case Err(e) => Err(e)
      case Ok((camera, cameraRan)) => Ok((world1, ran, camera, cameraRan))
  }

  /**
   * `update(deltaTime)`: the committed objects in drawing order, the camera,
   * the collection's flush, then the collision pass. Before
   * `initializeGame` the collection is null and the frame throws.
   */
  function Update(m: Manager, world: R.World, dt: real, fx: FrameRequests, shouldCollide: (ObjRef, ObjRef) -> bool,
                  fp: A.Fingerprint): (r: Result<Frame>)
    requires m.objects.Some? ==> Ready(m, world)
    ensures m.objects.None? ==> r == Err(NullPointer)
    ensures r.Ok? ==> var col := m.objects.value;
              L.CommittedKnown(col.layers) && C.Populated(col, world)
              && UpdateObjects(world, Flatten(L.LayerLists(col.layers)), dt, fx.objects).Ok?
              && r.value.ran == UpdateObjects(world, Flatten(L.LayerLists(col.layers)), dt, fx.objects).value.1
              && r.value.m.objects.Some? && r.value.m.objects.value.layers == L.FlushChanges(col.layers)
              && r.value.world.Keys == world.Keys
    ensures r.Ok? ==> Ready(r.value.m, r.value.world)
    ensures m.objects.Some? && UpdateObjectsAndCamera(m, world, dt, fx).Ok? ==>
              var (world1, _, camera, cameraRan) := UpdateObjectsAndCamera(m, world, dt, fx).value;
              var pass := FlushAndCollide(m.objects.value, world1, shouldCollide, fp);
              (pass.Err? ==> r.Err?)
              && (pass.Ok? ==> r.Ok? && r.value.m.objects == Some(pass.value.0) && r.value.world == pass.value.1
                               && r.value.events == pass.value.2 && r.value.m.camera == camera && r.value.cameraRan == cameraRan)
    ensures m.objects.Some? && UpdateObjectsAndCamera(m, world, dt, fx).Err? ==> r.Err?
  {
    if m.objects.None? then Err(NullPointer)
    else
      match UpdateObjectsAndCamera(m, world, dt, fx)
      case Err(e) => Err(e)
      case Ok((world1, ran, camera, cameraRan)) =>
        match FlushAndCollide(m.objects.value, world1, shouldCollide, fp)
        case Err(e) => Err(e)
        case Ok((col2, world2, events)) =>
          ReadyAfterFrame(m, col2, world2, camera);
          Ok(Frame(m.(objects := Some(col2), camera := camera), world2, ran, cameraRan, events))
  }

  /** A frame that keeps the world's keys and the camera's target leaves the manager ready for the next one. */
  lemma ReadyAfterFrame(m: Manager, col: C.Collection, world: R.World, camera: Option<Cam.Camera>)
    ensures L.Valid(col.layers) && C.Known(col, world) && C.MassesDefined(world)
            && (m.camera.Some? && m.camera.value.follow.Some? ==> m.camera.value.follow.value in world)
            && (camera.Some? <==> m.camera.Some?)
            && (camera.Some? ==> camera.value.follow == m.camera.value.follow)
            ==> Ready(m.(objects := Some(col), camera := camera), world)
  {
  }

  /** `if(camera != null) camera.update(deltaTime)`. */
  function UpdateCamera(camera: Option<Cam.Camera>, dt: real, fx: CL.Requests, world: R.World): (r: Result<(Option<Cam.Camera>, seq<CL.ComponentId>)>)
    requires camera.Some? && camera.value.follow.Some? ==> camera.value.follow.value in world
    ensures camera.None? ==> r == Ok((None, []))
    ensures camera.Some? ==> (r.Ok? <==> Cam.Update(camera.value, dt, fx, world).Ok?)
    ensures camera.Some? && r.Ok? ==> r.value == (Some(Cam.Update(camera.value, dt, fx, world).value.0), Cam.Update(camera.value, dt, fx, world).value.1)
    ensures r.Ok? && camera.Some? ==> r.value.0.Some? && r.value.0.value.follow == camera.value.follow
  {
    match camera
    case None => Ok((None, []))
    case Some(c) =>
      match Cam.Update(c, dt, fx, world)
      case Err(e) => Err(e)
      case Ok((c', ran)) => Ok((Some(c'), ran))
  }

  /**
   * An object only queued for addition is not updated in the frame that
   * commits it, but it is committed before that frame's collision pass.
   */
  lemma PendingObjectSkippedThenCommitted(m: Manager, world: R.World, dt: real, fx: FrameRequests,
                                          shouldCollide: (ObjRef, ObjRef) -> bool, fp: A.Fingerprint,
                                          o: ObjRef, layerId: int)
    requires m.objects.Some? && Ready(m, world) && Update(m, world, dt, fx, shouldCollide, fp).Ok?
    requires layerId in m.objects.value.layers.data
    requires o in m.objects.value.layers.data[layerId].objects.toAdd
    requires forall id :: id in m.objects.value.layers.data ==> o !in m.objects.value.layers.data[id].objects.list
    ensures forall k :: 0 <= k < |Update(m, world, dt, fx, shouldCollide, fp).value.ran| ==>
              Update(m, world, dt, fx, shouldCollide, fp).value.ran[k].obj != o
    ensures o in Update(m, world, dt, fx, shouldCollide, fp).value.m.objects.value.layers.data[layerId].objects.list
  {
    var col := m.objects.value;
    var frame := Update(m, world, dt, fx, shouldCollide, fp).value;
    L.ValidCommittedKnown(col.layers);
    var objs := Flatten(L.LayerLists(col.layers));
    UncommittedNotIterated(col.layers, o);
    assert frame.ran == UpdateObjects(world, objs, dt, fx.objects).value.1;
    L.FlushCommitsPending(col.layers, layerId, o);
  }

  /** An object in no layer's committed list is not among the objects a frame iterates. */
  lemma UncommittedNotIterated(lm: L.LayerManager<ObjRef>, o: ObjRef)
    requires L.CommittedKnown(lm)
    requires forall id :: id in lm.data ==> o !in lm.data[id].objects.list
    ensures o !in Flatten(L.LayerLists(lm))
  {
    forall i | 0 <= i < |L.LayerLists(lm)|
      ensures o !in L.LayerLists(lm)[i]
    {
      var id := lm.layers.list[i];
      assert id in lm.data;
      assert L.LayerLists(lm)[i] == lm.data[id].objects.list;
    }
    FlattenMembership(L.LayerLists(lm), o);
  }

  /** The position the mouse is at for an object: the screen position for camera-space objects, the world position otherwise. */
  function MousePosFor(go: GO.GameObject, screenPos: Vec, worldPos: Vec): (p: Vec)
    ensures go.space == GO.CameraCoordinates ==> p == screenPos
    ensures go.space == GO.WorldCoordinates ==> p == worldPos
  {
    if go.space == GO.CameraCoordinates then screenPos else worldPos
  }

  /** Whether an object of the world contains the mouse, in its own coordinate space. */
  function MouseHit(world: R.World, screenPos: Vec, worldPos: Vec, other: (string, Option<Vec>) -> bool): (hit: ObjRef -> bool)
    ensures forall o :: o in world ==>
              (hit(o) <==> GO.ContainsPoint(world[o], MousePosFor(world[o], screenPos, worldPos), other) == Ok(true))
  {
    o => o in world && GO.ContainsPoint(world[o], MousePosFor(world[o], screenPos, worldPos), other) == Ok(true)
  }

  /** The objects, in the order given, whose shape contains the mouse. */
  function Notified(world: R.World, objs: seq<ObjRef>, screenPos: Vec, worldPos: Vec,
                    other: (string, Option<Vec>) -> bool): (r: Result<seq<ObjRef>>)
    requires forall o :: o in objs ==> o in world
    ensures r.Err? <==> exists k :: 0 <= k < |objs| && world[objs[k]].physics.collider.None?
    ensures r.Ok? ==> forall o :: o in r.value <==>
              o in objs && GO.ContainsPoint(world[o], MousePosFor(world[o], screenPos, worldPos), other) == Ok(true)
    ensures r.Ok? ==> r.value == Filter(objs, MouseHit(world, screenPos, worldPos, other))
    decreases |objs|
  {
    if objs == [] then Ok([])
    else
      var go := world[objs[0]];
      match GO.ContainsPoint(go, MousePosFor(go, screenPos, worldPos), other)
      case Err(e) => Err(e)
      case Ok(hit) =>
        match Notified(world, objs[1..], screenPos, worldPos, other)
        case Err(e) =>
          assert exists k :: 0 <= k < |objs| && world[objs[k]].physics.collider.None? by {
            var k :| 0 <= k < |objs[1..]| && world[objs[1..][k]].physics.collider.None?;
            assert objs[1..][k] == objs[k + 1];
          }
          Err(e)
        case Ok(rest) =>
          assert forall k :: 1 <= k < |objs| ==> objs[k] == objs[1..][k - 1];
          Ok(if hit then [objs[0]] + rest else rest)
  }

  /**
   * `onMouseAction`: every committed object, in reverse drawing order, is
   * asked whether it contains the mouse (in its own coordinate space), and
   * the ones that do are notified.
   */
  function OnMouseAction(m: Manager, world: R.World, screenPos: Vec, worldPos: Vec,
                         other: (string, Option<Vec>) -> bool): (r: Result<seq<ObjRef>>)
    requires m.objects.Some? ==> Ready(m, world)
    ensures m.objects.None? ==> r == Err(NullPointer)
    ensures r.Ok? ==> L.CommittedKnown(m.objects.value.layers) && C.Populated(m.objects.value, world)
    ensures r.Ok? ==> forall o :: o in r.value <==>
              o in Flatten(L.LayerLists(m.objects.value.layers))
              && GO.ContainsPoint(world[o], MousePosFor(world[o], screenPos, worldPos), other) == Ok(true)
    ensures r.Ok? ==> r.value == Filter(Reverse(Flatten(L.LayerLists(m.objects.value.layers))),
                                        MouseHit(world, screenPos, worldPos, other))
  {
    if m.objects.None? then Err(NullPointer)
    else
      var col := m.objects.value;
      L.ValidCommittedKnown(col.layers);
      C.KnownIsPopulated(col, world);
      var order := Reverse(Flatten(L.LayerLists(col.layers)));
      assert forall o :: o in order <==> o in Flatten(L.LayerLists(col.layers)) by {
        ReverseMembership(Flatten(L.LayerLists(col.layers)));
      }
      Notified(world, order, screenPos, worldPos, other)
  }

  lemma ReverseMembership<T>(s: seq<T>)
    ensures forall x :: x in Reverse(s) <==> x in s
  {
    var r := Reverse(s);
    forall x ensures x in r <==> x in s {
      if x in s {
        var i :| 0 <= i < |s| && s[i] == x;
        assert r[|s| - 1 - i] == x;
      }
      if x in r {
        var i :| 0 <= i < |r| && r[i] == x;
        assert s[|s| - 1 - i] == x;
      }
    }
  }
}

/**
 * danogl.gui.rendering.Camera: a game object whose rectangle is the part of
 * the world on screen, optionally following another object at a fixed offset
 * between the two centres, and mapping between screen and world coordinates.
 */
module Cameras {
  import opened Wrappers
  import opened Vectors
  import T = Transforms
  import GO = GameObjects
  import CL = ComponentLists
  import opened Pairs

  datatype Camera = Camera(base: GO.GameObject, follow: Option<ObjRef>, delta: Option<Vec>, windowDims: Vec)

  /** `Camera(topLeft, dims, windowDims)`: the given rectangle, no renderable, following nothing. */
  function Create(topLeft: Vec, dims: Vec, windowDims: Vec): (c: Camera)
    ensures c.base == GO.Create(topLeft, dims, None) && c.follow.None? && c.windowDims == windowDims
  {
    Camera(GO.Create(topLeft, dims, None), None, None, windowDims)
  }

  /** `Camera(objToFollow, delta, dims, windowDims)`: the rectangle starts at the origin. */
  function CreateFollowing(objToFollow: Option<ObjRef>, delta: Option<Vec>, dims: Vec, windowDims: Vec): (c: Camera)
    ensures c.base == GO.Create(ZERO, dims, None)
    ensures c.follow == objToFollow && c.delta == delta && c.windowDims == windowDims
  {
    Camera(GO.Create(ZERO, dims, None), objToFollow, delta, windowDims)
  }

  /** `setToFollow`: a null object stops the following; the view then stays where it is. */
  function SetToFollow(c: Camera, objToFollow: Option<ObjRef>, delta: Option<Vec>): (r: Camera)
    ensures r.follow == objToFollow && r.delta == delta
    ensures r.base == c.base && r.windowDims == c.windowDims
  {
    c.(follow := objToFollow, delta := delta)
  }

  /**
   * `update(dt)`: the game-object update, then, while following, centre the
   * view on the followed object's centre plus the offset (a null offset
   * throws). `world` gives the followed object's current state; `fx` is
   * what the camera's components ask of it, as in `GameObjects.Update`.
   */
  function Update(c: Camera, dt: real, fx: CL.Requests, world: map<ObjRef, GO.GameObject>): (r: Result<(Camera, seq<CL.ComponentId>)>)
    requires c.follow.Some? ==> c.follow.value in world
    ensures GO.Update(c.base, dt, fx).Err? ==> r.Err?
    ensures c.follow.Some? && c.delta.None? ==> r.Err?
    ensures r.Ok? ==> GO.Update(c.base, dt, fx).Ok? && r.value.1 == GO.Update(c.base, dt, fx).value.1
    ensures r.Ok? && c.follow.None? ==> r.value.0 == c.(base := GO.Update(c.base, dt, fx).value.0)
    ensures r.Ok? && c.follow.Some? ==>
              T.Center(r.value.0.base.transform) == Add(T.Center(world[c.follow.value].transform), c.delta.value)
              && r.value.0.base.transform.dims == GO.Update(c.base, dt, fx).value.0.transform.dims
  {
    match GO.Update(c.base, dt, fx)
    case Err(e) => Err(e)
    case Ok((base, ran)) =>
      if c.follow.None? then Ok((c.(base := base), ran))
      else if c.delta.None? then Err(NullPointer)
      else
        var center := Add(T.Center(world[c.follow.value].transform), c.delta.value);
        Ok((c.(base := base.(transform := T.SetCenter(base.transform, center))), ran))
  }

  /**
   * `screenToWorldCoords`: scale by camera size over window size, then offset
   * by the camera's corner. A zero window dimension divides by zero (`None`).
   */
  function ScreenToWorldCoords(c: Camera, s: Vec): (r: Option<Vec>)
    ensures r.None? <==> c.windowDims.x == 0.0 || c.windowDims.y == 0.0
  {
    var dims, tl := c.base.transform.dims, c.base.transform.topLeft;
    if c.windowDims.x == 0.0 || c.windowDims.y == 0.0 then None
    else Some(Vec(s.x * (dims.x / c.windowDims.x) + tl.x, s.y * (dims.y / c.windowDims.y) + tl.y))
  }

  /**
   * `worldToScreenCoords`: relative to the camera's corner, scaled by window
   * size over camera size. A zero camera dimension divides by zero (`None`).
   */
  function WorldToScreenCoords(c: Camera, w: Vec): (r: Option<Vec>)
    ensures r.None? <==> c.base.transform.dims.x == 0.0 || c.base.transform.dims.y == 0.0
  {
    var dims, tl := c.base.transform.dims, c.base.transform.topLeft;
    if dims.x == 0.0 || dims.y == 0.0 then None
    else Some(Vec((c.windowDims.x / dims.x) * (w.x - tl.x), (c.windowDims.y / dims.y) * (w.y - tl.y)))
  }

  lemma RatioCancels(a: real, n: real, d: real)
    requires n != 0.0 && d != 0.0
    ensures a * (d / n) * (n / d) == a && (n / d) * (a * (d / n)) == a
  {
    assert (d / n) * (n / d) == 1.0;
    assert a * (d / n) * (n / d) == a * ((d / n) * (n / d));
  }

  /** With non-zero window and camera dimensions, the two mappings are inverse to each other. */
  lemma ScreenWorldRoundTrip(c: Camera, s: Vec, w: Vec)
    requires c.windowDims.x != 0.0 && c.windowDims.y != 0.0
    requires c.base.transform.dims.x != 0.0 && c.base.transform.dims.y != 0.0
    ensures WorldToScreenCoords(c, ScreenToWorldCoords(c, s).value) == Some(s)
    ensures ScreenToWorldCoords(c, WorldToScreenCoords(c, w).value) == Some(w)
  {
    ScreenThenWorld(c, s);
    WorldThenScreen(c, w);
  }

  lemma ScreenThenWorld(c: Camera, s: Vec)
    requires c.windowDims.x != 0.0 && c.windowDims.y != 0.0
    requires c.base.transform.dims.x != 0.0 && c.base.transform.dims.y != 0.0
    ensures WorldToScreenCoords(c, ScreenToWorldCoords(c, s).value) == Some(s)
  {
    var dims, tl, win := c.base.transform.dims, c.base.transform.topLeft, c.windowDims;
    var w := ScreenToWorldCoords(c, s).value;
    assert w.x - tl.x == s.x * (dims.x / win.x) && w.y - tl.y == s.y * (dims.y / win.y);
    RatioCancels(s.x, win.x, dims.x);
    RatioCancels(s.y, win.y, dims.y);
    var r := WorldToScreenCoords(c, w);
    assert r.Some? && r.value.x == s.x && r.value.y == s.y;
  }

  lemma WorldThenScreen(c: Camera, w: Vec)
    requires c.windowDims.x != 0.0 && c.windowDims.y != 0.0
    requires c.base.transform.dims.x != 0.0 && c.base.transform.dims.y != 0.0
    ensures ScreenToWorldCoords(c, WorldToScreenCoords(c, w).value) == Some(w)
  {
    var dims, tl, win := c.base.transform.dims, c.base.transform.topLeft, c.windowDims;
    var s := WorldToScreenCoords(c, w).value;
    RatioCancels(w.x - tl.x, dims.x, win.x);
    RatioCancels(w.y - tl.y, dims.y, win.y);
    assert s.x * (dims.x / win.x) == w.x - tl.x;
    assert s.y * (dims.y / win.y) == w.y - tl.y;
    var r := ScreenToWorldCoords(c, s);
    assert r.Some? && r.value.x == w.x && r.value.y == w.y;
  }
}

/**
 * pepse.PepseGameManager: the endless world. The game keeps a window of
 * the world three screens wide, [worldLeftEnd, worldRightEnd). When the
 * avatar comes within one screen of an end, a new screen-wide strip is
 * built beyond that end, the screen at the far end is cleared, and both
 * ends move by one screen. Trees are left to `Tree`, which is not part of
 * this model: where a tree stands is a parameter predicate.
 */
module PepseGame {
  import opened Wrappers
  import opened Vectors
  import opened Seqs
  import opened Pairs
  import L = Layers
  import DL = DeferredList
  import C = Collection
  import R = Resolver
  import Rn = Renderers
  import B = Blocks
  import Te = Terrains
  import PL = PepseLayers

  const WINDOWS_NAME: string := "Pepse Game"
  const BOARD_HEIGHT: int := 690
  const BOARD_WIDTH: int := 1140
  const RANDOM_SEED: int := 1234567
  const EPSILON: int := 3

  /** The two ends of the world built so far. */
  datatype Ends = Ends(left: int, right: int)

  datatype Side = RightSide | LeftSide

  /** `initializeGame`: the world starts one screen to the left of the window and ends two screens to its right. */
  function InitialEnds(windowWidth: real): (e: Ends)
    ensures e.left == FloatToInt(-windowWidth) && e.right == FloatToInt(windowWidth * 2.0)
  {
    Ends(FloatToInt(-windowWidth), FloatToInt(windowWidth * 2.0))
  }

  /** For a whole-pixel window width the world initially spans [-w, 2w), three screens. */
  lemma InitialSpanIsThreeScreens(w: int)
    requires 0 <= w < 0x3fff_ffff
    ensures InitialEnds(w as real) == Ends(-w, 2 * w)
    ensures InitialEnds(w as real).right - InitialEnds(w as real).left == 3 * w
  {
    FloatToIntFacts(w, 0.0);
    FloatToIntFacts(2 * w, 0.0);
    FloatToIntFacts(-w, 0.0);
    assert (w as real) * 2.0 == (2 * w) as real;
    assert -(w as real) == (-w) as real;
  }

  /**
   * The strip `createWorld(side)` builds, computed from the ends before they
   * move: [right, right + w) on the right, [left - w, left) on the left.
   */
  function StripRange(e: Ends, windowWidth: real, side: Side): (r: (int, int))
    ensures side == RightSide ==> r == (e.right, FloatToInt(e.right as real + windowWidth))
    ensures side == LeftSide ==> r == (FloatToInt(e.left as real - windowWidth), e.left)
  {
    if side == RightSide then (e.right, FloatToInt(e.right as real + windowWidth))
    else (FloatToInt(e.left as real - windowWidth), e.left)
  }

  /**
   * The ends after one recentring towards `side`: both move by one screen,
   * each through Java's `int += float`, which converts the sum back to int.
   */
  function Shift(e: Ends, windowWidth: real, side: Side): (r: Ends)
    ensures side == RightSide ==> r == Ends(FloatToInt(e.left as real + windowWidth), FloatToInt(e.right as real + windowWidth))
    ensures side == LeftSide ==> r == Ends(FloatToInt(e.left as real - windowWidth), FloatToInt(e.right as real - windowWidth))
  {
    if side == RightSide then Ends(FloatToInt(e.left as real + windowWidth), FloatToInt(e.right as real + windowWidth))
    else Ends(FloatToInt(e.left as real - windowWidth), FloatToInt(e.right as real - windowWidth))
  }

  /** With a whole-pixel width and ends well inside the int range, a recentring moves both ends by exactly one screen, so the world stays three screens wide, and the new strip is exactly the screen the world grew by. */
  lemma ShiftKeepsSpan(e: Ends, w: int, side: Side)
    requires 0 <= w && e.right - e.left == 3 * w
    requires IsInt32(e.left - w) && IsInt32(e.right + w)
    ensures side == RightSide ==> Shift(e, w as real, side) == Ends(e.left + w, e.right + w)
    ensures side == LeftSide ==> Shift(e, w as real, side) == Ends(e.left - w, e.right - w)
    ensures Shift(e, w as real, side).right - Shift(e, w as real, side).left == 3 * w
    ensures side == RightSide ==> StripRange(e, w as real, side) == (e.right, Shift(e, w as real, side).right)
    ensures side == LeftSide ==> StripRange(e, w as real, side) == (Shift(e, w as real, side).left, e.left)
  {
    assert e.left as real + w as real == (e.left + w) as real;
    assert e.right as real + w as real == (e.right + w) as real;
    assert e.left as real - w as real == (e.left - w) as real;
    assert e.right as real - w as real == (e.right - w) as real;
    FloatToIntFacts(e.left + w, 0.0);
    FloatToIntFacts(e.right + w, 0.0);
    FloatToIntFacts(e.left - w, 0.0);
    FloatToIntFacts(e.right - w, 0.0);
  }

  /** One recentring: the side the world grew on and the ends before it. */
  datatype Step = Step(side: Side, before: Ends)

  /**
   * The bookkeeping of `update` after the engine frame: first the right
   * check, then the left check against the ends as they are by then; each
   * check that fires grows that side and clears the other.
   */
  function Recentre(e: Ends, windowWidth: real, avatarX: real): (r: (Ends, seq<Step>))
    ensures |r.1| <= 2
    ensures avatarX > e.right as real - windowWidth ==> |r.1| >= 1 && r.1[0] == Step(RightSide, e)
    ensures !(avatarX > e.right as real - windowWidth) ==> forall k :: 0 <= k < |r.1| ==> r.1[k].side == LeftSide
    ensures forall k :: 0 <= k < |r.1| ==>
              (r.1[k].side == RightSide ==> avatarX > r.1[k].before.right as real - windowWidth)
              && (r.1[k].side == LeftSide ==> avatarX < r.1[k].before.left as real + windowWidth)
    ensures |r.1| == 0 ==> r.0 == e
    ensures |r.1| > 0 ==> r.0 == Shift(r.1[|r.1| - 1].before, windowWidth, r.1[|r.1| - 1].side)
    ensures |r.1| == 2 ==> r.1[1].before == Shift(e, windowWidth, RightSide) && r.1[1].side == LeftSide
  {
    var (e1, steps1) := if avatarX > e.right as real - windowWidth then (Shift(e, windowWidth, RightSide), [Step(RightSide, e)])
                        else (e, []);
    if avatarX < e1.left as real + windowWidth then (Shift(e1, windowWidth, LeftSide), steps1 + [Step(LeftSide, e1)])
    else (e1, steps1)
  }

  /** Each recentring moves the world one screen towards the avatar, keeping it three screens wide; with the avatar inside the middle screen nothing happens. */
  lemma RecentreTowardsAvatar(e: Ends, w: int, avatarX: real)
    requires 0 < w && e.right - e.left == 3 * w
    requires IsInt32(e.left - 2 * w) && IsInt32(e.right + 2 * w)
    ensures (e.left + w) as real <= avatarX <= (e.right - w) as real ==> Recentre(e, w as real, avatarX) == (e, [])
    ensures Recentre(e, w as real, avatarX).0.right - Recentre(e, w as real, avatarX).0.left == 3 * w
  {
    ShiftKeepsSpan(e, w, RightSide);
    var e1 := if avatarX > e.right as real - w as real then Shift(e, w as real, RightSide) else e;
    assert e1 == e || e1 == Ends(e.left + w, e.right + w);
    ShiftKeepsSpan(e1, w, LeftSide);
  }

  function Opposite(side: Side): (r: Side)
    ensures r != side
  {
    if side == RightSide then LeftSide else RightSide
  }

  /** The clearing rule of `deleteWorld(side)`: on the left, everything whose corner is left of `left + w`; on the right, right of `right - w`. */
  predicate Doomed(e: Ends, windowWidth: real, side: Side, x: real) {
    if side == LeftSide then x < e.left as real + windowWidth else x > e.right as real - windowWidth
  }

  /** The objects in the world whose corner is at a doomed x. */
  predicate DoomedObject(world: R.World, e: Ends, windowWidth: real, side: Side, o: ObjRef) {
    o in world && Doomed(e, windowWidth, side, world[o].transform.topLeft.x)
  }

  /**
   * The `forEach` of `deleteObjectsInLayer`: each committed object of the
   * layer, in order, is removed from that layer when it is doomed. The
   * removals are deferred, so the walk sees the committed list unchanged.
   */
  function RemoveDoomed(c: C.Collection, world: R.World, objs: seq<ObjRef>, layer: int,
                        e: Ends, windowWidth: real, side: Side): (r: C.Collection)
    requires L.Valid(c.layers) && layer in c.layers.data
    ensures L.Valid(r.layers) && r.layers.data.Keys == c.layers.data.Keys && r.layers.layers == c.layers.layers
    ensures forall id :: id in c.layers.data && id != layer ==> r.layers.data[id] == c.layers.data[id]
    ensures r.layers.data[layer].objects.list == c.layers.data[layer].objects.list
    ensures forall o :: (o in objs && DoomedObject(world, e, windowWidth, side, o)) ==>
              !DL.Contains(r.layers.data[layer].objects, o)
    ensures forall o :: !(o in objs && DoomedObject(world, e, windowWidth, side, o)) ==>
              (DL.Contains(r.layers.data[layer].objects, o) <==> DL.Contains(c.layers.data[layer].objects, o))
    decreases |objs|
  {
    if objs == [] then c
    else
      var o := objs[0];
      var c1 := if DoomedObject(world, e, windowWidth, side, o) then C.RemoveGameObject(c, o, layer).0 else c;
      RemoveStepFacts(c, o, layer);
      var r := RemoveDoomed(c1, world, objs[1..], layer, e, windowWidth, side);
      assert forall x :: x in objs <==> x == o || x in objs[1..];
      r
  }

  /** One `removeGameObject(o, layer)`: o is no longer contained, every other object keeps its status. */
  lemma RemoveStepFacts(c: C.Collection, o: ObjRef, layer: int)
    requires L.Valid(c.layers) && layer in c.layers.data
    ensures var c1 := C.RemoveGameObject(c, o, layer).0;
            !DL.Contains(c1.layers.data[layer].objects, o)
            && forall x :: x != o ==>
                 (DL.Contains(c1.layers.data[layer].objects, x) <==> DL.Contains(c.layers.data[layer].objects, x))
  {
    var m := c.layers.data[layer].objects;
    forall x | x != o
      ensures DL.Contains(DL.Remove(m, o).0, x) <==> DL.Contains(m, x)
    {
      DL.RemoveLeavesOthers(m, o, x);
    }
  }

  /** `deleteObjectsInLayer(side, layer)`: NoSuchElementException for an unknown layer. */
  function DeleteObjectsInLayer(c: C.Collection, world: R.World, e: Ends, windowWidth: real, side: Side, layer: int)
    : (r: Result<C.Collection>)
    requires L.Valid(c.layers)
    ensures r.Err? <==> layer !in c.layers.data
    ensures r.Err? ==> r.error == NoSuchElement
    ensures r.Ok? ==> r.value == RemoveDoomed(c, world, c.layers.data[layer].objects.list, layer, e, windowWidth, side)
  {
    if layer !in c.layers.data then Err(NoSuchElement)
    else Ok(RemoveDoomed(c, world, c.layers.data[layer].objects.list, layer, e, windowWidth, side))
  }

  /** The layers `deleteWorld` clears, in order. */
  const WORLD_LAYERS: seq<int> :=
    [PL.TOP_TERRAIN_LAYER, PL.BOTTOM_TERRAIN_LAYER, PL.TRUNK_LAYER, PL.LEAVES_LAYER, PL.MONSTERS_LAYER]

  /** A doomed object committed to `layer` in `c`. */
  predicate DoomedIn(c: C.Collection, world: R.World, e: Ends, windowWidth: real, side: Side, layer: int, o: ObjRef) {
    layer in c.layers.data && o in c.layers.data[layer].objects.list && DoomedObject(world, e, windowWidth, side, o)
  }

  /**
   * `cur` differs from `c` only in which committed objects of `layers` are
   * still contained, and only towards absence: nothing is flushed, no layer
   * appears or goes, and nothing absent comes back.
   */
  ghost predicate OnlyRemovedIn(c: C.Collection, cur: C.Collection, layers: seq<int>) {
    L.Valid(cur.layers) && cur.layers.data.Keys == c.layers.data.Keys && cur.layers.layers == c.layers.layers
    && (forall id :: id in c.layers.data ==> cur.layers.data[id].objects.list == c.layers.data[id].objects.list)
    && (forall id :: id in c.layers.data && id !in layers ==> cur.layers.data[id] == c.layers.data[id])
    && (forall id, o :: id in c.layers.data && !DL.Contains(c.layers.data[id].objects, o) ==>
          !DL.Contains(cur.layers.data[id].objects, o))
  }

  /** Every object of `layers` that the clearing rule dooms in `c` is no longer contained in `cur`. */
  ghost predicate ClearedIn(c: C.Collection, cur: C.Collection, world: R.World, e: Ends, windowWidth: real, side: Side,
                            layers: seq<int>) {
    forall id, o :: id in layers && DoomedIn(c, world, e, windowWidth, side, id, o) ==>
      id in cur.layers.data && !DL.Contains(cur.layers.data[id].objects, o)
  }

  /** Removal-only changes compose. */
  lemma OnlyRemovedInTrans(c: C.Collection, c1: C.Collection, c2: C.Collection, layers1: seq<int>, layers2: seq<int>, layers: seq<int>)
    requires OnlyRemovedIn(c, c1, layers1) && OnlyRemovedIn(c1, c2, layers2)
    requires forall id :: id in layers1 || id in layers2 ==> id in layers
    ensures OnlyRemovedIn(c, c2, layers)
  {
  }

  /** A removal-only change keeps what was cleared cleared, and does not change what is doomed. */
  lemma ClearedInKept(c: C.Collection, c1: C.Collection, c2: C.Collection, world: R.World, e: Ends, windowWidth: real,
                      side: Side, layers: seq<int>, changed: seq<int>)
    requires ClearedIn(c, c1, world, e, windowWidth, side, layers) && OnlyRemovedIn(c1, c2, changed)
    ensures ClearedIn(c, c2, world, e, windowWidth, side, layers)
  {
  }

  /** `deleteObjectsInLayer` on one known layer is a removal-only change that clears that layer. */
  lemma RemoveDoomedFacts(c: C.Collection, world: R.World, e: Ends, windowWidth: real, side: Side, layer: int)
    requires L.Valid(c.layers) && layer in c.layers.data
    ensures var c1 := RemoveDoomed(c, world, c.layers.data[layer].objects.list, layer, e, windowWidth, side);
            OnlyRemovedIn(c, c1, [layer]) && ClearedIn(c, c1, world, e, windowWidth, side, [layer])
  {
  }

  /** `deleteObjectsInLayer` for each layer in turn; the first unknown layer throws. */
  function DeleteInLayers(c: C.Collection, world: R.World, e: Ends, windowWidth: real, side: Side, layers: seq<int>)
    : (r: Result<C.Collection>)
    requires L.Valid(c.layers)
    ensures r.Ok? <==> forall id :: id in layers ==> id in c.layers.data
    ensures r.Err? ==> r.error == NoSuchElement
    ensures r.Ok? ==> OnlyRemovedIn(c, r.value, layers)
    ensures r.Ok? ==> ClearedIn(c, r.value, world, e, windowWidth, side, layers)
    decreases |layers|
  {
    if layers == [] then Ok(c)
    else
      assert forall id :: id in layers <==> id == layers[0] || id in layers[1..];
      match DeleteObjectsInLayer(c, world, e, windowWidth, side, layers[0])
      case Err(err) => Err(err)
      case Ok(c1) =>
        RemoveDoomedFacts(c, world, e, windowWidth, side, layers[0]);
        var r := DeleteInLayers(c1, world, e, windowWidth, side, layers[1..]);
        DeleteInLayersStep(c, c1, r, world, e, windowWidth, side, layers);
        r
  }

  lemma DeleteInLayersStep(c: C.Collection, c1: C.Collection, r: Result<C.Collection>, world: R.World, e: Ends,
                           windowWidth: real, side: Side, layers: seq<int>)
    requires layers != [] && L.Valid(c.layers)
    requires OnlyRemovedIn(c, c1, [layers[0]]) && ClearedIn(c, c1, world, e, windowWidth, side, [layers[0]])
    requires r.Ok? ==> OnlyRemovedIn(c1, r.value, layers[1..]) && ClearedIn(c1, r.value, world, e, windowWidth, side, layers[1..])
    ensures r.Ok? ==> OnlyRemovedIn(c, r.value, layers) && ClearedIn(c, r.value, world, e, windowWidth, side, layers)
  {
    if r.Ok? {
      assert forall id :: id in layers <==> id == layers[0] || id in layers[1..];
      OnlyRemovedInTrans(c, c1, r.value, [layers[0]], layers[1..], layers);
      ClearedInKept(c, c1, r.value, world, e, windowWidth, side, [layers[0]], layers[1..]);
      assert forall id, o :: DoomedIn(c, world, e, windowWidth, side, id, o) <==> DoomedIn(c1, world, e, windowWidth, side, id, o);
    }
  }

  /**
   * `deleteWorld(side)`: the five world layers, in order. Afterwards no
   * doomed object committed to one of them is still contained, layers
   * outside the five are untouched, and nothing is flushed.
   */
  function DeleteWorld(c: C.Collection, world: R.World, e: Ends, windowWidth: real, side: Side)
    : (r: Result<C.Collection>)
    requires L.Valid(c.layers)
    ensures r.Ok? <==> forall id :: id in WORLD_LAYERS ==> id in c.layers.data
    ensures r.Ok? ==> OnlyRemovedIn(c, r.value, WORLD_LAYERS)
    ensures r.Ok? ==> ClearedIn(c, r.value, world, e, windowWidth, side, WORLD_LAYERS)
  {
    DeleteInLayers(c, world, e, windowWidth, side, WORLD_LAYERS)
  }

  /**
   * `createSingleMonster(start, end)` from candidate x: the first x on the
   * 30-pixel grid, below `end - 90`, where no tree stands; none when every
   * candidate has a tree.
   */
  function FirstFreeColumn(x: int, end: int, hasTree: int -> bool): (r: Option<int>)
    ensures r.Some? ==> x <= r.value < end - B.SIZE * EPSILON && (r.value - x) % B.SIZE == 0 && !hasTree(r.value)
    ensures r.Some? ==> forall k: nat :: x + k * B.SIZE < r.value ==> hasTree(x + k * B.SIZE)
    ensures r.None? ==> forall k: nat :: x + k * B.SIZE < end - B.SIZE * EPSILON ==> hasTree(x + k * B.SIZE)
    decreases end - x
  {
    if x >= end - B.SIZE * EPSILON then None
    else if !hasTree(x) then Some(x)
    else
      var r := FirstFreeColumn(x + B.SIZE, end, hasTree);
      var bound := if r.Some? then r.value else end - B.SIZE * EPSILON;
      forall k: nat | x + k * B.SIZE < bound
        ensures hasTree(x + k * B.SIZE)
      {
        if k > 0 {
          assert x + k * B.SIZE == (x + B.SIZE) + (k - 1) * B.SIZE;
        }
      }
      r
  }

  /** Where `createSingleMonster(start, end)` places its one monster: the ground height, cast to int, at the first free column. */
  function MonsterSpot(t: Te.Terrain, start: int, end: int, hasTree: int -> bool): (r: Option<Vec>)
    ensures r.Some? <==> FirstFreeColumn(start + B.SIZE, end, hasTree).Some?
    ensures r.Some? ==> var x := FirstFreeColumn(start + B.SIZE, end, hasTree).value;
              r.value == Vec(x as real, FloatToInt(Te.GroundHeightAt(t, x as real)) as real)
  {
    match FirstFreeColumn(start + B.SIZE, end, hasTree)
    case None => None
    case Some(x) => Some(Vec(x as real, FloatToInt(Te.GroundHeightAt(t, x as real)) as real))
  }

  /** A monster never lands in the outer column or the last three of its range. */
  lemma MonsterInsideStrip(t: Te.Terrain, start: int, end: int, hasTree: int -> bool)
    requires MonsterSpot(t, start, end, hasTree).Some?
    ensures start as real + B.SIZE as real <= MonsterSpot(t, start, end, hasTree).value.x
    ensures MonsterSpot(t, start, end, hasTree).value.x < (end - B.SIZE * EPSILON) as real
  {
  }

  /** What `createWorld(side)` builds: the terrain blocks, the range handed to the trees, and the monster's spot. */
  datatype Strip = Strip(start: int, end: int, blocks: seq<Te.Placed>, treeRange: (int, int), monster: Option<Vec>)

  /** `createWorld(side)`: terrain over the strip, trees three blocks in from each edge, and at most one monster. */
  method CreateWorld(t: Te.Terrain, e: Ends, windowWidth: real, side: Side, hasTree: int -> bool,
                     renderable: Option<Rn.Renderable>) returns (s: Strip)
    ensures (s.start, s.end) == StripRange(e, windowWidth, side)
    ensures |s.blocks| == Te.ColumnCount(s.start, s.end) * Te.TERRAIN_DEPTH
    ensures forall j :: 0 <= j < |s.blocks| ==>
              s.blocks[j] == Te.BlockAt(t, s.start + (j / Te.TERRAIN_DEPTH) * B.SIZE, j % Te.TERRAIN_DEPTH, renderable)
    ensures s.treeRange == (s.start + EPSILON * B.SIZE, s.end - EPSILON * B.SIZE)
    ensures s.monster == MonsterSpot(t, s.start, s.end, hasTree)
  {
    var (start, end) := StripRange(e, windowWidth, side);
    var blocks := Te.CreateInRange(t, start, end, renderable);
    s := Strip(start, end, blocks, (start + EPSILON * B.SIZE, end - EPSILON * B.SIZE), MonsterSpot(t, start, end, hasTree));
  }

  /** The slice starts of `initialMonstersCreator(start, end, jumps)`: start, start + jumps, … while below end. */
  function SliceStarts(start: int, end: int, jumps: int): (r: seq<int>)
    requires jumps > 0
    ensures forall k :: 0 <= k < |r| ==> r[k] == SliceStart(start, k, jumps) && r[k] < end
    ensures SliceStart(start, |r|, jumps) >= end
    decreases end - start
  {
    if start >= end then []
    else
      var rest := SliceStarts(start + jumps, end, jumps);
      var r := [start] + rest;
      forall k | 0 <= k < |r|
        ensures r[k] == SliceStart(start, k, jumps)
      {
        if k > 0 {
          assert r[k] == rest[k - 1];
          SliceStartStep(start, k - 1, jumps);
        }
      }
      SliceStartStep(start, |rest|, jumps);
      r
  }

  /**
   * `initialMonstersCreator(start, end, jumps)`: one `createSingleMonster`
   * per slice [x, x + jumps). A width of zero or less would never end the
   * loop.
   */
  function InitialMonsters(t: Te.Terrain, start: int, end: int, jumps: int, hasTree: int -> bool): (r: seq<Option<Vec>>)
    requires jumps > 0
    ensures |r| == |SliceStarts(start, end, jumps)|
    ensures forall k :: 0 <= k < |r| ==>
              var x := SliceStart(start, k, jumps);
              x < end && r[k] == MonsterSpot(t, x, x + jumps, hasTree)
  {
    var xs := SliceStarts(start, end, jumps);
    seq(|xs|, k requires 0 <= k < |xs| => MonsterSpot(t, xs[k], xs[k] + jumps, hasTree))
  }

  /** The k-th slice of `initialMonstersCreator` starts at start + k·jumps. */
  function SliceStart(start: int, k: int, jumps: int): (x: int)
    ensures jumps > 0 && k >= 0 ==> x >= start
  {
    MulNonNeg(k, jumps);
    start + k * jumps
  }

  lemma MulNonNeg(a: int, b: int)
    ensures a >= 0 && b > 0 ==> a * b >= 0
  {
  }

  lemma SliceStartStep(start: int, k: int, jumps: int)
    ensures SliceStart(start + jumps, k, jumps) == SliceStart(start, k + 1, jumps)
  {
    assert (k + 1) * jumps == k * jumps + jumps;
  }

  /** The pairs `applyLayersCollisions` makes collide, in the order it names them. */
  const GAME_PAIRS: seq<(int, int)> := [
    (PL.LEAVES_LAYER, PL.TOP_TERRAIN_LAYER),
    (PL.AVATAR_LAYER, PL.TRUNK_LAYER),
    (PL.AVATAR_LAYER, PL.CLOUD_LAYER),
    (PL.AVATAR_LAYER, PL.MONSTERS_LAYER),
    (PL.MONSTERS_LAYER, PL.TOP_TERRAIN_LAYER),
    (PL.MONSTERS_LAYER, PL.TRUNK_LAYER)]

  /** a and b form one of `pairs`, in either order. */
  predicate Listed(pairs: seq<(int, int)>, a: int, b: int) {
    (a, b) in pairs || (b, a) in pairs
  }

  /** Every layer some pair names. */
  predicate AllNamed(pairs: seq<(int, int)>, keys: set<int>) {
    forall k :: 0 <= k < |pairs| ==> pairs[k].0 in keys && pairs[k].1 in keys
  }

  /** `shouldLayersCollide(a, b, true)` for each pair in turn: the listed pairs are added to what already collided. */
  function CollideAll(lm: L.LayerManager<ObjRef>, pairs: seq<(int, int)>): (r: Result<L.LayerManager<ObjRef>>)
    ensures r.Ok? <==> AllNamed(pairs, lm.data.Keys)
    ensures r.Err? ==> r.error == NoSuchElement
    ensures r.Ok? ==> forall a, b :: L.DoLayersCollide(r.value, a, b) <==> L.DoLayersCollide(lm, a, b) || Listed(pairs, a, b)
    ensures r.Ok? ==> r.value.layers == lm.layers && r.value.data.Keys == lm.data.Keys
    ensures r.Ok? && L.Valid(lm) ==> L.Valid(r.value)
    decreases |pairs|
  {
    if pairs == [] then Ok(lm)
    else
      assert forall a, b :: Listed(pairs, a, b) <==> (a, b) == pairs[0] || (b, a) == pairs[0] || Listed(pairs[1..], a, b);
      assert AllNamed(pairs, lm.data.Keys) <==>
             pairs[0].0 in lm.data.Keys && pairs[0].1 in lm.data.Keys && AllNamed(pairs[1..], lm.data.Keys) by {
        assert forall k :: 1 <= k < |pairs| ==> pairs[k] == pairs[1..][k - 1];
      }
      match L.ShouldLayersCollide(lm, pairs[0].0, pairs[0].1, true)
      case Err(e) => Err(e)
      case Ok(l1) => CollideAll(l1, pairs[1..])
  }

  /** Which layer pairs `applyLayersCollisions` makes collide, in either order. */
  predicate GamePair(a: int, b: int) {
    Listed(GAME_PAIRS, a, b)
  }

  /** The layers `applyLayersCollisions` names; each must exist, or the first missing one throws. */
  const COLLIDING_LAYERS: set<int> :=
    {PL.LEAVES_LAYER, PL.TOP_TERRAIN_LAYER, PL.AVATAR_LAYER, PL.TRUNK_LAYER, PL.CLOUD_LAYER, PL.MONSTERS_LAYER}

  /**
   * `applyLayersCollisions`: six `shouldLayersCollide(…, true)` calls. When
   * every layer named exists, exactly the six pairs are added to what
   * already collided; otherwise NoSuchElementException.
   */
  function ApplyLayersCollisions(lm: L.LayerManager<ObjRef>): (r: Result<L.LayerManager<ObjRef>>)
    ensures r.Err? <==> !(COLLIDING_LAYERS <= lm.data.Keys)
    ensures r.Err? ==> r.error == NoSuchElement
    ensures r.Ok? ==> forall a, b :: L.DoLayersCollide(r.value, a, b) <==> L.DoLayersCollide(lm, a, b) || GamePair(a, b)
    ensures r.Ok? ==> r.value.layers == lm.layers && r.value.data.Keys == lm.data.Keys
    ensures r.Ok? && L.Valid(lm) ==> L.Valid(r.value)
  {
    assert AllNamed(GAME_PAIRS, lm.data.Keys) <==> COLLIDING_LAYERS <= lm.data.Keys by {
      assert forall k :: 0 <= k < |GAME_PAIRS| ==> GAME_PAIRS[k].0 in COLLIDING_LAYERS && GAME_PAIRS[k].1 in COLLIDING_LAYERS;
      assert COLLIDING_LAYERS == {GAME_PAIRS[0].0, GAME_PAIRS[0].1, GAME_PAIRS[1].0, GAME_PAIRS[1].1, GAME_PAIRS[2].1, GAME_PAIRS[3].1};
    }
    CollideAll(lm, GAME_PAIRS)
  }

  /** The avatar collides with trunks, clouds and monsters but never with the leaves or the ground layer it walks on through its own blocks. */
  lemma AvatarCollisions()
    ensures GamePair(PL.AVATAR_LAYER, PL.TRUNK_LAYER) && GamePair(PL.MONSTERS_LAYER, PL.AVATAR_LAYER)
    ensures !GamePair(PL.AVATAR_LAYER, PL.LEAVES_LAYER) && !GamePair(PL.LEAVES_LAYER, PL.TRUNK_LAYER)
  {
  }

  /** Where `createAvatar` puts the avatar: half a screen in, three blocks above the ground there. */
  function AvatarStart(t: Te.Terrain, windowWidth: real): (p: Vec)
    ensures p.x == windowWidth / 2.0
    ensures p.y == Te.GroundHeightAt(t, windowWidth / 2.0) - (B.SIZE * EPSILON) as real
    ensures p.y + (B.SIZE * EPSILON) as real <= Te.RawHeight(t, Te.ColumnOf(windowWidth / 2.0)) as real
  {
    Vec(windowWidth / 2.0, Te.GroundHeightAt(t, windowWidth / 2.0) - (B.SIZE * EPSILON) as real)
  }

  /** Every object the clearing of `step` dooms, committed to a world layer in `c`, is no longer contained in `cur`. */
  ghost predicate ClearedBy(c: C.Collection, world: R.World, step: Step, windowWidth: real, cur: C.Collection) {
    ClearedIn(c, cur, world, step.before, windowWidth, Opposite(step.side), WORLD_LAYERS)
  }

  /** One `deleteWorld` clears its own step and keeps earlier steps cleared. */
  lemma DeleteWorldStep(c: C.Collection, cur: C.Collection, world: R.World, windowWidth: real, steps: seq<Step>, i: nat)
    requires L.Valid(c.layers) && OnlyRemovedIn(c, cur, WORLD_LAYERS) && i < |steps|
    requires forall k :: 0 <= k < i ==> ClearedBy(c, world, steps[k], windowWidth, cur)
    ensures var d := DeleteWorld(cur, world, steps[i].before, windowWidth, Opposite(steps[i].side));
            d.Ok? ==> OnlyRemovedIn(c, d.value, WORLD_LAYERS)
                      && forall k :: 0 <= k <= i ==> ClearedBy(c, world, steps[k], windowWidth, d.value)
  {
    var step := steps[i];
    var d := DeleteWorld(cur, world, step.before, windowWidth, Opposite(step.side));
    if d.Ok? {
      OnlyRemovedInTrans(c, cur, d.value, WORLD_LAYERS, WORLD_LAYERS, WORLD_LAYERS);
      assert forall id, o :: DoomedIn(c, world, step.before, windowWidth, Opposite(step.side), id, o)
                             <==> DoomedIn(cur, world, step.before, windowWidth, Opposite(step.side), id, o);
      assert ClearedBy(c, world, step, windowWidth, d.value);
      forall k | 0 <= k < i
        ensures ClearedBy(c, world, steps[k], windowWidth, d.value)
      {
        ClearedInKept(c, cur, d.value, world, steps[k].before, windowWidth, Opposite(steps[k].side), WORLD_LAYERS, WORLD_LAYERS);
      }
    }
  }

  /** The `createWorld` calls of one `update`, one per recentring. */
  method CreateStrips(t: Te.Terrain, steps: seq<Step>, windowWidth: real, hasTree: int -> bool,
                      renderable: Option<Rn.Renderable>) returns (strips: seq<Strip>)
    ensures |strips| == |steps|
    ensures forall k :: 0 <= k < |steps| ==>
              (strips[k].start, strips[k].end) == StripRange(steps[k].before, windowWidth, steps[k].side)
              && strips[k].monster == MonsterSpot(t, strips[k].start, strips[k].end, hasTree)
              && |strips[k].blocks| == Te.ColumnCount(strips[k].start, strips[k].end) * Te.TERRAIN_DEPTH
  {
    strips := [];
    var i := 0;
    while i < |steps|
      invariant 0 <= i <= |steps| && |strips| == i
      invariant forall k :: 0 <= k < i ==>
                  (strips[k].start, strips[k].end) == StripRange(steps[k].before, windowWidth, steps[k].side)
                  && strips[k].monster == MonsterSpot(t, strips[k].start, strips[k].end, hasTree)
                  && |strips[k].blocks| == Te.ColumnCount(strips[k].start, strips[k].end) * Te.TERRAIN_DEPTH
    {
      var strip := CreateWorld(t, steps[i].before, windowWidth, steps[i].side, hasTree, renderable);
      strips := strips + [strip];
      i := i + 1;
    }
  }

  /** The `deleteWorld` calls of one `update`: each clears the side opposite its recentring. */
  method ClearWorld(c: C.Collection, world: R.World, steps: seq<Step>, windowWidth: real) returns (r: Result<C.Collection>)
    requires L.Valid(c.layers)
    ensures r.Ok? <==> steps == [] || forall id :: id in WORLD_LAYERS ==> id in c.layers.data
    ensures r.Err? ==> r.error == NoSuchElement
    ensures r.Ok? ==> OnlyRemovedIn(c, r.value, WORLD_LAYERS)
    ensures r.Ok? ==> forall k :: 0 <= k < |steps| ==> ClearedBy(c, world, steps[k], windowWidth, r.value)
  {
    var cur := c;
    var i := 0;
    while i < |steps|
      invariant 0 <= i <= |steps|
      invariant i > 0 ==> forall id :: id in WORLD_LAYERS ==> id in c.layers.data
      invariant OnlyRemovedIn(c, cur, WORLD_LAYERS)
      invariant forall k :: 0 <= k < i ==> ClearedBy(c, world, steps[k], windowWidth, cur)
    {
      DeleteWorldStep(c, cur, world, windowWidth, steps, i);
      var deleted := DeleteWorld(cur, world, steps[i].before, windowWidth, Opposite(steps[i].side));
      if deleted.Err? {
        return Err(deleted.error);
      }
      cur := deleted.value;
      i := i + 1;
    }
    r := Ok(cur);
  }

  /**
   * The world-keeping half of `update`, after the engine's frame: for each
   * recentring, build the strip on the side the world grows (`createWorld`)
   * and clear the screen at the other end (`deleteWorld`), both with the ends
   * as they were before that recentring. The strips' objects join the
   * collection only at the next flush, so no clearing can reach them, and
   * building never fails, so the strips are the same whether the clearing
   * throws or not.
   */
  method UpdateWorld(c: C.Collection, world: R.World, t: Te.Terrain, e: Ends, windowWidth: real, avatarX: real,
                     hasTree: int -> bool, renderable: Option<Rn.Renderable>)
    returns (r: Result<(C.Collection, Ends, seq<Strip>)>)
    requires L.Valid(c.layers)
    ensures r.Ok? <==> Recentre(e, windowWidth, avatarX).1 == [] || forall id :: id in WORLD_LAYERS ==> id in c.layers.data
    ensures r.Ok? ==> r.value.1 == Recentre(e, windowWidth, avatarX).0
    ensures r.Ok? ==> |r.value.2| == |Recentre(e, windowWidth, avatarX).1|
    ensures r.Ok? ==> forall k :: 0 <= k < |r.value.2| ==>
              var step := Recentre(e, windowWidth, avatarX).1[k];
              (r.value.2[k].start, r.value.2[k].end) == StripRange(step.before, windowWidth, step.side)
              && r.value.2[k].monster == MonsterSpot(t, r.value.2[k].start, r.value.2[k].end, hasTree)
    ensures r.Ok? ==> OnlyRemovedIn(c, r.value.0, WORLD_LAYERS)
    ensures r.Ok? ==> forall k :: 0 <= k < |Recentre(e, windowWidth, avatarX).1| ==>
              ClearedBy(c, world, Recentre(e, windowWidth, avatarX).1[k], windowWidth, r.value.0)
  {
    var (ends, steps) := Recentre(e, windowWidth, avatarX);
    var strips := CreateStrips(t, steps, windowWidth, hasTree, renderable);
    var cleared := ClearWorld(c, world, steps, windowWidth);
    if cleared.Err? {
      return Err(cleared.error);
    }
    r := Ok((cleared.value, ends, strips));
  }
}

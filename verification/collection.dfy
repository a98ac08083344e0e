/**
 * danogl.collisions.GameObjectCollection: the game's objects, by layer, and
 * the cache of pairs already in collision. `HandlePair` drives the
 * enter / stay / exit callbacks and the resolver; the callbacks are recorded
 * as events, in the order the source invokes them.
 *
 * The cache is looked up with `Pairs.Find`, the order-insensitive lookup
 * the pair type's `equals` promises, and each object is handed its own view
 * of the pair (see the pair hash finding in the README).
 */
module Collection {
  import opened Wrappers
  import opened Pairs
  import GO = GameObjects
  import A = AABB
  import R = Resolver
  import L = Layers
  import opened Seqs
  import DL = DeferredList

  /** A callback invocation: `obj.onCollisionEnter/Stay/Exit(other, …)`; `view` is the index of the pair view handed over. */
  datatype Event =
    | Enter(obj: ObjRef, other: ObjRef)
    | Stay(obj: ObjRef, other: ObjRef, view: int)
    | Exit(obj: ObjRef, other: ObjRef)

  datatype Collection = Collection(
    layers: L.LayerManager<ObjRef>,
    cache: seq<Entry<A.AABBData>>,
    hasResolver: bool)

  /** Every pair of objects can be weighed by the resolver. */
  ghost predicate MassesDefined(world: R.World) {
    forall a, b :: a in world && b in world ==> R.WeightsDefined(world[a].physics.mass, world[b].physics.mass)
  }

  /** A new collection: the default layers, nothing cached, the standard resolver. */
  function Create(): (c: Collection)
    ensures c.layers == L.Create() && c.cache == [] && c.hasResolver
    ensures KeysUnique(c.cache) && L.Valid(c.layers)
  {
    Collection(L.Create(), [], true)
  }

  /** `addGameObject(obj, layerId)`: queued in the layer manager. */
  function AddGameObject(c: Collection, obj: ObjRef, layerId: int): (r: Collection)
    ensures r.layers == L.AddGameObject(c.layers, obj, layerId) && r.cache == c.cache && r.hasResolver == c.hasResolver
    ensures L.Valid(c.layers) ==> L.Valid(r.layers)
  {
    c.(layers := L.AddGameObject(c.layers, obj, layerId))
  }

  /** `addGameObject(obj)`: the default layer. */
  function AddToDefaultLayer(c: Collection, obj: ObjRef): (r: Collection)
    ensures r == AddGameObject(c, obj, L.DEFAULT)
    ensures obj in r.layers.data[L.DEFAULT].objects.list || obj in r.layers.data[L.DEFAULT].objects.toAdd
  {
    AddGameObject(c, obj, L.DEFAULT)
  }

  /** The key mentions the object in either slot. */
  predicate Mentions(key: Pair, obj: ObjRef) {
    key.go1 == Some(obj) || key.go2 == Some(obj)
  }

  /** The cache without the entries whose key mentions `obj`, in order. */
  function Purge(cache: seq<Entry<A.AABBData>>, obj: ObjRef): (r: seq<Entry<A.AABBData>>)
    ensures forall e :: e in r <==> e in cache && !Mentions(e.key, obj)
    ensures |r| <= |cache|
    decreases |cache|
  {
    if cache == [] then []
    else if Mentions(cache[0].key, obj) then Purge(cache[1..], obj)
    else [cache[0]] + Purge(cache[1..], obj)
  }

  /** Dropping entries never creates equal keys. */
  lemma {:induction false} PurgeKeepsUnique(cache: seq<Entry<A.AABBData>>, obj: ObjRef)
    ensures KeysUnique(cache) ==> KeysUnique(Purge(cache, obj))
    decreases |cache|
  {
    if cache != [] && KeysUnique(cache) {
      var rest := cache[1..];
      UniqueSplit(cache);
      PurgeKeepsUnique(rest, obj);
      if !Mentions(cache[0].key, obj) {
        ConsUnique(cache[0], Purge(rest, obj), rest);
      }
    }
  }

  /** A duplicate-free cache is a head whose key no later entry repeats, followed by a duplicate-free rest. */
  lemma UniqueSplit(cache: seq<Entry<A.AABBData>>)
    requires cache != [] && KeysUnique(cache)
    ensures KeysUnique(cache[1..])
    ensures forall e :: e in cache[1..] ==> !PairEquals(cache[0].key, e.key)
  {
    var rest := cache[1..];
    forall i, j | 0 <= i < j < |rest| ensures !PairEquals(rest[i].key, rest[j].key) {
      assert rest[i] == cache[i + 1] && rest[j] == cache[j + 1];
    }
    forall e | e in rest ensures !PairEquals(cache[0].key, e.key) {
      var k :| 0 <= k < |rest| && rest[k] == e;
      assert cache[k + 1] == e;
    }
  }

  /** Putting in front of a duplicate-free sequence a head whose key none of its entries repeats keeps it duplicate-free. */
  lemma ConsUnique(head: Entry<A.AABBData>, s: seq<Entry<A.AABBData>>, pool: seq<Entry<A.AABBData>>)
    requires KeysUnique(s) && (forall e :: e in s ==> e in pool)
    requires forall e :: e in pool ==> !PairEquals(head.key, e.key)
    ensures KeysUnique([head] + s)
  {
    var r := [head] + s;
    forall i, j | 0 <= i < j < |r| ensures !PairEquals(r[i].key, r[j].key) {
      if i == 0 {
        assert r[j] == s[j - 1] && r[j] in s;
      } else {
        assert r[i] == s[i - 1] && r[j] == s[j - 1];
      }
    }
  }

  /**
   * `removeGameObject(obj, layerId)`: the layer manager decides whether the
   * object will be removed; only then are the cached pairs that mention it
   * forgotten.
   */
  function RemoveGameObject(c: Collection, obj: ObjRef, layerId: int): (r: (Collection, bool))
    ensures r.1 == L.RemoveGameObject(c.layers, obj, layerId).1
    ensures r.0.layers == L.RemoveGameObject(c.layers, obj, layerId).0 && r.0.hasResolver == c.hasResolver
    ensures !r.1 ==> r.0.cache == c.cache
    ensures r.1 ==> forall e :: e in r.0.cache <==> e in c.cache && !Mentions(e.key, obj)
    ensures KeysUnique(c.cache) ==> KeysUnique(r.0.cache)
  {
    var (layers, removed) := L.RemoveGameObject(c.layers, obj, layerId);
    if removed then
      PurgeKeepsUnique(c.cache, obj);
      (Collection(layers, Purge(c.cache, obj), c.hasResolver), true)
    else (c.(layers := layers), false)
  }

  /** `removeGameObject(obj)`: the default layer. */
  function RemoveFromDefaultLayer(c: Collection, obj: ObjRef): (r: (Collection, bool))
    ensures r == RemoveGameObject(c, obj, L.DEFAULT)
    ensures r.1 <==> L.DEFAULT in c.layers.data &&
                     (obj in c.layers.data[L.DEFAULT].objects.toAdd ||
                      (obj in c.layers.data[L.DEFAULT].objects.list && obj !in c.layers.data[L.DEFAULT].objects.toRemove))
  {
    RemoveGameObject(c, obj, L.DEFAULT)
  }

  /** `update(deltaTime)`: only the layer structures are flushed; the objects are not updated here. */
  function Update(c: Collection): (r: Collection)
    requires L.Valid(c.layers)
    ensures L.Valid(r.layers) && r.layers.layers.toAdd == [] && !r.layers.shouldReSort && r.layers.data.Keys == c.layers.data.Keys
    ensures r.cache == c.cache && r.hasResolver == c.hasResolver && r.layers == L.FlushChanges(c.layers)
  {
    c.(layers := L.FlushChanges(c.layers))
  }

  /** The index of the view that belongs to `obj` under the stored key. */
  function ViewOf(key: Pair, obj: ObjRef): (v: int)
    ensures v == 0 || v == 1
    ensures key.go1 == Some(obj) ==> v == 0
  {
    if key.go1 == Some(obj) then 0 else 1
  }

  /** Both objects agree to collide and share a coordinate space. */
  predicate Admitted(world: R.World, o1: ObjRef, o2: ObjRef, shouldCollide: (ObjRef, ObjRef) -> bool)
    requires o1 in world && o2 in world
  {
    shouldCollide(o1, o2) && shouldCollide(o2, o1) && world[o1].space == world[o2].space
  }

  /** The outcome of one `handlePair`: the collection, the world, the callbacks, and whether the pair collided. */
  datatype Handled = Handled(c: Collection, world: R.World, events: seq<Event>, collided: bool)

  /**
   * `handlePair(obj1, obj2)`. Pairs not admitted are skipped. A cached pair
   * starts a new frame: if it no longer collides both objects get
   * `onCollisionExit` and the entry goes; otherwise both get
   * `onCollisionStay` with their own view, and the resolver runs on the
   * entry's order. An uncached pair asks the narrow phase; fresh data is
   * cached, and each object gets `onCollisionEnter` then `onCollisionStay`.
   */
  function HandlePair(c: Collection, world: R.World, o1: ObjRef, o2: ObjRef,
                      shouldCollide: (ObjRef, ObjRef) -> bool, fp: A.Fingerprint): (r: Result<Handled>)
    requires o1 in world && o2 in world && MassesDefined(world)
    ensures !Admitted(world, o1, o2, shouldCollide) ==> r == Ok(Handled(c, world, [], false))
    ensures r.Ok? ==> r.value.c.layers == c.layers && r.value.c.hasResolver == c.hasResolver
    ensures r.Ok? ==> r.value.world.Keys == world.Keys
    ensures r.Ok? ==> forall k :: k in world ==> r.value.world[k] == world[k].(transform := r.value.world[k].transform)
    ensures r.Ok? ==> forall k :: k in world && k != o1 && k != o2 ==> r.value.world[k] == world[k]
    ensures r.Ok? && Find(c.cache, PairOf(o1, o2)).None? ==> r.value.world == world
    ensures r.Ok? && Admitted(world, o1, o2, shouldCollide) && KeysUnique(c.cache) ==>
              (r.value.collided <==> Find(r.value.c.cache, PairOf(o1, o2)).Some?)
    ensures KeysUnique(c.cache) && r.Ok? ==> KeysUnique(r.value.c.cache)
  {
    if !Admitted(world, o1, o2, shouldCollide) then Ok(Handled(c, world, [], false))
    else
      var q := PairOf(o1, o2);
      match Find(c.cache, q)
      case Some(i) =>
        CachedStepFacts(c, world, o1, o2, i, fp);
        HandleCached(c, world, o1, o2, i, fp)
      case None =>
        FindAfterAppend(c.cache, Entry(q, A.NewData()), q);
        KeysUniqueAppend(c.cache, Entry(q, A.NewData()));
        HandleNew(c, world, o1, o2)
  }

  /** A pair found at `i` in the cache. */
  function HandleCached(c: Collection, world: R.World, o1: ObjRef, o2: ObjRef, i: nat, fp: A.Fingerprint): (r: Result<Handled>)
    requires o1 in world && o2 in world && MassesDefined(world)
    requires Find(c.cache, PairOf(o1, o2)) == Some(i)
    ensures r.Ok? ==> r.value.c.layers == c.layers && r.value.c.hasResolver == c.hasResolver
    ensures r.Ok? ==> r.value.world.Keys == world.Keys
    ensures r.Ok? ==> forall k :: k in world ==> r.value.world[k] == world[k].(transform := r.value.world[k].transform)
    ensures r.Ok? ==> forall k :: k in world && k != o1 && k != o2 ==> r.value.world[k] == world[k]
    ensures r.Ok? && !r.value.collided ==>
              r.value.c.cache == c.cache[..i] + c.cache[i + 1..] && r.value.world == world
              && r.value.events == [Exit(o1, o2), Exit(o2, o1)]
    ensures r.Ok? && r.value.collided ==>
              |r.value.c.cache| == |c.cache| && r.value.c.cache[i].key == c.cache[i].key
              && (forall j :: 0 <= j < |c.cache| && j != i ==> r.value.c.cache[j] == c.cache[j])
              && var key := c.cache[i].key;
                 r.value.events == [Stay(o1, o2, ViewOf(key, o1)), Stay(o2, o1, 1 - ViewOf(key, o1))]
  {
    var e := c.cache[i];
    var k1, k2 := e.key.go1.value, e.key.go2.value;
    match A.AreColliding(A.OnFrameStart(e.value), world[k1], world[k2], fp)
    case Err(err) => Err(err)
    case Ok((colliding, d)) =>
      if !colliding then
        Ok(Handled(c.(cache := c.cache[..i] + c.cache[i + 1..]), world, [Exit(o1, o2), Exit(o2, o1)], false))
      else
        var events := [Stay(o1, o2, ViewOf(e.key, o1)), Stay(o2, o1, 1 - ViewOf(e.key, o1))];
        if !c.hasResolver then
          Ok(Handled(c.(cache := c.cache[i := Entry(e.key, d)]), world, events, true))
        else
          match R.Resolve(world, k1, k2, d, fp)
          case Err(err) => Err(err)
          case Ok((world', d')) =>
            Ok(Handled(c.(cache := c.cache[i := Entry(e.key, d')]), world', events, true))
  }

  /** A pair not in the cache: the narrow phase decides whether a collision starts. */
  function HandleNew(c: Collection, world: R.World, o1: ObjRef, o2: ObjRef): (r: Result<Handled>)
    requires o1 in world && o2 in world
    ensures r.Ok? ==> r.value.c.layers == c.layers && r.value.c.hasResolver == c.hasResolver && r.value.world == world
    ensures r.Ok? && !r.value.collided ==> r.value.c == c && r.value.events == []
    ensures r.Ok? && r.value.collided ==>
              r.value.c.cache == c.cache + [Entry(PairOf(o1, o2), A.NewData())]
              && r.value.events == [Enter(o1, o2), Stay(o1, o2, 0), Enter(o2, o1), Stay(o2, o1, 1)]
    ensures r.Err? <==> A.ComputeCollisionData(world[o1], world[o2]).Err?
    ensures r.Ok? ==> A.ComputeCollisionData(world[o1], world[o2]).Ok?
                      && (r.value.collided <==> A.ComputeCollisionData(world[o1], world[o2]).value.Some?)
  {
    match A.ComputeCollisionData(world[o1], world[o2])
    case Err(err) => Err(err)
    case Ok(None) => Ok(Handled(c, world, [], false))
    case Ok(Some(d)) =>
      Ok(Handled(c.(cache := c.cache + [Entry(PairOf(o1, o2), d)]), world,
                 [Enter(o1, o2), Stay(o1, o2, 0), Enter(o2, o1), Stay(o2, o1, 1)], true))
  }

  /** How a cached step leaves the lookup and the key invariant. */
  lemma CachedStepFacts(c: Collection, world: R.World, o1: ObjRef, o2: ObjRef, i: nat, fp: A.Fingerprint)
    requires o1 in world && o2 in world && MassesDefined(world)
    requires Find(c.cache, PairOf(o1, o2)) == Some(i)
    ensures HandleCached(c, world, o1, o2, i, fp).Ok? ==>
            var h := HandleCached(c, world, o1, o2, i, fp).value;
            (h.collided ==> Find(h.c.cache, PairOf(o1, o2)) == Some(i))
            && (h.collided || KeysUnique(c.cache) ==> (h.collided <==> Find(h.c.cache, PairOf(o1, o2)).Some?))
            && (KeysUnique(c.cache) ==> KeysUnique(h.c.cache))
  {
    var r := HandleCached(c, world, o1, o2, i, fp);
    if r.Err? { return; }
    var h := r.value;
    var q := PairOf(o1, o2);
    if h.collided {
      var v := h.c.cache[i].value;
      assert h.c.cache == c.cache[i := Entry(c.cache[i].key, v)];
      FindAfterUpdate(c.cache, i, v, q);
      if KeysUnique(c.cache) { KeysUniqueSteps(c.cache, i, v); }
    } else if KeysUnique(c.cache) {
      FindAfterRemove(c.cache, i, q);
      KeysUniqueSteps(c.cache, i, c.cache[i].value);
    }
  }

  /**
   * The callbacks follow the cache: `onCollisionEnter` only for a pair that
   * was not cached, `onCollisionExit` only for one that was, and every
   * `onCollisionStay` hands each object the view that belongs to it.
   */
  lemma EventsFollowCache(c: Collection, world: R.World, o1: ObjRef, o2: ObjRef,
                          shouldCollide: (ObjRef, ObjRef) -> bool, fp: A.Fingerprint)
    requires o1 in world && o2 in world && MassesDefined(world) && o1 != o2
    requires HandlePair(c, world, o1, o2, shouldCollide, fp).Ok?
    ensures var h := HandlePair(c, world, o1, o2, shouldCollide, fp).value;
            (forall ev :: ev in h.events && ev.Enter? ==> Find(c.cache, PairOf(o1, o2)).None?)
            && (forall ev :: ev in h.events && ev.Exit? ==> Find(c.cache, PairOf(o1, o2)).Some?)
            && (forall ev :: ev in h.events && ev.Stay? ==>
                  var i := Find(h.c.cache, PairOf(o1, o2));
                  i.Some? && ev.view == ViewOf(h.c.cache[i.value].key, ev.obj))
  {
    var q := PairOf(o1, o2);
    if Admitted(world, o1, o2, shouldCollide) {
      match Find(c.cache, q)
      case Some(i) => EventsWhenCached(c, world, o1, o2, i, fp);
      case None => EventsWhenNew(c, world, o1, o2);
    }
  }

  /** A cached pair is never entered, and its stays hand out the views of the entry that stays found. */
  lemma EventsWhenCached(c: Collection, world: R.World, o1: ObjRef, o2: ObjRef, i: nat, fp: A.Fingerprint)
    requires o1 in world && o2 in world && MassesDefined(world) && o1 != o2
    requires Find(c.cache, PairOf(o1, o2)) == Some(i) && HandleCached(c, world, o1, o2, i, fp).Ok?
    ensures var h := HandleCached(c, world, o1, o2, i, fp).value;
            (forall ev :: ev in h.events ==> !ev.Enter?)
            && (forall ev :: ev in h.events && ev.Stay? ==>
                  Find(h.c.cache, PairOf(o1, o2)) == Some(i) && ev.view == ViewOf(h.c.cache[i].key, ev.obj))
  {
    CachedStepFacts(c, world, o1, o2, i, fp);
    ViewsComplement(c.cache[i].key, o1, o2);
  }

  /** The two objects of a stored key hold opposite views of it. */
  lemma ViewsComplement(key: Pair, o1: ObjRef, o2: ObjRef)
    requires PairEquals(PairOf(o1, o2), key) && o1 != o2
    ensures ViewOf(key, o2) == 1 - ViewOf(key, o1)
  {
  }

  /** A new pair never exits, and its stays hand out the views of the entry just appended. */
  lemma EventsWhenNew(c: Collection, world: R.World, o1: ObjRef, o2: ObjRef)
    requires o1 in world && o2 in world && o1 != o2
    requires Find(c.cache, PairOf(o1, o2)).None? && HandleNew(c, world, o1, o2).Ok?
    ensures var h := HandleNew(c, world, o1, o2).value;
            (forall ev :: ev in h.events ==> !ev.Exit?)
            && (forall ev :: ev in h.events && ev.Stay? ==>
                  Find(h.c.cache, PairOf(o1, o2)) == Some(|c.cache|) && ev.view == ViewOf(h.c.cache[|c.cache|].key, ev.obj))
  {
    var h := HandleNew(c, world, o1, o2).value;
    if h.collided {
      FindAfterAppend(c.cache, h.c.cache[|c.cache|], PairOf(o1, o2));
      assert h.c.cache == c.cache + [h.c.cache[|c.cache|]];
    }
  }

  /** Handling a pair leaves every cache entry with another key in place. */
  lemma OtherEntriesKept(c: Collection, world: R.World, o1: ObjRef, o2: ObjRef,
                         shouldCollide: (ObjRef, ObjRef) -> bool, fp: A.Fingerprint, e: Entry<A.AABBData>)
    requires o1 in world && o2 in world && MassesDefined(world)
    requires HandlePair(c, world, o1, o2, shouldCollide, fp).Ok? && !PairEquals(e.key, PairOf(o1, o2))
    ensures e in c.cache <==> e in HandlePair(c, world, o1, o2, shouldCollide, fp).value.c.cache
  {
    var q := PairOf(o1, o2);
    if Admitted(world, o1, o2, shouldCollide) {
      match Find(c.cache, q)
      case Some(i) =>
        assert PairEquals(q, c.cache[i].key);
        assert e.key != c.cache[i].key;
        var h := HandleCached(c, world, o1, o2, i, fp).value;
        OthersSurvive(c.cache, i, if h.collided then h.c.cache[i].value else c.cache[i].value, e);
      case None =>
    }
  }

  /** Pairs whose objects are all in the world. */
  predicate InWorld(world: R.World, pairs: seq<(ObjRef, ObjRef)>) {
    forall k :: 0 <= k < |pairs| ==> pairs[k].0 in world && pairs[k].1 in world
  }

  /** `handlePair` on each pair in turn, threading the collection and the world; the first exception stops the pass. */
  function HandleAll(c: Collection, world: R.World, pairs: seq<(ObjRef, ObjRef)>,
                     shouldCollide: (ObjRef, ObjRef) -> bool, fp: A.Fingerprint): (r: Result<(Collection, R.World, seq<Event>)>)
    requires MassesDefined(world) && InWorld(world, pairs)
    ensures r.Ok? ==> r.value.0.layers == c.layers && r.value.0.hasResolver == c.hasResolver
    ensures r.Ok? ==> r.value.1.Keys == world.Keys && MassesDefined(r.value.1)
    ensures r.Ok? && KeysUnique(c.cache) ==> KeysUnique(r.value.0.cache)
    decreases |pairs|
  {
    if pairs == [] then Ok((c, world, []))
    else
      match HandlePair(c, world, pairs[0].0, pairs[0].1, shouldCollide, fp)
      case Err(e) => Err(e)
      case Ok(h) =>
        assert forall k :: k in world ==> h.world[k].physics == world[k].physics;
        assert InWorld(h.world, pairs[1..]) by {
          forall k | 0 <= k < |pairs[1..]| ensures pairs[1..][k].0 in h.world && pairs[1..][k].1 in h.world {
            assert pairs[1..][k] == pairs[k + 1];
          }
        }
        match HandleAll(h.c, h.world, pairs[1..], shouldCollide, fp)
        case Err(e) => Err(e)
        case Ok((c', world', events)) => Ok((c', world', h.events + events))
  }

  /** A cache entry whose key no handed-out pair equals is still there after the pass. */
  lemma {:induction false} UnvisitedEntriesKept(c: Collection, world: R.World, pairs: seq<(ObjRef, ObjRef)>,
                                                shouldCollide: (ObjRef, ObjRef) -> bool, fp: A.Fingerprint,
                                                e: Entry<A.AABBData>)
    requires MassesDefined(world) && InWorld(world, pairs) && e in c.cache
    requires forall k :: 0 <= k < |pairs| ==> !PairEquals(e.key, PairOf(pairs[k].0, pairs[k].1))
    ensures HandleAll(c, world, pairs, shouldCollide, fp).Ok? ==> e in HandleAll(c, world, pairs, shouldCollide, fp).value.0.cache
    decreases |pairs|
  {
    if pairs != [] && HandleAll(c, world, pairs, shouldCollide, fp).Ok? {
      HandleAllStep(c, world, pairs, shouldCollide, fp);
      var h := HandlePair(c, world, pairs[0].0, pairs[0].1, shouldCollide, fp).value;
      OtherEntriesKept(c, world, pairs[0].0, pairs[0].1, shouldCollide, fp, e);
      forall k | 0 <= k < |pairs[1..]| ensures !PairEquals(e.key, PairOf(pairs[1..][k].0, pairs[1..][k].1)) {
        assert pairs[1..][k] == pairs[k + 1];
      }
      UnvisitedEntriesKept(h.c, h.world, pairs[1..], shouldCollide, fp, e);
    }
  }

  /** A successful pass is its first `handlePair` followed by a successful pass over the remaining pairs. */
  lemma HandleAllStep(c: Collection, world: R.World, pairs: seq<(ObjRef, ObjRef)>,
                      shouldCollide: (ObjRef, ObjRef) -> bool, fp: A.Fingerprint)
    requires MassesDefined(world) && InWorld(world, pairs) && pairs != []
    ensures HandleAll(c, world, pairs, shouldCollide, fp).Ok? ==>
              HandlePair(c, world, pairs[0].0, pairs[0].1, shouldCollide, fp).Ok?
              && var h := HandlePair(c, world, pairs[0].0, pairs[0].1, shouldCollide, fp).value;
                 MassesDefined(h.world) && InWorld(h.world, pairs[1..])
                 && HandleAll(h.c, h.world, pairs[1..], shouldCollide, fp).Ok?
                 && HandleAll(h.c, h.world, pairs[1..], shouldCollide, fp).value.0 == HandleAll(c, world, pairs, shouldCollide, fp).value.0
  {
    if HandleAll(c, world, pairs, shouldCollide, fp).Err? { return; }
    var h := HandlePair(c, world, pairs[0].0, pairs[0].1, shouldCollide, fp).value;
    assert forall k :: k in world ==> h.world[k].physics == world[k].physics;
    assert InWorld(h.world, pairs[1..]) by {
      forall k | 0 <= k < |pairs[1..]| ensures pairs[1..][k].0 in h.world && pairs[1..][k].1 in h.world {
        assert pairs[1..][k] == pairs[k + 1];
      }
    }
  }

  /** Every committed object of every committed layer is in the world. */
  ghost predicate Populated(c: Collection, world: R.World)
    requires L.CommittedKnown(c.layers)
  {
    forall o :: o in Flatten(L.LayerLists(c.layers)) ==> o in world
  }

  /** The pass's pairs are pairs of distinct objects of the world. */
  lemma PassInWorld(c: Collection, world: R.World)
    requires L.CommittedKnown(c.layers) && Populated(c, world)
    ensures InWorld(world, L.Pass(c.layers, |c.layers.layers.list|))
    ensures forall k :: 0 <= k < |L.Pass(c.layers, |c.layers.layers.list|)| ==>
              L.Pass(c.layers, |c.layers.layers.list|)[k].0 != L.Pass(c.layers, |c.layers.layers.list|)[k].1
  {
    var pairs := L.Pass(c.layers, |c.layers.layers.list|);
    forall k | 0 <= k < |pairs| ensures pairs[k].0 in world && pairs[k].1 in world && pairs[k].0 != pairs[k].1 {
      L.HandleCollisionsNeverSelf(c.layers, pairs[k]);
    }
  }

  /**
   * `handleCollisions`: the layer manager's pass over the committed layers,
   * each pair through `handlePair`. Pending additions and removals are not
   * flushed here.
   */
  function HandleCollisions(c: Collection, world: R.World, shouldCollide: (ObjRef, ObjRef) -> bool,
                            fp: A.Fingerprint): (r: Result<(Collection, R.World, seq<Event>)>)
    requires L.CommittedKnown(c.layers) && Populated(c, world) && MassesDefined(world)
    ensures r.Ok? ==> r.value.0.layers == c.layers && r.value.1.Keys == world.Keys && MassesDefined(r.value.1)
    ensures r.Ok? && KeysUnique(c.cache) ==> KeysUnique(r.value.0.cache)
  {
    PassInWorld(c, world);
    HandleAll(c, world, L.Pass(c.layers, |c.layers.layers.list|), shouldCollide, fp)
  }

  /** Every object the layers hold, committed or pending, is in the world. */
  ghost predicate Known(c: Collection, world: R.World) {
    (forall id, o :: id in c.layers.data && o in c.layers.data[id].objects.list ==> o in world)
    && (forall id, o :: id in c.layers.data && o in c.layers.data[id].objects.toAdd ==> o in world)
  }

  /** Being known depends only on the layers and on which objects the world holds. */
  lemma KnownAfterPass(c: Collection, world: R.World, c': Collection, world': R.World)
    requires Known(c, world) && c'.layers == c.layers && world'.Keys == world.Keys
    ensures Known(c', world')
  {
  }

  /** Known objects include the committed ones the pass walks over. */
  lemma KnownIsPopulated(c: Collection, world: R.World)
    requires L.CommittedKnown(c.layers) && Known(c, world)
    ensures Populated(c, world)
  {
    forall o | o in Flatten(L.LayerLists(c.layers)) ensures o in world {
      FlattenMembership(L.LayerLists(c.layers), o);
      var i :| 0 <= i < |L.LayerLists(c.layers)| && o in L.LayerLists(c.layers)[i];
      var id := c.layers.layers.list[i];
      assert id in c.layers.data;
      assert o in c.layers.data[id].objects.list;
    }
  }

  /** Flushing only commits objects that were pending, so it keeps every object known. */
  lemma FlushKeepsKnown(c: Collection, world: R.World)
    requires L.Valid(c.layers) && Known(c, world)
    ensures Known(Update(c), world)
  {
    var lm' := L.FlushChanges(c.layers);
    forall id, o | id in lm'.data && o in lm'.data[id].objects.list ensures o in world {
      var m := c.layers.data[id].objects;
      assert lm'.data[id].objects == DL.Flush(m);
      assert o in m.toAdd || o in m.list;
    }
  }
}

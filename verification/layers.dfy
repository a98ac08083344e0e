/**
 * danogl.collisions.LayerManager: game objects live in integer-identified
 * layers. Each layer has a draw order (initially its id), a deferred list of
 * objects and the set of layers it collides with. The layer list is itself a
 * deferred list; flushing it also flushes every layer and, when a draw order
 * changed or a layer was created, stably re-sorts the layers by draw order.
 *
 * Java's mutable `LayerData` records are kept in a map from layer id to data;
 * the deferred layer list holds the ids. Layers are never removed and ids are
 * unique, so `findFirst(data -> data.layerId == id)` finds exactly the map entry.
 */
module Layers {
  import opened Wrappers
  import opened Seqs
  import opened StableSort
  import DL = DeferredList
  import ConcatIter
  import LP = LayerPairs

  /** The predefined layer ids of danogl.collisions.Layer. */
  const BACKGROUND: int := -200
  const STATIC_OBJECTS: int := -100
  const DEFAULT: int := 0
  const FOREGROUND: int := 100
  const UI: int := 200

  datatype LayerData<T> = LayerData(drawOrder: int, objects: DL.ModList<T>, collidesWith: set<int>)

  datatype LayerManager<T> = LayerManager(layers: DL.ModList<int>, data: map<int, LayerData<T>>, shouldReSort: bool)

  /** `new LayerData(id)`: draw order equal to the id, no objects, colliding with nothing. */
  function NewLayerData<T(==)>(layerId: int): (d: LayerData<T>)
    ensures d.drawOrder == layerId && |d.collidesWith| == 0
    ensures d.objects.list == [] && d.objects.toAdd == [] && d.objects.toRemove == []
    ensures !d.objects.allowDuplicates
  {
    LayerData(layerId, DL.Create(false), {})
  }

  predicate LayerValid<T(==)>(d: LayerData<T>) {
    DL.Valid(d.objects) && !d.objects.allowDuplicates
  }

  /**
   * The manager's invariant: the layer list is duplicate-free and never has
   * removals queued; the known layers are exactly the committed and pending
   * ids; each collide set names known layers only, and the collide relation
   * is symmetric.
   */
  ghost predicate Valid<T>(lm: LayerManager<T>) {
    DL.Valid(lm.layers) && !lm.layers.allowDuplicates && lm.layers.toRemove == []
    && (forall id :: id in lm.data <==> id in lm.layers.list || id in lm.layers.toAdd)
    && (forall id :: id in lm.data ==> LayerValid(lm.data[id]) && lm.data[id].collidesWith <= lm.data.Keys)
    && (forall a, b :: a in lm.data && b in lm.data ==>
          (b in lm.data[a].collidesWith <==> a in lm.data[b].collidesWith))
  }

  /** `getLayerData`: the layer's record, or null for an unknown id. */
  function GetLayerData<T>(lm: LayerManager<T>, layerId: int): (r: Option<LayerData<T>>)
    ensures Valid(lm) ==> (r.Some? <==> layerId in lm.layers.list || layerId in lm.layers.toAdd)
    ensures r.Some? ==> layerId in lm.data && r.value == lm.data[layerId]
  {
    if layerId in lm.data then Some(lm.data[layerId]) else None
  }

  /** `doLayersCollide`: false unless both layers exist and the first's collide set names the second. */
  predicate DoLayersCollide<T>(lm: LayerManager<T>, layer1: int, layer2: int) {
    layer1 in lm.data && layer2 in lm.data && layer2 in lm.data[layer1].collidesWith
  }

  /** The collide relation of a valid manager is symmetric. */
  lemma DoLayersCollideSymmetric<T>(lm: LayerManager<T>, layer1: int, layer2: int)
    requires Valid(lm)
    ensures DoLayersCollide(lm, layer1, layer2) <==> DoLayersCollide(lm, layer2, layer1)
  {
  }

  /**
   * `shouldLayersCollide`: NoSuchElementException when either layer is unknown;
   * otherwise exactly the pair {layer1, layer2} is set to collide or not, in
   * both directions.
   */
  function ShouldLayersCollide<T>(lm: LayerManager<T>, layer1: int, layer2: int, shouldCollide: bool)
    : (r: Result<LayerManager<T>>)
    ensures r.Err? <==> layer1 !in lm.data || layer2 !in lm.data
    ensures r.Err? ==> r.error == NoSuchElement
    ensures r.Ok? ==> DoLayersCollide(r.value, layer1, layer2) == shouldCollide
    ensures r.Ok? ==> DoLayersCollide(r.value, layer2, layer1) == shouldCollide
    ensures r.Ok? ==> forall x, y :: !((x == layer1 && y == layer2) || (x == layer2 && y == layer1)) ==>
              DoLayersCollide(r.value, x, y) == DoLayersCollide(lm, x, y)
    ensures r.Ok? ==> r.value.layers == lm.layers && r.value.shouldReSort == lm.shouldReSort
    ensures r.Ok? ==> r.value.data.Keys == lm.data.Keys
    ensures r.Ok? ==> forall id :: id in lm.data ==>
              r.value.data[id].objects == lm.data[id].objects && r.value.data[id].drawOrder == lm.data[id].drawOrder
    ensures r.Ok? && Valid(lm) ==> Valid(r.value)
  {
    if layer1 !in lm.data || layer2 !in lm.data then Err(NoSuchElement)
    else
      SetCollideValid(lm, layer1, layer2, shouldCollide);
      Ok(SetCollide(lm, layer1, layer2, shouldCollide))
  }

  /** The two collide sets of a known pair updated, in both directions. */
  function SetCollide<T>(lm: LayerManager<T>, layer1: int, layer2: int, shouldCollide: bool): (r: LayerManager<T>)
    requires layer1 in lm.data && layer2 in lm.data
    ensures r.layers == lm.layers && r.shouldReSort == lm.shouldReSort && r.data.Keys == lm.data.Keys
    ensures forall id :: id in lm.data ==>
              r.data[id].objects == lm.data[id].objects && r.data[id].drawOrder == lm.data[id].drawOrder
    ensures forall id :: id in lm.data && id != layer1 && id != layer2 ==> r.data[id] == lm.data[id]
    ensures forall id, x :: id in lm.data && !((id == layer1 && x == layer2) || (id == layer2 && x == layer1)) ==>
              (x in r.data[id].collidesWith <==> x in lm.data[id].collidesWith)
    ensures (layer2 in r.data[layer1].collidesWith) == shouldCollide
    ensures (layer1 in r.data[layer2].collidesWith) == shouldCollide
  {
    var d1 := lm.data[layer1];
    var data1 := lm.data[layer1 := d1.(collidesWith := if shouldCollide then d1.collidesWith + {layer2}
                                                       else d1.collidesWith - {layer2})];
    var d2 := data1[layer2];
    var data2 := data1[layer2 := d2.(collidesWith := if shouldCollide then d2.collidesWith + {layer1}
                                                     else d2.collidesWith - {layer1})];
    lm.(data := data2)
  }

  /** Setting a known pair in both directions keeps the manager valid. */
  lemma SetCollideValid<T>(lm: LayerManager<T>, layer1: int, layer2: int, shouldCollide: bool)
    requires layer1 in lm.data && layer2 in lm.data
    ensures Valid(lm) ==> Valid(SetCollide(lm, layer1, layer2, shouldCollide))
  {
    var r := SetCollide(lm, layer1, layer2, shouldCollide);
    if Valid(lm) {
      forall id | id in r.data
        ensures LayerValid(r.data[id]) && r.data[id].collidesWith <= r.data.Keys
      {
        assert r.data[id].objects == lm.data[id].objects;
      }
      forall a, b | a in r.data && b in r.data
        ensures b in r.data[a].collidesWith <==> a in r.data[b].collidesWith
      {
      }
    }
  }

  /**
   * `new LayerManager(...)`: STATIC_OBJECTS and DEFAULT pending addition,
   * STATIC_OBJECTS colliding with DEFAULT and DEFAULT with itself.
   */
  function Create<T(==)>(): (lm: LayerManager<T>)
    ensures Valid(lm)
    ensures lm.layers.list == [] && lm.layers.toAdd == [STATIC_OBJECTS, DEFAULT] && !lm.shouldReSort
    ensures lm.data.Keys == {STATIC_OBJECTS, DEFAULT}
    ensures forall a, b :: DoLayersCollide(lm, a, b) <==>
              (a == STATIC_OBJECTS && b == DEFAULT) || (a == DEFAULT && b == STATIC_OBJECTS) || (a == DEFAULT && b == DEFAULT)
    ensures forall id :: id in lm.data ==> lm.data[id].drawOrder == id && lm.data[id].objects == DL.Create(false)
  {
    var layers := DL.Add(DL.Add(DL.Create(false), STATIC_OBJECTS).0, DEFAULT).0;
    var staticData := NewLayerData(STATIC_OBJECTS).(collidesWith := {DEFAULT});
    var defaultData := NewLayerData(DEFAULT).(collidesWith := {STATIC_OBJECTS, DEFAULT});
    var lm := LayerManager(layers, map[STATIC_OBJECTS := staticData, DEFAULT := defaultData], false);
    InitialManagerFacts(lm);
    lm
  }

  lemma InitialManagerFacts<T>(lm: LayerManager<T>)
    requires lm.layers == DL.ModList([], [STATIC_OBJECTS, DEFAULT], [], false)
    requires lm.data == map[STATIC_OBJECTS := LayerData(STATIC_OBJECTS, DL.ModList([], [], [], false), {DEFAULT}),
                            DEFAULT := LayerData(DEFAULT, DL.ModList([], [], [], false), {STATIC_OBJECTS, DEFAULT})]
    ensures Valid(lm)
    ensures forall a, b :: DoLayersCollide(lm, a, b) <==>
              (a == STATIC_OBJECTS && b == DEFAULT) || (a == DEFAULT && b == STATIC_OBJECTS) || (a == DEFAULT && b == DEFAULT)
  {
    assert DL.Valid(lm.layers) by {
      assert lm.layers.list + lm.layers.toAdd == [STATIC_OBJECTS, DEFAULT];
    }
    forall id | id in lm.data
      ensures LayerValid(lm.data[id]) && lm.data[id].collidesWith <= lm.data.Keys
    {
    }
  }

  /** The manager `Create` builds is what the constructor's two `shouldLayersCollide` calls make of the two fresh layers. */
  lemma CreateIsConstructorCalls<T>()
    ensures var layers := DL.Add(DL.Add(DL.Create(false), STATIC_OBJECTS).0, DEFAULT).0;
            var base := LayerManager(layers, map[STATIC_OBJECTS := NewLayerData(STATIC_OBJECTS), DEFAULT := NewLayerData(DEFAULT)], false);
            var withStatic := ShouldLayersCollide(base, STATIC_OBJECTS, DEFAULT, true);
            withStatic.Ok? && ShouldLayersCollide(withStatic.value, DEFAULT, DEFAULT, true) == Ok(Create<T>())
  {
    var layers := DL.Add(DL.Add(DL.Create(false), STATIC_OBJECTS).0, DEFAULT).0;
    var base: LayerManager<T> := LayerManager(layers, map[STATIC_OBJECTS := NewLayerData(STATIC_OBJECTS), DEFAULT := NewLayerData(DEFAULT)], false);
    var w := SetCollide(base, STATIC_OBJECTS, DEFAULT, true);
    assert w.data[STATIC_OBJECTS] == NewLayerData(STATIC_OBJECTS).(collidesWith := {DEFAULT});
    assert w.data[DEFAULT] == NewLayerData(DEFAULT).(collidesWith := {STATIC_OBJECTS});
    var r := SetCollide(w, DEFAULT, DEFAULT, true);
    var c := Create<T>();
    assert r.data[STATIC_OBJECTS] == c.data[STATIC_OBJECTS];
    assert r.data[DEFAULT].collidesWith == {STATIC_OBJECTS} + {DEFAULT};
    assert r.data[DEFAULT] == c.data[DEFAULT];
    assert r.data == c.data;
  }

  /** `getLayerDrawOrder`: NoSuchElementException for an unknown layer. */
  function GetLayerDrawOrder<T>(lm: LayerManager<T>, layerId: int): (r: Result<int>)
    ensures r.Err? <==> layerId !in lm.data
    ensures r.Err? ==> r.error == NoSuchElement
    ensures r.Ok? ==> r.value == lm.data[layerId].drawOrder
  {
    if layerId in lm.data then Ok(lm.data[layerId].drawOrder) else Err(NoSuchElement)
  }

  /** `setLayerDrawOrder`: NoSuchElementException for an unknown layer; otherwise the order is stored and a re-sort flagged. */
  function SetLayerDrawOrder<T>(lm: LayerManager<T>, layerId: int, drawOrder: int): (r: Result<LayerManager<T>>)
    ensures r.Err? <==> layerId !in lm.data
    ensures r.Err? ==> r.error == NoSuchElement
    ensures r.Ok? ==> GetLayerDrawOrder(r.value, layerId) == Ok(drawOrder) && r.value.shouldReSort
    ensures r.Ok? ==> r.value.layers == lm.layers && r.value.data.Keys == lm.data.Keys
    ensures r.Ok? ==> forall id :: id in lm.data && id != layerId ==> r.value.data[id] == lm.data[id]
    ensures r.Ok? ==> r.value.data[layerId].objects == lm.data[layerId].objects
    ensures r.Ok? ==> r.value.data[layerId].collidesWith == lm.data[layerId].collidesWith
    ensures r.Ok? && Valid(lm) ==> Valid(r.value)
  {
    if layerId !in lm.data then Err(NoSuchElement)
    else Ok(LayerManager(lm.layers, lm.data[layerId := lm.data[layerId].(drawOrder := drawOrder)], true))
  }

  /**
   * `addGameObject`: an unknown layer is created on demand (draw order equal
   * to its id, pending addition to the layer list, re-sort flagged), then the
   * object is added to the layer's deferred list.
   */
  function AddGameObject<T(==)>(lm: LayerManager<T>, obj: T, layerId: int): (r: LayerManager<T>)
    ensures layerId in r.data && r.data.Keys == lm.data.Keys + {layerId}
    ensures obj in r.data[layerId].objects.list || obj in r.data[layerId].objects.toAdd
    ensures r.data[layerId].objects.list == (if layerId in lm.data then lm.data[layerId].objects.list else [])
    ensures layerId in lm.data ==> r.layers == lm.layers && r.shouldReSort == lm.shouldReSort
    ensures layerId in lm.data ==> r.data[layerId].drawOrder == lm.data[layerId].drawOrder
    ensures layerId !in lm.data ==> r.shouldReSort && r.data[layerId].drawOrder == layerId
    ensures layerId !in lm.data ==> r.layers.list == lm.layers.list
    ensures Valid(lm) && layerId !in lm.data ==> r.layers.toAdd == lm.layers.toAdd + [layerId]
    ensures forall id :: id in lm.data && id != layerId ==> r.data[id] == lm.data[id]
    ensures Valid(lm) ==> Valid(r)
  {
    var lm1 := EnsureLayer(lm, layerId);
    var d := lm1.data[layerId];
    var objs := DL.Add(d.objects, obj).0;
    ObjectsUpdateKeepsValid(lm1, layerId, objs);
    lm1.(data := lm1.data[layerId := d.(objects := objs)])
  }

  /** Replacing one layer's object list by another valid, duplicate-free one keeps the manager valid. */
  lemma ObjectsUpdateKeepsValid<T>(lm: LayerManager<T>, layerId: int, objs: DL.ModList<T>)
    requires layerId in lm.data
    ensures Valid(lm) && (LayerValid(lm.data[layerId]) ==> DL.Valid(objs) && !objs.allowDuplicates) ==>
              Valid(lm.(data := lm.data[layerId := lm.data[layerId].(objects := objs)]))
  {
  }

  /** The layer record for `layerId`, created (pending addition, re-sort flagged) when the id is unknown. */
  function EnsureLayer<T(==)>(lm: LayerManager<T>, layerId: int): (r: LayerManager<T>)
    ensures layerId in r.data && r.data.Keys == lm.data.Keys + {layerId}
    ensures layerId in lm.data ==> r == lm
    ensures layerId !in lm.data ==> r.shouldReSort && r.data[layerId] == NewLayerData(layerId) && r.layers.list == lm.layers.list
    ensures Valid(lm) && layerId !in lm.data ==> r.layers.toAdd == lm.layers.toAdd + [layerId]
    ensures forall id :: id in lm.data ==> r.data[id] == lm.data[id]
    ensures Valid(lm) ==> Valid(r)
  {
    if layerId in lm.data then lm
    else
      var r := LayerManager(DL.Add(lm.layers, layerId).0, lm.data[layerId := NewLayerData(layerId)], true);
      NewLayerKeepsValid(lm, layerId);
      r
  }

  lemma NewLayerKeepsValid<T>(lm: LayerManager<T>, layerId: int)
    requires layerId !in lm.data
    ensures Valid(lm) ==> Valid(LayerManager(DL.Add(lm.layers, layerId).0, lm.data[layerId := NewLayerData(layerId)], true))
  {
    if Valid(lm) {
      var r := LayerManager(DL.Add(lm.layers, layerId).0, lm.data[layerId := NewLayerData(layerId)], true);
      assert layerId !in lm.layers.list && layerId !in lm.layers.toAdd;
      assert r.layers == lm.layers.(toAdd := lm.layers.toAdd + [layerId]);
      forall id ensures id in r.data <==> id in r.layers.list || id in r.layers.toAdd {
        assert id in r.layers.toAdd <==> id in lm.layers.toAdd || id == layerId;
      }
      forall a, b | a in r.data && b in r.data
        ensures b in r.data[a].collidesWith <==> a in r.data[b].collidesWith
      {
        if a != layerId && b != layerId {
          assert r.data[a] == lm.data[a] && r.data[b] == lm.data[b];
        }
      }
    }
  }

  /**
   * `isLayerEmpty`: true for an unknown layer and for a layer with no
   * committed objects; objects still waiting to be added do not count.
   */
  predicate IsLayerEmpty<T>(lm: LayerManager<T>, layerId: int): (r: bool)
    ensures r <==> ObjectsInLayer(lm, layerId).Err? || ObjectsInLayer(lm, layerId).value.list == []
  {
    layerId !in lm.data || DL.Size(lm.data[layerId].objects) == 0
  }

  /** An object added to a new layer leaves the layer empty until the next flush commits it. */
  lemma NewLayerEmptyUntilFlush<T>(lm: LayerManager<T>, obj: T, layerId: int)
    requires Valid(lm) && layerId !in lm.data
    ensures IsLayerEmpty(AddGameObject(lm, obj, layerId), layerId)
    ensures !IsLayerEmpty(FlushChanges(AddGameObject(lm, obj, layerId)), layerId)
  {
    var lm1 := AddGameObject(lm, obj, layerId);
    assert obj in lm1.data[layerId].objects.toAdd;
    FlushCommitsPending(lm1, layerId, obj);
  }

  /** `objectsInLayer`: the layer's deferred list (iterated, it yields the committed objects), or NoSuchElementException. */
  function ObjectsInLayer<T>(lm: LayerManager<T>, layerId: int): (r: Result<DL.ModList<T>>)
    ensures r.Err? <==> layerId !in lm.data
    ensures r.Err? ==> r.error == NoSuchElement
    ensures r.Ok? ==> r.value == lm.data[layerId].objects
  {
    if layerId in lm.data then Ok(lm.data[layerId].objects) else Err(NoSuchElement)
  }

  /**
   * `removeGameObject`: false for an unknown layer; otherwise the layer's
   * deferred `remove`, which answers whether the object will be gone after
   * the next flush.
   */
  function RemoveGameObject<T(==)>(lm: LayerManager<T>, obj: T, layerId: int): (res: (LayerManager<T>, bool))
    ensures layerId !in lm.data ==> res == (lm, false)
    ensures res.1 <==> (layerId in lm.data &&
                        (obj in lm.data[layerId].objects.toAdd ||
                         (obj in lm.data[layerId].objects.list && obj !in lm.data[layerId].objects.toRemove)))
    ensures res.0.layers == lm.layers && res.0.shouldReSort == lm.shouldReSort && res.0.data.Keys == lm.data.Keys
    ensures forall id :: id in lm.data && id != layerId ==> res.0.data[id] == lm.data[id]
    ensures layerId in lm.data ==> res.0.data[layerId].objects.list == lm.data[layerId].objects.list
    ensures layerId in lm.data && Valid(lm) ==> !DL.Contains(res.0.data[layerId].objects, obj)
    ensures Valid(lm) ==> Valid(res.0)
  {
    if layerId !in lm.data then (lm, false)
    else
      var d := lm.data[layerId];
      var (objs, removed) := DL.Remove(d.objects, obj);
      RemoveHides(d, obj);
      ObjectsUpdateKeepsValid(lm, layerId, objs);
      (lm.(data := lm.data[layerId := d.(objects := objs)]), removed)
  }

  lemma RemoveHides<T>(d: LayerData<T>, obj: T)
    ensures LayerValid(d) ==> !DL.Contains(DL.Remove(d.objects, obj).0, obj)
  {
    if LayerValid(d) {
      DL.SecondRemoveReturnsFalse(d.objects, obj);
    }
  }

  /** The draw order of a known layer, as the sort key of the layer ids. */
  function DrawOrderKey<T>(data: map<int, LayerData<T>>): int -> int {
    id => if id in data then data[id].drawOrder else 0
  }

  /**
   * `flushChanges`: pending layers are committed, every layer's objects are
   * flushed, and if a re-sort was flagged the committed layers are stably
   * sorted by ascending draw order and the flag cleared.
   */
  function FlushChanges<T(==)>(lm: LayerManager<T>): (r: LayerManager<T>)
    requires Valid(lm)
    ensures Valid(r) && !r.shouldReSort
    ensures r.layers.toAdd == [] && r.data.Keys == lm.data.Keys
    ensures !lm.shouldReSort ==> r.layers.list == lm.layers.list + lm.layers.toAdd
    ensures lm.shouldReSort ==> SortedBy(r.layers.list, DrawOrderKey(r.data))
    ensures lm.shouldReSort ==> multiset(r.layers.list) == multiset(lm.layers.list + lm.layers.toAdd)
    ensures lm.shouldReSort ==> (forall k :: WithKey(r.layers.list, DrawOrderKey(r.data), k) ==
                                              WithKey(lm.layers.list + lm.layers.toAdd, DrawOrderKey(r.data), k))
    ensures forall id :: id in lm.data ==>
              r.data[id].objects == DL.Flush(lm.data[id].objects)
              && r.data[id].drawOrder == lm.data[id].drawOrder
              && r.data[id].collidesWith == lm.data[id].collidesWith
  {
    var flushedLayers := DL.Flush(lm.layers);
    RemoveAllNothing(lm.layers.list);
    assert flushedLayers.list == lm.layers.list + lm.layers.toAdd;
    var data := FlushedData(lm.data);
    FlushedDataFacts(lm.data);
    if !lm.shouldReSort then
      FlushedValid(lm, flushedLayers.list);
      LayerManager(flushedLayers, data, false)
    else
      var sorted := SortBy(flushedLayers.list, DrawOrderKey(data));
      SortByIsStableEverywhere(flushedLayers.list, DrawOrderKey(data));
      SameElementsNoDuplicates(flushedLayers.list, sorted);
      FlushedValid(lm, sorted);
      LayerManager(DL.ModList(sorted, [], [], false), data, false)
  }

  /** Every layer's objects flushed, draw orders and collide sets kept. */
  function FlushedData<T(==)>(data: map<int, LayerData<T>>): map<int, LayerData<T>> {
    map id | id in data :: data[id].(objects := DL.Flush(data[id].objects))
  }

  lemma FlushedDataFacts<T>(data: map<int, LayerData<T>>)
    ensures FlushedData(data).Keys == data.Keys
    ensures forall id :: id in data ==> FlushedData(data)[id] == data[id].(objects := DL.Flush(data[id].objects))
  {
  }

  /** A duplicate-free committed list of exactly the known layers, over flushed layers, is a valid manager. */
  lemma FlushedValid<T>(lm: LayerManager<T>, list: seq<int>)
    requires Valid(lm) && NoDuplicates(list)
    requires forall x :: x in list <==> x in lm.layers.list || x in lm.layers.toAdd
    ensures Valid(LayerManager(DL.ModList(list, [], [], false), FlushedData(lm.data), false))
  {
    var m := LayerManager(DL.ModList(list, [], [], false), FlushedData(lm.data), false);
    assert DL.Valid(m.layers) by {
      assert list + [] == list;
    }
    forall id | id in m.data
      ensures LayerValid(m.data[id]) && m.data[id].collidesWith <= m.data.Keys
    {
      assert m.data[id] == lm.data[id].(objects := DL.Flush(lm.data[id].objects));
    }
    forall a, b | a in m.data && b in m.data
      ensures b in m.data[a].collidesWith <==> a in m.data[b].collidesWith
    {
      assert m.data[a].collidesWith == lm.data[a].collidesWith;
      assert m.data[b].collidesWith == lm.data[b].collidesWith;
    }
  }

  lemma SortByIsStableEverywhere<T>(s: seq<T>, key: T -> int)
    ensures forall k :: WithKey(SortBy(s, key), key, k) == WithKey(s, key, k)
  {
    forall k {
      SortByIsStable(s, key, k);
    }
  }

  /** A permutation of a duplicate-free sequence is duplicate-free and has the same elements. */
  lemma SameElementsNoDuplicates<T>(s: seq<T>, t: seq<T>)
    requires NoDuplicates(s) && multiset(s) == multiset(t)
    ensures NoDuplicates(t)
    ensures forall x :: x in s <==> x in t
  {
    forall x ensures x in s <==> x in t {
      assert x in s <==> x in multiset(s);
      assert x in t <==> x in multiset(t);
    }
    forall i, j | 0 <= i < j < |t|
      ensures t[i] != t[j]
    {
      if t[i] == t[j] {
        var x := t[i];
        assert t == t[..i] + [x] + t[i + 1..];
        assert t[i + 1..] == t[i + 1..j] + [x] + t[j + 1..];
        assert multiset(t)[x] >= 2;
        NoDuplicatesCount(s, x);
      }
    }
  }

  lemma {:induction false} NoDuplicatesCount<T>(s: seq<T>, x: T)
    requires NoDuplicates(s)
    ensures multiset(s)[x] <= 1
  {
    if s != [] {
      assert s == [s[0]] + s[1..];
      assert NoDuplicates(s[1..]);
      NoDuplicatesCount(s[1..], x);
      if s[0] == x {
        assert x !in s[1..];
      }
    }
  }

  /** Every committed layer id names a known layer. */
  ghost predicate CommittedKnown<T>(lm: LayerManager<T>) {
    forall i :: 0 <= i < |lm.layers.list| ==> lm.layers.list[i] in lm.data
  }

  lemma ValidCommittedKnown<T>(lm: LayerManager<T>)
    requires Valid(lm)
    ensures CommittedKnown(lm)
  {
    forall i | 0 <= i < |lm.layers.list|
      ensures lm.layers.list[i] in lm.data
    {
      var id := lm.layers.list[i];
      assert id in lm.layers.list;
      assert id in lm.data <==> id in lm.layers.list || id in lm.layers.toAdd;
    }
  }

  /** The committed object lists of the committed layers, in committed layer order. */
  function LayerLists<T>(lm: LayerManager<T>): (r: seq<seq<T>>)
    requires CommittedKnown(lm)
    ensures |r| == |lm.layers.list|
    ensures forall i :: 0 <= i < |r| ==> r[i] == lm.data[lm.layers.list[i]].objects.list
  {
    seq(|lm.layers.list|, i requires 0 <= i < |lm.layers.list| => lm.data[lm.layers.list[i]].objects.list)
  }

  /** `iterator()`: a concatenating iterator over the committed layers' committed objects. */
  method Iterate<T>(lm: LayerManager<T>) returns (out: seq<T>)
    requires CommittedKnown(lm)
    ensures out == Flatten(LayerLists(lm))
  {
    out := ConcatIter.Drain(LayerLists(lm));
  }

  /** `reverseOrder()`: the layers back to front, each layer's objects back to front. */
  method ReverseOrder<T>(lm: LayerManager<T>) returns (out: seq<T>)
    requires CommittedKnown(lm)
    ensures out == Reverse(Flatten(LayerLists(lm)))
  {
    var ids := Reverse(lm.layers.list);
    var lists := seq(|ids|, i requires 0 <= i < |ids| => Reverse(lm.data[ids[i]].objects.list));
    assert lists == ReverseNested(LayerLists(lm));
    out := ConcatIter.Drain(lists);
    FlattenReverse(LayerLists(lm));
  }

  /** The iterator yields an object iff it is committed in some committed layer. */
  lemma IterateMembership<T>(lm: LayerManager<T>, x: T)
    requires CommittedKnown(lm)
    ensures x in Flatten(LayerLists(lm)) <==>
              exists i :: 0 <= i < |lm.layers.list| && x in lm.data[lm.layers.list[i]].objects.list
  {
    FlattenMembership(LayerLists(lm), x);
  }

  /** The committed objects of the committed layer at position `i`. */
  function Objs<T>(lm: LayerManager<T>, i: nat): seq<T>
    requires CommittedKnown(lm) && i < |lm.layers.list|
  {
    lm.data[lm.layers.list[i]].objects.list
  }

  /** The pairs handed out for outer layer `i` and inner layers i..j-1. */
  function LayerRow<T(==)>(lm: LayerManager<T>, i: nat, j: nat): seq<(T, T)>
    requires CommittedKnown(lm) && i <= j <= |lm.layers.list|
    decreases j
  {
    if j == i then []
    else
      LayerRow(lm, i, j - 1)
      + (if DoLayersCollide(lm, lm.layers.list[i], lm.layers.list[j - 1])
         then LP.LayerPairs(Objs(lm, i), Objs(lm, j - 1), i == j - 1) else [])
  }

  /** The pairs handed out by the first `n` iterations of the outer loop of `handleCollisions`. */
  function Pass<T(==)>(lm: LayerManager<T>, n: nat): seq<(T, T)>
    requires CommittedKnown(lm) && n <= |lm.layers.list|
  {
    if n == 0 then [] else Pass(lm, n - 1) + LayerRow(lm, n - 1, |lm.layers.list|)
  }

  /**
   * `handleCollisions`: for committed layer positions i <= j whose layers
   * collide, `handleLayers` on their committed objects; the result is every
   * pair handed to the pair callback, in order.
   */
  method HandleCollisions<T(==)>(lm: LayerManager<T>) returns (out: seq<(T, T)>)
    requires CommittedKnown(lm)
    ensures out == Pass(lm, |lm.layers.list|)
  {
    var ids := lm.layers.list;
    out := [];
    var i := 0;
    while i < |ids|
      invariant 0 <= i <= |ids|
      invariant out == Pass(lm, i)
    {
      var j := i;
      var row := [];
      while j < |ids|
        invariant i <= j <= |ids|
        invariant row == LayerRow(lm, i, j)
      {
        if ids[j] in lm.data[ids[i]].collidesWith {
          var pairs := LP.HandleLayers(Objs(lm, i), Objs(lm, j), i == j);
          row := row + pairs;
        }
        j := j + 1;
      }
      out := out + row;
      i := i + 1;
    }
  }

  /** Whether pair `p` comes from outer layer position `i` and inner position `k`. */
  ghost predicate FromLayers<T>(lm: LayerManager<T>, i: int, k: int, p: (T, T))
    requires CommittedKnown(lm)
  {
    0 <= i <= k < |lm.layers.list|
    && DoLayersCollide(lm, lm.layers.list[i], lm.layers.list[k])
    && p in LP.LayerPairs(Objs(lm, i), Objs(lm, k), i == k)
  }

  /** A pair is in row i up to inner position j iff it comes from i and some inner position below j. */
  lemma LayerRowMembership<T>(lm: LayerManager<T>, i: nat, j: nat, p: (T, T))
    requires CommittedKnown(lm) && i <= j <= |lm.layers.list|
    ensures p in LayerRow(lm, i, j) <==> exists k :: i <= k < j && FromLayers(lm, i, k, p)
  {
    if p in LayerRow(lm, i, j) {
      var k := LayerRowWitness(lm, i, j, p);
    }
    forall k | i <= k < j && FromLayers(lm, i, k, p)
      ensures p in LayerRow(lm, i, j)
    {
      LayerRowComplete(lm, i, j, k, p);
    }
  }

  /** The inner position a pair of row i came from. */
  lemma {:induction false} LayerRowWitness<T>(lm: LayerManager<T>, i: nat, j: nat, p: (T, T)) returns (k: nat)
    requires CommittedKnown(lm) && i <= j <= |lm.layers.list|
    requires p in LayerRow(lm, i, j)
    ensures i <= k < j && FromLayers(lm, i, k, p)
    decreases j
  {
    LayerRowStep(lm, i, j, p);
    if p in LayerRow(lm, i, j - 1) {
      k := LayerRowWitness(lm, i, j - 1, p);
    } else {
      k := j - 1;
    }
  }

  /** Every pair from row i and an inner position below j is in the row. */
  lemma {:induction false} LayerRowComplete<T>(lm: LayerManager<T>, i: nat, j: nat, k: nat, p: (T, T))
    requires CommittedKnown(lm) && i <= k < j <= |lm.layers.list|
    requires FromLayers(lm, i, k, p)
    ensures p in LayerRow(lm, i, j)
    decreases j
  {
    LayerRowStep(lm, i, j, p);
    if k < j - 1 {
      LayerRowComplete(lm, i, j - 1, k, p);
    }
  }

  /** One more inner position adds exactly the pairs from it. */
  lemma LayerRowStep<T>(lm: LayerManager<T>, i: nat, j: nat, p: (T, T))
    requires CommittedKnown(lm) && i < j <= |lm.layers.list|
    ensures p in LayerRow(lm, i, j) <==> p in LayerRow(lm, i, j - 1) || FromLayers(lm, i, j - 1, p)
  {
  }

  /**
   * A pair is handed out by the first n outer iterations iff it comes from
   * two committed layer positions i <= k, with i < n, whose layers collide
   * and is one of `handleLayers`' pairs for them.
   */
  lemma PassMembership<T>(lm: LayerManager<T>, n: nat, p: (T, T))
    requires CommittedKnown(lm) && n <= |lm.layers.list|
    ensures p in Pass(lm, n) <==> exists i, k :: 0 <= i < n && FromLayers(lm, i, k, p)
  {
    if p in Pass(lm, n) {
      var i, k := PassWitness(lm, n, p);
    }
    forall i, k | 0 <= i < n && FromLayers(lm, i, k, p)
      ensures p in Pass(lm, n)
    {
      PassComplete(lm, n, i, k, p);
    }
  }

  /** The two layer positions a pair handed out by the first n iterations came from. */
  lemma {:induction false} PassWitness<T>(lm: LayerManager<T>, n: nat, p: (T, T)) returns (i: nat, k: nat)
    requires CommittedKnown(lm) && n <= |lm.layers.list|
    requires p in Pass(lm, n)
    ensures i < n && FromLayers(lm, i, k, p)
  {
    assert Pass(lm, n) == Pass(lm, n - 1) + LayerRow(lm, n - 1, |lm.layers.list|);
    if p in Pass(lm, n - 1) {
      i, k := PassWitness(lm, n - 1, p);
    } else {
      i := n - 1;
      k := LayerRowWitness(lm, n - 1, |lm.layers.list|, p);
    }
  }

  /** Every pair from positions i <= k with i < n is handed out by the first n iterations. */
  lemma {:induction false} PassComplete<T>(lm: LayerManager<T>, n: nat, i: nat, k: nat, p: (T, T))
    requires CommittedKnown(lm) && i < n <= |lm.layers.list|
    requires FromLayers(lm, i, k, p)
    ensures p in Pass(lm, n)
  {
    assert Pass(lm, n) == Pass(lm, n - 1) + LayerRow(lm, n - 1, |lm.layers.list|);
    if i < n - 1 {
      PassComplete(lm, n - 1, i, k, p);
    } else {
      LayerRowComplete(lm, i, |lm.layers.list|, k, p);
    }
  }

  /** No object is ever paired with itself, and every pair comes from committed objects. */
  lemma HandleCollisionsNeverSelf<T>(lm: LayerManager<T>, p: (T, T))
    requires CommittedKnown(lm)
    requires p in Pass(lm, |lm.layers.list|)
    ensures p.0 != p.1
    ensures p.0 in Flatten(LayerLists(lm)) && p.1 in Flatten(LayerLists(lm))
  {
    PassMembership(lm, |lm.layers.list|, p);
    var i, k :| 0 <= i < |lm.layers.list| && FromLayers(lm, i, k, p);
    if i == k {
      LP.SameLayerPairs(Objs(lm, i), p);
    } else {
      LP.CrossLayerPairs(Objs(lm, i), Objs(lm, k), p);
    }
    FlattenMembership(LayerLists(lm), p.0);
    FlattenMembership(LayerLists(lm), p.1);
  }

  /** An object queued for a layer is committed to that layer by the next flush. */
  lemma FlushCommitsPending<T>(lm: LayerManager<T>, layerId: int, o: T)
    requires Valid(lm) && layerId in lm.data && o in lm.data[layerId].objects.toAdd
    ensures o in FlushChanges(lm).data[layerId].objects.list
  {
    var m := lm.data[layerId].objects;
    var f := DL.Flush(m);
    assert FlushChanges(lm).data[layerId].objects == f;
    var j :| 0 <= j < |m.toAdd| && m.toAdd[j] == o;
    assert f.list[|f.list| - |m.toAdd|..][j] == o;
  }
}

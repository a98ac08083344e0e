# A verified model of the DanoGameLab engine core and the pepse game rules

This project is a Dafny model of two things. The first is the collision
and simulation core of the DanoGameLab 2D game engine (`danogl`). The
second is the game rules of the pepse side-scroller built on it. Every
operation is a pure function, or a method returning its results, over
immutable datatypes. Its contract states what the Java code does,
including the exceptions it throws. Lemmas relate operations to each
other: round trips, invariants, order independence, and
"nothing else changes".

How source concepts are represented:

- A game object is `ObjRef(serial, identityHash)`. Datatype equality stands
  for Java reference identity, and `identityHash` is `Object.hashCode`.
- The objects' state lives in a `World`, a map from `ObjRef` to
  `GameObject`.
- `float` is `real`. A Java `(int)` cast of a float is `Wrappers.FloatToInt`,
  which truncates toward zero and saturates at the 32-bit range. Java `int`
  overflow is `Wrappers.Wrap32`.
- Square roots are not computed. Operations that need a magnitude take it
  as an argument, together with its defining property.
- Exceptions are `Result` errors: `NullPointer`, `NoSuchElement`,
  `IndexOutOfBounds` and `IllegalArgument`. A `null` is `Option.None`.
- Callbacks (`onCollisionEnter/Stay/Exit`, mouse notifications) are
  recorded as an ordered trace of events.
- Randomness, Perlin noise, tree placement and the AABB change fingerprint
  are parameter functions.
- Components are known by id. What a component asks of its own object
  while it runs in an update (`addComponent`, `removeComponent`) is a
  parameter function from component id to calls (`ComponentLists.Requests`).
  `ComponentLists.SelfRemoval` gives the calls that the library's own
  components make.

## Modules

Collections:

- `DeferredList`: `ModifiableList`, the list that buffers additions and
  removals until `flushChanges`.
- `ConcatIter`: `ConcatIterator`.
- `Seqs`: generic sequence helpers.
- `StableSort`: the stable sort the layer manager uses.

Collision core:

- `Layers`: `LayerManager`, with its draw order, collide relation,
  re-sorting flush and iteration.
- `LayerPairs`: the pair enumeration of `handleCollisions`/`handleLayers`.
- `Pairs`: `GameObjectPair` and the collision cache lookup.
- `PairManager`: `PairCollisionData` and `PairCollisionManager`.
- `Geometry`: rectangles and their intersection.
- `AABB`: `AABBCollider`, `AABBPairCollisionHandler`,
  `AABBPairCollisionData` and `AABBCollision`.
- `AABBNormals`: why handing out the raw normal of `AABBCollision.getNormal`
  instead of the normalised one changes nothing the resolver tests.
- `Resolver`: `CollisionResolver`.
- `Collection`: `GameObjectCollection`, covering `handlePair`, removal with
  cache purge, and the collision pass.

Objects and components:

- `Vectors` and `MutableVectors`: `Vector2` and `MutableVector2`.
- `Transforms`: `Transform`.
- `Physics`: `GameObjectPhysics`.
- `ComponentLists` and `GameObjects`: `GameObject`.
- `Game`: `GameManager`'s frame and mouse dispatch.
- `Transitions`: `Transition`.
- `ScheduledTasks`: `ScheduledTask`.
- `Renderers`: `RendererComponent`.
- `Animations`: `AnimationRenderable`.
- `Cameras`: `Camera`.
- `Counters`: `Counter`.
- `MouseButtons`: `MouseButton`.

Pepse:

- `Avatars`: `Avatar`.
- `Monsters`: `Monster`.
- `Blocks`: `Block`.
- `Terrains`: `Terrain`.
- `PepseLayers`: the game's layer constants.
- `PepseGame`: `PepseGameManager`, the sliding three-screen world window.

## Notes on the code

- The collision pass enumerates layer pairs in the order of the committed
  layer list (`DanoGameLab/src/danogl/collisions/LayerManager.java:154-163`).
  A flush may have re-sorted that list by draw order, so the pass follows
  draw order rather than the order in which the layers were created.
- Once a pair's intersection has been computed in a frame, it is not
  recomputed in that frame. Across frames, the computation is skipped
  whenever the fingerprint equals the stored one
  (`DanoGameLab/src/danogl/collisions/AABB/AABBPairCollisionData.java:32-46`).
- The first computation stores no fingerprint
  (`DanoGameLab/src/danogl/collisions/AABB/AABBPairCollisionData.java:62-64`),
  so the next change check compares against 0.

## Model

| member | source | states |
|---|---|---|
| DeferredList.Create | DanoGameLab/src/danogl/util/ModifiableList.java:57-71 | a new list has an empty committed list and empty buffers, keeps the given duplicates flag, and satisfies the list invariant |
| DeferredList.Add | DanoGameLab/src/danogl/util/ModifiableList.java:80-85 | without duplicates, an item already committed or pending addition is refused: false, nothing changes; otherwise it is appended to the pending additions and true is returned; the invariant is preserved |
| DeferredList.Remove | DanoGameLab/src/danogl/util/ModifiableList.java:100-106 | true exactly when the item is pending addition, or committed and not yet queued for removal; the first equal pending addition is cancelled; a removal is queued only for a committed item not already queued; the committed list is untouched; the invariant is preserved |
| DeferredList.Flush | DanoGameLab/src/danogl/util/ModifiableList.java:111-116 | both buffers end empty; the committed list becomes the old one minus every element equal to a queued removal, followed by the pending additions in order (per-element counts stated); every element comes from a surviving committed element or a pending addition; the invariant is preserved |
| DeferredList.Get | DanoGameLab/src/danogl/util/ModifiableList.java:122-124 | the committed element at the index, IndexOutOfBoundsException outside [0, size) |
| DeferredList.ContainsAgreesWithFlush | DanoGameLab/src/danogl/util/ModifiableList.java:141-143 | without duplicates, `contains` holds exactly when the item will be in the committed list after the next flush |
| DeferredList.SecondRemoveReturnsFalse | DanoGameLab/src/danogl/util/ModifiableList.java:97-106 | a second `remove` of the same item before a flush returns false, and after the first one `contains` is false |
| DeferredList.RemoveLeavesOthers | DanoGameLab/src/danogl/util/ModifiableList.java:100-106 | removing one item does not change whether any other item is contained |
| DeferredList.PendingChangesInvisible | DanoGameLab/src/danogl/util/ModifiableList.java:118-132 | `add` and `remove` leave `size` and every `get` unchanged until the next flush |
| DeferredList.AddThenFlushCommitsOnce | DanoGameLab/src/danogl/util/ModifiableList.java:80-116 | without duplicates, `add` succeeds exactly when the item is neither committed nor pending, and then the next flush commits exactly one copy of it |
| DeferredList.Next | DanoGameLab/src/danogl/util/ModifiableList.java:36-44 | the iterator yields the committed element at its index and moves by its step; an index outside the committed list is the list's IndexOutOfBoundsException |
| DeferredList.IterateForward | DanoGameLab/src/danogl/util/ModifiableList.java:145-152 | draining the forward iterator yields exactly the committed list, indices 0 to size-1 |
| DeferredList.IterateReverse | DanoGameLab/src/danogl/util/ModifiableList.java:46-55 | draining `reverseOrder` yields exactly the committed list reversed |
| DeferredList.FindFirst | DanoGameLab/src/danogl/util/ModifiableList.java:172-182 | null exactly when no committed element outside the removal queue and no pending addition matches; otherwise the first such committed match, or failing that the first matching pending addition |
| Seqs.RemoveFirst | DanoGameLab/src/danogl/util/ModifiableList.java:101 | `List.remove(item)`: the first equal element is dropped and the rest kept in order; a list without the item is unchanged |
| Seqs.RemoveAll | DanoGameLab/src/danogl/util/ModifiableList.java:112 | `List.removeAll`: every element equal to one of the removals is gone and all others keep their counts |
| Seqs.FlattenReverse | DanoGameLab/src/danogl/collisions/LayerManager.java:140-152 | the reverse walk over reversed inner lists yields exactly the reverse of the forward concatenation |
| Seqs.FlattenMembership | DanoGameLab/src/danogl/util/ConcatIterator.java:19-37 | an element is in the concatenation exactly when it is in one of the inner lists |
| Seqs.FlattenSkipsEmpty | DanoGameLab/src/danogl/util/ConcatIterator.java:27-30 | an empty inner list contributes nothing to the concatenation |
| ConcatIter.Create | DanoGameLab/src/danogl/util/ConcatIterator.java:15-17 | a new iterator has exactly the concatenation of its iterables still to yield |
| ConcatIter.HasNext | DanoGameLab/src/danogl/util/ConcatIterator.java:20-32 | true exactly when something remains; it consumes nothing; when true the current inner iterator is non-empty; with no iterables at all it is false and changes nothing |
| ConcatIter.Next | DanoGameLab/src/danogl/util/ConcatIterator.java:35-37 | before any `hasNext` it throws NullPointerException, on an exhausted inner iterator NoSuchElementException; otherwise it yields the head of what remains and leaves the tail |
| ConcatIter.HasNextIdempotent | DanoGameLab/src/danogl/util/ConcatIterator.java:20-32 | repeated `hasNext` calls give the same answer and state as one |
| ConcatIter.NextAfterHasNext | DanoGameLab/src/danogl/util/ConcatIterator.java:20-37 | after a true `hasNext`, `next` succeeds with the first remaining element and leaves the rest |
| ConcatIter.Drain | DanoGameLab/src/danogl/util/ConcatIterator.java:11-38 | the `hasNext`/`next` loop yields exactly the concatenation of the iterables, in order |
| ConcatIter.EmptyIterablesSkipped | DanoGameLab/src/danogl/util/ConcatIterator.java:27-30 | an empty iterable anywhere changes nothing in what is yielded |
| Wrappers.FloatToInt | src/pepse/PepseGameManager.java:107-108 | Java's `(int)` narrowing of a float: truncation toward zero inside the int range, saturation at its ends |
| Wrappers.Wrap32 | DanoGameLab/src/danogl/collisions/GameObjectPair.java:23-26 | 32-bit two's-complement wrap-around of `int` arithmetic: the result is in range and congruent modulo 2^32 |
| Layers.NewLayerData | DanoGameLab/src/danogl/collisions/LayerManager.java:15-24 | a new layer's draw order equals its id; it has no objects (a duplicate-free deferred list) and collides with nothing |
| Layers.GetLayerData | DanoGameLab/src/danogl/collisions/LayerManager.java:178-180 | for a valid manager the record is found exactly when the id is a committed or pending layer, and it is that layer's record |
| Layers.DoLayersCollideSymmetric | DanoGameLab/src/danogl/collisions/LayerManager.java:53-59 | `doLayersCollide(a, b)` equals `doLayersCollide(b, a)` |
| Layers.ShouldLayersCollide | DanoGameLab/src/danogl/collisions/LayerManager.java:85-96 | NoSuchElementException exactly when either layer is unknown; otherwise the pair collides (or not) as asked in both directions, every other pair's answer is unchanged, layers, draw orders and objects are untouched, and the invariant (including symmetry) is preserved |
| Layers.SetCollide | DanoGameLab/src/danogl/collisions/LayerManager.java:88-95 | only the two collide sets of the pair change, each gaining or losing exactly the other layer |
| Layers.Create | DanoGameLab/src/danogl/collisions/LayerManager.java:41-47 | a new manager holds STATIC_OBJECTS (-100) and DEFAULT (0), pending until the first flush, with draw orders equal to their ids, no objects, and exactly STATIC–DEFAULT and DEFAULT–DEFAULT colliding |
| Layers.CreateIsConstructorCalls | DanoGameLab/src/danogl/collisions/LayerManager.java:41-47 | the new manager is exactly what the two `layers.add` calls and the two `shouldLayersCollide` calls produce |
| Layers.GetLayerDrawOrder | DanoGameLab/src/danogl/collisions/LayerManager.java:67-69 | the layer's draw order, or NoSuchElementException exactly when the layer is unknown |
| Layers.SetLayerDrawOrder | DanoGameLab/src/danogl/collisions/LayerManager.java:76-79 | NoSuchElementException exactly for an unknown layer; otherwise reading the order back gives the new value, a re-sort is flagged, and nothing else changes |
| Layers.AddGameObject | DanoGameLab/src/danogl/collisions/LayerManager.java:98-106 | an unknown layer is created on demand (draw order = id, queued on the layer list, re-sort flagged); the object ends up committed or pending in the layer; other layers are untouched; the invariant is preserved |
| Layers.EnsureLayer | DanoGameLab/src/danogl/collisions/LayerManager.java:99-104 | a known layer leaves the manager unchanged; an unknown one is added fresh, queued, and a re-sort flagged |
| Layers.IsLayerEmpty | DanoGameLab/src/danogl/collisions/LayerManager.java:108-111 | true exactly for an unknown layer (where objectsInLayer throws) or a layer with no committed objects; pending additions do not count |
| Layers.NewLayerEmptyUntilFlush | DanoGameLab/src/danogl/collisions/LayerManager.java:98-111 | an object added to a new layer leaves it empty until the next flush, after which it is not |
| Layers.ObjectsInLayer | DanoGameLab/src/danogl/collisions/LayerManager.java:113-115 | the layer's object list, NoSuchElementException exactly for an unknown layer |
| Layers.RemoveGameObject | DanoGameLab/src/danogl/collisions/LayerManager.java:117-122 | false with nothing changed for an unknown layer; otherwise true exactly when the object is pending addition or committed and not yet queued for removal; afterwards the layer no longer contains it; other layers untouched; the invariant is preserved |
| Layers.FlushChanges | DanoGameLab/src/danogl/collisions/LayerManager.java:124-138 | pending layers are committed and every layer's objects flushed; without a re-sort flag the order is committed then pending; with it the layers are sorted by ascending draw order, are a permutation of the same ids and keep the relative order of equal draw orders; the flag ends cleared and the invariant holds |
| Layers.FlushCommitsPending | DanoGameLab/src/danogl/collisions/LayerManager.java:124-127 | an object queued for a layer is committed in that layer after the flush |
| Layers.LayerLists | DanoGameLab/src/danogl/collisions/LayerManager.java:140-145 | one committed object list per committed layer, in committed layer order |
| Layers.Iterate | DanoGameLab/src/danogl/collisions/LayerManager.java:140-145 | the iterator yields all committed objects layer by layer in committed layer order |
| Layers.ReverseOrder | DanoGameLab/src/danogl/collisions/LayerManager.java:147-152 | `reverseOrder` yields exactly the reverse of the forward iteration |
| Layers.IterateMembership | DanoGameLab/src/danogl/collisions/LayerManager.java:140-145 | an object is iterated exactly when it is committed in some committed layer |
| Layers.HandleCollisions | DanoGameLab/src/danogl/collisions/LayerManager.java:154-163 | the pairs handed to the callback are, in order, those of every committed layer position pair i <= j whose layers collide |
| Layers.LayerRowMembership | DanoGameLab/src/danogl/collisions/LayerManager.java:156-161 | a pair is handed out in outer iteration i before inner position j exactly when some colliding inner position k in [i, j) produced it |
| Layers.PassMembership | DanoGameLab/src/danogl/collisions/LayerManager.java:154-163 | a pair is handed out by the first n outer iterations exactly when some colliding layer positions i < n, k >= i produced it |
| Layers.HandleCollisionsNeverSelf | DanoGameLab/src/danogl/collisions/LayerManager.java:154-176 | no object is ever paired with itself, and both objects of every pair are committed objects of committed layers |
| Layers.SortByIsStableEverywhere | DanoGameLab/src/danogl/collisions/LayerManager.java:131-134 | the re-sort keeps, for every draw order, the relative order of the layers carrying it |
| StableSort.Insert | DanoGameLab/src/danogl/collisions/LayerManager.java:132-134 | inserting into a sorted sequence keeps it sorted and adds exactly the one element |
| StableSort.InsertWithKey | DanoGameLab/src/danogl/collisions/LayerManager.java:132-134 | the inserted element goes after every element with the same key |
| StableSort.SortBy | DanoGameLab/src/danogl/collisions/LayerManager.java:132-134 | `sorted(Comparator.comparing(drawOrder))`: the result is sorted by the key and is a permutation of the input |
| StableSort.SortByIsStable | DanoGameLab/src/danogl/collisions/LayerManager.java:132-134 | for every key, the elements carrying it keep their original relative order |
| StableSort.SortBySortedIsIdentity | DanoGameLab/src/danogl/collisions/LayerManager.java:132-134 | an already sorted sequence is left exactly as it is |
| LayerPairs.RowFacts | DanoGameLab/src/danogl/collisions/LayerManager.java:171-174 | the inner loop pairs the outer object with exactly the other objects of the inner list, skipping itself |
| LayerPairs.HandleLayers | DanoGameLab/src/danogl/collisions/LayerManager.java:165-176 | the double loop hands out exactly the pairs of the model's pair list, in loop order |
| LayerPairs.InnerLoop | DanoGameLab/src/danogl/collisions/LayerManager.java:171-174 | the inner loop from `ind2` hands out the outer object with each later object that is not itself |
| LayerPairs.RowsMembership | DanoGameLab/src/danogl/collisions/LayerManager.java:167-175 | after n outer iterations a pair was handed out exactly when its first object is at some position i < n and its second is in the inner list from the start position, and they differ |
| LayerPairs.SameLayerPairs | DanoGameLab/src/danogl/collisions/LayerManager.java:168-173 | within one layer a pair is handed out exactly when it is (s[i], s[j]) with i < j and distinct objects |
| LayerPairs.CrossLayerPairs | DanoGameLab/src/danogl/collisions/LayerManager.java:165-176 | across two layers a pair is handed out exactly when its first object is in the first layer, its second in the second, and they differ |
| LayerPairs.SameLayerPairCount | DanoGameLab/src/danogl/collisions/LayerManager.java:167-175 | within a duplicate-free layer of size s, the first n outer iterations hand out n(2s - n - 1)/2 pairs, so each position pair once |
| LayerPairs.CrossLayerPairCount | DanoGameLab/src/danogl/collisions/LayerManager.java:167-175 | across disjoint layers, n outer iterations hand out n times the inner size: every (a, b) once |
| Pairs.NewPair | DanoGameLab/src/danogl/collisions/GameObjectPair.java:11-12 | a fresh pair has both slots empty |
| Pairs.PairEqualsIsMultisetEquality | DanoGameLab/src/danogl/collisions/GameObjectPair.java:14-21 | two pairs are equal exactly when they hold the same two objects, in either order (equal multisets of slots) |
| Pairs.PairEqualsIsEquivalence | DanoGameLab/src/danogl/collisions/GameObjectPair.java:14-21 | pair equality is reflexive, symmetric and transitive |
| Pairs.HashCode | DanoGameLab/src/danogl/collisions/GameObjectPair.java:23-26 | the hash is a 32-bit signed integer |
| Pairs.HashCodeWithoutOverflow | DanoGameLab/src/danogl/collisions/GameObjectPair.java:23-26 | for small identity hashes the pair hash is 961 + 31·h1 + h2, so the two slots are weighted differently |
| Pairs.SwappedPairsHashDifferently | DanoGameLab/src/danogl/collisions/GameObjectPair.java:14-26 | there are two pairs that are equal but have different hashes (994 and 1024), so equals and hashCode disagree |
| Pairs.GetGameObject | DanoGameLab/src/danogl/collisions/GameObjectPair.java:28-34 | index 0 gives the first slot, index 1 the second, any other index is an IndexOutOfBounds error |
| Pairs.SetGameObject | DanoGameLab/src/danogl/collisions/GameObjectPair.java:36-42 | index 0 or 1 replaces exactly that slot, any other index is an IndexOutOfBounds error |
| Pairs.SetThenGet | DanoGameLab/src/danogl/collisions/GameObjectPair.java:28-42 | after setting slot 0 or 1, reading it back gives the value set and the other slot is unchanged |
| Pairs.PairOf | DanoGameLab/src/danogl/collisions/PairCollisionData.java:17-20 | the constructor's pair reads back its first object at index 0 and its second at index 1 |
| Pairs.GetCollision | DanoGameLab/src/danogl/collisions/PairCollisionData.java:25-31 | index 0 gives the first object's collision, index 1 the second's, any other index is an IndexOutOfBounds error |
| Pairs.FindAsWritten | DanoGameLab/src/danogl/collisions/GameObjectCollection.java:164 | the hash-map lookup as written: a hit is an entry that is equal to the query and has the same hash; a miss means no entry is both |
| Pairs.Find | DanoGameLab/src/danogl/collisions/GameObjectCollection.java:164 | the lookup that equals promises: a hit is the first entry equal to the query; a miss means no entry is equal to it |
| Pairs.Swap | DanoGameLab/src/danogl/collisions/GameObjectPair.java:19-20 | the swapped pair exchanges the two slots and is equal to the original |
| Pairs.FindIgnoresOrder | DanoGameLab/src/danogl/collisions/GameObjectPair.java:14-21 | the corrected lookup gives the same answer for a pair and its swap |
| Pairs.SwappedLookupMisses | DanoGameLab/src/danogl/collisions/GameObjectCollection.java:164 | with (a, b) cached, the as-written lookup of (b, a) misses, while the corrected lookup finds entry 0 |
| Pairs.FindAsWrittenRefinesFind | DanoGameLab/src/danogl/collisions/GameObjectCollection.java:164 | when cached keys are pairwise unequal, every hit of the as-written lookup is also the corrected lookup's answer |
| Pairs.FindAfterUpdate | DanoGameLab/src/danogl/collisions/GameObjectCollection.java:164-181 | replacing a cached entry's data under the same key leaves every lookup unchanged |
| Pairs.OthersSurvive | DanoGameLab/src/danogl/collisions/GameObjectCollection.java:172 | updating or removing entry i keeps every entry with a different key |
| Pairs.FindAfterAppend | DanoGameLab/src/danogl/collisions/GameObjectCollection.java:188 | after a miss, putting a new entry equal to the query makes the lookup find it at the end |
| Pairs.FindAfterRemove | DanoGameLab/src/danogl/collisions/GameObjectCollection.java:172 | with unique keys, removing the entry a lookup found makes that lookup miss |
| Pairs.KeysUniqueSteps | DanoGameLab/src/danogl/collisions/GameObjectCollection.java:164-181 | removing an entry or updating its data keeps cached keys pairwise unequal |
| Pairs.KeysUniqueAppend | DanoGameLab/src/danogl/collisions/GameObjectCollection.java:184-188 | appending a key the cache does not hold keeps cached keys pairwise unequal |
| PairManager.Create | DanoGameLab/src/danogl/collisions/PairCollisionManager.java:20-23 | a new manager holds exactly the AABB handler, with no duplicates |
| PairManager.Register | DanoGameLab/src/danogl/collisions/PairCollisionManager.java:25-28 | a handler already present changes nothing; a new one is appended; the handler is present afterwards; the list stays duplicate-free |
| PairManager.RegisterFromCollection | DanoGameLab/src/danogl/collisions/GameObjectCollection.java:99-102 | a null handler is ignored; any other handler is registered |
| PairManager.RegisterIsIdempotent | DanoGameLab/src/danogl/collisions/PairCollisionManager.java:25-28 | registering the same handler twice equals registering it once |
| PairManager.GetCollisionData | DanoGameLab/src/danogl/collisions/PairCollisionManager.java:30-37 | the result is the answer of the first handler that returns non-null data; null exactly when every handler returns null |
| PairManager.LaterHandlersIrrelevant | DanoGameLab/src/danogl/collisions/PairCollisionManager.java:30-37 | once some handler answers, handlers registered after it never change the result |
| PairManager.DefaultRegistryIsAABB | DanoGameLab/src/danogl/collisions/PairCollisionManager.java:20-37 | with only the default registry, the collision data is the AABB handler's |
| Collection.Create | DanoGameLab/src/danogl/collisions/GameObjectCollection.java:15-20 | a new collection has the default layers, an empty cache and a resolver; cache keys are unique and the layers are valid |
| Collection.AddGameObject | DanoGameLab/src/danogl/collisions/GameObjectCollection.java:49-51 | adding delegates to the layer manager and leaves the cache alone; the layer invariant is kept |
| Collection.AddToDefaultLayer | DanoGameLab/src/danogl/collisions/GameObjectCollection.java:57-59 | the one-argument add targets the default layer, and the object is then committed or pending there |
| Collection.Purge | DanoGameLab/src/danogl/collisions/GameObjectCollection.java:75-81 | exactly the cache entries whose key does not mention the object are kept |
| Collection.PurgeKeepsUnique | DanoGameLab/src/danogl/collisions/GameObjectCollection.java:75-81 | dropping the entries that mention an object keeps cached keys pairwise unequal |
| Collection.RemoveGameObject | DanoGameLab/src/danogl/collisions/GameObjectCollection.java:72-84 | the result is the layer manager's; on success the cache loses exactly the entries mentioning the object, on failure the cache is unchanged; unique keys stay unique |
| Collection.RemoveFromDefaultLayer | DanoGameLab/src/danogl/collisions/GameObjectCollection.java:90-92 | the one-argument remove targets the default layer and succeeds exactly when the object is pending addition there, or committed and not yet queued for removal |
| Collection.Update | DanoGameLab/src/danogl/collisions/GameObjectCollection.java:108-110 | update flushes the layer manager (leaving it valid, with no layer pending and no re-sort flagged, over the same layers) and touches neither the pair cache nor the resolver |
| Collection.ViewOf | DanoGameLab/src/danogl/collisions/GameObjectCollection.java:176-177 | the view index handed to an object is 0 or 1, and 0 when the object is the cached pair's first object |
| Collection.HandlePair | DanoGameLab/src/danogl/collisions/GameObjectCollection.java:155-194 | a pair that is refused by either object or lies in different coordinate spaces returns false and changes nothing; otherwise only the two objects' transforms may change, and only when the pair was cached; the result is true exactly when the pair is cached afterwards; unique keys stay unique |
| Collection.HandleCached | DanoGameLab/src/danogl/collisions/GameObjectCollection.java:164-182 | for a cached pair that no longer collides: both objects get onCollisionExit, the entry is removed and the world is unchanged; for one that still collides: the entry keeps its key and only its data changes, and both objects get onCollisionStay with their own views |
| Collection.HandleNew | DanoGameLab/src/danogl/collisions/GameObjectCollection.java:184-193 | for an uncached pair, with the AABB handler as the narrow phase (the default registry; see "## Left out"): an error exactly when the handler fails; a new entry is cached exactly when the handler reports a collision, and then enter/stay go to the first object and enter/stay to the second, in that order; otherwise nothing changes |
| Collection.CachedStepFacts | DanoGameLab/src/danogl/collisions/GameObjectCollection.java:164-182 | after handling a cached pair, the pair is still found at the same index exactly when it still collides, and unique keys stay unique |
| Collection.EventsFollowCache | DanoGameLab/src/danogl/collisions/GameObjectCollection.java:155-194 | onCollisionEnter is only issued for a pair not cached before, onCollisionExit only for one that was, and every onCollisionStay passes the view of the cached entry that belongs to the receiving object |
| Collection.EventsWhenCached | DanoGameLab/src/danogl/collisions/GameObjectCollection.java:164-182 | a cached pair never gets onCollisionEnter, and its stay events carry the receiving object's view of the kept entry |
| Collection.ViewsComplement | DanoGameLab/src/danogl/collisions/GameObjectCollection.java:176-177 | the two distinct objects of a cached pair get complementary views, 0 and 1 |
| Collection.EventsWhenNew | DanoGameLab/src/danogl/collisions/GameObjectCollection.java:184-193 | a new pair never gets onCollisionExit, and its stay events carry the views of the entry appended at the end of the cache |
| Collection.OtherEntriesKept | DanoGameLab/src/danogl/collisions/GameObjectCollection.java:155-194 | handling a pair keeps every cache entry whose key differs from that pair |
| Collection.HandleAll | DanoGameLab/src/danogl/collisions/LayerManager.java:154-176 | handling the pairs in turn keeps the layers, the set of objects in the world and their masses; unique keys stay unique |
| Collection.UnvisitedEntriesKept | DanoGameLab/src/danogl/collisions/LayerManager.java:154-176 | a cache entry that no handled pair equals survives the whole pass |
| Collection.HandleAllStep | DanoGameLab/src/danogl/collisions/LayerManager.java:154-176 | a successful pass consists of a successful first pair followed by a successful pass over the rest |
| Collection.PassInWorld | DanoGameLab/src/danogl/collisions/LayerManager.java:154-176 | every pair the pass hands out names two objects of the world, and two different ones |
| Collection.HandleCollisions | DanoGameLab/src/danogl/collisions/GameObjectCollection.java:127-129 | a collision pass keeps the layers, the set of objects in the world and their masses; unique keys stay unique |
| Collection.KnownAfterPass | DanoGameLab/src/danogl/collisions/GameObjectCollection.java:127-129 | every object the layers hold is still in the world after a pass that keeps the layers and the world's objects |
| Collection.KnownIsPopulated | DanoGameLab/src/danogl/collisions/GameObjectCollection.java:127-129 | when every object in the layers is in the world, every committed object the pass visits is in the world |
| Collection.FlushKeepsKnown | DanoGameLab/src/danogl/collisions/GameObjectCollection.java:108-110 | flushing pending changes keeps every object of the layers in the world |
| Geometry.Intersection | DanoGameLab/src/danogl/collisions/AABB/AABBPairCollisionHandler.java:73 | the intersection starts at the larger of the two left and top edges and ends at the smaller of the two right and bottom edges |
| Geometry.IntersectsSymmetric | DanoGameLab/src/danogl/collisions/AABB/AABBPairCollisionHandler.java:71-73 | overlap and intersection do not depend on the order of the two rectangles |
| Geometry.IntersectsIffNonEmptyIntersection | DanoGameLab/src/danogl/collisions/AABB/AABBPairCollisionHandler.java:71-73 | two non-empty rectangles overlap exactly when their intersection is non-empty |
| Geometry.IntersectionContainsPoint | DanoGameLab/src/danogl/collisions/AABB/AABBCollider.java:32-34 | a point lies in the intersection exactly when it lies in both rectangles |
| Geometry.IntersectsShareCorner | DanoGameLab/src/danogl/collisions/AABB/AABBPairCollisionHandler.java:71-73 | when two rectangles overlap, the intersection's top-left corner lies in both of them |
| AABB.ColliderRect | DanoGameLab/src/danogl/collisions/AABB/AABBPairCollisionHandler.java:54-55 | reading the rectangle fails with NullPointer when there is no collider and with ClassCast for a non-AABB collider; otherwise it is the collider's rectangle |
| AABB.SupportsPair | DanoGameLab/src/danogl/collisions/AABB/AABBPairCollisionHandler.java:29-33 | true exactly when both colliders exist and are of the AABB type; a missing first collider is a NullPointer error; a non-AABB first collider gives false without looking at the second |
| AABB.CalcIntersectionRect | DanoGameLab/src/danogl/collisions/AABB/AABBPairCollisionHandler.java:45-74 | succeeds exactly when both colliders are AABB colliders; the world rectangles are the object-space rectangles placed and scaled by each object; an intersection is returned exactly when they overlap, and it is their intersection |
| AABB.IntersectionIsCommonPart | DanoGameLab/src/danogl/collisions/AABB/AABBPairCollisionHandler.java:45-74 | swapping the objects swaps the world rectangles and keeps the intersection; a returned intersection is non-empty and holds exactly the points of both world rectangles |
| AABB.NewData | DanoGameLab/src/danogl/collisions/AABB/AABBPairCollisionData.java:13-23 | new pair data has never been computed, has stored hash 0 and no intersection, and neither side has a relative velocity yet |
| AABB.ComputeCollisionData | DanoGameLab/src/danogl/collisions/AABB/AABBPairCollisionHandler.java:18-27 | data is produced exactly when both colliders are AABB colliders and their world rectangles overlap, and it is fresh data; two AABB colliders never fail |
| AABB.CollisionDataIffIntersecting | DanoGameLab/src/danogl/collisions/AABB/AABBPairCollisionHandler.java:18-27 | for two AABB colliders the handler never fails and returns data exactly when the world rectangles overlap |
| AABB.CurrentHash | DanoGameLab/src/danogl/collisions/AABB/AABBPairCollisionData.java:65-71 | the change fingerprint is defined exactly when both colliders are AABB colliders, and is the fingerprint of both corners, both sizes and both collider rectangles |
| AABB.HasAnythingChanged | DanoGameLab/src/danogl/collisions/AABB/AABBPairCollisionData.java:62-76 | data never computed counts as changed; otherwise it is changed exactly when the fingerprint differs from the stored one, which is then replaced |
| AABB.UpdateIntersectionRect | DanoGameLab/src/danogl/collisions/AABB/AABBPairCollisionData.java:32-46 | data already computed this frame is returned as is; an unchanged fingerprint keeps the old rectangles; otherwise the world rectangles and intersection are recomputed and marked computed; relative-velocity memos are untouched |
| AABB.UpdateIsIdempotent | DanoGameLab/src/danogl/collisions/AABB/AABBPairCollisionData.java:32-46 | a second update in the same frame changes nothing |
| AABB.EqualFingerprintKeepsCache | DanoGameLab/src/danogl/collisions/AABB/AABBPairCollisionData.java:32-34 | when the fingerprint equals the stored one, the update keeps the data as it is |
| AABB.AreColliding | DanoGameLab/src/danogl/collisions/AABB/AABBPairCollisionData.java:48-52 | after the update, the pair collides exactly when there is a non-empty intersection |
| AABB.FreshAnswerIsIntersection | DanoGameLab/src/danogl/collisions/AABB/AABBPairCollisionData.java:48-52 | when the update recomputed, the pair collides exactly when the two world rectangles overlap |
| AABB.OnFrameStart | DanoGameLab/src/danogl/collisions/AABB/AABBPairCollisionData.java:25-30 | a new frame clears the computed flag and both relative-velocity flags and keeps everything else |
| AABB.GetRectWorld | DanoGameLab/src/danogl/collisions/AABB/AABBPairCollisionData.java:54-56 | index 0 gives the first world rectangle and any other index the second |
| AABB.GetRelativeVelocity | DanoGameLab/src/danogl/collisions/AABB/AABBCollision.java:66-87 | a side's memo from this frame is reused; otherwise the negation of the partner's memo is used if the partner has one; otherwise it is my velocity minus the partner's; either way the result becomes this side's memo |
| AABB.RelativeVelocitiesOpposite | DanoGameLab/src/danogl/collisions/AABB/AABBCollision.java:66-87 | within one frame, the second side's relative velocity is the exact negation of the first side's, and asking the first side again returns the same value, even if the objects have moved in between |
| AABB.Intersected | DanoGameLab/src/danogl/collisions/AABB/AABBPairCollisionData.java:58-60 | the intersection rectangle after the update; defined exactly when there is one |
| AABB.GetNormal | DanoGameLab/src/danogl/collisions/AABB/AABBCollision.java:29-42 | the normal points from the centre of the intersection to the centre of this side's world rectangle, taken after the update; it is that difference itself, not normalised as Java's is (see "## Left out") |
| AABB.GetCollisionPoint | DanoGameLab/src/danogl/collisions/AABB/AABBCollision.java:44-53 | the collision point is the centre of the intersection after the update |
| AABB.GetPenetrationArea | DanoGameLab/src/danogl/collisions/AABB/AABBCollision.java:55-64 | the penetration area is the intersection's width and height after the update |
| AABB.NormalsOppose | DanoGameLab/src/danogl/collisions/AABB/AABBCollision.java:29-53 | on each axis the two sides' normals point away from each other, and the collision point lies in both world rectangles |
| AABBNormals.PositiveScalingKeepsSigns | DanoGameLab/src/danogl/collisions/AABB/AABBCollision.java:41 | scaling a vector by a positive factor keeps the sign of each component and of its dot product with any direction |
| AABBNormals.NormalizationKeepsSigns | DanoGameLab/src/danogl/collisions/AABB/AABBCollision.java:41 | normalising the normal keeps every sign the resolver tests |
| Resolver.ShouldResolve | DanoGameLab/src/danogl/collisions/CollisionResolver.java:96-135 | a static pair, or one where either object does not prevent intersections, is not resolved and leaves the data untouched; the answer is yes exactly when the pair is not static, both objects prevent intersections, every non-zero prevented direction sees the pair approaching and the normal facing it, and the overlap is at least 10 on some axis; only the first side's memos are touched |
| Resolver.Weights | DanoGameLab/src/danogl/collisions/CollisionResolver.java:27-39 | the two shares sum to one; equal masses share half each; an immovable object's partner takes all of it; otherwise each share is the other object's mass over the total |
| Resolver.FractionsSumToOne | DanoGameLab/src/danogl/collisions/CollisionResolver.java:37-38 | the two mass fractions sum to one and scale back to the masses |
| Resolver.HeavierMovesLess | DanoGameLab/src/danogl/collisions/CollisionResolver.java:27-39 | for positive masses both shares lie in [0, 1], and of two ordinary masses the heavier object takes the smaller share |
| Resolver.DirOf | DanoGameLab/src/danogl/collisions/CollisionResolver.java:63-64 | the direction is ±1 and is negative exactly when the component is negative |
| Resolver.ChooseAxis | DanoGameLab/src/danogl/collisions/CollisionResolver.java:66-83 | the correction is vertical exactly when the overlap is wider than tall and the object is not moving away vertically; it is horizontal only when the overlap is taller than wide and the object is not moving away horizontally; a square overlap gets no correction |
| Resolver.CorrectY | DanoGameLab/src/danogl/collisions/CollisionResolver.java:71-79 | the corner moves vertically by its share of the overlap less one pixel; an approaching vertical velocity loses its share of the relative velocity; acceleration stays enabled only if it does not push into the normal; nothing else changes |
| Resolver.CorrectX | DanoGameLab/src/danogl/collisions/CollisionResolver.java:84-92 | the horizontal counterpart of the vertical correction |
| Resolver.ResolveOneObject | DanoGameLab/src/danogl/collisions/CollisionResolver.java:54-94 | a zero share changes nothing; otherwise only the object's own transform changes, by the vertical or horizontal correction the chosen axis names, and not at all when no axis is chosen |
| Resolver.Resolve | DanoGameLab/src/danogl/collisions/CollisionResolver.java:22-43 | only the two objects' transforms may change; when the pair should not be resolved the world is unchanged and the data is as the checks left it; when it should, go1 is corrected with its mass share through its own view and then go2 with its share through its view, seeing go1 already moved; a failing check is an error |
| Resolver.StaticPairUntouched | DanoGameLab/src/danogl/collisions/CollisionResolver.java:97-101 | a static pair is left exactly as it was, data included |
| Resolver.ImmovableNeverMoves | DanoGameLab/src/danogl/collisions/CollisionResolver.java:32-33 | an immovable object facing a movable one is never moved |
| Resolver.ResolveNeverEnablesAcceleration | DanoGameLab/src/danogl/collisions/CollisionResolver.java:77-79 | resolving never switches acceleration on, and never changes any object's size or physics |
| Resolver.FullCorrectionStopsApproach | DanoGameLab/src/danogl/collisions/CollisionResolver.java:74-76 | an approaching object that takes the whole correction ends with exactly its partner's vertical velocity |
| Vectors.Add | DanoGameLab/src/danogl/util/Vector2.java:56-60 | adding the zero vector returns the receiver; otherwise each coordinate is the sum |
| Vectors.Subtract | DanoGameLab/src/danogl/util/Vector2.java:62-66 | subtracting the zero vector returns the receiver; otherwise each coordinate is the difference |
| Vectors.Mult | DanoGameLab/src/danogl/util/Vector2.java:69-73 | a factor of 1 returns the receiver; otherwise both coordinates are scaled |
| Vectors.MultX | DanoGameLab/src/danogl/util/Vector2.java:76-80 | a factor of 1 returns the receiver; otherwise only x is scaled |
| Vectors.MultY | DanoGameLab/src/danogl/util/Vector2.java:83-87 | a factor of 1 returns the receiver; otherwise only y is scaled |
| Vectors.ScaledSqrMagnitude | DanoGameLab/src/danogl/util/Vector2.java:95 | scaling a vector by f scales its squared magnitude by f² |
| Vectors.Normalized | DanoGameLab/src/danogl/util/Vector2.java:97-101 | the zero vector normalises to zero; any other vector gives a unit vector which, scaled by the magnitude, is the original |
| Vectors.Flipped | DanoGameLab/src/danogl/util/Vector2.java:116-128 | a vector that does not oppose the normal is returned unchanged; one that opposes it has the component along the normal negated and the component across it kept |
| Vectors.ZeroedAlongNormal | DanoGameLab/src/danogl/util/Vector2.java:103-109 | the result has no component along the normal and keeps the component across it |
| Vectors.RotatedToNearestAxis | DanoGameLab/src/danogl/util/Vector2.java:131-135 | the magnitude is kept, and the result points along x with x's sign when \|x\| > \|y\|, and along y with y's sign otherwise |
| Vectors.EqualsIsIdentity | DanoGameLab/src/danogl/util/Vector2.java:149-154 | two vectors are equal exactly when both coordinates are equal |
| Vectors.SubtractUndoesAdd | DanoGameLab/src/danogl/util/Vector2.java:56-66 | subtracting what was added, or adding what was subtracted, gives back the original vector |
| Vectors.ApproximatelyEqualsProperties | DanoGameLab/src/danogl/util/Vector2.java:159-163 | approximate equality is reflexive and symmetric, and is implied by equality |
| Vectors.FlipIsIdempotent | DanoGameLab/src/danogl/util/Vector2.java:116-128 | a flipped vector no longer opposes the normal, so flipping it again changes nothing |
| Vectors.ZeroedAlongNormalIsIdempotent | DanoGameLab/src/danogl/util/Vector2.java:103-109 | zeroing along the same normal twice is the same as zeroing once |
| MutableVectors.CreateVecOn | DanoGameLab/src/danogl/util/MutableVector2.java:60-67 | with the flag raised the receiver takes the new coordinates and is returned; otherwise the receiver is untouched and a new vector is returned |
| MutableVectors.SelfOp | DanoGameLab/src/danogl/util/MutableVector2.java:34-47 | a self operation leaves the receiver holding the immutable operation's result, with the flag lowered |
| MutableVectors.PlainOp | DanoGameLab/src/danogl/util/MutableVector2.java:60-67 | a plain operation on a mutable receiver with the flag down leaves the receiver untouched and returns the immutable operation's result |
| MutableVectors.OutcomeMatchesImmutable | DanoGameLab/src/danogl/util/Vector2.java:56-135 | every operation that returns its receiver has an immutable result equal to the receiver, and every one that calls createVec passes the immutable result |
| MutableVectors.FlipOutcome | DanoGameLab/src/danogl/util/Vector2.java:116-128 | the flip returns its receiver only when flipping would not change it, and otherwise passes the flipped vector to createVec |
| MutableVectors.SelfNormalize | DanoGameLab/src/danogl/util/MutableVector2.java:49-55 | the receiver becomes its normalised self, with the flag lowered |
| MutableVectors.SetX | DanoGameLab/src/danogl/util/MutableVector2.java:29 | only x changes |
| MutableVectors.SetY | DanoGameLab/src/danogl/util/MutableVector2.java:30 | only y changes |
| MutableVectors.SetXY | DanoGameLab/src/danogl/util/MutableVector2.java:31-32 | both coordinates are replaced and the flag is kept |
| MutableVectors.ImmutableCopy | DanoGameLab/src/danogl/util/MutableVector2.java:57-58 | the copy is a new vector with the receiver's coordinates |
| MutableVectors.SelfOpsKeepFlagDown | DanoGameLab/src/danogl/util/MutableVector2.java:69-88 | any chain of self operations leaves the flag down and the receiver equal to the chain of immutable results |
| Transforms.Create | DanoGameLab/src/danogl/components/Transform.java:24-27 | a new transform has the given corner and size, is at rest with no acceleration, and has acceleration enabled |
| Transforms.SetCenter | DanoGameLab/src/danogl/components/Transform.java:150-154 | the centre lands on the given point and only the corner changes |
| Transforms.SetCenterX | DanoGameLab/src/danogl/components/Transform.java:167-169 | the centre's x lands on the given value, its y stays, and only the corner's x changes |
| Transforms.SetCenterY | DanoGameLab/src/danogl/components/Transform.java:174-176 | the centre's y lands on the given value, its x stays, and only the corner's y changes |
| Transforms.SetCenterXYAgrees | DanoGameLab/src/danogl/components/Transform.java:150-162 | setting the centre's x and then its y equals setting the whole centre at once |
| Transforms.SetTopLeftCornerX | DanoGameLab/src/danogl/components/Transform.java:93-95 | only the corner's x changes |
| Transforms.SetTopLeftCornerY | DanoGameLab/src/danogl/components/Transform.java:100-102 | only the corner's y changes |
| Transforms.SetVelocityX | DanoGameLab/src/danogl/components/Transform.java:128-130 | only the velocity's x changes |
| Transforms.SetVelocityY | DanoGameLab/src/danogl/components/Transform.java:135-137 | only the velocity's y changes |
| Transforms.SetAccelerationEnabled | DanoGameLab/src/danogl/components/Transform.java:239-241 | only the acceleration flag changes |
| Transforms.SetDimensions | DanoGameLab/src/danogl/components/Transform.java:66-74 | a negative width or height is an IllegalArgument error; otherwise the size is replaced and the corner moves so that the centre stays where it was |
| Transforms.Update | DanoGameLab/src/danogl/components/Transform.java:213-226 | with acceleration that is non-zero and enabled, the velocity grows by acceleration·dt and the corner moves by the average of the applied and the new velocity times dt; otherwise the velocity is kept and the corner moves by the applied velocity times dt; the applied velocity becomes the current one; size, acceleration and flag are kept |
| Transforms.SetVelocityTakesEffectNextFrame | DanoGameLab/src/danogl/components/Transform.java:213-226 | without acceleration, a velocity set now does not move the object in this update but does in the next |
| Transforms.UpdateAtRestIsIdentity | DanoGameLab/src/danogl/components/Transform.java:213-226 | an object at rest with no acceleration does not change |
| Physics.ColliderType | DanoGameLab/src/danogl/collisions/AABB/AABBCollider.java:26-29 | an AABB collider reports the type "AABB" |
| Physics.NewAABBCollider | DanoGameLab/src/danogl/collisions/AABB/AABBCollider.java:20-24 | the new collider is an AABB collider holding exactly the given rectangle |
| Physics.ColliderContainsPoint | DanoGameLab/src/danogl/collisions/AABB/AABBCollider.java:31-34 | an AABB collider contains a point exactly when it lies in the half-open rectangle; another collider answers as its own code says |
| Physics.Create | DanoGameLab/src/danogl/components/GameObjectPhysics.java:17-21 | new physics has mass 1, is not solid and has no collider |
| Physics.PreventIntersectionsFromDirection | DanoGameLab/src/danogl/components/GameObjectPhysics.java:51-53 | null makes the object not solid; any other direction is stored as a copy; mass and collider are kept |
| Physics.SetMass | DanoGameLab/src/danogl/components/GameObjectPhysics.java:67-69 | only the mass changes |
| Physics.SetCollider | DanoGameLab/src/danogl/components/GameObjectPhysics.java:33-35 | only the collider changes |
| Physics.PreventDirectionRoundTrip | DanoGameLab/src/danogl/components/GameObjectPhysics.java:51-53 | setting the prevented direction twice is the same as setting only the second |
| GameObjects.Create | DanoGameLab/src/danogl/GameObject.java:45-50 | a new object has a new transform and renderer, mass 1, is not solid, has the unit AABB collider, world coordinates, an empty tag and no components |
| GameObjects.Update | DanoGameLab/src/danogl/GameObject.java:61-70 | the transform is updated and its acceleration enabled again, the renderer is updated (and its errors propagate), physics, space and tag are kept; the committed components are the ones run; the `addComponent`/`removeComponent` calls they make reach the list before the flush, so after the update every component was committed, pending or added by one of them, every committed component that was neither pending removal nor removed by one of them is still there, and with no calls the list is just flushed |
| GameObjects.AddComponent | DanoGameLab/src/danogl/GameObject.java:221-225 | the component is queued in the object's component list, which is created (without duplicates) when missing; nothing else changes |
| GameObjects.RemoveComponent | DanoGameLab/src/danogl/GameObject.java:231-233 | an object that never had components gives a NullPointer error; otherwise the removal is queued and nothing else changes |
| GameObjects.ComponentRunsFromTheFollowingUpdate | DanoGameLab/src/danogl/GameObject.java:61-70 | a component added now does not run in the next update but is committed by it (unless a component of that update removes it), and runs in the update after that |
| GameObjects.FiredOneShotTaskIsGone | DanoGameLab/src/danogl/components/ScheduledTask.java:52-60 | a one-shot task that fires during its object's update is no longer among the object's components after that update, unless a component adds it again in the same update |
| GameObjects.FinishedOnceTransitionIsGone | DanoGameLab/src/danogl/components/Transition.java:150-167 | a ONCE transition that reaches its final value during its object's update is no longer among the object's components after that update, unless a component adds it again in the same update |
| GameObjects.SetCoordinateSpace | DanoGameLab/src/danogl/GameObject.java:262-266 | a null space is an IllegalArgument error; otherwise only the space changes |
| GameObjects.WorldToObjectCoords | DanoGameLab/src/danogl/GameObject.java:274-279 | the conversion is defined exactly when both dimensions are non-zero |
| GameObjects.CoordinateConversionsRoundTrip | DanoGameLab/src/danogl/GameObject.java:274-292 | with non-zero dimensions, world-to-object and object-to-world coordinates are inverse to each other, both ways round |
| GameObjects.ObjectToWorldThenBack | DanoGameLab/src/danogl/GameObject.java:274-292 | converting object coordinates to world coordinates and back gives the original point |
| GameObjects.ContainsPoint | DanoGameLab/src/danogl/GameObject.java:299-301 | an object with no collider gives a NullPointer error; otherwise its collider is asked about the point in object coordinates; an AABB collider on a zero-sized object contains nothing |
| ComponentLists.AddComponent | DanoGameLab/src/danogl/GameObject.java:221-225 | the first component creates a list with no committed items and that component pending; later ones go through the list's add; the component is then present or queued for removal |
| ComponentLists.RemoveComponent | DanoGameLab/src/danogl/GameObject.java:231-233 | an absent component list gives a NullPointer error; otherwise the removal goes through the list's remove |
| ComponentLists.AddToFreshObject | DanoGameLab/src/danogl/GameObject.java:221-225 | after the first flush, a fresh object's component list holds exactly the component added |
| ComponentLists.RemovalTakesEffect | DanoGameLab/src/danogl/GameObject.java:65-68 | a removal asked for during an update, with no addition of the same component, leaves the component not contained, so the flush that follows drops it |
| ComponentLists.ApplyKeepsValid | DanoGameLab/src/danogl/GameObject.java:65-68 | the `addComponent`/`removeComponent` calls made during an update keep the component list valid |
| ComponentLists.SelfRemoval | DanoGameLab/src/danogl/components/ScheduledTask.java:55-60 | the calls a scheduled task or a transition makes on its own object while it runs: removing itself exactly when the update ends it (`ScheduledTasks.Update` for a one-shot task that fires, `Transitions.Update` for a ONCE transition at its final value, Transition.java:164-167), and nothing else |
| ComponentLists.AdditionTakesEffect | DanoGameLab/src/danogl/GameObject.java:65-68 | an addition asked for during an update, with no removal of the same component and none pending, leaves the component contained and in the list after the flush |
| ComponentLists.PendingAdditionRequested | DanoGameLab/src/danogl/GameObject.java:65-68 | a component that became pending during the update was added by one of the calls |
| ComponentLists.NoRemovalKeepsCommitted | DanoGameLab/src/danogl/GameObject.java:65-68 | a committed component that nobody removes and that was not pending removal is in the list after the flush |
| ComponentLists.NothingRequested | DanoGameLab/src/danogl/GameObject.java:65-68 | components that make no calls leave the list to be flushed unchanged |
| Game.Create | DanoGameLab/src/danogl/GameManager.java:37-60 | a null title becomes "DanoGameLab"; the window size is kept as given; there is no collection and no camera yet |
| Game.InitializeGame | DanoGameLab/src/danogl/GameManager.java:95-104 | initialisation installs a new empty collection and clears the camera; title and window size are kept |
| Game.SetCamera | DanoGameLab/src/danogl/GameManager.java:160-163 | only the camera changes |
| Game.UpdateObjects | DanoGameLab/src/danogl/GameManager.java:119-120 | updating the objects in turn reports one run per object, in order; objects not in the sequence are untouched; no object's physics or coordinate space changes |
| Game.EachObjectUpdatedOnce | DanoGameLab/src/danogl/GameManager.java:119-120 | with no object repeated, each object ends as exactly one update of its starting state, and runs exactly the components that update committed |
| Game.SameObjectsStillReady | DanoGameLab/src/danogl/GameManager.java:117-125 | a world with the same objects and the same physics still holds every object the layers know and can still weigh every pair |
| Game.FlushAndCollide | DanoGameLab/src/danogl/GameManager.java:123-124 | the end of a frame is the collision pass run over the flushed collection; it keeps the world's objects and leaves the layers valid with every object known to the world |
| Game.UpdateObjectsAndCamera | DanoGameLab/src/danogl/GameManager.java:117-122 | the objects updated are exactly the committed ones, in drawing order; the world keeps its objects; a camera present before is present after and follows the same object |
| Game.Update | DanoGameLab/src/danogl/GameManager.java:117-125 | without a collection the frame fails with NullPointer; otherwise every committed object is updated once in drawing order, then the camera; the frame's collection, world and events are those of the collision pass over the flushed collection and the updated world, and any failure along the way fails the frame; the manager is ready for the next frame |
| Game.ReadyAfterFrame | DanoGameLab/src/danogl/GameManager.java:117-125 | valid layers, known objects, weighable pairs and a camera that follows the same object make the manager ready again |
| Game.UpdateCamera | DanoGameLab/src/danogl/GameManager.java:121-122 | no camera means nothing happens; otherwise the frame fails exactly when the camera's update fails, and the camera keeps following the same object |
| Game.PendingObjectSkippedThenCommitted | DanoGameLab/src/danogl/GameManager.java:117-125 | an object added but not yet committed is not updated in this frame, and is committed by its end |
| Game.UncommittedNotIterated | DanoGameLab/src/danogl/GameManager.java:119-120 | an object committed in no layer is not among those iterated |
| Game.MousePosFor | DanoGameLab/src/danogl/GameManager.java:174-176 | an object in camera coordinates gets the screen position and one in world coordinates the world position |
| Game.Notified | DanoGameLab/src/danogl/GameManager.java:173-180 | the walk fails exactly when some object has no collider; otherwise the objects notified are, in the walk's order, exactly those whose collider contains the mouse position in their own coordinate space |
| Game.OnMouseAction | DanoGameLab/src/danogl/GameManager.java:169-181 | without a collection the dispatch fails with NullPointer; otherwise the objects notified are the committed objects whose collider contains the mouse position in their own coordinate space, from the top of the drawing order down |
| Game.ReverseMembership | DanoGameLab/src/danogl/GameManager.java:173 | the reverse order visits the same objects |
| Transitions.InterpolatorEndpoints | DanoGameLab/src/danogl/components/Transition.java:57-83 | each of the four built-in interpolators gives the initial value at t = 0 and the final value at t = 1 |
| Transitions.LinearStaysBetween | DanoGameLab/src/danogl/components/Transition.java:57 | for t in [0, 1] the linear interpolator stays between its two ends |
| Transitions.Create | DanoGameLab/src/danogl/components/Transition.java:124-148 | a null object, setter, edge value, interpolator or type is a NullPointer error (the callback may be null); otherwise t starts at 0 moving forwards, the arguments are stored, and the transition is queued as a component of the object |
| Transitions.Clamp01 | DanoGameLab/src/danogl/components/Transition.java:153 | the clamped value lies in [0, 1], equals the input when the input is already there, and is the nearer bound otherwise |
| Transitions.Update | DanoGameLab/src/danogl/components/Transition.java:150-172 | t stays in [0, 1] and the advancement factor stays ±1; the value set is the interpolation at the advanced and clamped t; the callback runs exactly when t reaches 1 and there is a callback; the transition removes itself exactly when a ONCE transition reaches 1; strictly inside (0, 1) t moves there and the factor is kept, at 0 the factor flips, and at 1 ONCE stays, BACK_AND_FORTH stays and turns back, LOOP restarts at 0 with the factor flipped; nothing else changes |
| Transitions.LoopHoldsAtZeroForOneUpdate | DanoGameLab/src/danogl/components/Transition.java:162-171 | a LOOP transition that reaches 1 jumps back to 0 and also flips its factor, so the next update holds it at 0, sets the initial value and flips the factor back |
| Transitions.OnceFinishes | DanoGameLab/src/danogl/components/Transition.java:152-167 | a ONCE transition whose update covers the rest of its time sets the value interpolated at t = 1, runs the callback if there is one, and removes itself |
| Transitions.BackAndForthTurnsAtEnd | DanoGameLab/src/danogl/components/Transition.java:159-161 | a BACK_AND_FORTH transition that reaches 1 stays at 1 and turns back, running the callback if there is one |
| Transitions.BackAndForthTurnsAtStart | DanoGameLab/src/danogl/components/Transition.java:170-171 | a BACK_AND_FORTH transition moving back that reaches 0 stays at 0 and turns forwards, without running the callback |
| ScheduledTasks.Create | DanoGameLab/src/danogl/components/ScheduledTask.java:31-40 | a null object or task is a NullPointer error; otherwise no time has passed and the task is queued as a component of the object |
| ScheduledTasks.Reset | DanoGameLab/src/danogl/components/ScheduledTask.java:46-48 | the elapsed time returns to zero and nothing else changes |
| ScheduledTasks.Update | DanoGameLab/src/danogl/components/ScheduledTask.java:50-61 | the task runs exactly when the elapsed time reaches the wait time; a one-shot task that ran removes itself; a repeating one that ran restarts at zero; otherwise the elapsed time grows by dt |
| ScheduledTasks.Run | DanoGameLab/src/danogl/components/ScheduledTask.java:50-61 | a run over a sequence of frames reports one ran-or-not answer per frame |
| ScheduledTasks.ClockAccumulates | DanoGameLab/src/danogl/components/ScheduledTask.java:50-61 | while the task has not run, the elapsed time is the start plus the sum of the frame times, and that sum has not reached the wait time |
| ScheduledTasks.RepeatingTaskRunsEveryPeriod | DanoGameLab/src/danogl/components/ScheduledTask.java:50-61 | a repeating task whose frames each last exactly the wait time runs in every frame |
| Renderers.Create | DanoGameLab/src/danogl/components/RendererComponent.java:26-29 | a new renderer holds the given renderable, upright, unflipped and opaque |
| Renderers.Update | DanoGameLab/src/danogl/components/RendererComponent.java:31-35 | no renderable, or a still picture, means nothing changes; an animation is updated, and its error is the renderer's error |
| Renderers.SetRenderable | DanoGameLab/src/danogl/components/RendererComponent.java:60-62 | only the renderable changes |
| Renderers.SetRenderableAngle | DanoGameLab/src/danogl/components/RendererComponent.java:80-82 | only the angle changes |
| Renderers.SetIsFlippedHorizontally | DanoGameLab/src/danogl/components/RendererComponent.java:94-98 | only the horizontal flip changes, to the value given |
| Renderers.SetIsFlippedVertically | DanoGameLab/src/danogl/components/RendererComponent.java:110-114 | only the vertical flip changes, to the value given |
| Renderers.SetOpaqueness | DanoGameLab/src/danogl/components/RendererComponent.java:128-131 | the opacity is the given value clamped to [0, 1], and nothing else changes |
| Renderers.SettersKeepValid | DanoGameLab/src/danogl/components/RendererComponent.java:60-131 | every setter and every successful update keeps the opacity in [0, 1] |
| Renderers.Fade | DanoGameLab/src/danogl/components/RendererComponent.java:150-167 | a fade is a ONCE linear transition from the current opacity to the target, lasting the fade time, queued as a component of the object |
| Renderers.FadeIn | DanoGameLab/src/danogl/components/RendererComponent.java:137-155 | fading in is a fade to fully opaque |
| Renderers.FadeOut | DanoGameLab/src/danogl/components/RendererComponent.java:143-167 | fading out is a fade to fully transparent |
| Renderers.FadeSetsOnlyFractions | DanoGameLab/src/danogl/components/RendererComponent.java:128-167 | every value a fade hands to the opacity setter is already in [0, 1], so the setter stores it unclamped |
| Renderers.FadeCompletes | DanoGameLab/src/danogl/components/RendererComponent.java:150-167 | a frame at least as long as the fade time sets the target opacity, removes the fade and runs its callback if there is one |
| Animations.Create | DanoGameLab/src/danogl/gui/rendering/AnimationRenderable.java:23-26 | a new animation shows its first clip from now, and is valid when it has clips |
| Animations.Update | DanoGameLab/src/danogl/gui/rendering/AnimationRenderable.java:45-52 | before the time between clips has passed only the clock advances; after that the clock restarts and the next clip, cyclically, becomes current; with no clips the switch is an Arithmetic error |
| Animations.UpdateKeepsValid | DanoGameLab/src/danogl/gui/rendering/AnimationRenderable.java:45-52 | an animation with clips never fails, stays valid, and either keeps its clip or moves to the next one |
| Animations.ResetAnimation | DanoGameLab/src/danogl/gui/rendering/AnimationRenderable.java:65-68 | a reset animation is the same as a new one |
| Animations.NextIndex | DanoGameLab/src/danogl/gui/rendering/AnimationRenderable.java:50 | the next clip index is a valid index |
| Animations.Advance | DanoGameLab/src/danogl/gui/rendering/AnimationRenderable.java:45-52 | any number of switches keeps the animation valid with the same clips |
| Animations.AdvanceIndex | DanoGameLab/src/danogl/gui/rendering/AnimationRenderable.java:50 | up to one full cycle of switches moves the index forward by that many, wrapping once past the end |
| Animations.AdvanceFromStart | DanoGameLab/src/danogl/gui/rendering/AnimationRenderable.java:50 | from the first clip, fewer switches than there are clips lead to the clip with that index |
| Animations.AdvanceShifted | DanoGameLab/src/danogl/gui/rendering/AnimationRenderable.java:50 | switches that do not reach the end move the index forward by that many |
| Animations.CycleLength | DanoGameLab/src/danogl/gui/rendering/AnimationRenderable.java:50 | as many switches as there are clips bring the animation back to the clip it started on |
| Animations.SwitchIsAdvance | DanoGameLab/src/danogl/gui/rendering/AnimationRenderable.java:45-52 | an update that reaches the time between clips is one switch |
| Cameras.Create | DanoGameLab/src/danogl/gui/rendering/Camera.java:24-27 | a fixed camera is a plain object with the given corner and size, follows nothing and keeps the window size |
| Cameras.CreateFollowing | DanoGameLab/src/danogl/gui/rendering/Camera.java:44-50 | a following camera starts at the origin with the given size, and stores the object, the offset and the window size |
| Cameras.SetToFollow | DanoGameLab/src/danogl/gui/rendering/Camera.java:64-68 | only the followed object and the offset change |
| Cameras.Update | DanoGameLab/src/danogl/gui/rendering/Camera.java:85-90 | the camera is first updated as an object, and its errors propagate; a camera that follows nothing is left at that; a followed object with a null offset is an error; otherwise the camera's centre is the followed object's centre plus the offset, at its own size |
| Cameras.ScreenToWorldCoords | DanoGameLab/src/danogl/gui/rendering/Camera.java:103-110 | the conversion is defined exactly when both window dimensions are non-zero |
| Cameras.WorldToScreenCoords | DanoGameLab/src/danogl/gui/rendering/Camera.java:116-123 | the conversion is defined exactly when both camera dimensions are non-zero |
| Cameras.ScreenWorldRoundTrip | DanoGameLab/src/danogl/gui/rendering/Camera.java:103-123 | with non-zero window and camera sizes, screen-to-world and world-to-screen are inverse to each other, both ways round |
| Cameras.ScreenThenWorld | DanoGameLab/src/danogl/gui/rendering/Camera.java:103-123 | a screen point taken to the world and back is the original point |
| Cameras.WorldThenScreen | DanoGameLab/src/danogl/gui/rendering/Camera.java:103-123 | a world point taken to the screen and back is the original point |
| Counters.Create | DanoGameLab/src/danogl/util/Counter.java:15 | a counter starts at the given 32-bit value |
| Counters.CreateDefault | DanoGameLab/src/danogl/util/Counter.java:17 | the default counter starts at 0 |
| Counters.Increment | DanoGameLab/src/danogl/util/Counter.java:19 | the value goes up by one, wrapping from the largest int to the smallest |
| Counters.Decrement | DanoGameLab/src/danogl/util/Counter.java:21 | the value goes down by one, wrapping from the smallest int to the largest |
| Counters.Reset | DanoGameLab/src/danogl/util/Counter.java:25 | the value returns to 0 |
| Counters.IncreaseBy | DanoGameLab/src/danogl/util/Counter.java:27 | the value becomes the sum, which may decrease it; a sum above the int range wraps down by 2^32 and one below it wraps up by 2^32, as Java int addition does |
| Counters.IncrementDecrementInverse | DanoGameLab/src/danogl/util/Counter.java:19-21 | increment and decrement undo each other, across the wrap-around too |
| Counters.IncreaseByOneIsIncrement | DanoGameLab/src/danogl/util/Counter.java:19-27 | increasing by 1 or by -1 is the same as incrementing or decrementing |
| MouseButtons.ButtonCode | DanoGameLab/src/danogl/gui/mouse/MouseButton.java:12-30 | every button has a code from 1 to 7 |
| MouseButtons.MouseIntToMouseButton | DanoGameLab/src/danogl/gui/mouse/MouseButton.java:12-30 | codes 1 to 7 map to a button (1 left, 2 middle, 3 right) and every other code to null |
| MouseButtons.MappingRoundTrip | DanoGameLab/src/danogl/gui/mouse/MouseButton.java:12-30 | mapping a button's code gives back the button, and a code from 1 to 7 is the code of its button |
| MouseButtons.MappingInjective | DanoGameLab/src/danogl/gui/mouse/MouseButton.java:12-30 | two codes that map to the same button are equal |
| Blocks.Create | src/pepse/world/Block.java:24-29 | a block is a 30×30 object at the given corner, solid from every direction, immovable, with the default collider, tagged "block" and showing the given picture |
| Monsters.UpdateRenderable | src/pepse/world/Monsters/Monster.java:60-66 | the monster shows its left picture exactly when walking left, and nothing else changes |
| Monsters.SetVelocityX | src/pepse/world/Monsters/Monster.java:37 | only the horizontal velocity changes |
| Monsters.Create | src/pepse/world/Monsters/Monster.java:25-46 | a new monster falls under gravity 500, is solid from every direction, starts in the air, walks right or left at 200 as the coin says and faces that way, and has a repeating jump timer queued |
| Monsters.Jump | src/pepse/world/Monsters/Monster.java:38-44 | a monster on the ground jumps with upward speed 300 and is then in the air; one already in the air keeps its transform; either way a one-shot 0.3 s timer is started and the picture is unchanged |
| Monsters.RestoreWalk | src/pepse/world/Monsters/Monster.java:43 | the horizontal velocity becomes the walking speed again, and the invariant is kept |
| Monsters.OnCollisionEnter | src/pepse/world/Monsters/Monster.java:48-58 | a trunk reverses the walking direction and velocity and swaps the picture; terrain grounds the monster; any other tag changes nothing |
| Monsters.TwoTrunksRestoreDirection | src/pepse/world/Monsters/Monster.java:48-55 | two trunks in a row restore the original direction and picture |
| Monsters.JumpsOnlyFromGround | src/pepse/world/Monsters/Monster.java:38-57 | after landing on terrain the timer makes the monster jump; a second firing while it is in the air does not |
| Avatars.Create | src/pepse/world/Avatar.java:78-114 | a new avatar is 100×100 at the given corner, falls under gravity 500, is solid from every direction, has full energy (100), starts walking right, with the energy flag set, no wind and no picture yet |
| Avatars.Turn | src/pepse/world/Avatar.java:126-137 | turning keeps the kind of state (jump, flight or walk) and points it the requested way |
| Avatars.Steer | src/pepse/world/Avatar.java:126-137 | RIGHT wins over LEFT; with neither held the state is unchanged; the kind of state is kept |
| Avatars.SetVelocity | src/pepse/world/Avatar.java:167 | only the velocity changes |
| Avatars.ApplyKeys | src/pepse/world/Avatar.java:126-152 | LEFT and RIGHT set the horizontal speed to ∓250 with RIGHT winning; no key at all stops horizontal motion; SPACE+SHIFT with energy flies up at 250, keeping a flight's direction or starting a straight one; otherwise a flight ends in a jump to the left or right; SPACE while walking jumps at 420; a jump is only steered |
| Avatars.ApplyWind | src/pepse/world/Avatar.java:327-334 | the wind is a back-and-forth linear transition of the angle from -30° to 30° over one second, with no callback, queued as a component and remembered |
| Avatars.ManageFreeFall | src/pepse/world/Avatar.java:160-169 | falling faster than 440 caps the fall at 400 and starts the wind if it is not already blowing; slower falls change nothing; energy, state and physics are untouched |
| Avatars.UpdateEnergy | src/pepse/world/Avatar.java:174-189 | the energy flag flips; on updates where it becomes set, flight costs one unit, walking below 100 restores one, and energy above 100 is brought back to 100; energy stays in range |
| Avatars.UpdateRenderable | src/pepse/world/Avatar.java:194-205 | walking or jumping right shows the right walk, left the left walk, each flight state its own flight picture, and a straight jump keeps the current picture |
| Avatars.Prepared | src/pepse/world/Avatar.java:123-125 | the first part of an update is the object's own update followed by free-fall management, and fails exactly when the object's update fails |
| Avatars.Update | src/pepse/world/Avatar.java:122-155 | an update fails exactly when the object's update fails; it keeps the invariant and flips the energy flag; energy only drops by one while flying and only rises by one while walking; flight needs SPACE, SHIFT and energy |
| Avatars.UpdateStages | src/pepse/world/Avatar.java:122-155 | an update is the preparation, then the keys, then the energy, then the picture, in that order |
| Avatars.EnergyChangesEverySecondUpdate | src/pepse/world/Avatar.java:174-189 | of two updates in a row, at most one changes the energy |
| Avatars.RestingRestoresEnergy | src/pepse/world/Avatar.java:174-189 | a walking avatar with no keys held regains one unit of energy on an energy update and keeps its state |
| Avatars.FlyingDrainsEnergy | src/pepse/world/Avatar.java:138-141 | holding SPACE and SHIFT with energy left keeps the avatar flying and costs one unit on an energy update |
| Avatars.FallIsCapped | src/pepse/world/Avatar.java:160-169 | without SPACE, a fall faster than 440 ends the update at exactly 400 |
| Avatars.ParachuteOpensOnce | src/pepse/world/Avatar.java:162-166 | the wind starts once per fall: a second fast-falling frame does not start another |
| Avatars.OnCollisionEnter | src/pepse/world/Avatar.java:242-253 | any collision makes the avatar walk, facing left after a left-facing state and right otherwise; anything but a leaf also schedules the stop of the wind 0.01 s later |
| Avatars.StopRotating | src/pepse/world/Avatar.java:258-264 | stopping the wind removes the transition and sets the angle back to 0; with no wind nothing changes |
| Avatars.LandingRearmsParachute | src/pepse/world/Avatar.java:243-264 | after landing and stopping the wind the avatar walks, and the next fast fall starts the wind again |
| Terrains.Create | src/pepse/world/Terrain.java:43-50 | the ground height at x = 0 is the window height truncated to an int, times 0.666, truncated again; for a window height within int range it lies between 0 and that height |
| Terrains.RatioBelowOne | src/pepse/world/Terrain.java:48 | taking 0.666 of a non-negative int and truncating gives a value between 0 and that int |
| Terrains.ColumnOf | src/pepse/world/Terrain.java:62 | the column index of an x is a 32-bit int (Java's truncating cast) |
| Terrains.ColumnHeight | src/pepse/world/Terrain.java:60-66 | a column's height is a whole multiple of the block size, at most one block less than the raw noisy height and not greater than it |
| Terrains.GroundHeightAt | src/pepse/world/Terrain.java:57-67 | the ground height at x is a whole multiple of the block size, within one block of the raw height of x's column and not greater than it |
| Terrains.StripHasColumnHeight | src/pepse/world/Terrain.java:57-67 | every x inside a block-wide strip at or right of 0 has the same ground height as the strip's left edge |
| Terrains.ColumnOfNonNegative | src/pepse/world/Terrain.java:62 | an x inside the k-th block-wide strip right of 0 is in column k |
| Terrains.ColumnAroundZeroIsDoubleWidth | src/pepse/world/Terrain.java:62 | because the cast truncates toward zero, every x strictly between -30 and 30 is in column 0, so column 0 is two blocks wide |
| Terrains.BlockAt | src/pepse/world/Terrain.java:78-85 | block i of a column is tagged "terrain", lies i blocks below the ground height at that x, and goes to the ground layer for the top two blocks and to the bottom terrain layer below them |
| Terrains.ColumnCount | src/pepse/world/Terrain.java:75 | the number of columns is the number of block-size steps from minX that stay below maxX |
| Terrains.ColumnsAreExactlyTheSteps | src/pepse/world/Terrain.java:75 | step c from minX is below maxX exactly when c is less than the column count |
| Terrains.CreateInRange | src/pepse/world/Terrain.java:74-87 | the blocks created are 20 per column, in column order and top to bottom within a column, each exactly the block for its column and depth |
| Terrains.StackColumn | src/pepse/world/Terrain.java:76-85 | a column holds 20 blocks, block i being the block at depth i |
| Terrains.CreatedBlocksInRange | src/pepse/world/Terrain.java:74-87 | every created block is tagged "terrain" and starts at an x in [minX, maxX) |
| PepseGame.InitialEnds | src/pepse/PepseGameManager.java:107-108 | the world starts at minus one window width and ends at two window widths, each truncated to an int |
| PepseGame.InitialSpanIsThreeScreens | src/pepse/PepseGameManager.java:107-108 | for a whole window width w the ends are exactly -w and 2w, three screens apart |
| PepseGame.StripRange | src/pepse/PepseGameManager.java:208-217 | the new strip spans one window width beyond the right end when growing right, and one window width before the left end when growing left |
| PepseGame.Shift | src/pepse/PepseGameManager.java:191-192 | growing right moves both ends one window width right, and growing left moves both ends one window width left |
| PepseGame.ShiftKeepsSpan | src/pepse/PepseGameManager.java:188-200 | for a whole window width a shift keeps the world three screens wide, and the new strip fills exactly the gap between the old end and the new one |
| PepseGame.Recentre | src/pepse/PepseGameManager.java:188-200 | the right check comes first, against the old ends, and the left check second, against the ends as the right check left them; each check that fires records one step and shifts the ends; at most two steps happen |
| PepseGame.RecentreTowardsAvatar | src/pepse/PepseGameManager.java:188-200 | with the avatar in the middle screen nothing happens; in every case the world stays three screens wide |
| PepseGame.RemoveDoomed | src/pepse/PepseGameManager.java:227-235 | walking the committed objects of one layer removes exactly the doomed ones from it; other objects and other layers are untouched, and the committed list stays the same because removals are deferred |
| PepseGame.DeleteObjectsInLayer | src/pepse/PepseGameManager.java:227-236 | a missing layer throws NoSuchElementException; otherwise every committed object of the layer whose corner is past the clearing line is removed from it |
| PepseGame.RemoveDoomedFacts | src/pepse/PepseGameManager.java:227-236 | clearing one layer only removes objects, and only in that layer, and leaves every doomed object of it absent |
| PepseGame.DeleteInLayers | src/pepse/PepseGameManager.java:241-247 | clearing layers in turn succeeds exactly when all of them exist; it only removes objects from those layers and removes every doomed one |
| PepseGame.DeleteWorld | src/pepse/PepseGameManager.java:241-247 | clearing the five world layers (both terrain layers, trunks, leaves, monsters) succeeds exactly when all five exist; it removes every doomed object of them and nothing else |
| PepseGame.FirstFreeColumn | src/pepse/PepseGameManager.java:133-134 | the monster column is the first grid x, counted in 30-pixel steps, without a tree and below end - 90; every earlier candidate has a tree; there is none when all candidates have trees |
| PepseGame.MonsterSpot | src/pepse/PepseGameManager.java:132-141 | a monster is placed exactly when a free column exists from start + 30, at that x and at the ground height there truncated to an int |
| PepseGame.MonsterInsideStrip | src/pepse/PepseGameManager.java:133 | a placed monster lies at least one block right of the strip start and left of end - 90 |
| PepseGame.CreateWorld | src/pepse/PepseGameManager.java:208-222 | a new strip holds the terrain blocks of its range, 20 per column and in column order, the tree range three blocks in from each edge, and the monster placement of its range |
| PepseGame.SliceStarts | src/pepse/PepseGameManager.java:124-126 | the slice starts are start, start + jumps, and so on, every one below end; the next one would reach end |
| PepseGame.InitialMonsters | src/pepse/PepseGameManager.java:124-127 | one monster placement per window-wide slice of the initial world, each computed within its own slice |
| PepseGame.CollideAll | DanoGameLab/src/danogl/collisions/LayerManager.java:85-96 | applying shouldLayersCollide(a, b, true) to a list of pairs succeeds exactly when every layer named exists; the result makes collide exactly what collided before plus the listed pairs, in either order |
| PepseGame.ApplyLayersCollisions | src/pepse/PepseGameManager.java:146-153 | when all six named layers exist, the game adds exactly its six colliding pairs, in either order, to what already collided; otherwise NoSuchElementException |
| PepseGame.AvatarCollisions | src/pepse/PepseGameManager.java:148-150 | the avatar collides with trunks and monsters, but not with leaves, and leaves do not collide with trunks |
| PepseGame.AvatarStart | src/pepse/PepseGameManager.java:253-255 | the avatar starts at half the window width, 90 pixels above the ground there, so it is never below the raw terrain height |
| PepseGame.CreateStrips | src/pepse/PepseGameManager.java:188-200 | every recentring step builds the strip for its side, computed from the ends before that step, with its monster placement and 20 blocks per column |
| PepseGame.ClearWorld | src/pepse/PepseGameManager.java:188-200 | the clearing of each step succeeds exactly when there are no steps or all five world layers exist; it only removes objects of those layers, and every object a step dooms, judged against the ends before that step, is gone |
| PepseGame.UpdateWorld | src/pepse/PepseGameManager.java:181-201 | after the engine frame, the ends move as the recentring says, one strip is built per step, and the objects each step dooms are removed, with nothing else in the collection changed |

## Left out

Parts of the source that are not modelled:

- Window, loop timing, input listeners, sound, image reading and every
  `render` method. These are Swing/AWT, file and audio calls. Key and mouse
  state enter the model as parameters.
- `NoiseGenerator`, `Tree`, `Leaf`, `MonsterFactory` and `java.util.Random`.
  Their outputs are parameters: the noise function, the tree-placement
  predicate, the monster's starting side and its jump wait.
- `Sun`, `SunHalo`, `Night`, `Sky`, `Cloud`, `NumericEnergyCounter` and
  `FPSCounter`. They are visual only, and `Sun.circleCenter` is a global
  that `PepseGameManager.update` writes but nothing in this model reads.
- `PepseGameManager.initializeGame` is modelled only through its world
  ends, its monster slices, its layer collisions and the avatar's starting
  point. The `Terrain`, `Tree` and `Avatar` objects it creates are modelled
  by their own modules.
- The engine's frame (`Game.Update`) and the world-keeping part of
  `PepseGameManager.update` (`PepseGame.UpdateWorld`) are separate members.
  The camera and energy-counter placement in `update` is not modelled.
- The blocks made by `Terrain.createInRange` and the strips made by
  `createWorld` are returned as values. They are not pushed into a
  `GameObjectCollection`, because the additions are deferred and nothing in
  the same update reads them.
- Inside `PepseGame.UpdateWorld`, creating before deleting is not
  observable. The new objects are only pending and the clearing walks
  committed objects, so the model builds the strips and then clears.
- Each terrain block's colour (`ColorSupplier.approximateColor`) is random
  and only affects rendering.
- Avatar: adding and removing the parachute `GameObject` to the
  collection, and the animations' clip images. Only the avatar's own
  parachute state is modelled. The `MASS` constant is declared but never
  used in the source.
- `Vector2.rotated`, `magnitude`, `hashCode` and `toString`. These are
  trigonometry, square roots and float formatting. `Rectangle2D`'s own
  code is replaced by the `Geometry` module's rectangle overlap, which is
  strict and requires positive area.
- IEEE float rounding, infinities and NaN. Reals are exact.
- Terrains.CreateInRange: Java's loop counter is a 32-bit `int`
  (`src/pepse/world/Terrain.java:75`). When `maxX` is within
  30 of `Integer.MAX_VALUE`, `curX += Block.SIZE` wraps to a negative value
  and the loop never ends. The model's counter is unbounded, so it always
  stops.
- Shared scratch vectors (`freeCalculationsVector`, `calcVec`) and
  iterator reuse. Only the values they return are modelled.
- The effects of user-overridden callbacks. The defaults do nothing, and
  the model records that each callback was invoked and in which order.
- The AABB change fingerprint is an abstract function. Two different
  positions with equal Java hash codes are therefore not modelled as a
  separate case: the model keeps the stale intersection exactly when the
  fingerprint function says nothing changed, as the code does.

Contracts that require more than the Java code does:

- Resolver.Resolve: requires masses whose weights are defined (the sum
  nonzero, or equal masses). With `m1 + m2 == 0` Java divides by zero and
  produces NaN weights.
- Resolver.Weights: the same requirement as `Resolve`.
- Collection.HandlePair: requires defined weights for every pair of
  objects, as `Resolve` does.
- Collection.HandleAll: the same requirement as `HandlePair`.
- Collection.HandleCollisions: the same requirement as `HandlePair`.
- Game.Update: requires the objects to be ready for the collision pass,
  with defined masses, as `Resolve` does.
- Transitions.Create: requires a positive transition time. With zero,
  Java's update divides by zero.
- Renderers.Fade: requires a positive fade time, for the same reason.
- Renderers.FadeIn: requires a positive fade time.
- Renderers.FadeOut: requires a positive fade time.
- Vectors.ZeroedAlongNormal: requires a nonzero normal. With a zero
  normal, Java divides by a zero magnitude and returns NaN coordinates.
- Vectors.Normalized: takes the magnitude as an argument satisfying the
  square-root property, instead of computing it.
- Vectors.Flipped: takes the normal's magnitude as an argument.
- Vectors.RotatedToNearestAxis: takes the magnitude as an argument.
- MutableVectors.SelfNormalize: takes the magnitude as an argument.
- Counters.Create: requires a 32-bit initial value, which is what Java's
  `int` parameter guarantees.
- Counters.IncreaseBy: requires a 32-bit argument, which is what Java's
  `int` parameter guarantees.
- PepseGame.SliceStarts: requires a positive step. With a zero window
  width, Java's `initialMonstersCreator` loop never ends.
- PepseGame.InitialMonsters: requires a positive step, as `SliceStarts`
  does.
- GameObjects.WorldToObjectCoords: returns `None` for a zero dimension,
  where Java divides by zero.
- Cameras.ScreenToWorldCoords: returns `None` for zero window dimensions,
  where Java divides by zero.
- Cameras.WorldToScreenCoords: returns `None` for zero camera dimensions,
  where Java divides by zero.

Members that follow the corrected pair lookup of the "Findings" table
rather than the code as written:

- Collection.HandlePair: finds a cached pair in either order (`Pairs.Find`).
  Java's `HashMap` lookup
  (`DanoGameLab/src/danogl/collisions/GameObjectCollection.java:164`)
  misses a pair cached the other way round. With (a, b) cached and (b, a)
  enumerated, Java caches a second entry and fires `onCollisionEnter`
  again, where the model fires `onCollisionStay`. On such a hit the model
  also gives each object its own view of the cached data (`ViewOf`) and
  resolves in the cached entry's order. Java hands the enumerated first
  object view 0 in both places (lines 176-180). The lookup as written is
  `Pairs.FindAsWritten`.
- Collection.HandleAll: inherits the corrected lookup from `HandlePair`.
- Collection.HandleCollisions: inherits the corrected lookup from
  `HandlePair`.
- Game.FlushAndCollide: inherits the corrected lookup through its
  collision pass.
- Game.Update: inherits the corrected lookup through its collision pass.

Members that compute an uncached pair's collision data with the AABB
handler rather than the collection's handler registry:

- Collection.HandleNew: asks the AABB handler (`AABB.ComputeCollisionData`)
  directly. Java asks the collection's `PairCollisionManager`
  (`DanoGameLab/src/danogl/collisions/GameObjectCollection.java:184`). That
  registry starts with the AABB handler alone and grows only through
  `registerPairCollisionHandler` (lines 99-102). With the default
  registration the two give the same answer
  (`PairManager.DefaultRegistryIsAABB`). Handlers registered through the
  collection are modelled by `PairManager` but never consulted here.
- Collection.HandlePair: inherits this from `HandleNew`.
- Collection.HandleAll: inherits this from `HandleNew`.
- Collection.HandleCollisions: inherits this from `HandleNew`.
- Game.FlushAndCollide: inherits this through its collision pass.
- Game.Update: inherits this through its collision pass.

Members whose result differs from Java's by a positive scale:

- AABB.GetNormal: returns the centre difference itself, where Java
  normalises it before handing it out
  (`DanoGameLab/src/danogl/collisions/AABB/AABBCollision.java:41`). The
  model does not promise a unit vector. Dividing by a positive magnitude
  keeps every sign the resolver tests
  (`AABBNormals.NormalizationKeepsSigns`).

## Findings

| source | as written | input that shows it | evidently intended | confidence | as-written member | corrected member |
|---|---|---|---|---|---|---|
| DanoGameLab/src/danogl/collisions/GameObjectPair.java:23-26 | `equals` treats (a, b) and (b, a) as the same pair, but `hashCode` is `Objects.hash(go1, go2)`, which depends on order. So the cache `HashMap` in `GameObjectCollection.handlePair` (line 164) misses a cached pair presented the other way round. | Objects with identity hashes 1 and 2: (a, b) hashes to 994 and (b, a) to 1024. With (a, b) cached, looking up (b, a) finds nothing, so a second entry is created, `onCollisionEnter` fires again, and the old entry never gets its exit. The enumeration order flips when a draw-order change re-sorts two colliding layers. | the lookup finds the cached pair in either order, as `equals` promises | medium; not executed | Pairs.FindAsWritten, Pairs.SwappedLookupMisses, Pairs.SwappedPairsHashDifferently | Pairs.Find, Pairs.FindIgnoresOrder, Collection.EventsFollowCache |

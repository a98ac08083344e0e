/**
 * Object references and danogl.collisions.GameObjectPair: two slots, equality
 * by reference in either order, and a hash code that depends on slot order.
 * The collision cache is a `java.util.HashMap` keyed by such pairs; its
 * lookup compares hash codes before calling `equals`.
 */
module Pairs {
  import opened Wrappers

  /**
   * A reference to a game object. Datatype equality stands for Java's `==`
   * on references; `identityHash` is the object's `Object.hashCode()`.
   */
  datatype ObjRef = ObjRef(serial: nat, identityHash: int)

  /** A pair's two slots; a fresh `GameObjectPair` holds two nulls. */
  datatype Pair = Pair(go1: Option<ObjRef>, go2: Option<ObjRef>)

  function NewPair(): (p: Pair)
    ensures p.go1.None? && p.go2.None?
  {
    Pair(None, None)
  }

  /** `equals`: the same two references, in the same or the opposite order. */
  predicate PairEquals(p: Pair, q: Pair) {
    (p.go1 == q.go1 && p.go2 == q.go2) || (p.go1 == q.go2 && p.go2 == q.go1)
  }

  /** Pair equality is equality of the slots' contents as a multiset. */
  lemma PairEqualsIsMultisetEquality(p: Pair, q: Pair)
    ensures PairEquals(p, q) <==> multiset{p.go1, p.go2} == multiset{q.go1, q.go2}
  {
    var mp, mq := multiset{p.go1, p.go2}, multiset{q.go1, q.go2};
    if mp == mq {
      assert mp[p.go1] == mq[p.go1];
      if p.go1 == q.go1 {
        assert mp - multiset{p.go1} == multiset{p.go2};
        assert mq - multiset{q.go1} == multiset{q.go2};
      } else {
        assert p.go1 == q.go2;
        assert mp - multiset{p.go1} == multiset{p.go2};
        assert mq - multiset{q.go2} == multiset{q.go1};
      }
    }
  }

  /** Pair equality is an equivalence relation. */
  lemma PairEqualsIsEquivalence(p: Pair, q: Pair, r: Pair)
    ensures PairEquals(p, p)
    ensures PairEquals(p, q) ==> PairEquals(q, p)
    ensures PairEquals(p, q) && PairEquals(q, r) ==> PairEquals(p, r)
  {
  }

  /** `Objects.hashCode` of a slot: 0 for null, the identity hash otherwise. */
  function SlotHash(o: Option<ObjRef>): int {
    match o
    case None => 0
    case Some(r) => r.identityHash
  }

  /** `hashCode`: `Objects.hash(go1, go2)`, i.e. 31·(31·1 + h1) + h2 in 32-bit arithmetic. */
  function HashCode(p: Pair): (h: int)
    ensures IsInt32(h)
  {
    Wrap32(31 * Wrap32(31 * 1 + SlotHash(p.go1)) + SlotHash(p.go2))
  }

  /** Without overflow the hash is 961 + 31·h1 + h2, so it weighs the two slots differently. */
  lemma HashCodeWithoutOverflow(p: Pair)
    requires -0x100_0000 <= SlotHash(p.go1) < 0x100_0000 && -0x100_0000 <= SlotHash(p.go2) < 0x100_0000
    ensures HashCode(p) == 961 + 31 * SlotHash(p.go1) + SlotHash(p.go2)
  {
    Wrap32Identity(31 + SlotHash(p.go1));
    Wrap32Identity(31 * (31 + SlotHash(p.go1)) + SlotHash(p.go2));
  }

  /**
   * The hash code breaks Java's equals/hashCode contract: a pair and its
   * swap are equal but, for objects with identity hashes 1 and 2, hash to
   * 994 and 1024.
   */
  lemma SwappedPairsHashDifferently()
    ensures var a, b := ObjRef(0, 1), ObjRef(1, 2);
            PairEquals(Pair(Some(a), Some(b)), Pair(Some(b), Some(a)))
            && HashCode(Pair(Some(a), Some(b))) == 994
            && HashCode(Pair(Some(b), Some(a))) == 1024
  {
  }

  /** `getGameObject`: slot 0 or 1, IndexOutOfBoundsException for any other index. */
  function GetGameObject(p: Pair, index: int): (r: Result<Option<ObjRef>>)
    ensures index == 0 ==> r == Ok(p.go1)
    ensures index == 1 ==> r == Ok(p.go2)
    ensures index != 0 && index != 1 ==> r == Err(IndexOutOfBounds)
  {
    if index == 0 then Ok(p.go1)
    else if index == 1 then Ok(p.go2)
    else Err(IndexOutOfBounds)
  }

  /** `setGameObject`: slot 0 or 1, IndexOutOfBoundsException for any other index. */
  function SetGameObject(p: Pair, index: int, go: Option<ObjRef>): (r: Result<Pair>)
    ensures index != 0 && index != 1 ==> r == Err(IndexOutOfBounds)
    ensures index == 0 ==> r == Ok(p.(go1 := go))
    ensures index == 1 ==> r == Ok(p.(go2 := go))
  {
    if index == 0 then Ok(p.(go1 := go))
    else if index == 1 then Ok(p.(go2 := go))
    else Err(IndexOutOfBounds)
  }

  /** A set slot reads back what was set; the other slot is untouched. */
  lemma SetThenGet(p: Pair, index: int, go: Option<ObjRef>)
    requires index == 0 || index == 1
    ensures SetGameObject(p, index, go).Ok?
    ensures GetGameObject(SetGameObject(p, index, go).value, index) == Ok(go)
    ensures GetGameObject(SetGameObject(p, index, go).value, 1 - index) == GetGameObject(p, 1 - index)
  {
  }

  /** The `PairCollisionData` constructor: `go1` into slot 0, then `go2` into slot 1. */
  function PairOf(go1: ObjRef, go2: ObjRef): (p: Pair)
    ensures GetGameObject(p, 0) == Ok(Some(go1)) && GetGameObject(p, 1) == Ok(Some(go2))
  {
    var p0 := SetGameObject(NewPair(), 0, Some(go1)).value;
    SetGameObject(p0, 1, Some(go2)).value
  }

  /** `getCollision`: the first side's view for 0, the second's for 1, IndexOutOfBoundsException otherwise. */
  function GetCollision<C>(collision1: C, collision2: C, index: int): (r: Result<C>)
    ensures index == 0 ==> r == Ok(collision1)
    ensures index == 1 ==> r == Ok(collision2)
    ensures index != 0 && index != 1 ==> r == Err(IndexOutOfBounds)
  {
    if index == 0 then Ok(collision1)
    else if index == 1 then Ok(collision2)
    else Err(IndexOutOfBounds)
  }

  /** One cache entry: the key pair and the collision data stored under it. */
  datatype Entry<D> = Entry(key: Pair, value: D)

  /**
   * `HashMap.get` as the code relies on it: the first entry whose key has the
   * query's hash code and equals the query.
   */
  function FindAsWritten<D>(cache: seq<Entry<D>>, q: Pair): (r: Option<nat>)
    ensures r.Some? ==> r.value < |cache| && PairEquals(q, cache[r.value].key)
                        && HashCode(cache[r.value].key) == HashCode(q)
    ensures r.None? ==> forall i :: 0 <= i < |cache| ==>
                          !(PairEquals(q, cache[i].key) && HashCode(cache[i].key) == HashCode(q))
  {
    if cache == [] then None
    else if HashCode(cache[0].key) == HashCode(q) && PairEquals(q, cache[0].key) then Some(0)
    else
      match FindAsWritten(cache[1..], q)
      case None => None
      case Some(i) => Some(i + 1)
  }

  /** The lookup the cache is meant to perform: the first entry whose key equals the query. */
  function Find<D>(cache: seq<Entry<D>>, q: Pair): (r: Option<nat>)
    ensures r.Some? ==> r.value < |cache| && PairEquals(q, cache[r.value].key)
    ensures r.Some? ==> forall i :: 0 <= i < r.value ==> !PairEquals(q, cache[i].key)
    ensures r.None? ==> forall i :: 0 <= i < |cache| ==> !PairEquals(q, cache[i].key)
  {
    if cache == [] then None
    else if PairEquals(q, cache[0].key) then Some(0)
    else
      match Find(cache[1..], q)
      case None => None
      case Some(i) => Some(i + 1)
  }

  function Swap(p: Pair): (r: Pair)
    ensures PairEquals(p, r) && r.go1 == p.go2 && r.go2 == p.go1
  {
    Pair(p.go2, p.go1)
  }

  /** The intended lookup does not depend on the order in which the pair is presented. */
  lemma FindIgnoresOrder<D>(cache: seq<Entry<D>>, q: Pair)
    ensures Find(cache, q) == Find(cache, Swap(q))
  {
    var r1, r2 := Find(cache, q), Find(cache, Swap(q));
    if r1.Some? && r2.Some? {
      if r1.value < r2.value {
        assert PairEquals(Swap(q), cache[r1.value].key);
      } else if r2.value < r1.value {
        assert PairEquals(q, cache[r2.value].key);
      }
    } else if r1.Some? {
      assert PairEquals(Swap(q), cache[r1.value].key);
    } else if r2.Some? {
      assert PairEquals(q, cache[r2.value].key);
    }
  }

  /**
   * The as-written lookup misses: with the pair (a, b) cached, presenting
   * (b, a) finds nothing, though the intended lookup finds the entry.
   */
  lemma SwappedLookupMisses<D>(d: D)
    ensures var a, b := ObjRef(0, 1), ObjRef(1, 2);
            var cache := [Entry(Pair(Some(a), Some(b)), d)];
            FindAsWritten(cache, Pair(Some(b), Some(a))).None?
            && Find(cache, Pair(Some(b), Some(a))) == Some(0)
  {
    var a, b := ObjRef(0, 1), ObjRef(1, 2);
    var cache := [Entry(Pair(Some(a), Some(b)), d)];
    SwappedPairsHashDifferently();
    assert cache[1..] == [];
  }

  /** When both find something, the two lookups agree (the as-written one may only miss more). */
  lemma {:induction false} FindAsWrittenRefinesFind<D>(cache: seq<Entry<D>>, q: Pair)
    requires forall i, j :: 0 <= i < j < |cache| ==> !PairEquals(cache[i].key, cache[j].key)
    ensures FindAsWritten(cache, q).Some? ==> FindAsWritten(cache, q) == Find(cache, q)
  {
    if cache != [] && !(HashCode(cache[0].key) == HashCode(q) && PairEquals(q, cache[0].key)) {
      FindAsWrittenRefinesFind(cache[1..], q);
      if FindAsWritten(cache, q).Some? && PairEquals(q, cache[0].key) {
        var i := FindAsWritten(cache, q).value;
        assert PairEquals(cache[0].key, cache[i].key);
      }
    }
  }

  /** No two entries have equal keys: what a map keyed by pairs should hold. */
  predicate KeysUnique<D>(cache: seq<Entry<D>>) {
    forall i, j :: 0 <= i < j < |cache| ==> !PairEquals(cache[i].key, cache[j].key)
  }

  /** Replacing an entry's value, key kept, leaves every lookup where it was. */
  lemma FindAfterUpdate<D>(cache: seq<Entry<D>>, i: nat, v: D, q: Pair)
    requires i < |cache|
    ensures Find(cache[i := Entry(cache[i].key, v)], q) == Find(cache, q)
  {
    var c' := cache[i := Entry(cache[i].key, v)];
    assert forall k :: 0 <= k < |cache| ==> c'[k].key == cache[k].key;
  }

  /** Other entries survive an update or a removal at `i`. */
  lemma OthersSurvive<D>(cache: seq<Entry<D>>, i: nat, v: D, e: Entry<D>)
    requires i < |cache| && e.key != cache[i].key
    ensures e in cache <==> e in cache[i := Entry(cache[i].key, v)]
    ensures e in cache <==> e in cache[..i] + cache[i + 1..]
  {
    var c1, c2 := cache[i := Entry(cache[i].key, v)], cache[..i] + cache[i + 1..];
    if e in cache {
      var k :| 0 <= k < |cache| && cache[k] == e;
      assert c1[k] == e;
      assert c2[if k < i then k else k - 1] == e;
    }
    if e in c1 {
      var k :| 0 <= k < |c1| && c1[k] == e;
      assert cache[k] == e;
    }
    if e in c2 {
      var k :| 0 <= k < |c2| && c2[k] == e;
      assert cache[if k < i then k else k + 1] == e;
    }
  }

  /** An entry appended for a key not yet present is where the lookup finds that key. */
  lemma FindAfterAppend<D>(cache: seq<Entry<D>>, e: Entry<D>, q: Pair)
    requires Find(cache, q).None? && PairEquals(q, e.key)
    ensures Find(cache + [e], q) == Some(|cache|)
  {
    var c' := cache + [e];
    assert c'[|cache|] == e;
  }

  /** With unique keys, removing the entry found leaves nothing equal to the query. */
  lemma FindAfterRemove<D>(cache: seq<Entry<D>>, i: nat, q: Pair)
    requires KeysUnique(cache) && Find(cache, q) == Some(i)
    ensures Find(cache[..i] + cache[i + 1..], q).None?
  {
    var c' := cache[..i] + cache[i + 1..];
    forall k | 0 <= k < |c'| ensures !PairEquals(q, c'[k].key) {
      if k < i {
        assert c'[k] == cache[k];
      } else {
        assert c'[k] == cache[k + 1];
        assert !PairEquals(cache[i].key, cache[k + 1].key);
      }
    }
  }

  /** Removing an entry or replacing a value keeps the keys unique. */
  lemma KeysUniqueSteps<D>(cache: seq<Entry<D>>, i: nat, v: D)
    requires KeysUnique(cache) && i < |cache|
    ensures KeysUnique(cache[..i] + cache[i + 1..])
    ensures KeysUnique(cache[i := Entry(cache[i].key, v)])
  {
    var c' := cache[..i] + cache[i + 1..];
    forall a, b | 0 <= a < b < |c'| ensures !PairEquals(c'[a].key, c'[b].key) {
      var a', b' := if a < i then a else a + 1, if b < i then b else b + 1;
      assert c'[a] == cache[a'] && c'[b] == cache[b'];
    }
  }

  /** Appending an entry whose key is absent keeps the keys unique. */
  lemma KeysUniqueAppend<D>(cache: seq<Entry<D>>, e: Entry<D>)
    requires Find(cache, e.key).None?
    ensures KeysUnique(cache) ==> KeysUnique(cache + [e])
  {
    if KeysUnique(cache) {
      var c2 := cache + [e];
      forall a, b | 0 <= a < b < |c2| ensures !PairEquals(c2[a].key, c2[b].key) {
        if b == |cache| {
          assert c2[b] == e && c2[a] == cache[a];
          PairEqualsIsEquivalence(c2[a].key, e.key, e.key);
        } else {
          assert c2[a] == cache[a] && c2[b] == cache[b];
        }
      }
    }
  }
}

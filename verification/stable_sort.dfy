/**
 * The stable sort `Stream.sorted(Comparator.comparing(key))` performs on an
 * ordered stream: ascending by an integer key, elements with equal keys kept
 * in their original relative order. Written as an insertion sort from the back.
 */
module StableSort {

  predicate SortedBy<T>(s: seq<T>, key: T -> int) {
    forall i, j :: 0 <= i < j < |s| ==> key(s[i]) <= key(s[j])
  }

  /** The subsequence of elements whose key is `k`, in order. */
  function WithKey<T>(s: seq<T>, key: T -> int, k: int): (r: seq<T>)
    ensures |r| <= |s|
  {
    if s == [] then []
    else (if key(s[0]) == k then [s[0]] else []) + WithKey(s[1..], key, k)
  }

  lemma {:induction false} WithKeyAppend<T>(a: seq<T>, b: seq<T>, key: T -> int, k: int)
    ensures WithKey(a + b, key, k) == WithKey(a, key, k) + WithKey(b, key, k)
  {
    if a == [] {
      assert a + b == b;
    } else {
      var h := if key(a[0]) == k then [a[0]] else [];
      assert (a + b)[0] == a[0] && (a + b)[1..] == a[1..] + b;
      assert WithKey(a + b, key, k) == h + WithKey(a[1..] + b, key, k);
      WithKeyAppend(a[1..], b, key, k);
      assert WithKey(a, key, k) == h + WithKey(a[1..], key, k);
    }
  }

  /** Place `x` after every element of the sorted `s` whose key does not exceed its own. */
  function Insert<T>(s: seq<T>, x: T, key: T -> int): (r: seq<T>)
    requires SortedBy(s, key)
    ensures SortedBy(r, key)
    ensures multiset(r) == multiset(s) + multiset{x}
    ensures |r| == |s| + 1
  {
    if s == [] || key(s[|s| - 1]) <= key(x) then s + [x]
    else
      var init, last := s[..|s| - 1], s[|s| - 1];
      assert s == init + [last];
      var t := Insert(init, x, key);
      AppendLargest(init, x, last, t, key);
      t + [last]
  }

  /** Appending an element whose key bounds those of `init` and `x` to a sorted arrangement of them keeps it sorted. */
  lemma AppendLargest<T>(init: seq<T>, x: T, last: T, t: seq<T>, key: T -> int)
    requires SortedBy(t, key) && multiset(t) == multiset(init) + multiset{x}
    requires forall i :: 0 <= i < |init| ==> key(init[i]) <= key(last)
    requires key(x) <= key(last)
    ensures SortedBy(t + [last], key)
  {
    forall i | 0 <= i < |t|
      ensures key(t[i]) <= key(last)
    {
      assert t[i] in multiset(t);
      if t[i] != x {
        assert t[i] in multiset(init);
        var j :| 0 <= j < |init| && init[j] == t[i];
      }
    }
  }

  /** The subsequence of a one-element sequence. */
  lemma WithKeySingleton<T>(x: T, key: T -> int, k: int)
    ensures WithKey([x], key, k) == if key(x) == k then [x] else []
  {
    assert [x][1..] == [];
  }

  /** Inserting `x` only appends it to the run of elements sharing its key. */
  lemma {:induction false} InsertWithKey<T>(s: seq<T>, x: T, key: T -> int, k: int)
    requires SortedBy(s, key)
    ensures WithKey(Insert(s, x, key), key, k) == WithKey(s, key, k) + WithKey([x], key, k)
  {
    if s == [] || key(s[|s| - 1]) <= key(x) {
      WithKeyAppend(s, [x], key, k);
    } else {
      var init, last := s[..|s| - 1], s[|s| - 1];
      assert s == init + [last];
      InsertStep(s, x, key);
      InsertWithKey(init, x, key, k);
      WithKeyAppend(Insert(init, x, key), [last], key, k);
      WithKeyAppend(init, [last], key, k);
      WithKeySingleton(x, key, k);
      WithKeySingleton(last, key, k);
      // `last` has a larger key than `x`, so at most one of them carries key k
      assert WithKey([x], key, k) == [] || WithKey([last], key, k) == [];
      SwapWhenOneEmpty(WithKey(init, key, k), WithKey([x], key, k), WithKey([last], key, k));
    }
  }

  /** One unfolding of `Insert` past a last element whose key exceeds the new one. */
  lemma InsertStep<T>(s: seq<T>, x: T, key: T -> int)
    requires SortedBy(s, key) && s != [] && key(s[|s| - 1]) > key(x)
    ensures SortedBy(s[..|s| - 1], key)
    ensures Insert(s, x, key) == Insert(s[..|s| - 1], x, key) + [s[|s| - 1]]
  {
  }

  lemma SwapWhenOneEmpty<T>(a: seq<T>, b: seq<T>, c: seq<T>)
    requires b == [] || c == []
    ensures a + b + c == a + c + b
  {
  }

  function SortBy<T>(s: seq<T>, key: T -> int): (r: seq<T>)
    ensures SortedBy(r, key)
    ensures multiset(r) == multiset(s)
    ensures |r| == |s|
  {
    if s == [] then []
    else
      assert s == s[..|s| - 1] + [s[|s| - 1]];
      Insert(SortBy(s[..|s| - 1], key), s[|s| - 1], key)
  }

  /** Stability: for every key, the elements carrying it keep their original relative order. */
  lemma {:induction false} SortByIsStable<T>(s: seq<T>, key: T -> int, k: int)
    ensures WithKey(SortBy(s, key), key, k) == WithKey(s, key, k)
  {
    if s != [] {
      var init, last := s[..|s| - 1], s[|s| - 1];
      assert s == init + [last];
      SortByIsStable(init, key, k);
      InsertWithKey(SortBy(init, key), last, key, k);
      WithKeyAppend(init, [last], key, k);
    }
  }

  /** An already sorted sequence is left exactly as it is. */
  lemma {:induction false} SortBySortedIsIdentity<T>(s: seq<T>, key: T -> int)
    requires SortedBy(s, key)
    ensures SortBy(s, key) == s
  {
    if s != [] {
      var init := s[..|s| - 1];
      assert SortedBy(init, key);
      SortBySortedIsIdentity(init, key);
    }
  }
}

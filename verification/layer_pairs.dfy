/**
 * The object pairs `LayerManager.handleLayers` passes to the pair handler for
 * two layers' committed object lists: within one layer every position pair
 * ind1 < ind2, across two layers every (first-layer object, second-layer
 * object), in both cases skipping an object paired with itself.
 */
module LayerPairs {
  import opened Seqs

  /** `(a, y)` for each `y` of `t` in order, skipping `y == a`. */
  function Row<T(==)>(a: T, t: seq<T>): (r: seq<(T, T)>)
    ensures |r| <= |t|
  {
    if t == [] then []
    else (if t[0] != a then [(a, t[0])] else []) + Row(a, t[1..])
  }

  /** A row holds exactly the pairs of `a` with the other objects of `t`, one per position when `a` is not in `t`. */
  lemma {:induction false} RowFacts<T>(a: T, t: seq<T>)
    ensures forall p :: p in Row(a, t) ==> p.0 == a && p.1 in t && p.1 != a
    ensures forall y :: y in t && y != a ==> (a, y) in Row(a, t)
    ensures a !in t ==> |Row(a, t)| == |t|
  {
    if t != [] {
      assert t == [t[0]] + t[1..];
      RowFacts(a, t[1..]);
    }
  }

  lemma {:induction false} RowSnoc<T>(a: T, t: seq<T>, y: T)
    ensures Row(a, t + [y]) == Row(a, t) + (if y != a then [(a, y)] else [])
  {
    if t == [] {
      assert [y][1..] == [];
      assert Row(a, [y]) == (if y != a then [(a, y)] else []) + Row(a, []);
    } else {
      var h := if t[0] != a then [(a, t[0])] else [];
      assert (t + [y])[0] == t[0] && (t + [y])[1..] == t[1..] + [y];
      assert Row(a, t + [y]) == h + Row(a, t[1..] + [y]);
      RowSnoc(a, t[1..], y);
      assert Row(a, t) == h + Row(a, t[1..]);
    }
  }

  /** Where the inner loop starts for outer index `ind1`. */
  function Start(same: bool, ind1: nat): nat {
    if same then ind1 + 1 else 0
  }

  /** The pairs produced by the first `n` iterations of the outer loop. */
  function Rows<T(==)>(s1: seq<T>, s2: seq<T>, same: bool, n: nat): seq<(T, T)>
    requires n <= |s1| && (same ==> s1 == s2)
  {
    if n == 0 then [] else Rows(s1, s2, same, n - 1) + Row(s1[n - 1], s2[Start(same, n - 1)..])
  }

  /** Everything `handleLayers` passes, in order; `same` says both lists are the one layer's list. */
  function LayerPairs<T(==)>(s1: seq<T>, s2: seq<T>, same: bool): seq<(T, T)>
    requires same ==> s1 == s2
  {
    Rows(s1, s2, same, |s1|)
  }

  /** `handleLayers`: the two nested loops, recording each pair handed to the callback. */
  method HandleLayers<T(==)>(s1: seq<T>, s2: seq<T>, same: bool) returns (out: seq<(T, T)>)
    requires same ==> s1 == s2
    ensures out == LayerPairs(s1, s2, same)
  {
    out := [];
    var ind1 := 0;
    while ind1 < |s1|
      invariant 0 <= ind1 <= |s1|
      invariant out == Rows(s1, s2, same, ind1)
    {
      var ind2 := 0;
      if same {
        ind2 := ind1 + 1;
      }
      var row := InnerLoop(s1[ind1], s2, ind2);
      out := out + row;
      ind1 := ind1 + 1;
    }
  }

  /** The inner loop of `handleLayers` for one outer object `a`, from position `start` of `s2`. */
  method InnerLoop<T(==)>(a: T, s2: seq<T>, start: nat) returns (row: seq<(T, T)>)
    requires start <= |s2|
    ensures row == Row(a, s2[start..])
  {
    row := [];
    var ind2 := start;
    while ind2 < |s2|
      invariant start <= ind2 <= |s2|
      invariant row == Row(a, s2[start..ind2])
    {
      if a != s2[ind2] {
        row := row + [(a, s2[ind2])];
      }
      RowSnoc(a, s2[start..ind2], s2[ind2]);
      assert s2[start..ind2 + 1] == s2[start..ind2] + [s2[ind2]];
      ind2 := ind2 + 1;
    }
    assert s2[start..ind2] == s2[start..];
  }

  lemma {:induction false} RowsMembership<T>(s1: seq<T>, s2: seq<T>, same: bool, n: nat, p: (T, T))
    requires n <= |s1| && (same ==> s1 == s2)
    ensures p in Rows(s1, s2, same, n) <==>
              exists i :: 0 <= i < n && p.0 == s1[i] && p.1 in s2[Start(same, i)..] && p.0 != p.1
  {
    if n > 0 {
      RowsMembership(s1, s2, same, n - 1, p);
      RowFacts(s1[n - 1], s2[Start(same, n - 1)..]);
    }
  }

  /** Within one layer: exactly the pairs at positions i < j holding distinct objects. */
  lemma SameLayerPairs<T>(s: seq<T>, p: (T, T))
    ensures p in LayerPairs(s, s, true) <==>
              exists i, j :: 0 <= i < j < |s| && s[i] == p.0 && s[j] == p.1 && p.0 != p.1
  {
    RowsMembership(s, s, true, |s|, p);
    if p in LayerPairs(s, s, true) {
      var i :| 0 <= i < |s| && p.0 == s[i] && p.1 in s[i + 1..] && p.0 != p.1;
      var k :| 0 <= k < |s[i + 1..]| && s[i + 1..][k] == p.1;
      assert s[i + 1 + k] == p.1;
    }
    if exists i, j :: 0 <= i < j < |s| && s[i] == p.0 && s[j] == p.1 && p.0 != p.1 {
      var i, j :| 0 <= i < j < |s| && s[i] == p.0 && s[j] == p.1 && p.0 != p.1;
      assert s[i + 1..][j - i - 1] == p.1;
    }
  }

  /** Across two layers: exactly the pairs of a first-layer and a second-layer object that differ. */
  lemma CrossLayerPairs<T>(s1: seq<T>, s2: seq<T>, p: (T, T))
    ensures p in LayerPairs(s1, s2, false) <==> p.0 in s1 && p.1 in s2 && p.0 != p.1
  {
    RowsMembership(s1, s2, false, |s1|, p);
    assert s2[0..] == s2;
  }

  /** With distinct objects, the first n rows of one layer of size L hold n(2L-n-1)/2 pairs, so the whole layer yields L(L-1)/2. */
  lemma {:induction false} SameLayerPairCount<T>(s: seq<T>, n: nat)
    requires NoDuplicates(s) && n <= |s|
    ensures 2 * |Rows(s, s, true, n)| == n * (2 * |s| - n - 1)
  {
    if n > 0 {
      SameLayerPairCount(s, n - 1);
      assert s[n - 1] !in s[n..];
      RowFacts(s[n - 1], s[n..]);
      var L := |s|;
      assert (n - 1) * (2 * L - n) + 2 * (L - n) == n * (2 * L - n - 1);
    }
  }

  /** With no object in both layers, two layers yield |s1|·|s2| pairs. */
  lemma {:induction false} CrossLayerPairCount<T>(s1: seq<T>, s2: seq<T>, n: nat)
    requires n <= |s1| && forall x :: x in s1 ==> x !in s2
    ensures |Rows(s1, s2, false, n)| == n * |s2|
  {
    if n > 0 {
      CrossLayerPairCount(s1, s2, n - 1);
      assert s1[n - 1] in s1;
      assert s2[0..] == s2;
      RowFacts(s1[n - 1], s2);
      assert (n - 1) * |s2| + |s2| == n * |s2|;
    }
  }
}

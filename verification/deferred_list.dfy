/**
 * danogl.util.ModifiableList: a list that buffers additions and removals and
 * applies them only at `flushChanges`, so it can be changed while it is being
 * iterated. Elements are compared with `equals`, which is value equality here.
 */
module DeferredList {
  import opened Wrappers
  import opened Seqs

  /** The committed list and the two pending buffers. */
  datatype ModList<T> = ModList(list: seq<T>, toAdd: seq<T>, toRemove: seq<T>, allowDuplicates: bool)

  /**
   * What every operation keeps: queued removals are committed elements, queued
   * at most once; without duplicates, no element is both committed and pending
   * or present twice.
   */
  predicate Valid<T(==)>(m: ModList<T>) {
    NoDuplicates(m.toRemove)
    && (forall x :: x in m.toRemove ==> x in m.list)
    && (!m.allowDuplicates ==> NoDuplicates(m.list + m.toAdd))
  }

  /** `new ModifiableList<>(allowDuplicates)`. */
  function Create<T(==)>(allowDuplicates: bool): (m: ModList<T>)
    ensures m.list == [] && m.toAdd == [] && m.toRemove == []
    ensures m.allowDuplicates == allowDuplicates && Valid(m)
  {
    ModList([], [], [], allowDuplicates)
  }

  /**
   * `add`: refused (false, no change) when duplicates are disallowed and the
   * item is already committed or pending; otherwise appended to the pending
   * additions.
   */
  function Add<T(==)>(m: ModList<T>, item: T): (res: (ModList<T>, bool))
    ensures !m.allowDuplicates && (item in m.toAdd || item in m.list) ==> res == (m, false)
    ensures m.allowDuplicates || (item !in m.toAdd && item !in m.list) ==>
              res.1 && res.0 == m.(toAdd := m.toAdd + [item])
    ensures Valid(m) ==> Valid(res.0)
  {
    if !m.allowDuplicates && (item in m.toAdd || item in m.list) then (m, false)
    else
      AddKeepsValid(m, item);
      (m.(toAdd := m.toAdd + [item]), true)
  }

  lemma AddKeepsValid<T>(m: ModList<T>, item: T)
    requires m.allowDuplicates || (item !in m.toAdd && item !in m.list)
    ensures Valid(m) ==> Valid(m.(toAdd := m.toAdd + [item]))
  {
    if Valid(m) && !m.allowDuplicates {
      assert m.list + (m.toAdd + [item]) == (m.list + m.toAdd) + [item];
      NoDuplicatesAppend(m.list + m.toAdd, [item]);
    }
  }

  /**
   * `remove`: cancels the first pending addition of the item, and queues a
   * removal when the item is committed and not yet queued. The answer is true
   * iff something will indeed be removed.
   */
  function Remove<T(==)>(m: ModList<T>, item: T): (res: (ModList<T>, bool))
    ensures res.1 <==> item in m.toAdd || (item in m.list && item !in m.toRemove)
    ensures res.0.list == m.list && res.0.allowDuplicates == m.allowDuplicates
    ensures res.0.toAdd == RemoveFirst(m.toAdd, item)
    ensures item in m.list && item !in m.toRemove ==> res.0.toRemove == m.toRemove + [item]
    ensures !(item in m.list && item !in m.toRemove) ==> res.0.toRemove == m.toRemove
    ensures Valid(m) ==> Valid(res.0)
  {
    var toAdd := RemoveFirst(m.toAdd, item);
    var removedFromToAdd := item in m.toAdd;
    RemoveValid(m, item, toAdd);
    if item !in m.list || item in m.toRemove then (m.(toAdd := toAdd), removedFromToAdd)
    else (m.(toAdd := toAdd, toRemove := m.toRemove + [item]), true)
  }

  lemma RemoveValid<T>(m: ModList<T>, item: T, toAdd: seq<T>)
    requires toAdd == RemoveFirst(m.toAdd, item)
    ensures Valid(m) ==> Valid(m.(toAdd := toAdd))
    ensures Valid(m) && item in m.list && item !in m.toRemove ==> Valid(m.(toAdd := toAdd, toRemove := m.toRemove + [item]))
  {
    if !Valid(m) {
      return;
    }
    RemoveFirstMultiset(m.toAdd, item);
    if !m.allowDuplicates {
      NoDuplicatesSplit(m.list, m.toAdd);
      RemoveFirstKeepsNoDuplicates(m.toAdd, item);
      forall x | x in m.list
        ensures x !in toAdd
      {
        assert x !in m.toAdd;
        assert multiset(toAdd)[x] <= multiset(m.toAdd)[x];
      }
      NoDuplicatesAppend(m.list, toAdd);
    }
    if item in m.list && item !in m.toRemove {
      NoDuplicatesAppend(m.toRemove, [item]);
    }
  }

  lemma NoDuplicatesSplit<T>(a: seq<T>, b: seq<T>)
    requires NoDuplicates(a + b)
    ensures NoDuplicates(a) && NoDuplicates(b)
    ensures forall x :: x in a ==> x !in b
  {
    var s := a + b;
    assert forall i :: 0 <= i < |a| ==> a[i] == s[i];
    assert forall i :: 0 <= i < |b| ==> b[i] == s[|a| + i];
  }

  /**
   * `flushChanges`: every committed element equal to a queued removal goes,
   * the pending additions are appended in order, and both buffers are emptied.
   */
  function Flush<T(==)>(m: ModList<T>): (r: ModList<T>)
    ensures r.toAdd == [] && r.toRemove == [] && r.allowDuplicates == m.allowDuplicates
    ensures |r.list| >= |m.toAdd| && r.list[|r.list| - |m.toAdd|..] == m.toAdd
    ensures r.list[..|r.list| - |m.toAdd|] == RemoveAll(m.list, m.toRemove)
    ensures forall y :: y in m.list ==>
              multiset(r.list)[y] == (if y in m.toRemove then 0 else multiset(m.list)[y]) + multiset(m.toAdd)[y]
    ensures forall y :: y in m.toAdd ==>
              multiset(r.list)[y] == (if y in m.toRemove then 0 else multiset(m.list)[y]) + multiset(m.toAdd)[y]
    ensures forall y :: y in r.list ==> y in m.toAdd || (y in m.list && y !in m.toRemove)
    ensures Valid(m) ==> Valid(r)
  {
    var kept := RemoveAll(m.list, m.toRemove);
    var r := ModList(kept + m.toAdd, [], [], m.allowDuplicates);
    assert r.list[..|kept|] == kept && r.list[|kept|..] == m.toAdd;
    assert multiset(r.list) == multiset(kept) + multiset(m.toAdd);
    FlushKeepsValid(m, kept);
    r
  }

  lemma FlushKeepsValid<T>(m: ModList<T>, kept: seq<T>)
    requires kept == RemoveAll(m.list, m.toRemove)
    ensures Valid(m) ==> Valid(ModList(kept + m.toAdd, [], [], m.allowDuplicates))
  {
    if Valid(m) && !m.allowDuplicates {
      NoDuplicatesSplit(m.list, m.toAdd);
      RemoveAllKeepsNoDuplicates(m.list, m.toRemove);
      NoDuplicatesAppend(kept, m.toAdd);
    }
  }

  /** `get`: the committed element at `index`, or IndexOutOfBoundsException. */
  function Get<T>(m: ModList<T>, index: int): (r: Result<T>)
    ensures 0 <= index < |m.list| ==> r == Ok(m.list[index])
    ensures !(0 <= index < |m.list|) ==> r == Err(IndexOutOfBounds)
  {
    if 0 <= index < |m.list| then Ok(m.list[index]) else Err(IndexOutOfBounds)
  }

  function Size<T>(m: ModList<T>): nat {
    |m.list|
  }

  /** `contains`: committed or pending addition, and not pending removal. */
  predicate Contains<T(==)>(m: ModList<T>, item: T) {
    (item in m.list || item in m.toAdd) && item !in m.toRemove
  }

  /** Without duplicates, `contains` answers exactly whether the item will be there after the next flush. */
  lemma ContainsAgreesWithFlush<T>(m: ModList<T>, item: T)
    requires Valid(m) && !m.allowDuplicates
    ensures Contains(m, item) <==> item in Flush(m).list
  {
    NoDuplicatesSplit(m.list, m.toAdd);
    var r := Flush(m);
    if item in m.toRemove {
      assert item in m.list;
      assert item !in m.toAdd;
      assert multiset(r.list)[item] == 0;
    } else if item in m.list || item in m.toAdd {
      assert multiset(m.list)[item] + multiset(m.toAdd)[item] > 0;
      assert multiset(r.list)[item] > 0;
    }
  }

  /** With duplicates disallowed, a second `remove` before a flush reports that nothing more will be removed. */
  lemma SecondRemoveReturnsFalse<T>(m: ModList<T>, item: T)
    requires Valid(m) && !m.allowDuplicates
    ensures !Remove(Remove(m, item).0, item).1
    ensures !Contains(Remove(m, item).0, item)
  {
    NoDuplicatesSplit(m.list, m.toAdd);
    RemoveFirstKeepsNoDuplicates(m.toAdd, item);
  }

  /** Removing one item does not change whether any other item is contained. */
  lemma RemoveLeavesOthers<T>(m: ModList<T>, item: T, other: T)
    requires other != item
    ensures Contains(Remove(m, item).0, other) <==> Contains(m, other)
  {
    RemoveFirstMultiset(m.toAdd, item);
    assert other in RemoveFirst(m.toAdd, item) <==> multiset(RemoveFirst(m.toAdd, item))[other] > 0;
    assert other in m.toAdd <==> multiset(m.toAdd)[other] > 0;
  }

  /** Pending changes are invisible to `size` and `get` until the flush. */
  lemma PendingChangesInvisible<T>(m: ModList<T>, item: T, index: int)
    ensures Size(Add(m, item).0) == Size(m) && Get(Add(m, item).0, index) == Get(m, index)
    ensures Size(Remove(m, item).0) == Size(m) && Get(Remove(m, item).0, index) == Get(m, index)
  {
  }

  /** Adding without duplicates then flushing leaves the item committed exactly once. */
  lemma AddThenFlushCommitsOnce<T>(m: ModList<T>, item: T)
    requires Valid(m) && !m.allowDuplicates
    ensures Add(m, item).1 ==> multiset(Flush(Add(m, item).0).list)[item] == 1
    ensures Add(m, item).1 <==> !(item in m.list || item in m.toAdd)
  {
    var (a, ok) := Add(m, item);
    if ok {
      assert item !in m.toRemove;
      assert multiset(a.toAdd)[item] == 1;
      assert multiset(m.list)[item] == 0;
    }
  }

  /** The shared cursor of `MyIterator`: current index, step and the index at which iteration stops. */
  datatype Cursor = Cursor(index: int, step: int, illegal: int)

  /** `iterator()`: from index 0 upwards, stopping at the committed size. */
  function ForwardCursor<T>(m: ModList<T>): Cursor {
    Cursor(0, 1, |m.list|)
  }

  /** `reverseOrder().iterator()`: from the last committed index downwards, stopping at -1. */
  function ReverseCursor<T>(m: ModList<T>): Cursor {
    Cursor(|m.list| - 1, -1, -1)
  }

  predicate HasNext(c: Cursor) {
    c.index != c.illegal
  }

  /** `MyIterator.next`: the committed element at the index (or the list's exception), then one step. */
  function Next<T>(list: seq<T>, c: Cursor): (r: Result<(T, Cursor)>)
    ensures 0 <= c.index < |list| ==> r == Ok((list[c.index], c.(index := c.index + c.step)))
    ensures !(0 <= c.index < |list|) ==> r == Err(IndexOutOfBounds)
  {
    if 0 <= c.index < |list| then Ok((list[c.index], c.(index := c.index + c.step)))
    else Err(IndexOutOfBounds)
  }

  /** Draining the forward iterator yields the committed list, index 0 to size-1. */
  method IterateForward<T>(m: ModList<T>) returns (out: seq<T>)
    ensures out == m.list
  {
    var c := ForwardCursor(m);
    out := [];
    while HasNext(c)
      invariant 0 <= c.index <= |m.list| && c.step == 1 && c.illegal == |m.list|
      invariant out == m.list[..c.index]
      decreases |m.list| - c.index
    {
      var step := Next(m.list, c);
      out := out + [step.value.0];
      c := step.value.1;
    }
  }

  /** Draining the reverse iterator yields the committed list back to front. */
  method IterateReverse<T>(m: ModList<T>) returns (out: seq<T>)
    ensures out == Reverse(m.list)
  {
    var c := ReverseCursor(m);
    out := [];
    while HasNext(c)
      invariant -1 <= c.index < |m.list| && c.step == -1 && c.illegal == -1
      invariant |out| == |m.list| - 1 - c.index
      invariant forall k :: 0 <= k < |out| ==> out[k] == m.list[|m.list| - 1 - k]
      decreases c.index
    {
      var step := Next(m.list, c);
      out := out + [step.value.0];
      c := step.value.1;
    }
  }

  /** A committed element at `i` that is not pending removal and satisfies `p`. */
  predicate CommittedMatch<T(==)>(m: ModList<T>, p: T -> bool, i: int) {
    0 <= i < |m.list| && m.list[i] !in m.toRemove && p(m.list[i])
  }

  /**
   * `findFirst`: the first committed match that is not pending removal, else
   * the first pending addition that matches, else null.
   */
  method FindFirst<T(==)>(m: ModList<T>, p: T -> bool) returns (r: Option<T>)
    ensures r.None? <==>
              (forall i :: 0 <= i < |m.list| ==> !CommittedMatch(m, p, i)) && (forall j :: 0 <= j < |m.toAdd| ==> !p(m.toAdd[j]))
    ensures r.Some? && (exists i :: CommittedMatch(m, p, i)) ==>
              exists i :: CommittedMatch(m, p, i) && r.value == m.list[i] && forall k :: 0 <= k < i ==> !CommittedMatch(m, p, k)
    ensures r.Some? && (forall i :: 0 <= i < |m.list| ==> !CommittedMatch(m, p, i)) ==>
              exists j :: 0 <= j < |m.toAdd| && p(m.toAdd[j]) && r.value == m.toAdd[j] && forall k :: 0 <= k < j ==> !p(m.toAdd[k])
  {
    var i := 0;
    while i < |m.list|
      invariant 0 <= i <= |m.list|
      invariant forall k :: 0 <= k < i ==> !CommittedMatch(m, p, k)
    {
      var el := m.list[i];
      if el !in m.toRemove && p(el) {
        assert CommittedMatch(m, p, i);
        return Some(el);
      }
      i := i + 1;
    }
    var j := 0;
    while j < |m.toAdd|
      invariant 0 <= j <= |m.toAdd|
      invariant forall k :: 0 <= k < j ==> !p(m.toAdd[k])
    {
      if p(m.toAdd[j]) {
        return Some(m.toAdd[j]);
      }
      j := j + 1;
    }
    return None;
  }
}

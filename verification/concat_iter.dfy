/**
 * danogl.util.ConcatIterator: one iterator over a sequence of iterables,
 * yielding the elements of each in turn. The state is the iterables not yet
 * opened and the remainder of the one currently open (`None` until the first
 * `hasNext`, matching the null `iteratorInIterable`).
 */
module ConcatIter {
  import opened Wrappers
  import opened Seqs

  datatype ConcatState<T> = ConcatState(pending: seq<seq<T>>, current: Option<seq<T>>)

  function Create<T>(iterables: seq<seq<T>>): (st: ConcatState<T>)
    ensures Remaining(st) == Flatten(iterables)
  {
    ConcatState(iterables, None)
  }

  /** Everything the iterator has yet to yield. */
  function Remaining<T>(st: ConcatState<T>): seq<T> {
    (if st.current.Some? then st.current.value else []) + Flatten(st.pending)
  }

  /** The skipping loop of `hasNext`: open further iterables while the current one is exhausted. */
  function SkipEmpty<T>(cur: seq<T>, pending: seq<seq<T>>): (r: (seq<T>, seq<seq<T>>))
    ensures r.0 + Flatten(r.1) == cur + Flatten(pending)
    ensures r.0 == [] ==> r.1 == []
    ensures cur != [] ==> r == (cur, pending)
    decreases |pending|
  {
    if cur == [] && pending != [] then SkipEmpty(pending[0], pending[1..])
    else (cur, pending)
  }

  /** `hasNext`: its answer and the state it leaves behind. */
  function HasNext<T>(st: ConcatState<T>): (r: (bool, ConcatState<T>))
    ensures Remaining(r.1) == Remaining(st)
    ensures r.0 <==> Remaining(st) != []
    ensures r.0 ==> r.1.current.Some? && r.1.current.value != []
    ensures st.current.None? && st.pending == [] ==> r == (false, st)
  {
    if st.current.None? && st.pending == [] then (false, st)
    else
      var cur := if st.current.Some? then st.current.value else st.pending[0];
      var rest := if st.current.Some? then st.pending else st.pending[1..];
      var (c, p) := SkipEmpty(cur, rest);
      (c != [], ConcatState(p, Some(c)))
  }

  /**
   * `next`: delegates to the current inner iterator, so it dereferences null
   * when `hasNext` was never called and throws `NoSuchElementException` when
   * that iterator is exhausted.
   */
  function Next<T>(st: ConcatState<T>): (r: Result<(T, ConcatState<T>)>)
    ensures st.current.None? ==> r == Err(NullPointer)
    ensures st.current.Some? && st.current.value == [] ==> r == Err(NoSuchElement)
    ensures r.Ok? ==> [r.value.0] + Remaining(r.value.1) == Remaining(st)
  {
    match st.current
    case None => Err(NullPointer)
    case Some(cur) =>
      if cur == [] then Err(NoSuchElement)
      else Ok((cur[0], ConcatState(st.pending, Some(cur[1..]))))
  }

  /** Calling `hasNext` again without `next` changes neither the answer nor the state. */
  lemma HasNextIdempotent<T>(st: ConcatState<T>)
    ensures HasNext(HasNext(st).1) == HasNext(st)
  {
    var (b, s1) := HasNext(st);
    if !(st.current.None? && st.pending == []) {
      var c := s1.current.value;
      if c == [] {
        assert s1.pending == [];
      } else {
        assert SkipEmpty(c, s1.pending) == (c, s1.pending);
      }
    }
  }

  /** After a true `hasNext`, `next` succeeds and yields the first remaining element. */
  lemma NextAfterHasNext<T>(st: ConcatState<T>)
    requires HasNext(st).0
    ensures Next(HasNext(st).1).Ok?
    ensures Next(HasNext(st).1).value.0 == Remaining(st)[0]
    ensures Remaining(Next(HasNext(st).1).value.1) == Remaining(st)[1..]
  {
    var s1 := HasNext(st).1;
    assert s1.current.Some? && s1.current.value != [];
    var r := Next(s1);
    assert [r.value.0] + Remaining(r.value.1) == Remaining(st);
  }

  /** A `hasNext`/`next` loop yields the concatenation of the iterables, in order. */
  method Drain<T>(iterables: seq<seq<T>>) returns (out: seq<T>)
    ensures out == Flatten(iterables)
  {
    var st := Create(iterables);
    out := [];
    var more;
    more, st := HasNext(st).0, HasNext(st).1;
    while more
      invariant out + Remaining(st) == Flatten(iterables)
      invariant more <==> Remaining(st) != []
      invariant more ==> st.current.Some? && st.current.value != []
      decreases |Remaining(st)|
    {
      var step := Next(st);
      out := out + [step.value.0];
      st := step.value.1;
      more, st := HasNext(st).0, HasNext(st).1;
    }
  }

  /** An empty iterable anywhere in the input contributes nothing to the elements yielded. */
  lemma EmptyIterablesSkipped<T>(iterables: seq<seq<T>>, i: nat)
    requires i < |iterables| && iterables[i] == []
    ensures Remaining(Create(iterables)) == Remaining(Create(iterables[..i] + iterables[i + 1..]))
  {
    FlattenSkipsEmpty(iterables, i);
  }
}

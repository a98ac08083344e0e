/**
 * A game object's component list (`GameObject.components`): created lazily on
 * the first `addComponent`, without duplicates, and with additions and
 * removals deferred until `update` flushes it. Components are known by id.
 */
module ComponentLists {
  import opened Wrappers
  import DL = DeferredList
  import Seqs

  type ComponentId = nat

  /** What every component list satisfies: a valid deferred list that refuses duplicates. */
  predicate ListValid(m: DL.ModList<ComponentId>) {
    DL.Valid(m) && !m.allowDuplicates
  }

  /** `addComponent`: creates the list on first use, then queues the component. */
  function AddComponent(components: Option<DL.ModList<ComponentId>>, c: ComponentId): (r: DL.ModList<ComponentId>)
    ensures components.None? ==> r.list == [] && r.toAdd == [c] && r.toRemove == [] && !r.allowDuplicates
    ensures components.Some? ==> r == DL.Add(components.value, c).0
    ensures DL.Contains(r, c) || c in r.toRemove
  {
    var list := if components.None? then DL.Create(false) else components.value;
    DL.Add(list, c).0
  }

  /** `removeComponent`: before any `addComponent` the list is null and the call throws. */
  function RemoveComponent(components: Option<DL.ModList<ComponentId>>, c: ComponentId): (r: Result<DL.ModList<ComponentId>>)
    ensures components.None? <==> r == Err(NullPointer)
    ensures components.Some? ==> r == Ok(DL.Remove(components.value, c).0)
  {
    if components.None? then Err(NullPointer) else Ok(DL.Remove(components.value, c).0)
  }

  /**
   * The calls a library component (a scheduled task, a transition) makes on
   * its own object while it runs: `removeComponent(this)` when the update
   * ends it, nothing otherwise.
   */
  function SelfRemoval(id: ComponentId, ends: bool): (r: seq<Request>)
    ensures RemoveRequest(id) in r <==> ends
    ensures forall q :: q in r ==> q == RemoveRequest(id)
  {
    if ends then [RemoveRequest(id)] else []
  }

  /** A component added to a fresh object becomes its only component at the next flush. */
  lemma AddToFreshObject(c: ComponentId)
    ensures DL.Flush(AddComponent(None, c)).list == [c]
  {
    var m := AddComponent(None, c);
    assert DL.Flush(m).list[..0] == [] && DL.Flush(m).list[0..] == [c];
  }

  /** A call a component makes on the object it runs through while it runs: `addComponent` or `removeComponent`. */
  datatype Request = AddRequest(c: ComponentId) | RemoveRequest(c: ComponentId)

  /** What each component asks of its object when it runs in the current update. */
  type Requests = ComponentId -> seq<Request>

  /** The requests, applied to the list one after another as the calls would be. */
  function Apply(m: DL.ModList<ComponentId>, reqs: seq<Request>): (r: DL.ModList<ComponentId>)
    ensures r.list == m.list && r.allowDuplicates == m.allowDuplicates
    decreases |reqs|
  {
    if reqs == [] then m
    else
      var m1 := match reqs[0]
        case AddRequest(c) => DL.Add(m, c).0
        case RemoveRequest(c) => DL.Remove(m, c).0;
      Apply(m1, reqs[1..])
  }

  /** Requests keep a list valid: each `add` and `remove` does. */
  lemma {:induction false} ApplyKeepsValid(m: DL.ModList<ComponentId>, reqs: seq<Request>)
    requires DL.Valid(m)
    ensures DL.Valid(Apply(m, reqs))
    decreases |reqs|
  {
    if reqs != [] {
      var m1 := match reqs[0]
        case AddRequest(c) => DL.Add(m, c).0
        case RemoveRequest(c) => DL.Remove(m, c).0;
      ApplyKeepsValid(m1, reqs[1..]);
    }
  }

  /** The requests of the components `cs`, each component's in the order it made them, components in the order they ran. */
  function Requested(cs: seq<ComponentId>, fx: Requests): (r: seq<Request>)
    ensures forall q :: q in r <==> exists i :: 0 <= i < |cs| && q in fx(cs[i])
    decreases |cs|
  {
    if cs == [] then []
    else
      var rest := Requested(cs[1..], fx);
      assert forall i :: 1 <= i < |cs| ==> cs[i] == cs[1..][i - 1];
      fx(cs[0]) + rest
  }

  /** A component that is not contained stays so under any request other than adding it again. */
  lemma StaysOut(m: DL.ModList<ComponentId>, q: Request, c: ComponentId)
    requires DL.Valid(m) && !m.allowDuplicates && !DL.Contains(m, c) && q != AddRequest(c)
    ensures !DL.Contains(Apply(m, [q]), c)
  {
    assert Apply(m, [q]) == Apply(if q.AddRequest? then DL.Add(m, q.c).0 else DL.Remove(m, q.c).0, []);
    if q.RemoveRequest? {
      if q.c == c {
        DL.SecondRemoveReturnsFalse(m, c);
      } else {
        DL.RemoveLeavesOthers(m, q.c, c);
      }
    }
  }

  /**
   * A removal that some request asks for, and that no request undoes by
   * adding the component again, leaves the component not contained, so the
   * flush that follows drops it (`DeferredList.ContainsAgreesWithFlush`).
   */
  lemma {:induction false} RemovalTakesEffect(m: DL.ModList<ComponentId>, reqs: seq<Request>, c: ComponentId)
    requires DL.Valid(m) && !m.allowDuplicates
    requires RemoveRequest(c) in reqs && AddRequest(c) !in reqs
    ensures !DL.Contains(Apply(m, reqs), c)
    decreases |reqs|
  {
    var q := reqs[0];
    var m1 := if q.AddRequest? then DL.Add(m, q.c).0 else DL.Remove(m, q.c).0;
    assert Apply(m, reqs) == Apply(m1, reqs[1..]);
    if q == RemoveRequest(c) {
      DL.SecondRemoveReturnsFalse(m, c);
      StaysOutAll(m1, reqs[1..], c);
    } else {
      assert RemoveRequest(c) in reqs[1..];
      RemovalTakesEffect(m1, reqs[1..], c);
    }
  }

  lemma {:induction false} StaysOutAll(m: DL.ModList<ComponentId>, reqs: seq<Request>, c: ComponentId)
    requires DL.Valid(m) && !m.allowDuplicates && !DL.Contains(m, c) && AddRequest(c) !in reqs
    ensures !DL.Contains(Apply(m, reqs), c)
    decreases |reqs|
  {
    if reqs != [] {
      var q := reqs[0];
      var m1 := if q.AddRequest? then DL.Add(m, q.c).0 else DL.Remove(m, q.c).0;
      assert Apply(m, [q]) == Apply(m1, []);
      StaysOut(m, q, c);
      assert Apply(m, reqs) == Apply(m1, reqs[1..]);
      StaysOutAll(m1, reqs[1..], c);
    }
  }

  /**
   * An addition that some request asks for, and that no request undoes by
   * removing the component, takes effect at the flush that follows, unless
   * the component was already waiting to be removed (then `add` refuses it).
   */
  lemma {:induction false} AdditionTakesEffect(m: DL.ModList<ComponentId>, reqs: seq<Request>, c: ComponentId)
    requires DL.Valid(m) && !m.allowDuplicates && c !in m.toRemove
    requires AddRequest(c) in reqs && RemoveRequest(c) !in reqs
    ensures DL.Contains(Apply(m, reqs), c) && c in DL.Flush(Apply(m, reqs)).list
    decreases |reqs|
  {
    var q := reqs[0];
    var m1 := if q.AddRequest? then DL.Add(m, q.c).0 else DL.Remove(m, q.c).0;
    assert Apply(m, reqs) == Apply(m1, reqs[1..]);
    if q == AddRequest(c) {
      assert DL.Contains(m1, c);
      StaysInAll(m1, reqs[1..], c);
    } else {
      assert c !in m1.toRemove;
      assert AddRequest(c) in reqs[1..];
      AdditionTakesEffect(m1, reqs[1..], c);
    }
    ApplyKeepsValid(m, reqs);
    DL.ContainsAgreesWithFlush(Apply(m, reqs), c);
  }

  lemma {:induction false} StaysInAll(m: DL.ModList<ComponentId>, reqs: seq<Request>, c: ComponentId)
    requires DL.Valid(m) && !m.allowDuplicates && DL.Contains(m, c) && RemoveRequest(c) !in reqs
    ensures DL.Contains(Apply(m, reqs), c)
    decreases |reqs|
  {
    if reqs != [] {
      var q := reqs[0];
      var m1 := if q.AddRequest? then DL.Add(m, q.c).0 else DL.Remove(m, q.c).0;
      if q.RemoveRequest? {
        DL.RemoveLeavesOthers(m, q.c, c);
      }
      assert DL.Contains(m1, c);
      assert Apply(m, reqs) == Apply(m1, reqs[1..]);
      StaysInAll(m1, reqs[1..], c);
    }
  }

  /** A component that becomes pending during the requests was asked for by one of them. */
  lemma {:induction false} PendingAdditionRequested(m: DL.ModList<ComponentId>, reqs: seq<Request>, c: ComponentId)
    requires c in Apply(m, reqs).toAdd && c !in m.toAdd
    ensures AddRequest(c) in reqs
    decreases |reqs|
  {
    var q := reqs[0];
    var m1 := if q.AddRequest? then DL.Add(m, q.c).0 else DL.Remove(m, q.c).0;
    assert Apply(m, reqs) == Apply(m1, reqs[1..]);
    if q != AddRequest(c) {
      if q.RemoveRequest? {
        Seqs.RemoveFirstMultiset(m.toAdd, q.c);
        assert multiset(m1.toAdd)[c] <= multiset(m.toAdd)[c];
      }
      assert c !in m1.toAdd;
      PendingAdditionRequested(m1, reqs[1..], c);
    }
  }

  /** A committed component nobody asks to remove, and not already waiting for removal, survives the flush. */
  lemma NoRemovalKeepsCommitted(m: DL.ModList<ComponentId>, reqs: seq<Request>, c: ComponentId)
    requires c in m.list && c !in m.toRemove && RemoveRequest(c) !in reqs
    ensures c !in Apply(m, reqs).toRemove && c in DL.Flush(Apply(m, reqs)).list
  {
    NeverPendingRemoval(m, reqs, c);
    var m' := Apply(m, reqs);
    assert c in m'.list;
    assert multiset(DL.Flush(m').list)[c] > 0;
  }

  lemma {:induction false} NeverPendingRemoval(m: DL.ModList<ComponentId>, reqs: seq<Request>, c: ComponentId)
    requires c !in m.toRemove && RemoveRequest(c) !in reqs
    ensures c !in Apply(m, reqs).toRemove
    decreases |reqs|
  {
    if reqs != [] {
      var q := reqs[0];
      var m1 := if q.AddRequest? then DL.Add(m, q.c).0 else DL.Remove(m, q.c).0;
      assert Apply(m, reqs) == Apply(m1, reqs[1..]);
      assert c !in m1.toRemove;
      NeverPendingRemoval(m1, reqs[1..], c);
    }
  }

  /** Components that ask for nothing leave the list to be flushed as it was. */
  lemma {:induction false} NothingRequested(cs: seq<ComponentId>, fx: Requests, m: DL.ModList<ComponentId>)
    requires forall k :: k in cs ==> fx(k) == []
    ensures Requested(cs, fx) == [] && Apply(m, Requested(cs, fx)) == m
    decreases |cs|
  {
    if cs != [] {
      NothingRequested(cs[1..], fx, m);
    }
  }
}

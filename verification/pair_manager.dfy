/**
 * danogl.collisions.PairCollisionManager: the ordered registry of narrow-phase
 * handlers. A handler is known by identity (`H`); what it computes for a pair
 * of objects is given by `compute`, which returns `None` for Java's null.
 */
module PairManager {
  import opened Wrappers
  import opened Seqs

  /** The registry of a new manager: the built-in AABB handler alone. */
  function Create<H>(aabbHandler: H): (handlers: seq<H>)
    ensures handlers == [aabbHandler] && NoDuplicates(handlers)
  {
    [aabbHandler]
  }

  /** `registerSinglePairCollisionHandler`: append unless an equal handler is already registered. */
  function Register<H(==)>(handlers: seq<H>, h: H): (r: seq<H>)
    ensures h in handlers ==> r == handlers
    ensures h !in handlers ==> r == handlers + [h]
    ensures h in r
    ensures NoDuplicates(handlers) ==> NoDuplicates(r)
  {
    if h in handlers then handlers else handlers + [h]
  }

  /**
   * `GameObjectCollection.registerPairCollisionHandler`: a null handler is
   * ignored, anything else goes to the registry.
   */
  function RegisterFromCollection<H(==)>(handlers: seq<H>, h: Option<H>): (r: seq<H>)
    ensures h.None? ==> r == handlers
    ensures h.Some? ==> r == Register(handlers, h.value)
  {
    match h
    case None => handlers
    case Some(x) => Register(handlers, x)
  }

  /** Registering the same handler twice has the effect of registering it once. */
  lemma RegisterIsIdempotent<H>(handlers: seq<H>, h: H)
    ensures Register(Register(handlers, h), h) == Register(handlers, h)
  {
  }

  /** `getCollisionData`: the first non-null result, in registration order. */
  function GetCollisionData<H, O, D>(handlers: seq<H>, compute: (H, O, O) -> Option<D>, go1: O, go2: O): (r: Option<D>)
    ensures r.Some? ==> exists i :: 0 <= i < |handlers| && compute(handlers[i], go1, go2) == r
                                    && forall k :: 0 <= k < i ==> compute(handlers[k], go1, go2).None?
    ensures r.None? <==> forall i :: 0 <= i < |handlers| ==> compute(handlers[i], go1, go2).None?
  {
    if handlers == [] then None
    else
      var d := compute(handlers[0], go1, go2);
      if d.Some? then d
      else
        var rest := GetCollisionData(handlers[1..], compute, go1, go2);
        assert forall i :: 1 <= i < |handlers| ==> handlers[i] == handlers[1..][i - 1];
        rest
  }

  /**
   * Handlers after the first one to answer are never consulted: changing
   * them does not change the result.
   */
  lemma {:induction false} LaterHandlersIrrelevant<H, O, D>(handlers: seq<H>, more: seq<H>, compute: (H, O, O) -> Option<D>, go1: O, go2: O)
    requires GetCollisionData(handlers, compute, go1, go2).Some?
    ensures GetCollisionData(handlers + more, compute, go1, go2) == GetCollisionData(handlers, compute, go1, go2)
  {
    assert (handlers + more)[0] == handlers[0];
    if compute(handlers[0], go1, go2).None? {
      assert (handlers + more)[1..] == handlers[1..] + more;
      LaterHandlersIrrelevant(handlers[1..], more, compute, go1, go2);
    }
  }

  /** With only the built-in registration, the registry answers exactly what the AABB handler answers. */
  lemma DefaultRegistryIsAABB<H, O, D>(aabbHandler: H, compute: (H, O, O) -> Option<D>, go1: O, go2: O)
    ensures GetCollisionData(Create(aabbHandler), compute, go1, go2) == compute(aabbHandler, go1, go2)
  {
    assert Create(aabbHandler)[1..] == [];
  }
}

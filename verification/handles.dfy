/**
 Broker handles. A `SendBroker` does not own its table: it points at a
 shared store, and cloning a handle yields a second handle on the SAME store
 rather than a copy of the table. Each call on a handle applies the matching
 table operation to the shared store in one atomic step.
 */
module Handles {
  import opened Broker
  import opened Serialized

  /** The shared table that every clone of one broker points at. */
  class Store<I(==), S> {
    var entries: Table<I, S>

    constructor ()
      ensures entries == New()
    {
      entries := New();
    }
  }

  /** A broker handle: a reference to a shared store. */
  class SendBroker<I(==), S> {
    const store: Store<I, S>

    /** `SendBroker::new`: a handle on a fresh, empty store. */
    constructor New()
      ensures fresh(store)
      ensures forall id :: id !in store.entries
    {
      store := new Store();
    }

    /**
     A further handle on an existing store. It exists only so that `Clone`
     can build its result: the table field is private, so sharing a table
     by cloning is the only way to reach another handle's store.
     */
    constructor Share(s: Store<I, S>)
      ensures store == s
    {
      store := s;
    }

    /** `clone`: a new handle on the same store, not a copy of the table. */
    method Clone() returns (h: SendBroker<I, S>)
      ensures fresh(h)
      ensures h.store == store
    {
      h := new SendBroker.Share(store);
    }

    /** `reg_sender` through this handle, applied to the shared store. */
    method RegSender(id: I, s: S) returns (r: Result<S>)
      modifies store
      ensures (r, store.entries) == Broker.RegSender(old(store.entries), id, s)
    {
      var out := Broker.RegSender(store.entries, id, s);
      r := out.0;
      store.entries := out.1;
    }

    /** `unreg_sender` through this handle, applied to the shared store. */
    method UnregSender(id: I) returns (r: Result<S>)
      modifies store
      ensures (r, store.entries) == Broker.UnregSender(old(store.entries), id)
    {
      var out := Broker.UnregSender(store.entries, id);
      r := out.0;
      store.entries := out.1;
    }

    /** `find_sender` through this handle; the shared store is only read. */
    method FindSender(id: I) returns (r: Result<S>)
      ensures (r, store.entries) == Broker.FindSender(store.entries, id)
    {
      r := Broker.FindSender(store.entries, id).0;
    }

    /** Issue one call of either trait through this handle. */
    method Submit(c: Call<I, S>) returns (r: Result<S>)
      modifies store
      ensures (r, store.entries) == Step(old(store.entries), c)
    {
      match c
      case Reg(id, s) => r := RegSender(id, s);
      case Unreg(id) => r := UnregSender(id);
      case Find(id) => r := FindSender(id);
    }
  }

  /**
   A registration made through one handle is visible to a lookup through a
   clone of it, and the other way round.
   */
  method CloneSharesTable<I(==), S>(b: SendBroker<I, S>, id: I, s1: S, s2: S)
    returns (seen: Result<S>, seenBack: Result<S>)
    modifies b.store
    ensures seen == Ok(Some(s1))
    ensures seenBack == Ok(Some(s2))
  {
    var c := b.Clone();
    var _ := b.RegSender(id, s1);
    seen := c.FindSender(id);
    var _ := c.RegSender(id, s2);
    seenBack := b.FindSender(id);
  }

  /**
   Calls issued one after another through any mix of clones of one broker
   (call i goes through `handles[route[i]]`) get exactly the replies, and
   leave exactly the table, that serving the calls on one table gives.
   */
  method ServeThroughClones<I(==), S>(handles: seq<SendBroker<I, S>>, route: seq<nat>, calls: seq<Call<I, S>>)
    returns (replies: seq<Result<S>>)
    requires |handles| > 0
    requires forall i :: 0 <= i < |handles| ==> handles[i].store == handles[0].store
    requires |route| == |calls|
    requires forall i :: 0 <= i < |route| ==> route[i] < |handles|
    modifies handles[0].store
    ensures replies == Serve(old(handles[0].store.entries), calls).0
    ensures handles[0].store.entries == Serve(old(handles[0].store.entries), calls).1
  {
    var store := handles[0].store;
    var t0 := store.entries;
    replies := [];
    var j := 0;
    while j < |calls|
      invariant 0 <= j <= |calls|
      invariant replies == Serve(t0, calls[..j]).0
      invariant store.entries == Serve(t0, calls[..j]).1
    {
      var r := handles[route[j]].Submit(calls[j]);
      assert calls[..j + 1] == calls[..j] + [calls[j]];
      ServeSnoc(t0, calls[..j], calls[j]);
      replies := replies + [r];
      j := j + 1;
    }
    assert calls[..j] == calls;
  }
}

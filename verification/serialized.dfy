/**
 Runs of broker calls. The table's lock serialises every call, so any set of
 concurrent callers observes some sequence of atomic calls. This module
 serves such a sequence call by call and proves it agrees with a per-id
 reference: the entry under an id after a run is fixed by the LAST
 registration or removal of that id, and the reply to each call is fixed by
 the entry just before it.
 */
module Serialized {
  import opened Broker

  /** One call on a broker handle; every call names an identifier. */
  datatype Call<I(==), S> = Reg(id: I, sender: S) | Unreg(id: I) | Find(id: I)

  /** One atomic call: dispatch to the broker operation it names. */
  function Step<I(==), S>(t: Table<I, S>, c: Call<I, S>): (out: (Result<S>, Table<I, S>))
    ensures out.1.Keys - {c.id} == t.Keys - {c.id}
    ensures forall k :: k in t && k != c.id ==> k in out.1 && out.1[k] == t[k]
  {
    match c
    case Reg(id, s) => RegSender(t, id, s)
    case Unreg(id) => UnregSender(t, id)
    case Find(id) => FindSender(t, id)
  }

  /**
   The entry a call leaves under its own id, given the entry `before` it:
   a registration stores its endpoint, a removal empties the slot and a
   lookup keeps it.
   */
  function After<I(==), S>(before: Option<S>, c: Call<I, S>): Option<S>
  {
    match c
    case Reg(_, s) => Some(s)
    case Unreg(_) => None
    case Find(_) => before
  }

  /**
   The reply a call must receive, given the entry `before` it under its id:
   a registration always succeeds and hands back the displaced entry; a
   removal or lookup hands back the entry, or `NotFound` when there is none.
   */
  function Expected<I(==), S>(before: Option<S>, c: Call<I, S>): Result<S>
  {
    match c
    case Reg(_, _) => Ok(before)
    case _ => if before.Some? then Ok(before) else Err(NotFound)
  }

  /** A single call behaves as `Expected` and `After` predict on its own id. */
  lemma StepPredicted<I, S>(t: Table<I, S>, c: Call<I, S>)
    ensures Step(t, c).0 == Expected(Lookup(t, c.id), c)
    ensures Lookup(Step(t, c).1, c.id) == After(Lookup(t, c.id), c)
  {
  }

  /** The identifiers some call of `calls` names. */
  function Named<I(==), S>(calls: seq<Call<I, S>>): set<I>
  {
    set i | 0 <= i < |calls| :: calls[i].id
  }

  /**
   Serve `calls` in order from table `t`, one atomic call after another: the
   replies, one per call, and the final table.
   */
  function Serve<I(==), S>(t: Table<I, S>, calls: seq<Call<I, S>>): (out: (seq<Result<S>>, Table<I, S>))
    ensures |out.0| == |calls|
    decreases |calls|
  {
    if |calls| == 0 then ([], t)
    else
      var (r, t1) := Step(t, calls[0]);
      var (rs, t2) := Serve(t1, calls[1..]);
      ([r] + rs, t2)
  }

  /**
   A run changes nothing under the ids none of its calls names: those ids
   keep their entries, and no other id gains one.
   */
  lemma {:induction false} ServeFrame<I, S>(t: Table<I, S>, calls: seq<Call<I, S>>, k: I)
    requires k !in Named(calls)
    ensures Lookup(Serve(t, calls).1, k) == Lookup(t, k)
    decreases |calls|
  {
    if |calls| > 0 {
      assert calls[0].id in Named(calls);
      ServeFrame(Step(t, calls[0]).1, calls[1..], k);
    }
  }

  /**
   Reference for the entry under `id` after `calls`, read from the back: the
   last registration or removal of `id` decides it (a lookup leaves it as it
   was); with no such call it is the initial entry.
   */
  function Latest<I(==), S>(t: Table<I, S>, calls: seq<Call<I, S>>, id: I): Option<S>
    decreases |calls|
  {
    if |calls| == 0 then Lookup(t, id)
    else
      var last := calls[|calls| - 1];
      var earlier := Latest(t, calls[..|calls| - 1], id);
      if last.id == id then After(earlier, last) else earlier
  }

  /** Serving a run that starts with `c` takes `c`'s step, then serves the rest. */
  lemma ServeCons<I, S>(t: Table<I, S>, c: Call<I, S>, rest: seq<Call<I, S>>)
    ensures Serve(t, [c] + rest).0 == [Step(t, c).0] + Serve(Step(t, c).1, rest).0
    ensures Serve(t, [c] + rest).1 == Serve(Step(t, c).1, rest).1
  {
    assert ([c] + rest)[1..] == rest;
  }

  /** Serving one more call extends the run by that call's step. */
  lemma {:induction false} ServeSnoc<I, S>(t: Table<I, S>, calls: seq<Call<I, S>>, c: Call<I, S>)
    ensures Serve(t, calls + [c]).0 == Serve(t, calls).0 + [Step(Serve(t, calls).1, c).0]
    ensures Serve(t, calls + [c]).1 == Step(Serve(t, calls).1, c).1
    decreases |calls|
  {
    if |calls| == 0 {
      assert calls + [c] == [c];
    } else {
      var (r, t1) := Step(t, calls[0]);
      assert (calls + [c])[0] == calls[0];
      assert (calls + [c])[1..] == calls[1..] + [c];
      ServeSnoc(t1, calls[1..], c);
      assert Serve(t, calls + [c]).0 == [r] + Serve(t1, calls[1..] + [c]).0;
      assert Serve(t, calls).0 == [r] + Serve(t1, calls[1..]).0;
    }
  }

  /** After a run, the table holds under every id exactly what `Latest` says. */
  lemma {:induction false} ServeMatchesLatest<I, S>(t: Table<I, S>, calls: seq<Call<I, S>>, id: I)
    ensures Lookup(Serve(t, calls).1, id) == Latest(t, calls, id)
    decreases |calls|
  {
    if |calls| == 0 {
    } else {
      var front := calls[..|calls| - 1];
      var last := calls[|calls| - 1];
      assert calls == front + [last];
      ServeSnoc(t, front, last);
      ServeMatchesLatest(t, front, id);
      StepPredicted(Serve(t, front).1, last);
    }
  }

  /**
   Linearisation: the reply to the i-th call is the one `Expected` predicts
   from the entry `Latest` gives for that call's id after the calls before it.
   */
  lemma {:induction false} ServeReplies<I, S>(t: Table<I, S>, calls: seq<Call<I, S>>, i: nat)
    requires i < |calls|
    ensures Serve(t, calls).0[i] == Expected(Latest(t, calls[..i], calls[i].id), calls[i])
    decreases |calls|
  {
    var front := calls[..|calls| - 1];
    var last := calls[|calls| - 1];
    assert calls == front + [last];
    ServeSnoc(t, front, last);
    if i < |front| {
      ServeReplies(t, front, i);
      assert front[..i] == calls[..i];
    } else {
      assert calls[..i] == front;
      ServeMatchesLatest(t, front, last.id);
      StepPredicted(Serve(t, front).1, last);
    }
  }

  /**
   The table after a run holds exactly the ids whose last registration or
   removal was a registration, each with the endpoint of that registration,
   plus the initial entries that no registration or removal touched.
   */
  lemma RegisteredAfterRun<I, S>(t: Table<I, S>, calls: seq<Call<I, S>>, id: I)
    ensures id in Serve(t, calls).1 <==> Latest(t, calls, id).Some?
    ensures id in Serve(t, calls).1 ==> Serve(t, calls).1[id] == Latest(t, calls, id).value
  {
    ServeMatchesLatest(t, calls, id);
  }

  /**
   The scenario register a/e1, find a, register a/e2, unregister a, find a
   replies e1, then e1 as displaced, then e2, then `NotFound`, and leaves the
   table as it was.
   */
  lemma Scenario<I, S>(t: Table<I, S>, a: I, e1: S, e2: S)
    requires a !in t
    ensures Serve(t, [Reg(a, e1), Find(a), Reg(a, e2), Unreg(a), Find(a)]).0 ==
            [Ok(None), Ok(Some(e1)), Ok(Some(e1)), Ok(Some(e2)), Err(NotFound)]
    ensures Serve(t, [Reg(a, e1), Find(a), Reg(a, e2), Unreg(a), Find(a)]).1 == t
  {
    var c4: seq<Call<I, S>> := [Find(a)];
    var c3: seq<Call<I, S>> := [Unreg(a)] + c4;
    var c2: seq<Call<I, S>> := [Reg(a, e2)] + c3;
    var c1: seq<Call<I, S>> := [Find(a)] + c2;
    var c0: seq<Call<I, S>> := [Reg(a, e1)] + c1;
    assert c0 == [Reg(a, e1), Find(a), Reg(a, e2), Unreg(a), Find(a)];
    var t1 := t[a := e1];
    var t2 := t[a := e2];
    assert t2 - {a} == t;
    assert t1[a := e2] == t2;
    var empty: seq<Call<I, S>> := [];
    assert c4 == [Find(a)] + empty;
    ServeCons(t, Find(a), empty);
    ServeCons(t2, Unreg(a), c4);
    ServeCons(t1, Reg(a, e2), c3);
    ServeCons(t1, Find(a), c2);
    ServeCons(t, Reg(a, e1), c1);
  }
}

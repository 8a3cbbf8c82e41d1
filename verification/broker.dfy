/**
 The registry broker: a table from identifiers to opaque endpoint handles,
 with the three table operations `reg_sender`, `unreg_sender` and
 `find_sender` and the empty table `new` builds.

 Every operation of the broker runs with the table's lock held, so each call
 is one atomic step on the table. Here each operation is a pure function from
 the table before the call to the pair (reply, table after the call).
 `I` is the identifier type and `S` the opaque endpoint type (a channel
 sender); cloning an endpoint is the identity on the stored value.
 */
module Broker {

  /** Optional endpoint, as carried in a successful reply. */
  datatype Option<S> = None | Some(value: S)

  /** The broker's one error kind: the identifier has no registration. */
  datatype Error = NotFound

  /** The reply of every operation: an optional endpoint, or an error. */
  datatype Result<S> = Ok(endpoint: Option<S>) | Err(error: Error)

  /** The registry table: at most one endpoint per identifier. */
  type Table<I(==), S> = map<I, S>

  /** The entry stored under `id`, if any. */
  function Lookup<I(==), S>(t: Table<I, S>, id: I): (o: Option<S>)
    ensures o.Some? <==> id in t
    ensures o.Some? ==> o.value == t[id]
  {
    if id in t then Some(t[id]) else None
  }

  /** `SendBroker::new`: a broker whose table holds no entry. */
  function New<I, S>(): (t: Table<I, S>)
    ensures |t| == 0
  {
    map[]
  }

  /**
   `reg_sender`: stores `s` under `id`, replacing any earlier entry. It never
   fails; the reply carries the displaced endpoint, or `None` when `id` was
   not registered.
   */
  function RegSender<I(==), S>(t: Table<I, S>, id: I, s: S): (out: (Result<S>, Table<I, S>))
    ensures out.0.Ok?
    ensures id !in t ==> out.0 == Ok(None)
    ensures id in t ==> out.0 == Ok(Some(t[id]))
    ensures id in out.1 && out.1[id] == s
    ensures out.1.Keys == t.Keys + {id}
    ensures forall k :: k in t && k != id ==> out.1[k] == t[k]
  {
    (Ok(Lookup(t, id)), t[id := s])
  }

  /**
   `unreg_sender`: removes the entry under `id` and replies with it. When
   `id` is not registered it reports `NotFound` and the table is unchanged.
   */
  function UnregSender<I(==), S>(t: Table<I, S>, id: I): (out: (Result<S>, Table<I, S>))
    ensures id !in t ==> out.0 == Err(NotFound) && out.1 == t
    ensures id in t ==> out.0 == Ok(Some(t[id]))
    ensures out.0 != Ok(None)
    ensures out.1.Keys == t.Keys - {id}
    ensures forall k :: k in out.1 ==> out.1[k] == t[k]
  {
    if id in t then (Ok(Some(t[id])), t - {id}) else (Err(NotFound), t)
  }

  /**
   `find_sender`: replies with (a clone of) the entry under `id` and leaves
   the table unchanged; `NotFound` when `id` is not registered.
   */
  function FindSender<I(==), S>(t: Table<I, S>, id: I): (out: (Result<S>, Table<I, S>))
    ensures out.1 == t
    ensures out.0 == Err(NotFound) <==> id !in t
    ensures id in t ==> out.0 == Ok(Some(t[id]))
    ensures out.0 != Ok(None)
  {
    match Lookup(t, id)
    case None => (Err(NotFound), t)
    case Some(s) => (Ok(Some(s)), t)
  }

  /** A fresh broker knows no identifier: finding or unregistering any id fails. */
  lemma NewKnowsNothing<I, S>(id: I)
    ensures FindSender(New<I, S>(), id).0 == Err(NotFound)
    ensures UnregSender(New<I, S>(), id) == (Err(NotFound), New<I, S>())
  {
  }

  /** Register-then-find returns the endpoint just registered. */
  lemma RegThenFind<I, S>(t: Table<I, S>, id: I, s: S)
    ensures FindSender(RegSender(t, id, s).1, id).0 == Ok(Some(s))
  {
  }

  /**
   Last write wins: a second registration under the same id displaces the
   first endpoint, and the table holds exactly what a single registration of
   the second endpoint would have produced.
   */
  lemma LastWriteWins<I, S>(t: Table<I, S>, id: I, s1: S, s2: S)
    ensures RegSender(RegSender(t, id, s1).1, id, s2).0 == Ok(Some(s1))
    ensures RegSender(RegSender(t, id, s1).1, id, s2).1 == RegSender(t, id, s2).1
    ensures FindSender(RegSender(RegSender(t, id, s1).1, id, s2).1, id).0 == Ok(Some(s2))
  {
  }

  /** Unregister-then-find: once removed, the id is no longer found. */
  lemma UnregThenFind<I, S>(t: Table<I, S>, id: I)
    ensures FindSender(UnregSender(t, id).1, id).0 == Err(NotFound)
  {
  }

  /**
   Registering a fresh id and then unregistering it hands back the endpoint
   and restores the table exactly.
   */
  lemma RegUnregRoundTrip<I, S>(t: Table<I, S>, id: I, s: S)
    requires id !in t
    ensures UnregSender(RegSender(t, id, s).1, id) == (Ok(Some(s)), t)
  {
    var t1 := RegSender(t, id, s).1;
    assert t1 - {id} == t;
  }

  /**
   Unregistering a present id and registering the returned endpoint again
   restores the table exactly, and the re-registration displaces nothing.
   */
  lemma UnregRegRoundTrip<I, S>(t: Table<I, S>, id: I)
    requires id in t
    ensures var (r, t1) := UnregSender(t, id);
            r.Ok? && r.endpoint.Some? &&
            RegSender(t1, id, r.endpoint.value) == (Ok(None), t)
  {
    var (r, t1) := UnregSender(t, id);
    assert t1[id := t[id]] == t;
  }

  /** Finding is idempotent: a find after a find gives the same reply and table. */
  lemma FindIdempotent<I, S>(t: Table<I, S>, id: I)
    ensures FindSender(FindSender(t, id).1, id) == FindSender(t, id)
  {
  }

  /**
   Operations on different identifiers do not interfere: a registration or
   removal under `id` leaves the reply of a find on any other id unchanged.
   */
  lemma OtherKeysUnaffected<I, S>(t: Table<I, S>, id: I, other: I, s: S)
    requires id != other
    ensures FindSender(RegSender(t, id, s).1, other).0 == FindSender(t, other).0
    ensures FindSender(UnregSender(t, id).1, other).0 == FindSender(t, other).0
  {
  }

  /**
   Of the three operations only registration can reply `Ok(None)`: a
   successful removal or lookup always carries an endpoint.
   */
  lemma OnlyRegRepliesNone<I, S>(t: Table<I, S>, id: I, s: S)
    ensures UnregSender(t, id).0.Ok? ==> UnregSender(t, id).0.endpoint.Some?
    ensures FindSender(t, id).0.Ok? ==> FindSender(t, id).0.endpoint.Some?
    ensures RegSender(t, id, s).0 == Ok(None) <==> id !in t
  {
  }
}

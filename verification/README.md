# sendbroker registry broker, modelled in Dafny

`sendbroker` is a process-local registry. Components register a message
endpoint (an `mpsc::Sender`) under an identifier. Other components look that
identifier up to get a handle for sending to them, and the registration can be
removed later. `SendBroker` holds a `HashMap` from identifiers to senders
behind an `Arc<Mutex<…>>`. It offers three operations: `reg_sender`,
`unreg_sender` (both from the `Registrar` trait) and `find_sender` (from the
`Finder` trait). Every reply is a `Result<Option<Sender>, Error>`, and the
only error is `Error::NotFound`.

The model has three modules:

- `Broker` (broker.dfy) holds the table operations as pure functions. Each
  one maps the table before the call to the pair (reply, table after). The
  table is a `map<I, S>`, with `S` an opaque endpoint type. `Result` is
  `Ok(Option<S>) | Err(NotFound)`. The file also proves the pairwise laws:
  register-then-find, last write wins, the register/unregister round trips in
  both orders, that a find changes nothing, and that calls on different ids do
  not interfere.
- `Serialized` (serialized.dfy) covers runs of calls. The mutex makes each
  call one atomic step, so concurrent callers see some sequence of calls.
  `Serve` runs such a sequence. `Latest` is an independent reference that
  reads each id's entry off the last registration or removal of that id. The
  lemmas prove that the final table and every reply agree with that
  reference.
- `Handles` (handles.dfy) models the handles as classes. `SendBroker` points
  at a shared `Store`, and `Clone` returns a new handle on the same store, so
  a registration through one handle is visible through the other. Calls
  issued through any mix of clones get exactly the replies `Serve` predicts.

## Model

| member | source | states |
|---|---|---|
| Broker.Lookup | src/lib.rs:97 | the lookup yields an endpoint exactly when the id is registered, and then it is the stored one |
| Broker.New | src/lib.rs:54-58 | a new broker's table is empty: it has no entry for any identifier |
| Broker.RegSender | src/lib.rs:72-79 | registration never fails; it replies `Ok(None)` for a fresh id and `Ok(Some(prev))` with the displaced endpoint otherwise; afterwards the id maps to the new endpoint, the key set gains exactly that id and every other entry is unchanged |
| Broker.UnregSender | src/lib.rs:81-88 | on an absent id it replies `Err(NotFound)` and leaves the table unchanged; on a present id it replies `Ok(Some(e))` with the stored endpoint and removes exactly that key; it never replies `Ok(None)` |
| Broker.FindSender | src/lib.rs:94-101 | the table is unchanged; the reply is `Err(NotFound)` if and only if the id is absent, otherwise `Ok(Some(e))` with the stored endpoint; it never replies `Ok(None)` |
| Broker.NewKnowsNothing | src/lib.rs:54-58 | on a new broker, find and unregister of any id fail with `NotFound`, and unregister leaves the table empty |
| Broker.RegThenFind | src/lib.rs:75 | a find right after registering `s` under `id` returns `s` |
| Broker.LastWriteWins | src/lib.rs:75-77 | a second registration under the same id returns the first endpoint as displaced; the table equals that of a single registration of the second, and a find returns the second |
| Broker.UnregThenFind | src/lib.rs:84-86 | after unregistering an id, a find on it fails with `NotFound` |
| Broker.RegUnregRoundTrip | src/lib.rs:75-86 | registering a fresh id and then unregistering it returns the registered endpoint and restores the original table |
| Broker.UnregRegRoundTrip | src/lib.rs:75-86 | unregistering a present id and re-registering the returned endpoint restores the original table, and the re-registration displaces nothing |
| Broker.FindIdempotent | src/lib.rs:96-99 | repeating a find gives the same reply and the same table |
| Broker.OtherKeysUnaffected | src/lib.rs:75-97 | registering or unregistering one id does not change the reply of a find on any other id |
| Broker.OnlyRegRepliesNone | src/lib.rs:76-99 | a successful unregister or find always carries an endpoint; registration replies `Ok(None)` exactly when the id was absent |
| Serialized.Step | src/lib.rs:72-101 | a single call changes the table only under its own id |
| Serialized.Serve | src/lib.rs:72-101 | one ordering of atomic calls under the mutex, served one after another from a starting table; it gives exactly one reply per call (the replies and final table are characterised by `ServeReplies` and `ServeMatchesLatest`) |
| Serialized.ServeFrame | src/lib.rs:75-97 | a run leaves the entry (or absence) under every id that none of its calls names exactly as it was |
| Serialized.StepPredicted | src/lib.rs:72-101 | a call's reply and the entry it leaves under its id are determined by the entry under that id just before it |
| Serialized.ServeSnoc | src/lib.rs:72-101 | serving one more call extends the replies by that call's reply, taken on the table the earlier calls left |
| Serialized.ServeMatchesLatest | src/lib.rs:72-101 | after any run of calls, every id's entry is the one its last registration or removal leaves, or the initial entry if no such call touched it |
| Serialized.ServeReplies | src/lib.rs:72-101 | the reply to each call in a run is the one predicted from that id's entry after the calls before it |
| Serialized.RegisteredAfterRun | src/lib.rs:72-101 | after a run, an id is registered if and only if the reference gives it an entry, and it holds that entry |
| Serialized.Scenario | src/lib.rs:72-101 | on a fresh id, register e1, find, register e2, unregister, find replies `Ok(None)`, `e1`, `e1` as displaced, `e2`, then `NotFound`, and the table ends as it began |
| Handles.SendBroker.New | src/lib.rs:54-58 | a new handle points at a freshly allocated store whose table has no entry for any identifier |
| Handles.SendBroker.RegSender | src/lib.rs:72-79 | the reply and the shared table afterwards are `Broker.RegSender` applied to the shared table before the call |
| Handles.SendBroker.UnregSender | src/lib.rs:81-88 | the reply and the shared table afterwards are `Broker.UnregSender` applied to the shared table before the call |
| Handles.SendBroker.FindSender | src/lib.rs:94-101 | the reply is `Broker.FindSender` applied to the shared table, and that table is left as it was |
| Handles.SendBroker.Submit | src/lib.rs:72-101 | a call of either trait through a handle has the reply and shared table that `Serialized.Step` gives on the table before it |
| Handles.ServeThroughClones | src/lib.rs:61-101 | calls issued in sequence through any mix of handles that share one store get exactly the replies, and leave exactly the table, that `Serve` gives for the same calls on the starting table |
| Handles.SendBroker.Clone | src/lib.rs:61-66 | a clone is a new handle on the same shared store |
| Handles.CloneSharesTable | src/lib.rs:61-66 | a registration through a handle is seen by a find through its clone, and the other way round |

## Left out

- Logging: the `trace!` calls only log, so they are not modelled.
- Locking: the `Mutex` lock and the `.unwrap()` that panics on a poisoned lock are not modelled. Each call is one atomic step, and the `Serialized` module covers the sequences such steps form.
- Lifetime: the `Arc` reference count and freeing the table when the last handle is dropped are not modelled. Dafny's heap has no deallocation.
- Endpoints: `mpsc::Sender` is an opaque type parameter `S`. `.cloned()` on a found sender is the identity on the stored value.
- Error messages: the `description`, `cause` and `Display` impls of `Error` (src/lib.rs:17-34) only format text.
- The message-passing broker, where a worker thread owns the table, and its `ConnectionBroken` error are not part of this model. Neither appears in src/lib.rs.
- The `Registrar` and `Finder` traits (src/lib.rs:38-45) are not modelled as separate interfaces. Their methods are the operations above.
- Concurrency: the model assumes the mutex lets concurrent calls run in some order. It does not model which order they run in.

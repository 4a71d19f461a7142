# Subscription service: a Dafny model

This models a small social-subscription service. Users register with a unique
username. A user asks to subscribe to another user, and the request stays
pending until it is confirmed. Users who hold a live websocket connection get
text notifications about requests and confirmations.

The model is a state machine over an immutable record:

- `users`: the users table in rowid order.
- `ledger`: the subscriptions table, a map from the ordered pair
  `(subscriber_id, subscribed_to_id)` to the `is_confirmed` flag.
- `registry`: the `ConnectionManager`'s map from a user-id string to a connection handle.
- `outbox`: every `(handle, text)` frame sent so far, in send order.

Each handler is a total function. On success it returns `Ok(Reply(next state, reply text))`.
On failure it returns `Err(kind)` and the caller keeps the old state.

Files:

- `schema.dfy` (module `Schema`) covers the tables and their constraints: the id primary
  key, the unique username, the composite key on the ordered pair, the
  `is_confirmed` default and the `subscribed_to`/`subscribers` relationship.
- `decimal.dfy` (module `Decimal`) is Python's `str` on integers, which turns a user id
  into a registry key, plus a parser and an injectivity proof.
- `connections.dfy` (module `Connections`) has `connect`, `disconnect` and `send_personal_message`.
- `service.dfy` (module `Service`) has `create_user`, `subscribe` and `confirm_subscription`,
  with their errors checked in the source's order.
- `traces.dfy` (module `Traces`) runs sequences of requests and proves the invariants hold along
  every run. It also walks through the two-user scenario one request at a time.

Modelling choices:

- The users table is a sequence in rowid order. SQLite gives a new row the rowid one past the
  largest in use, and a `.first()` lookup with no ordering returns the earliest matching row.
  `NextId` and `FindByUsername` model that, for ids below the 64-bit limit (see "Left out").
- Error kinds stand in for the HTTP status codes. `DuplicateUsername`, `DuplicateSubscription`
  and `AlreadyConfirmed` are the 400 responses. `UserNotFound` and `SubscriptionNotFound` are the
  404 responses. `ServerError` is an exception the handler does not catch, a 500.
- The schema constraints are ghost predicates in `Schema`. `IdsIncreasing` and `IdsPositive`
  model the integer primary key (models.py:25). `UsernamesUnique` models the unique username
  (models.py:26). `UsersValid` combines the three. `LedgerRefersToUsers` models the two foreign
  keys (models.py:39-40). `Service.Valid` is the invariant on the whole store: `UsersValid` and
  `LedgerRefersToUsers` together.
- The notification texts are fixed strings. `Service.SubscribeNotice` is the text sent to the
  subscribed-to user (main.py:94). `Service.ConfirmedNotice` is the text sent to the subscriber
  (main.py:126). `Service.ConfirmerNotice` is the text sent to the subscribed-to user on
  confirmation (main.py:130).
- `Traces.Commit` applies a handler's result: on success the new state replaces the old; on an
  error the store is unchanged.
- In `subscribe` and `confirm_subscription` the subscriptions lookup takes the first scalar of the
  result (main.py:78, main.py:108). On a plain table that scalar is the first column,
  `subscriber_id`, not the row (`Service.FirstScalar`). In `subscribe` the duplicate check then
  tests the truthiness of that id. This agrees with testing whether the row exists only because
  ids are at least 1 (`Service.DuplicateCheckAsWrittenAgrees`). `Service.Subscribe` therefore
  tests whether the row exists. In `confirm_subscription` the next line reads `is_confirmed` off
  that int and raises. That is a defect, recorded under "Findings". `Service.ConfirmSubscription`
  is the intended handler, and `Traces` uses it.
- A connection handle is an opaque identity (`Handle(socket)`). Sending a text frame appends
  a `Delivery` to the outbox.

## Model

| member | source | states |
|---|---|---|
| Schema.FindByUsername | main.py:22-23 | returns nothing exactly when no row has that username; otherwise returns the earliest row whose username equals it |
| Schema.FindByUsernameUnique | models.py:26 | under the unique-username constraint, the lookup returns the one row that has that name |
| Schema.MaxId | models.py:25 | the largest of 0 and the ids in use: at least every id, and either 0 or itself an id in use |
| Schema.NextId | models.py:25 | the id the store gives a new user is one past the largest id in use (1 for an empty table): larger than every id in use, so it is fresh |
| Schema.Rows | models.py:37-42 | the table as a set of rows: one row per ledger key, carrying that key's flag, and no other rows |
| Schema.RowsKeyedByPair | models.py:39-40 | composite primary key: two rows with the same ordered pair are the same row |
| Schema.SubscribedTo | models.py:28-32 | the users `id` has a row towards, pending or confirmed, are exactly the `t` with `(id, t)` in the ledger |
| Schema.Subscribers | models.py:33 | the backref: exactly the `s` with `(s, id)` in the ledger |
| Schema.BackrefIsReverse | models.py:28-33 | `b` is in `a`'s `subscribed_to` exactly when `a` is in `b`'s `subscribers` |
| Decimal.NatToString | main.py:95 | a non-empty string of digits with no leading zero, and "0" for zero |
| Decimal.IntToString | main.py:95 | Python `str` of an int: the canonical numeral, "0" for zero, digits with no leading zero for positive values, `-` then such digits for negative ones |
| Decimal.NatToStringRoundTrip | main.py:95 | the digit string reads back as the number it was made from |
| Decimal.IntToStringRoundTrip | main.py:95 | the text `str` gives parses back to the same integer |
| Decimal.IntToStringInjective | main.py:127-131 | two ids give the same registry key exactly when they are equal |
| Connections.Connect | main.py:35-37 | the id now maps to the new handle, replacing any earlier handle; every other entry is kept |
| Connections.Disconnect | main.py:39-41 | the id is no longer registered; every other entry is kept with its handle |
| Connections.SendPersonalMessage | main.py:43-45 | the outbox grows by one frame exactly when the id is registered, and that frame carries the message to the registered handle; otherwise nothing is sent and no error is raised |
| Connections.NewestHandleWins | main.py:37 | after two connects for one id, a send reaches only the newer handle |
| Connections.ConnectIsolated | main.py:37 | connecting one id does not change what a send to another id does |
| Connections.DisconnectedReceivesNothing | main.py:39-45 | after a disconnect, a send to that id sends nothing |
| Connections.DisconnectAbsentIsNoop | main.py:39-41 | disconnecting an unregistered id changes nothing, and a second disconnect does nothing |
| Connections.ConnectDisconnectRoundTrip | main.py:35-41 | connect then disconnect of a new id restores the registry |
| Service.CreateUser | main.py:19-29 | fails with DuplicateUsername exactly when the name is taken; otherwise appends exactly one user with that name and a fresh id, leaves ledger, registry and outbox alone, replies with the username and keeps the schema constraints |
| Service.CreateUserTwiceFails | main.py:22-25 | creating the same username a second time fails with DuplicateUsername |
| Service.ResolvePair | main.py:63-71 | gives a pair exactly when both usernames exist, and the pair is made of the ids of users with those names |
| Service.ResolvePairDetermined | main.py:63-68 | with unique usernames, the resolved pair is the two named users' ids |
| Service.Subscribe | main.py:60-98 | UserNotFound exactly when either name is missing, checked before the duplicate check; DuplicateSubscription exactly when the pair already has a row, whatever its flag; on success only that pair is added, as pending; users and registry are unchanged, the outbox only grows, and the reply names both users |
| Service.SubscribeKeepsValid | main.py:83-89 | a successful subscribe keeps the schema constraints: both ends of the new row are existing users |
| Service.NewSubscriptionPending | models.py:41 | the inserted row's flag is the column default, unconfirmed |
| Service.SubscribeNotifiesTarget | main.py:93-96 | the only frame sent goes to the handle registered under `str` of the subscribed-to id, if there is one; its text names the subscriber and says "subscribed" |
| Service.SubscribeTwiceFails | main.py:73-81 | re-requesting a pair fails with DuplicateSubscription; the ledger holds exactly one row for the pair, the pending one |
| Service.SubscribePermissive | main.py:83-89 | self-subscription is allowed, and a row for the reverse pair neither blocks the request nor is changed by it |
| Service.FirstScalar | main.py:78 | the first scalar of the subscriptions lookup exists exactly when some row of the table has that ordered pair, and it is that row's first column, `subscriber_id`, not the row |
| Service.DuplicateCheckAsWrittenAgrees | main.py:73-80 | with ids at least 1, the as-written duplicate check (the truthiness of the first scalar, `subscriber_id`) holds exactly when the pair has a row |
| Service.ConfirmSubscriptionAsWritten | main.py:103-114 | the handler as written never succeeds: SubscriptionNotFound exactly when the pair has no row or its subscriber id is 0; a server error exactly when the pair has a row with a non-zero subscriber id |
| Service.ConfirmAsWrittenFailsOnPendingRow | main.py:108-114 | on every pending row, where the intended handler confirms, the handler as written fails with a server error |
| Service.ConfirmSubscription | main.py:100-134 | intended behaviour (see Findings): SubscriptionNotFound exactly when the pair has no row; AlreadyConfirmed exactly when its flag is set; on success only that flag flips from false to true; users and registry are unchanged, the outbox only grows |
| Service.ConfirmNotifiesBoth | main.py:124-132 | intended behaviour: the new frames are the subscriber's notice first and the subscribed-to user's notice second, each only if that user is registered |
| Service.ConfirmTwiceFails | main.py:110-121 | intended behaviour: confirming a second time fails with AlreadyConfirmed and the flag stays set |
| Service.ConnectUser | main.py:35-37 | connect changes only the registry: the id is registered to the handle, and every other id keeps its handle |
| Service.DisconnectUser | main.py:39-41 | disconnect changes only the registry: the id is no longer registered, and every other id keeps its handle |
| Service.NoticeReachesOnlyItsUser | main.py:93-96 | a notice addressed to `str(n)` is not changed by a connection registered under `str(m)` for `m != n` |
| Traces.Step | main.py:19-134 | any single request keeps the schema constraints; users and outbox only grow at the end; rows are never removed; confirmed rows stay confirmed |
| Traces.Run | main.py:19-134 | the same holds over any sequence of requests |
| Traces.ReachableValid | models.py:22-42 | every state reachable from the empty store has unique ids, unique usernames and rows that refer to existing users |
| Traces.ConfirmedIsTerminal | main.py:110-121 | no sequence of requests removes a confirmed row or makes it pending again |
| Traces.RunSnoc | main.py:19-134 | running one more request after a sequence is one more step on the state the sequence reached |
| Traces.AliceAndBob | main.py:60-134 | alice gets id 1 and bob id 2; alice subscribing to bob creates the row (1,2,false) and notifies bob; confirming with the intended handler sets (1,2,true) and notifies alice, then bob |
| Traces.AliceAndBobAsWritten | main.py:108-114 | in the same scenario the handler as written answers the confirmation with a server error, where the intended one succeeds |

## Left out

- HTTP routing, `Depends(get_db)` and status codes: errors are an enum. The reply's JSON wrapper
  is reduced to the message text.
- The SQLAlchemy engine, sessions and `create_tables` (models.py:4-8, models.py:44-46, main.py:7-10)
  are plumbing with no logic to model.
- Durability and transactions. Each request gets its own session (main.py:7-10), and
  `async with` closes it at the end of the handler (main.py:62). The commit on the subscribe path
  is commented out (main.py:90), so the inserted row is rolled back when the session closes. In the
  source, a subscription row never reaches a later request: a repeated subscribe succeeds again,
  and a confirm answers 404. The model deliberately keeps the row, as the handler evidently
  intends. These members rely on that choice: `Traces.Step`, `Traces.Run`,
  `Traces.ConfirmedIsTerminal`, `Traces.AliceAndBob`, `Service.SubscribeTwiceFails`,
  `Service.ConfirmNotifiesBoth` and `Service.ConfirmTwiceFails`. Nothing is claimed about what
  survives a restart.
- Schema.NextId: ids are unbounded. SQLite's INTEGER is 64-bit, and its max+1 rowid rule holds
  only while the largest id is below 2^63-1. Past that, SQLite picks an unused rowid at random
  (or fails when none is left).
- Service.ConfirmSubscriptionAsWritten: the query parameters are unbounded ints. In the source, an id
  outside the 64-bit range raises OverflowError when bound to the query, before the lookup, a 500
  response. The model answers SubscriptionNotFound.
- Service.ConfirmSubscription: the query parameters are unbounded ints. In the source, an id
  outside the 64-bit range raises OverflowError when bound to the query, a 500 response. The model
  answers SubscriptionNotFound.
- The websocket endpoint's accept and receive loop (main.py:49-56) is transport glue. `disconnect`
  is modelled from its body only. At main.py:56 the endpoint calls it without `await`, so the
  coroutine never runs and a closed socket stays registered. The model does not claim that a
  dropped connection is removed from the registry.
- Failures of `send_text` on a handle (a closed socket raising) are left out. The code only checks
  whether the key is present, and the model sends whenever it is.
- async/await and concurrent access to the registry and the store are left out. Every request is
  modelled as one atomic step.
- `get_users` (main.py:12-17) only reads the table, so it adds nothing to model.
- The foreign keys in models.py:39-40 are stated as an invariant that the handlers preserve
  (`LedgerRefersToUsers`), not as a constraint the store enforces. SQLite does not enforce them
  by default.

## Findings

| source | as written | input that shows it | evidently intended | confidence | as-written member | corrected member |
|---|---|---|---|---|---|---|
| main.py:108-114 | `result.scalars().first()` on a Core table yields the first column, `subscriber_id` (an int), and `subscription.is_confirmed` then raises AttributeError: a 500, nothing updated, nothing sent | a store with users 1 and 2 and the pending row (1,2,false); confirm (1,2) (`Traces.AliceAndBobAsWritten`) | read the whole row, so a pending row is confirmed, both users are notified and "Subscription confirmed." is returned | high; not executed | Service.ConfirmSubscriptionAsWritten (with Service.ConfirmAsWrittenFailsOnPendingRow) | Service.ConfirmSubscription (with Service.ConfirmTwiceFails, Service.ConfirmNotifiesBoth) |

/**
  Sequences of requests against the service. Every request either commits
  the handler's next state or, on an error, leaves the state as it was; over
  any sequence the schema constraints hold, users and rows are never removed,
  a confirmed row never returns to pending, and the outbox only grows.
 */
module Traces {
  import opened Schema
  import opened Decimal
  import opened Connections
  import opened Service

  /** The operations that change the state: the three POST handlers and the
      registry's `connect` and `disconnect`. `DisconnectRequest` is the body of
      `disconnect` taken on its own; the websocket endpoint never actually runs
      it, because it calls it without awaiting. */
  datatype Request =
    | CreateUserRequest(username: string)
    | SubscribeRequest(subscriberUsername: string, subscribeToUsername: string)
    | ConfirmRequest(subscriberId: UserId, subscribedToId: UserId)
    | ConnectRequest(userId: string, handle: Handle)
    | DisconnectRequest(userId: string)

  /** What any request may do to the state: users and outbox only grow at
      the end, ledger rows are never removed, confirmed rows stay confirmed. */
  ghost predicate Progress(s: State, t: State) {
    && |s.users| <= |t.users| && t.users[..|s.users|] == s.users
    && s.ledger.Keys <= t.ledger.Keys
    && (forall p :: p in s.ledger && s.ledger[p] ==> t.ledger[p])
    && |s.outbox| <= |t.outbox| && t.outbox[..|s.outbox|] == s.outbox
  }

  lemma ProgressTransitive(a: State, b: State, c: State)
    requires Progress(a, b) && Progress(b, c)
    ensures Progress(a, c)
  {
    assert c.users[..|a.users|] == c.users[..|b.users|][..|a.users|];
    assert c.outbox[..|a.outbox|] == c.outbox[..|b.outbox|][..|a.outbox|];
  }

  function Commit(s: State, r: Result<Reply>): State {
    if r.Ok? then r.value.state else s
  }

  /** One request. Confirmation runs the intended `ConfirmSubscription`; the
      handler as written never commits a confirmation (see
      `ConfirmSubscriptionAsWritten`), so with it every trace would leave every
      row pending. */
  function Step(s: State, req: Request): (t: State)
    ensures Valid(s) ==> Valid(t)
    ensures Progress(s, t)
  {
    match req
    case CreateUserRequest(name) =>
      Commit(s, CreateUser(s, name))
    case SubscribeRequest(a, b) =>
      SubscribeKeepsValid(s, a, b);
      Commit(s, Subscribe(s, a, b))
    case ConfirmRequest(sid, tid) =>
      Commit(s, ConfirmSubscription(s, sid, tid))
    case ConnectRequest(userId, handle) =>
      ConnectUser(s, userId, handle)
    case DisconnectRequest(userId) =>
      DisconnectUser(s, userId)
  }

  /** A sequence of requests, first to last. */
  function Run(s: State, requests: seq<Request>): (t: State)
    ensures Valid(s) ==> Valid(t)
    ensures Progress(s, t)
    decreases |requests|
  {
    if requests == [] then s
    else
      var next := Step(s, requests[0]);
      var t := Run(next, requests[1..]);
      ProgressTransitive(s, next, t);
      t
  }

  /** Every state reachable from the empty store satisfies the schema constraints. */
  lemma ReachableValid(requests: seq<Request>)
    ensures Valid(Run(Initial, requests))
  {
    InitialValid();
  }

  /** Confirmed is terminal: no sequence of requests brings a row back to
      pending or removes it. */
  lemma ConfirmedIsTerminal(s: State, requests: seq<Request>, p: Pair)
    requires p in s.ledger && s.ledger[p]
    ensures p in Run(s, requests).ledger && Run(s, requests).ledger[p]
  {
  }

  /** Running one more request is one more step. */
  lemma {:induction false} RunSnoc(s: State, requests: seq<Request>, last: Request)
    ensures Run(s, requests + [last]) == Step(Run(s, requests), last)
    decreases |requests|
  {
    if requests == [] {
      assert [last][1..] == [];
    } else {
      assert (requests + [last])[1..] == requests[1..] + [last];
      RunSnoc(Step(s, requests[0]), requests[1..], last);
    }
  }

  // ----- the two-user scenario, one step per lemma -----

  function AliceOnly(): State {
    State([User(1, "alice")], map[], map[], [])
  }

  function BothOnline(alice: Handle, bob: Handle): State {
    State([User(1, "alice"), User(2, "bob")], map[], map["1" := alice, "2" := bob], [])
  }

  function Requested(alice: Handle, bob: Handle): State {
    BothOnline(alice, bob).(ledger := map[Pair(1, 2) := false],
                            outbox := [Delivery(bob, SubscribeNotice("alice"))])
  }

  function Confirmed(alice: Handle, bob: Handle): State {
    Requested(alice, bob).(ledger := map[Pair(1, 2) := true],
                           outbox := [Delivery(bob, SubscribeNotice("alice")),
                                      Delivery(alice, ConfirmedNotice),
                                      Delivery(bob, ConfirmerNotice(1))])
  }

  lemma AliceRegisters()
    ensures CreateUser(Initial, "alice") == Ok(Reply(AliceOnly(), "alice"))
  {
    assert !HasUsername(Initial.users, "alice");
  }

  lemma BobRegistersAndBothConnect(alice: Handle, bob: Handle)
    ensures CreateUser(AliceOnly(), "bob").Ok?
    ensures ConnectUser(ConnectUser(CreateUser(AliceOnly(), "bob").value.state, "1", alice), "2", bob)
            == BothOnline(alice, bob)
  {
    assert !HasUsername(AliceOnly().users, "bob");
    assert MaxId([User(1, "alice")]) == 1;
  }

  lemma AliceSubscribesToBob(alice: Handle, bob: Handle)
    ensures Subscribe(BothOnline(alice, bob), "alice", "bob").Ok?
    ensures Subscribe(BothOnline(alice, bob), "alice", "bob").value.state == Requested(alice, bob)
  {
    var s := BothOnline(alice, bob);
    ResolvePairDetermined(s.users, "alice", "bob", 1, 2);
    assert IntToString(2) == "2";
    SubscribeNotifiesTarget(s, "alice", "bob");
  }

  lemma BobConfirms(alice: Handle, bob: Handle)
    ensures ConfirmSubscription(Requested(alice, bob), 1, 2).Ok?
    ensures ConfirmSubscription(Requested(alice, bob), 1, 2).value.state == Confirmed(alice, bob)
  {
    assert IntToString(1) == "1" && IntToString(2) == "2";
    ConfirmNotifiesBoth(Requested(alice, bob), 1, 2);
  }

  lemma RegisterSteps(alice: Handle, bob: Handle)
    ensures Step(Initial, CreateUserRequest("alice")) == AliceOnly()
    ensures Step(Step(Step(AliceOnly(), CreateUserRequest("bob")), ConnectRequest("1", alice)), ConnectRequest("2", bob))
            == BothOnline(alice, bob)
  {
    AliceRegisters();
    BobRegistersAndBothConnect(alice, bob);
  }

  lemma SubscribeStep(alice: Handle, bob: Handle)
    ensures Step(BothOnline(alice, bob), SubscribeRequest("alice", "bob")) == Requested(alice, bob)
  {
    AliceSubscribesToBob(alice, bob);
  }

  /** The same confirmation against the handler as written is a server error. */
  lemma AliceAndBobAsWritten(alice: Handle, bob: Handle)
    ensures ConfirmSubscriptionAsWritten(Requested(alice, bob), 1, 2) == Err(ServerError)
    ensures ConfirmSubscription(Requested(alice, bob), 1, 2).Ok?
  {
    BobConfirms(alice, bob);
  }

  lemma ConfirmStep(alice: Handle, bob: Handle)
    ensures Step(Requested(alice, bob), ConfirmRequest(1, 2)) == Confirmed(alice, bob)
  {
    BobConfirms(alice, bob);
  }

  /** Two users register, both connect, alice subscribes to bob and the
      subscription is confirmed: alice gets id 1 and bob id 2, the request
      creates the pending row (1, 2) and bob is told of it, the confirmation
      sets the row's flag and tells alice, then bob, in that order. */
  lemma AliceAndBob(alice: Handle, bob: Handle)
    ensures Step(Initial, CreateUserRequest("alice")) == AliceOnly()
    ensures Step(Step(Step(AliceOnly(), CreateUserRequest("bob")), ConnectRequest("1", alice)), ConnectRequest("2", bob))
            == BothOnline(alice, bob)
    ensures Step(BothOnline(alice, bob), SubscribeRequest("alice", "bob")) == Requested(alice, bob)
    ensures Step(Requested(alice, bob), ConfirmRequest(1, 2)) == Confirmed(alice, bob)
  {
    RegisterSteps(alice, bob);
    SubscribeStep(alice, bob);
    ConfirmStep(alice, bob);
  }
}

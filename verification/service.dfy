/**
  The request handlers of the subscription service as total functions over an
  immutable state: the users table, the subscriptions ledger, the connection
  registry and the outbox of every text frame sent so far. A handler either
  succeeds with the next state and its reply text or fails with an error kind;
  on failure the store is left as it was, since nothing is written before the
  failing check.
 */
module Service {
  import opened Schema
  import opened Decimal
  import opened Connections

  /** The error kinds the handlers raise, in place of HTTP status codes. */
  datatype Error =
    | DuplicateUsername       // 400 "Username already registered"
    | UserNotFound            // 404 "User not found"
    | DuplicateSubscription   // 400 "Already subscribed or pending confirmation"
    | SubscriptionNotFound    // 404 "Subscription not found"
    | AlreadyConfirmed        // 400 "Subscription already confirmed"
    | ServerError             // 500: an exception the handler does not catch

  datatype Result<+T> = Ok(value: T) | Err(error: Error)

  datatype State = State(users: Users, ledger: Ledger, registry: Registry, outbox: Outbox)

  /** A successful handler's outcome: the next state and the reply's text. */
  datatype Reply = Reply(state: State, message: string)

  const Initial: State := State([], map[], map[], [])

  /** The schema constraints: unique ids and usernames, and both ends of
      every subscription naming an existing user. */
  ghost predicate Valid(s: State) {
    UsersValid(s.users) && LedgerRefersToUsers(s.ledger, s.users)
  }

  lemma InitialValid()
    ensures Valid(Initial)
  {
  }

  /** `after` is `before` with `key` set to `flag` and every other entry kept. */
  ghost predicate SetsOnly(before: Ledger, after: Ledger, key: Pair, flag: bool) {
    && key in after && after[key] == flag
    && after.Keys == before.Keys + {key}
    && forall q :: q in before && q != key ==> after[q] == before[q]
  }

  ghost predicate OccursAt(text: string, part: string, i: int) {
    0 <= i <= |text| - |part| && text[i..i + |part|] == part
  }

  ghost predicate Contains(text: string, part: string) {
    exists i :: OccursAt(text, part, i)
  }

  /** What one `send_personal_message` adds to the outbox. */
  ghost function Notice(registry: Registry, userId: string, text: string): seq<Delivery> {
    if userId in registry then [Delivery(registry[userId], text)] else []
  }

  lemma SendAppendsNotice(registry: Registry, outbox: Outbox, text: string, userId: string)
    ensures SendPersonalMessage(registry, outbox, text, userId) == outbox + Notice(registry, userId, text)
  {
    var r := SendPersonalMessage(registry, outbox, text, userId);
    if userId in registry {
      assert r == r[..|outbox|] + [r[|outbox|]];
    } else {
      assert r == r[..|outbox|];
    }
  }

  // ----- users -----

  /** `create_user`. */
  function CreateUser(s: State, username: string): (r: Result<Reply>)
    ensures r.Err? <==> HasUsername(s.users, username)
    ensures r.Err? ==> r.error == DuplicateUsername
    ensures r.Ok? ==>
              var t := r.value.state;
              && |t.users| == |s.users| + 1
              && t.users[..|s.users|] == s.users
              && t.users[|s.users|].username == username
              && !HasId(s.users, t.users[|s.users|].id)
              && t.ledger == s.ledger && t.registry == s.registry && t.outbox == s.outbox
              && r.value.message == username
    ensures r.Ok? && Valid(s) ==> Valid(r.value.state)
  {
    if FindByUsername(s.users, username).Some? then Err(DuplicateUsername)
    else
      var user := User(NextId(s.users), username);
      var t := s.(users := s.users + [user]);
      assert Valid(s) ==> Valid(t) by {
        if Valid(s) {
          forall id | HasId(s.users, id) ensures HasId(t.users, id) {
            var i :| 0 <= i < |s.users| && s.users[i].id == id;
            assert t.users[i] == s.users[i];
          }
        }
      }
      Ok(Reply(t, username))
  }

  /** Creating the same username twice: the second call is rejected. */
  lemma CreateUserTwiceFails(s: State, username: string)
    requires CreateUser(s, username).Ok?
    ensures CreateUser(CreateUser(s, username).value.state, username) == Err(DuplicateUsername)
  {
    var t := CreateUser(s, username).value.state;
    assert t.users[|s.users|].username == username;
  }

  // ----- subscriptions -----

  /** Resolves the two usernames of a subscribe request to the ordered pair of ids. */
  function ResolvePair(users: Users, subscriberUsername: string, subscribeToUsername: string): (r: Option<Pair>)
    ensures r.Some? <==> HasUsername(users, subscriberUsername) && HasUsername(users, subscribeToUsername)
    ensures r.Some? ==> User(r.value.subscriberId, subscriberUsername) in users &&
                        User(r.value.subscribedToId, subscribeToUsername) in users
  {
    var subscriber := FindByUsername(users, subscriberUsername);
    var subscribeTo := FindByUsername(users, subscribeToUsername);
    if subscriber.None? || subscribeTo.None? then None
    else Some(Pair(subscriber.value.id, subscribeTo.value.id))
  }

  /** Under the unique constraint the resolved pair is the pair of the two named users. */
  lemma ResolvePairDetermined(users: Users, a: string, b: string, x: UserId, y: UserId)
    requires UsernamesUnique(users)
    requires User(x, a) in users && User(y, b) in users
    ensures ResolvePair(users, a, b) == Some(Pair(x, y))
  {
    var i :| 0 <= i < |users| && users[i] == User(x, a);
    var j :| 0 <= j < |users| && users[j] == User(y, b);
    FindByUsernameUnique(users, i);
    FindByUsernameUnique(users, j);
  }

  function SubscribeNotice(subscriberUsername: string): string {
    "User " + subscriberUsername + " " + "subscribed" + " to you. Waiting for confirmation."
  }

  /** `subscribe`: user lookup first, then the duplicate check, then a pending
      insert and a notice to the subscribed-to user. */
  function Subscribe(s: State, subscriberUsername: string, subscribeToUsername: string): (r: Result<Reply>)
    ensures r == Err(UserNotFound) <==>
              !HasUsername(s.users, subscriberUsername) || !HasUsername(s.users, subscribeToUsername)
    ensures r == Err(DuplicateSubscription) <==>
              var key := ResolvePair(s.users, subscriberUsername, subscribeToUsername);
              key.Some? && key.value in s.ledger
    ensures r.Err? ==> r.error == UserNotFound || r.error == DuplicateSubscription
    ensures r.Ok? ==>
              var key := ResolvePair(s.users, subscriberUsername, subscribeToUsername);
              var t := r.value.state;
              && key.Some? && key.value !in s.ledger
              && SetsOnly(s.ledger, t.ledger, key.value, false)
              && t.users == s.users && t.registry == s.registry
              && |t.outbox| >= |s.outbox| && t.outbox[..|s.outbox|] == s.outbox
              && r.value.message == "Subscription request sent from " + subscriberUsername + " to " + subscribeToUsername + "."
  {
    var key := ResolvePair(s.users, subscriberUsername, subscribeToUsername);
    if key.None? then Err(UserNotFound)
    else if key.value in s.ledger then Err(DuplicateSubscription)
    else
      var outbox := SendPersonalMessage(s.registry, s.outbox, SubscribeNotice(subscriberUsername),
                                        IntToString(key.value.subscribedToId));
      var t := s.(ledger := s.ledger[key.value := false], outbox := outbox);
      Ok(Reply(t, "Subscription request sent from " + subscriberUsername + " to " + subscribeToUsername + "."))
  }

  /** A successful `subscribe` keeps the schema constraints: both ends of the
      new row are existing users. */
  lemma SubscribeKeepsValid(s: State, a: string, b: string)
    ensures Valid(s) && Subscribe(s, a, b).Ok? ==> Valid(Subscribe(s, a, b).value.state)
  {
    if !Valid(s) || Subscribe(s, a, b).Err? { return; }
    var key := ResolvePair(s.users, a, b).value;
    var t := Subscribe(s, a, b).value.state;
    var i :| 0 <= i < |s.users| && s.users[i] == User(key.subscriberId, a);
    var j :| 0 <= j < |s.users| && s.users[j] == User(key.subscribedToId, b);
    assert HasId(s.users, key.subscriberId);
    assert HasId(s.users, key.subscribedToId);
  }

  /** A new row is pending, which is also the column default. */
  lemma NewSubscriptionPending(s: State, a: string, b: string)
    requires Subscribe(s, a, b).Ok?
    ensures Subscribe(s, a, b).value.state.ledger[ResolvePair(s.users, a, b).value] == DefaultIsConfirmed
  {
  }

  /** `subscribe` notifies only the subscribed-to user's id, at most once,
      with a text naming the subscriber. */
  lemma SubscribeNotifiesTarget(s: State, a: string, b: string)
    requires Subscribe(s, a, b).Ok?
    ensures var t := Subscribe(s, a, b).value.state;
            var target := IntToString(ResolvePair(s.users, a, b).value.subscribedToId);
            && t.outbox == s.outbox + Notice(s.registry, target, SubscribeNotice(a))
            && forall d :: d in t.outbox[|s.outbox|..] ==>
                 d.handle == s.registry[target] && Contains(d.text, a) && Contains(d.text, "subscribed")
  {
    var key := ResolvePair(s.users, a, b).value;
    var target := IntToString(key.subscribedToId);
    SendAppendsNotice(s.registry, s.outbox, SubscribeNotice(a), target);
    var head := "User " + a + " ";
    var text := SubscribeNotice(a);
    assert text == head + "subscribed" + " to you. Waiting for confirmation.";
    assert OccursAt(text, a, 5) by { assert text[5..5 + |a|] == head[5..5 + |a|] == a; }
    assert OccursAt(text, "subscribed", |head|);
  }

  /** Requesting the same ordered pair twice: the second request is rejected
      and the ledger holds exactly one row for the pair, the pending one. */
  lemma SubscribeTwiceFails(s: State, a: string, b: string)
    requires Subscribe(s, a, b).Ok?
    ensures var t := Subscribe(s, a, b).value.state;
            var key := ResolvePair(s.users, a, b).value;
            && Subscribe(t, a, b) == Err(DuplicateSubscription)
            && (set row | row in Rows(t.ledger) && row.subscriberId == key.subscriberId &&
                          row.subscribedToId == key.subscribedToId)
               == {Subscription(key.subscriberId, key.subscribedToId, false)}
  {
  }

  /** Nothing forbids subscribing to oneself, and a row for the reverse pair
      neither blocks nor is touched by a request. */
  lemma SubscribePermissive(s: State, a: string, b: string, x: UserId, y: UserId)
    requires UsernamesUnique(s.users)
    requires User(x, a) in s.users && User(y, b) in s.users
    requires Pair(x, y) !in s.ledger
    ensures Subscribe(s, a, b).Ok?
    ensures var t := Subscribe(s, a, b).value.state;
            && t.ledger[Pair(x, y)] == false
            && (x != y ==> (Pair(y, x) in t.ledger <==> Pair(y, x) in s.ledger))
            && (x != y && Pair(y, x) in s.ledger ==> t.ledger[Pair(y, x)] == s.ledger[Pair(y, x)])
  {
    ResolvePairDetermined(s.users, a, b, x, y);
  }

  /** A lookup of one pair in the subscriptions table followed by taking the
      first scalar of the first result row: that is the row's first column,
      `subscriber_id`, not the row itself. */
  function FirstScalar(ledger: Ledger, key: Pair): (r: Option<UserId>)
    ensures r.Some? <==> exists row :: row in Rows(ledger) && Pair(row.subscriberId, row.subscribedToId) == key
    ensures forall row :: row in Rows(ledger) && Pair(row.subscriberId, row.subscribedToId) == key ==>
              r == Some(row.subscriberId)
  {
    assert key in ledger ==> Subscription(key.subscriberId, key.subscribedToId, ledger[key]) in Rows(ledger);
    if key in ledger then Some(key.subscriberId) else None
  }

  /** Python truthiness of `None` or an int. */
  predicate Truthy(v: Option<int>) {
    v.Some? && v.value != 0
  }

  /** The duplicate check of `subscribe` as written tests the truthiness of the
      pair's `subscriber_id`; since ids are at least 1 that is the same as
      testing whether the pair has a row. */
  lemma DuplicateCheckAsWrittenAgrees(s: State, a: string, b: string)
    requires Valid(s)
    requires ResolvePair(s.users, a, b).Some?
    ensures Truthy(FirstScalar(s.ledger, ResolvePair(s.users, a, b).value)) <==> ResolvePair(s.users, a, b).value in s.ledger
  {
    var key := ResolvePair(s.users, a, b).value;
    var i :| 0 <= i < |s.users| && s.users[i] == User(key.subscriberId, a);
    assert key.subscriberId >= 1;
  }

  const ConfirmedNotice: string := "Your subscription has been confirmed."

  function ConfirmerNotice(subscriberId: UserId): string {
    "User " + IntToString(subscriberId) + " confirmed your subscription."
  }

  /** `confirm_subscription`: the not-found check first, then the
      already-confirmed check, then the flag is set and both ends notified. */
  function ConfirmSubscription(s: State, subscriberId: UserId, subscribedToId: UserId): (r: Result<Reply>)
    ensures r == Err(SubscriptionNotFound) <==> Pair(subscriberId, subscribedToId) !in s.ledger
    ensures r == Err(AlreadyConfirmed) <==>
              Pair(subscriberId, subscribedToId) in s.ledger && s.ledger[Pair(subscriberId, subscribedToId)]
    ensures r.Err? ==> r.error == SubscriptionNotFound || r.error == AlreadyConfirmed
    ensures r.Ok? ==>
              var key := Pair(subscriberId, subscribedToId);
              var t := r.value.state;
              && key in s.ledger && !s.ledger[key]
              && SetsOnly(s.ledger, t.ledger, key, true)
              && t.users == s.users && t.registry == s.registry
              && |t.outbox| >= |s.outbox| && t.outbox[..|s.outbox|] == s.outbox
              && r.value.message == "Subscription confirmed."
    ensures r.Ok? && Valid(s) ==> Valid(r.value.state)
  {
    var key := Pair(subscriberId, subscribedToId);
    if key !in s.ledger then Err(SubscriptionNotFound)
    else if s.ledger[key] then Err(AlreadyConfirmed)
    else
      var first := SendPersonalMessage(s.registry, s.outbox, ConfirmedNotice, IntToString(subscriberId));
      var second := SendPersonalMessage(s.registry, first, ConfirmerNotice(subscriberId), IntToString(subscribedToId));
      assert second[..|s.outbox|] == first[..|first|][..|s.outbox|];
      Ok(Reply(s.(ledger := s.ledger[key := true], outbox := second), "Subscription confirmed."))
  }

  /** `confirm_subscription` notifies the subscriber first and the
      subscribed-to user second, each only if registered. */
  lemma ConfirmNotifiesBoth(s: State, subscriberId: UserId, subscribedToId: UserId)
    requires ConfirmSubscription(s, subscriberId, subscribedToId).Ok?
    ensures ConfirmSubscription(s, subscriberId, subscribedToId).value.state.outbox
            == s.outbox
               + Notice(s.registry, IntToString(subscriberId), ConfirmedNotice)
               + Notice(s.registry, IntToString(subscribedToId), ConfirmerNotice(subscriberId))
  {
    var first := SendPersonalMessage(s.registry, s.outbox, ConfirmedNotice, IntToString(subscriberId));
    SendAppendsNotice(s.registry, s.outbox, ConfirmedNotice, IntToString(subscriberId));
    SendAppendsNotice(s.registry, first, ConfirmerNotice(subscriberId), IntToString(subscribedToId));
  }

  /** `confirm_subscription` as written: the lookup yields the pair's
      `subscriber_id` (see `FirstScalar`), so the not-found check tests that
      int, and reading `is_confirmed` off it raises before the update, the
      commit or any send. */
  function ConfirmSubscriptionAsWritten(s: State, subscriberId: UserId, subscribedToId: UserId): (r: Result<Reply>)
    ensures r.Err?
    ensures r == Err(SubscriptionNotFound) <==> Pair(subscriberId, subscribedToId) !in s.ledger || subscriberId == 0
    ensures r == Err(ServerError) <==> Pair(subscriberId, subscribedToId) in s.ledger && subscriberId != 0
  {
    var subscription := FirstScalar(s.ledger, Pair(subscriberId, subscribedToId));
    if !Truthy(subscription) then Err(SubscriptionNotFound)
    else Err(ServerError)
  }

  /** Where the intended handler confirms a pending row, the handler as
      written fails with a server error and confirms nothing. */
  lemma ConfirmAsWrittenFailsOnPendingRow(s: State, subscriberId: UserId, subscribedToId: UserId)
    requires Valid(s)
    requires Pair(subscriberId, subscribedToId) in s.ledger && !s.ledger[Pair(subscriberId, subscribedToId)]
    ensures ConfirmSubscription(s, subscriberId, subscribedToId).Ok?
    ensures ConfirmSubscriptionAsWritten(s, subscriberId, subscribedToId) == Err(ServerError)
  {
    var i :| 0 <= i < |s.users| && s.users[i].id == subscriberId;
  }

  /** Confirming twice: the second call is rejected and the flag stays set. */
  lemma ConfirmTwiceFails(s: State, subscriberId: UserId, subscribedToId: UserId)
    requires ConfirmSubscription(s, subscriberId, subscribedToId).Ok?
    ensures var t := ConfirmSubscription(s, subscriberId, subscribedToId).value.state;
            && ConfirmSubscription(t, subscriberId, subscribedToId) == Err(AlreadyConfirmed)
            && t.ledger[Pair(subscriberId, subscribedToId)]
  {
  }

  // ----- connections -----

  /** `manager.connect`: only the registry changes. */
  function ConnectUser(s: State, userId: string, handle: Handle): (t: State)
    ensures t.users == s.users && t.ledger == s.ledger && t.outbox == s.outbox
    ensures t.registry.Keys == s.registry.Keys + {userId} && t.registry[userId] == handle
    ensures forall k :: k in s.registry && k != userId ==> t.registry[k] == s.registry[k]
    ensures Valid(s) ==> Valid(t)
  {
    s.(registry := Connect(s.registry, userId, handle))
  }

  /** `manager.disconnect`: only the registry changes. */
  function DisconnectUser(s: State, userId: string): (t: State)
    ensures t.users == s.users && t.ledger == s.ledger && t.outbox == s.outbox
    ensures t.registry.Keys == s.registry.Keys - {userId}
    ensures forall k :: k in t.registry ==> t.registry[k] == s.registry[k]
    ensures Valid(s) ==> Valid(t)
  {
    s.(registry := Disconnect(s.registry, userId))
  }

  /** A notice addressed to user id `n` reaches the connection registered
      under `str(m)` only if `m == n`. */
  lemma NoticeReachesOnlyItsUser(registry: Registry, n: UserId, m: UserId, handle: Handle, text: string)
    requires m != n
    ensures Notice(Connect(registry, IntToString(m), handle), IntToString(n), text) == Notice(registry, IntToString(n), text)
  {
    IntToStringInjective(m, n);
  }
}

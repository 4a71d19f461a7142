/**
  The two persistent tables of the subscription service: `users`, whose integer
  primary key is assigned by the store and whose username is unique, and
  `subscriptions`, keyed on the ordered pair (subscriber, subscribed-to) and
  carrying a confirmation flag.
 */
module Schema {

  type UserId = int

  datatype Option<+T> = None | Some(value: T)

  /** One row of the users table. */
  datatype User = User(id: UserId, username: string)

  /** The users table in rowid order, which is also insertion order. */
  type Users = seq<User>

  /** The composite primary key of the subscriptions table; direction matters. */
  datatype Pair = Pair(subscriberId: UserId, subscribedToId: UserId)

  /** One row of the subscriptions table. */
  datatype Subscription = Subscription(subscriberId: UserId, subscribedToId: UserId, isConfirmed: bool)

  /** The subscriptions table, as a map from its primary key to the `is_confirmed` column. */
  type Ledger = map<Pair, bool>

  /** The column default of `is_confirmed`. */
  const DefaultIsConfirmed: bool := false

  // ----- users -----

  ghost predicate HasUsername(users: Users, name: string) {
    exists i :: 0 <= i < |users| && users[i].username == name
  }

  ghost predicate HasId(users: Users, id: UserId) {
    exists i :: 0 <= i < |users| && users[i].id == id
  }

  /** Ids grow with rowid order, hence are pairwise distinct (the primary key). */
  ghost predicate IdsIncreasing(users: Users) {
    forall i, j :: 0 <= i < j < |users| ==> users[i].id < users[j].id
  }

  ghost predicate IdsPositive(users: Users) {
    forall i :: 0 <= i < |users| ==> users[i].id >= 1
  }

  /** The unique constraint on `username`. */
  ghost predicate UsernamesUnique(users: Users) {
    forall i, j :: 0 <= i < j < |users| ==> users[i].username != users[j].username
  }

  ghost predicate UsersValid(users: Users) {
    IdsIncreasing(users) && IdsPositive(users) && UsernamesUnique(users)
  }

  /** Looking a user up by exact username and taking the first result: the
      earliest row with exactly that username, or nothing. */
  function FindByUsername(users: Users, name: string): (r: Option<User>)
    ensures r.None? <==> !HasUsername(users, name)
    ensures r.Some? ==> exists k :: 0 <= k < |users| && users[k] == r.value && r.value.username == name &&
                                    forall j :: 0 <= j < k ==> users[j].username != name
  {
    if users == [] then None
    else if users[0].username == name then Some(users[0])
    else
      var r := FindByUsername(users[1..], name);
      assert HasUsername(users, name) ==> HasUsername(users[1..], name) by {
        if HasUsername(users, name) {
          var i :| 0 <= i < |users| && users[i].username == name;
          assert users[1..][i - 1] == users[i];
        }
      }
      if r.Some? then
        var k :| 0 <= k < |users[1..]| && users[1..][k] == r.value && r.value.username == name &&
                 forall j :: 0 <= j < k ==> users[1..][j].username != name;
        assert users[k + 1] == r.value;
        assert forall j :: 0 <= j < k + 1 ==> users[j].username != name by {
          forall j | 0 <= j < k + 1 ensures users[j].username != name {
            if j > 0 { assert users[j] == users[1..][j - 1]; }
          }
        }
        r
      else
        r
  }

  /** Under the unique constraint the row found is the only one with that name. */
  lemma FindByUsernameUnique(users: Users, i: int)
    requires UsernamesUnique(users)
    requires 0 <= i < |users|
    ensures FindByUsername(users, users[i].username) == Some(users[i])
  {
    var r := FindByUsername(users, users[i].username);
    assert HasUsername(users, users[i].username);
    var k :| 0 <= k < |users| && users[k] == r.value && r.value.username == users[i].username &&
             forall j :: 0 <= j < k ==> users[j].username != users[i].username;
    if k < i {
      assert users[k].username != users[i].username;
    }
  }

  /** The largest id in use, or 0 for an empty table. */
  function MaxId(users: Users): (r: int)
    ensures r >= 0
    ensures forall i :: 0 <= i < |users| ==> users[i].id <= r
    ensures r == 0 || HasId(users, r)
  {
    if users == [] then 0
    else
      var m := MaxId(users[1..]);
      assert forall i :: 1 <= i < |users| ==> users[i] == users[1..][i - 1];
      if users[0].id > m then users[0].id
      else
        assert m != 0 ==> HasId(users, m) by {
          if m != 0 {
            var i :| 0 <= i < |users[1..]| && users[1..][i].id == m;
            assert users[i + 1].id == m;
          }
        }
        m
  }

  /** The rowid the store gives the next inserted user: one past the largest in use. */
  function NextId(users: Users): (r: UserId)
    ensures r >= 1
    ensures forall i :: 0 <= i < |users| ==> users[i].id < r
    ensures !HasId(users, r)
    ensures r == 1 || HasId(users, r - 1)
  {
    MaxId(users) + 1
  }

  // ----- subscriptions -----

  /** Foreign keys: both ends of every subscription name an existing user. */
  ghost predicate LedgerRefersToUsers(ledger: Ledger, users: Users) {
    forall p :: p in ledger ==> HasId(users, p.subscriberId) && HasId(users, p.subscribedToId)
  }

  /** The table as a set of rows. */
  function Rows(ledger: Ledger): (rows: set<Subscription>)
    ensures forall p :: p in ledger ==> Subscription(p.subscriberId, p.subscribedToId, ledger[p]) in rows
    ensures forall row :: row in rows ==> Pair(row.subscriberId, row.subscribedToId) in ledger &&
                                          ledger[Pair(row.subscriberId, row.subscribedToId)] == row.isConfirmed
  {
    set p | p in ledger :: Subscription(p.subscriberId, p.subscribedToId, ledger[p])
  }

  /** The composite primary key: two rows with the same ordered pair are the same row. */
  lemma RowsKeyedByPair(ledger: Ledger, a: Subscription, b: Subscription)
    requires a in Rows(ledger) && b in Rows(ledger)
    requires a.subscriberId == b.subscriberId && a.subscribedToId == b.subscribedToId
    ensures a == b
  {
  }

  /** The `subscribed_to` relationship of a user: every user it has a row
      towards, pending or confirmed. */
  function SubscribedTo(ledger: Ledger, id: UserId): (r: set<UserId>)
    ensures forall t :: t in r <==> Pair(id, t) in ledger
  {
    set p | p in ledger && p.subscriberId == id :: p.subscribedToId
  }

  /** The `subscribers` backref of a user: every user with a row towards it. */
  function Subscribers(ledger: Ledger, id: UserId): (r: set<UserId>)
    ensures forall s :: s in r <==> Pair(s, id) in ledger
  {
    set p | p in ledger && p.subscribedToId == id :: p.subscriberId
  }

  /** `subscribers` is the exact reverse of `subscribed_to`. */
  lemma BackrefIsReverse(ledger: Ledger, a: UserId, b: UserId)
    ensures b in SubscribedTo(ledger, a) <==> a in Subscribers(ledger, b)
  {
  }
}

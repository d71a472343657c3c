/** The tables a sign-in touches: bindings (create-binding.ts, identity.ts), link transactions, users
    and the append-only identity events. Every operation is one database statement or transaction. */
module IdentityDatabase {
  import opened Wrappers

  datatype Account = Account(provider: string, externalId: string)

  datatype Binding = Binding(userId: string, login: Option<string>)

  datatype LinkTransaction = LinkTransaction(userId: string, provider: string, expiresAt: int, consumedAt: Option<int>)

  /** A `bind` row of identity_events. */
  datatype BindEvent = BindEvent(userId: string, account: Account)

  /** `outside` are the users whose rows other code inserted: they need no binding. */
  datatype Db = Db(
    users: set<string>, outside: set<string>, bindings: map<Account, Binding>,
    links: map<string, LinkTransaction>, events: seq<BindEvent>, now: int)

  // ----- what each statement does -----

  function Owner(db: Db, account: Account): Option<string> {
    if account in db.bindings then Some(db.bindings[account].userId) else None
  }

  predicate Consumable(db: Db, txId: string, userId: string, provider: string) {
    && txId in db.links
    && db.links[txId].userId == userId
    && db.links[txId].provider == provider
    && db.links[txId].consumedAt.None?
    && db.links[txId].expiresAt > db.now
  }

  function Consumed(db: Db, txId: string, userId: string, provider: string): Db {
    if Consumable(db, txId, userId, provider)
    then db.(links := db.links[txId := db.links[txId].(consumedAt := Some(db.now))])
    else db
  }

  /** Insert the binding and its event together, or skip both when the account is bound. */
  function Bound(db: Db, account: Account, userId: string, login: Option<string>): Db {
    if account in db.bindings then db
    else db.(bindings := db.bindings[account := Binding(userId, login)], events := db.events + [BindEvent(userId, account)])
  }

  datatype FirstLogin = Created | RaceLost | KeyTaken

  /** A bound account makes the whole transaction roll back, and so does a taken user id. */
  function FirstLoginResult(db: Db, account: Account, userId: string): FirstLogin {
    if userId in db.users then KeyTaken
    else if account in db.bindings then RaceLost
    else Created
  }

  function FirstLoggedIn(db: Db, account: Account, userId: string, login: Option<string>): Db {
    if FirstLoginResult(db, account, userId).Created?
    then Bound(db.(users := db.users + {userId}), account, userId, login)
    else db
  }

  function LoginUpdated(db: Db, account: Account, login: string): Db {
    if account in db.bindings
    then db.(bindings := db.bindings[account := db.bindings[account].(login := Some(login))])
    else db
  }

  /** `links.user_id` references users and `id` is the primary key. */
  function LinkStarted(db: Db, txId: string, userId: string, provider: string, expiresAt: int): Db {
    if txId in db.links || userId !in db.users then db
    else db.(links := db.links[txId := LinkTransaction(userId, provider, expiresAt, None)])
  }

  /** Other code inserts a user, for example a wallet login. */
  function UserInserted(db: Db, userId: string): Db {
    if userId in db.users then db
    else db.(users := db.users + {userId}, outside := db.outside + {userId})
  }

  /** Other code binds an account; `user_id` references users. */
  function BoundElsewhere(db: Db, account: Account, userId: string): Db {
    if userId in db.users then Bound(db, account, userId, None) else db
  }

  // ----- what the tables always satisfy -----

  ghost predicate References(db: Db) {
    && (forall a :: a in db.bindings ==> db.bindings[a].userId in db.users)
    && (forall t :: t in db.links ==> db.links[t].userId in db.users)
  }

  /** Every binding has exactly one event naming its owner, and every event is of a binding. */
  ghost predicate Evidenced(db: Db) {
    && (forall i :: 0 <= i < |db.events| ==> Owner(db, db.events[i].account) == Some(db.events[i].userId))
    && (forall i, j :: 0 <= i < j < |db.events| ==> db.events[i].account != db.events[j].account)
    && (forall a :: a in db.bindings ==> exists i :: 0 <= i < |db.events| && db.events[i].account == a)
  }

  ghost predicate HasBinding(db: Db, userId: string) {
    exists a :: a in db.bindings && db.bindings[a].userId == userId
  }

  ghost predicate NoOrphans(db: Db) {
    forall u :: u in db.users && u !in db.outside ==> HasBinding(db, u)
  }

  /** No link transaction is consumed at or after its expiry. */
  ghost predicate InTime(db: Db) {
    forall t :: t in db.links && db.links[t].consumedAt.Some? ==>
      db.links[t].consumedAt.value < db.links[t].expiresAt && db.links[t].consumedAt.value <= db.now
  }

  ghost predicate Consistent(db: Db) {
    References(db) && Evidenced(db) && NoOrphans(db) && InTime(db)
  }

  /** Later in a run: owners stay, and a link transaction only ever goes from unconsumed to consumed. */
  ghost predicate Later(db: Db, next: Db) {
    && (forall a :: a in db.bindings ==> Owner(next, a) == Owner(db, a))
    && (forall t :: t in db.links ==>
          && t in next.links
          && next.links[t].userId == db.links[t].userId
          && next.links[t].provider == db.links[t].provider
          && next.links[t].expiresAt == db.links[t].expiresAt
          && (db.links[t].consumedAt.Some? ==> next.links[t] == db.links[t]))
  }

  lemma BoundIsEvidenced(db: Db, account: Account, userId: string, login: Option<string>)
    requires Evidenced(db)
    ensures Evidenced(Bound(db, account, userId, login))
  {
    if account !in db.bindings {
      EventsCover(db, account, userId, login);
    }
  }

  lemma EventsCover(db: Db, account: Account, userId: string, login: Option<string>)
    requires Evidenced(db) && account !in db.bindings
    ensures var next := Bound(db, account, userId, login);
      forall a :: a in next.bindings ==> exists i :: 0 <= i < |next.events| && next.events[i].account == a
  {
    var next := Bound(db, account, userId, login);
    forall a | a in next.bindings ensures exists i :: 0 <= i < |next.events| && next.events[i].account == a {
      if a == account {
        assert next.events[|db.events|].account == a;
      } else {
        var i :| 0 <= i < |db.events| && db.events[i].account == a;
        assert next.events[i].account == a;
      }
    }
  }

  lemma BoundHasBinding(db: Db, account: Account, userId: string, login: Option<string>, user: string)
    requires HasBinding(db, user) || (user == userId && account !in db.bindings)
    ensures HasBinding(Bound(db, account, userId, login), user)
  {
    var next := Bound(db, account, userId, login);
    if HasBinding(db, user) {
      var a :| a in db.bindings && db.bindings[a].userId == user;
      assert next.bindings[a].userId == user;
    } else {
      assert next.bindings[account].userId == user;
    }
  }

  lemma BoundIsConsistent(db: Db, account: Account, userId: string, login: Option<string>)
    requires References(db) && Evidenced(db) && InTime(db) && userId in db.users
    requires forall u :: u in db.users && u !in db.outside && u != userId ==> HasBinding(db, u)
    requires userId in db.outside || HasBinding(db, userId) || account !in db.bindings
    ensures Consistent(Bound(db, account, userId, login)) && Later(db, Bound(db, account, userId, login))
  {
    hide Evidenced, HasBinding;
    var next := Bound(db, account, userId, login);
    BoundIsEvidenced(db, account, userId, login);
    forall u | u in next.users && u !in next.outside ensures HasBinding(next, u) {
      BoundHasBinding(db, account, userId, login, u);
    }
  }

  lemma LinksConsistent(db: Db, links: map<string, LinkTransaction>)
    requires Consistent(db) && forall t :: t in links ==> links[t].userId in db.users
    requires InTime(db.(links := links))
    ensures Consistent(db.(links := links))
  {
  }

  lemma ConsumedIsConsistent(db: Db, txId: string, userId: string, provider: string)
    requires Consistent(db)
    ensures Consistent(Consumed(db, txId, userId, provider)) && Later(db, Consumed(db, txId, userId, provider))
  {
  }

  lemma LinkStartedIsConsistent(db: Db, txId: string, userId: string, provider: string, expiresAt: int)
    requires Consistent(db)
    ensures var next := LinkStarted(db, txId, userId, provider, expiresAt); Consistent(next) && Later(db, next)
  {
    LinksConsistent(db, LinkStarted(db, txId, userId, provider, expiresAt).links);
  }

  lemma FirstLoginIsConsistent(db: Db, account: Account, userId: string, login: Option<string>)
    requires Consistent(db)
    ensures var next := FirstLoggedIn(db, account, userId, login); Consistent(next) && Later(db, next)
  {
    if FirstLoginResult(db, account, userId).Created? {
      var inserted := db.(users := db.users + {userId});
      forall u | u in inserted.users && u !in inserted.outside && u != userId ensures HasBinding(inserted, u) {
        assert HasBinding(db, u);
      }
      BoundIsConsistent(inserted, account, userId, login);
    }
  }

  lemma LoginUpdatedIsConsistent(db: Db, account: Account, login: string)
    requires Consistent(db)
    ensures var next := LoginUpdated(db, account, login); Consistent(next) && Later(db, next)
  {
    var next := LoginUpdated(db, account, login);
    assert forall a :: Owner(next, a) == Owner(db, a);
    forall u | u in next.users && u !in next.outside ensures HasBinding(next, u) {
      assert HasBinding(db, u);
      var a :| a in db.bindings && db.bindings[a].userId == u;
      assert next.bindings[a].userId == u;
    }
  }

  lemma UserInsertedIsConsistent(db: Db, userId: string)
    requires Consistent(db)
    ensures Consistent(UserInserted(db, userId)) && Later(db, UserInserted(db, userId))
  {
  }

  lemma BoundElsewhereIsConsistent(db: Db, account: Account, userId: string)
    requires Consistent(db)
    ensures Consistent(BoundElsewhere(db, account, userId)) && Later(db, BoundElsewhere(db, account, userId))
  {
    if userId in db.users {
      BoundIsConsistent(db, account, userId, None);
    }
  }

  lemma LaterIsTransitive(a: Db, b: Db, c: Db)
    requires Later(a, b) && Later(b, c)
    ensures Later(a, c)
  {
  }

  // ----- the statements themselves -----

  class Database {
    var users: set<string>
    var bindings: map<Account, Binding>
    var links: map<string, LinkTransaction>
    var events: seq<BindEvent>
    var now: int
    ghost var outside: set<string>

    ghost function View(): Db
      reads this
    {
      Db(users, outside, bindings, links, events, now)
    }

    constructor ()
      ensures View() == Db({}, {}, map[], map[], [], 0)
    {
      users, bindings, links, events, now := {}, map[], map[], [], 0;
      outside := {};
    }

    method FindBinding(account: Account) returns (existing: Option<Binding>)
      ensures existing == if account in bindings then Some(bindings[account]) else None
    {
      existing := if account in bindings then Some(bindings[account]) else None;
    }

    /** One UPDATE that checks and marks the row: the user it was for, or nothing. */
    method ConsumeLinkTransaction(txId: string, userId: string, provider: string) returns (r: Option<string>)
      modifies this
      ensures View() == Consumed(old(View()), txId, userId, provider)
      ensures r == if Consumable(old(View()), txId, userId, provider) then Some(userId) else None
    {
      r := None;
      if txId in links {
        var tx := links[txId];
        if tx.userId == userId && tx.provider == provider && tx.consumedAt.None? && tx.expiresAt > now {
          links := links[txId := tx.(consumedAt := Some(now))];
          r := Some(tx.userId);
        }
      }
    }

    method CreateBinding(account: Account, userId: string) returns (created: bool)
      modifies this
      ensures View() == Bound(old(View()), account, userId, None)
      ensures created <==> account !in old(bindings)
    {
      created := account !in bindings;
      if created {
        bindings := bindings[account := Binding(userId, None)];
        events := events + [BindEvent(userId, account)];
      }
    }

    /** The transaction that creates user, binding and event: it inserts all three, or rolls the
        user row back when the binding is skipped. */
    method CreateUserWithBinding(account: Account, userId: string, login: Option<string>) returns (r: FirstLogin)
      modifies this
      ensures View() == FirstLoggedIn(old(View()), account, userId, login)
      ensures r == FirstLoginResult(old(View()), account, userId)
    {
      if userId in users {
        return KeyTaken;
      }
      var before := users;
      users := users + {userId};
      if account in bindings {
        users := before;
        return RaceLost;
      }
      bindings := bindings[account := Binding(userId, login)];
      events := events + [BindEvent(userId, account)];
      r := Created;
    }

    method UpdateLogin(account: Account, login: string)
      modifies this
      ensures View() == LoginUpdated(old(View()), account, login)
    {
      if account in bindings {
        bindings := bindings[account := bindings[account].(login := Some(login))];
      }
    }
  }
}

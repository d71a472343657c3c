/** The OAuth `signIn` callback (auth.ts). A callback runs from one database call to the next in one
    step; a run interleaves the steps of any number of callbacks with what other code does. */
module SignIn {
  import opened Wrappers
  import opened IdentityDatabase

  const RESOLVED: set<string> := {"credentials", "operator-github"}
  const KNOWN_OAUTH: set<string> := {"github", "discord", "google"}

  /** What the callback finds in the link-intent store. */
  datatype Intent = NoIntent | FailedIntent | PendingIntent(txId: string, userId: string)

  /** `newUserId` is the id drawn for a first login. */
  datatype Request = Request(account: Option<Account>, intent: Intent, login: Option<string>, newUserId: string)

  datatype Outcome =
    | Passed                      // true: the user was resolved before the callback
    | SignedIn(userId: string)    // true with this user
    | Denied                      // false
    | LinkFailed                  // redirect
    | AlreadyLinked               // redirect
    | Threw

  /** A database call of the callback. */
  datatype Call =
    | Looking
    | Consuming(existing: Option<string>, txId: string, userId: string)
    | UpdatingLogin(owner: string, login: string)
    | CreatingBinding(userId: string)
    | ReadingUser(userId: string)
    | CreatingUser
    | FetchingWinner

  datatype Phase = Done(outcome: Outcome) | Before(account: Account, call: Call)

  /** `verified` is the user whose link transaction this callback consumed. */
  datatype Callback = Callback(request: Request, phase: Phase, verified: Option<string>)

  // ----- the callback, step by step -----

  function Arrived(request: Request): Callback {
    Callback(request,
             match request.account
             case None => Done(Passed)
             case Some(account) =>
               if account.provider in RESOLVED then Done(Passed)
               else if account.provider !in KNOWN_OAUTH then Done(Denied)
               else Before(account, Looking),
             None)
  }

  /** The end for a bound account, once the link intent is settled. */
  function Conclude(owner: string, verified: Option<string>): Outcome {
    match verified
    case None => SignedIn(owner)
    case Some(v) => if owner == v then SignedIn(v) else AlreadyLinked
  }

  /** From the settled link intent to the next database call. */
  function Settled(account: Account, login: Option<string>, existing: Option<string>, verified: Option<string>): Phase {
    match existing
    case Some(owner) =>
      if login.Some? && login.value != "" then Before(account, UpdatingLogin(owner, login.value))
      else Done(Conclude(owner, verified))
    case None => Before(account, if verified.Some? then CreatingBinding(verified.value) else CreatingUser)
  }

  function Looked(account: Account, request: Request, existing: Option<string>): Phase {
    match request.intent
    case NoIntent => Settled(account, request.login, existing, None)
    case FailedIntent => Done(LinkFailed)
    case PendingIntent(txId, userId) => Before(account, Consuming(existing, txId, userId))
  }

  /** The database after a working call. */
  function Wrote(db: Db, c: Callback): Db {
    match c.phase
    case Before(account, Consuming(_, txId, userId)) => Consumed(db, txId, userId, account.provider)
    case Before(account, UpdatingLogin(_, login)) => LoginUpdated(db, account, login)
    case Before(account, CreatingBinding(userId)) => Bound(db, account, userId, None)
    case Before(account, CreatingUser) => FirstLoggedIn(db, account, c.request.newUserId, c.request.login)
    case _ => db
  }

  /** The callback after a working call on `db`. */
  function Advanced(db: Db, c: Callback): Callback {
    match c.phase
    case Done(_) => c
    case Before(account, Looking) => c.(phase := Looked(account, c.request, Owner(db, account)))
    case Before(account, Consuming(existing, txId, userId)) =>
      if !Consumable(db, txId, userId, account.provider) then c.(phase := Done(LinkFailed))
      else
        // An empty user id reads as no user.
        c.(phase := if userId == "" then Done(LinkFailed) else Settled(account, c.request.login, existing, Some(userId)),
           verified := Some(userId))
    case Before(_, UpdatingLogin(owner, _)) => c.(phase := Done(Conclude(owner, c.verified)))
    case Before(account, CreatingBinding(userId)) => c.(phase := Before(account, ReadingUser(userId)))
    case Before(_, ReadingUser(userId)) => c.(phase := Done(SignedIn(userId)))
    case Before(account, CreatingUser) =>
      c.(phase := match FirstLoginResult(db, account, c.request.newUserId)
                  case KeyTaken => Done(Threw)
                  case RaceLost => Before(account, FetchingWinner)
                  case Created => Done(SignedIn(c.request.newUserId)))
    case Before(account, FetchingWinner) =>
      c.(phase := Done(if account in db.bindings then SignedIn(db.bindings[account].userId) else Denied))
  }

  /** The callback after a call that threw: only the login update is caught. */
  function Failed(c: Callback): Callback {
    match c.phase
    case Done(_) => c
    case Before(_, UpdatingLogin(owner, _)) => c.(phase := Done(Conclude(owner, c.verified)))
    case Before(_, _) => c.(phase := Done(Threw))
  }

  /** The callback after a call that took effect on `db` and whose reply was lost. */
  function Lost(db: Db, c: Callback): Callback {
    Failed(c).(verified := Advanced(db, c).verified)
  }

  // ----- runs -----

  datatype World = World(db: Db, callbacks: seq<Callback>)

  /** How a database call ends: it works, it throws without effect, or it takes effect and throws. */
  datatype Reply = Works | Throws | LosesReply

  datatype Action =
    | Arrive(request: Request)
    | Resume(i: nat, reply: Reply)   // callback i makes its database call
    | StartLink(txId: string, userId: string, provider: string, expiresAt: int)
    | InsertUser(userId: string)
    | BindElsewhere(account: Account, userId: string)
    | Wait(ms: nat)

  const EMPTY := World(Db({}, {}, map[], map[], [], 0), [])

  function Resumed(w: World, i: nat, reply: Reply): World
    requires i < |w.callbacks|
  {
    var c := w.callbacks[i];
    match reply
    case Works => World(Wrote(w.db, c), w.callbacks[i := Advanced(w.db, c)])
    case Throws => w.(callbacks := w.callbacks[i := Failed(c)])
    case LosesReply => World(Wrote(w.db, c), w.callbacks[i := Lost(w.db, c)])
  }

  function Step(w: World, a: Action): World {
    match a
    case Arrive(request) => w.(callbacks := w.callbacks + [Arrived(request)])
    case Resume(i, reply) => if i < |w.callbacks| then Resumed(w, i, reply) else w
    case StartLink(txId, userId, provider, expiresAt) => w.(db := LinkStarted(w.db, txId, userId, provider, expiresAt))
    case InsertUser(userId) => w.(db := UserInserted(w.db, userId))
    case BindElsewhere(account, userId) => w.(db := BoundElsewhere(w.db, account, userId))
    case Wait(ms) => w.(db := w.db.(now := w.db.now + ms))
  }

  function Run(w: World, actions: seq<Action>): World {
    if |actions| == 0 then w else Step(Run(w, actions[..|actions| - 1]), actions[|actions| - 1])
  }

  // ----- the invariant -----

  /** The callback consumed its link transaction, which names its user. */
  ghost predicate Verified(db: Db, c: Callback, account: Account) {
    && c.request.intent.PendingIntent?
    && c.verified == Some(c.request.intent.userId)
    && c.request.intent.txId in db.links
    && var tx := db.links[c.request.intent.txId];
      && tx.userId == c.request.intent.userId && tx.provider == account.provider
      && tx.consumedAt.Some? && tx.consumedAt.value < tx.expiresAt
  }

  /** The link intent is settled: there was none, or its transaction was consumed. */
  ghost predicate IntentSettled(db: Db, c: Callback, account: Account) {
    if c.request.intent.NoIntent? then c.verified.None? else Verified(db, c, account)
  }

  /** What each outcome means for the account and the link intent. */
  ghost predicate Meaning(db: Db, c: Callback, outcome: Outcome) {
    match c.request.account
    case None => outcome.Passed? && c.verified.None?
    case Some(account) =>
      if account.provider in RESOLVED then outcome.Passed? && c.verified.None?
      else if account.provider !in KNOWN_OAUTH then outcome.Denied? && c.verified.None?
      else
        match outcome
        case Passed => false
        case Denied => false
        case SignedIn(u) =>
          && IntentSettled(db, c, account)
          && Owner(db, account).Some?
          && (c.verified.None? ==> Owner(db, account) == Some(u))
          && (c.verified.Some? ==> c.verified == Some(u))
        case AlreadyLinked =>
          Verified(db, c, account) && Owner(db, account).Some? && Owner(db, account) != c.verified
        case LinkFailed => !c.request.intent.NoIntent? && (c.verified.None? || Verified(db, c, account))
        case Threw => c.verified.None? || Verified(db, c, account)
  }

  ghost predicate CallbackInv(db: Db, c: Callback) {
    match c.phase
    case Done(outcome) => Meaning(db, c, outcome)
    case Before(account, call) =>
      && c.request.account == Some(account)
      && account.provider in KNOWN_OAUTH && account.provider !in RESOLVED
      && match call
         case Looking => c.verified.None?
         case Consuming(existing, txId, userId) =>
           && c.verified.None? && c.request.intent == PendingIntent(txId, userId)
           && (existing.Some? ==> Owner(db, account) == existing)
         case UpdatingLogin(owner, _) => IntentSettled(db, c, account) && Owner(db, account) == Some(owner)
         case CreatingBinding(userId) => Verified(db, c, account) && c.verified == Some(userId)
         case ReadingUser(userId) => Verified(db, c, account) && c.verified == Some(userId) && Owner(db, account).Some?
         case CreatingUser => c.request.intent.NoIntent? && c.verified.None?
         case FetchingWinner => c.request.intent.NoIntent? && c.verified.None? && Owner(db, account).Some?
  }

  ghost predicate OneConsumer(callbacks: seq<Callback>) {
    forall i, j :: 0 <= i < j < |callbacks| && callbacks[i].verified.Some? && callbacks[j].verified.Some?
      ==> callbacks[i].request.intent != callbacks[j].request.intent
  }

  ghost predicate Inv(w: World) {
    && Consistent(w.db)
    && (forall i :: 0 <= i < |w.callbacks| ==> CallbackInv(w.db, w.callbacks[i]))
    && OneConsumer(w.callbacks)
  }

  lemma LaterKeepsCallback(db: Db, next: Db, c: Callback)
    requires CallbackInv(db, c) && Later(db, next)
    ensures CallbackInv(next, c)
  {
  }

  lemma WroteIsLater(db: Db, c: Callback)
    requires Consistent(db) && CallbackInv(db, c)
    ensures Consistent(Wrote(db, c)) && Later(db, Wrote(db, c))
  {
    hide Consistent, Later;
    match c.phase
    case Before(account, Consuming(_, txId, userId)) => ConsumedIsConsistent(db, txId, userId, account.provider);
    case Before(account, UpdatingLogin(_, login)) => LoginUpdatedIsConsistent(db, account, login);
    case Before(account, CreatingBinding(userId)) => LinkedIsLater(db, c, account, userId);
    case Before(account, CreatingUser) => FirstLoginIsConsistent(db, account, c.request.newUserId, c.request.login);
    case _ => NothingIsLater(db);
  }

  lemma NothingIsLater(db: Db)
    ensures Later(db, db)
  {
  }

  lemma LinkedIsLater(db: Db, c: Callback, account: Account, userId: string)
    requires Consistent(db) && Verified(db, c, account) && c.verified == Some(userId)
    ensures Consistent(Bound(db, account, userId, None)) && Later(db, Bound(db, account, userId, None))
  {
    hide Evidenced, HasBinding, Later;
    BoundIsConsistent(db, account, userId, None);
  }

  lemma AdvancedKeepsInv(db: Db, c: Callback)
    requires CallbackInv(db, c)
    ensures CallbackInv(Wrote(db, c), Advanced(db, c))
  {
  }

  lemma FailedKeepsInv(db: Db, c: Callback)
    requires CallbackInv(db, c)
    ensures CallbackInv(db, Failed(c)) && Failed(c).verified == c.verified && Failed(c).request == c.request
  {
  }

  lemma LostKeepsInv(db: Db, c: Callback)
    requires CallbackInv(db, c)
    ensures CallbackInv(Wrote(db, c), Lost(db, c))
  {
  }

  lemma RequestStays(db: Db, c: Callback)
    ensures Advanced(db, c).request == Lost(db, c).request == c.request
  {
  }

  /** A callback becomes verified only by consuming a transaction that no verified callback consumed. */
  lemma ConsumesOnce(db: Db, callbacks: seq<Callback>, i: nat, d: Callback)
    requires i < |callbacks| && OneConsumer(callbacks)
    requires forall j :: 0 <= j < |callbacks| ==> CallbackInv(db, callbacks[j])
    requires d.request == callbacks[i].request && d.verified == Advanced(db, callbacks[i]).verified
    ensures OneConsumer(callbacks[i := d])
  {
    hide Consistent;
  }

  /** The database moves on while every callback stands still. */
  lemma DbStepKeepsInv(w: World, db: Db)
    requires Inv(w) && Consistent(db) && Later(w.db, db)
    ensures Inv(w.(db := db))
  {
    hide Consistent, Later, CallbackInv, OneConsumer;
    forall i | 0 <= i < |w.callbacks| ensures CallbackInv(db, w.callbacks[i]) {
      LaterKeepsCallback(w.db, db, w.callbacks[i]);
    }
  }

  lemma ResumeKeepsInv(w: World, i: nat, reply: Reply)
    requires Inv(w) && i < |w.callbacks|
    ensures Inv(Step(w, Resume(i, reply))) && Later(w.db, Step(w, Resume(i, reply)).db)
  {
    hide Consistent, Later, CallbackInv, OneConsumer, Wrote, Advanced, Lost, Failed;
    var c := w.callbacks[i];
    match reply
    case Throws =>
      NothingIsLater(w.db);
      FailedKeepsInv(w.db, c);
      FailKeepsOneConsumer(w.callbacks, i);
    case _ =>
      WroteIsLater(w.db, c);
      DbStepKeepsInv(w, Wrote(w.db, c));
      AdvancedKeepsInv(w.db, c);
      LostKeepsInv(w.db, c);
      RequestStays(w.db, c);
      ConsumesOnce(w.db, w.callbacks, i, Advanced(w.db, c));
      LostConsumesOnce(w.db, w.callbacks, i);
  }

  lemma FailKeepsOneConsumer(callbacks: seq<Callback>, i: nat)
    requires i < |callbacks| && OneConsumer(callbacks)
    ensures OneConsumer(callbacks[i := Failed(callbacks[i])])
  {
  }

  lemma LostConsumesOnce(db: Db, callbacks: seq<Callback>, i: nat)
    requires i < |callbacks| && OneConsumer(callbacks)
    requires forall j :: 0 <= j < |callbacks| ==> CallbackInv(db, callbacks[j])
    ensures OneConsumer(callbacks[i := Lost(db, callbacks[i])])
  {
    hide CallbackInv, OneConsumer, Advanced;
    RequestStays(db, callbacks[i]);
    ConsumesOnce(db, callbacks, i, Lost(db, callbacks[i]));
  }

  lemma ArriveKeepsInv(w: World, request: Request)
    requires Inv(w)
    ensures Inv(Step(w, Arrive(request)))
  {
  }

  lemma WaitIsConsistent(db: Db, now: int)
    requires Consistent(db) && db.now <= now
    ensures Consistent(db.(now := now)) && Later(db, db.(now := now))
  {
  }

  lemma StepKeepsInv(w: World, a: Action)
    requires Inv(w)
    ensures Inv(Step(w, a)) && Later(w.db, Step(w, a).db)
  {
    hide Inv, Consistent, Later;
    assert Consistent(w.db) by { DbConsistent(w); }
    match a
    case Arrive(request) => ArriveKeepsInv(w, request); NothingIsLater(w.db);
    case Resume(i, reply) =>
      NothingIsLater(w.db);
      if i < |w.callbacks| {
        ResumeKeepsInv(w, i, reply);
      }
    case StartLink(txId, userId, provider, expiresAt) =>
      LinkStartedIsConsistent(w.db, txId, userId, provider, expiresAt);
      DbStepKeepsInv(w, Step(w, a).db);
    case InsertUser(userId) => UserInsertedIsConsistent(w.db, userId); DbStepKeepsInv(w, Step(w, a).db);
    case BindElsewhere(account, userId) =>
      BoundElsewhereIsConsistent(w.db, account, userId);
      DbStepKeepsInv(w, Step(w, a).db);
    case Wait(ms) => WaitIsConsistent(w.db, w.db.now + ms); DbStepKeepsInv(w, Step(w, a).db);
  }

  lemma DbConsistent(w: World)
    requires Inv(w)
    ensures Consistent(w.db)
  {
  }

  lemma {:induction false} RunKeepsInv(w: World, actions: seq<Action>)
    requires Inv(w)
    ensures Inv(Run(w, actions)) && Later(w.db, Run(w, actions).db)
  {
    hide Inv, Later, Step;
    if |actions| == 0 {
      NothingIsLater(w.db);
    } else {
      var front := Run(w, actions[..|actions| - 1]);
      RunKeepsInv(w, actions[..|actions| - 1]);
      StepKeepsInv(front, actions[|actions| - 1]);
      LaterIsTransitive(w.db, front.db, Run(w, actions).db);
    }
  }

  lemma ReachableKeepsInv(actions: seq<Action>)
    ensures Inv(Run(EMPTY, actions))
  {
    hide Run;
    assert Inv(EMPTY);
    RunKeepsInv(EMPTY, actions);
  }

  // ----- what holds over every run -----

  /** One owner: whoever owns an account at some moment of a run owns it ever after. */
  lemma {:induction false} OwnerNeverChanges(before: seq<Action>, after: seq<Action>, account: Account)
    requires Owner(Run(EMPTY, before).db, account).Some?
    ensures Owner(Run(Run(EMPTY, before), after).db, account) == Owner(Run(EMPTY, before).db, account)
  {
    hide Run, Inv;
    ReachableKeepsInv(before);
    RunKeepsInv(Run(EMPTY, before), after);
  }

  /** No two callbacks of a run ever consume the same link transaction. */
  lemma LinkConsumedOnce(actions: seq<Action>, i: nat, j: nat)
    requires var cs := Run(EMPTY, actions).callbacks;
      i < j < |cs| && cs[i].verified.Some? && cs[j].verified.Some?
    ensures var cs := Run(EMPTY, actions).callbacks;
      && cs[i].request.intent.PendingIntent? && cs[j].request.intent.PendingIntent?
      && cs[i].request.intent.txId != cs[j].request.intent.txId
  {
    hide Run, Consistent;
    ReachableKeepsInv(actions);
    var w := Run(EMPTY, actions);
  }

  /** How every callback ends, whatever interleaved with it. A link callback is rejected, or ends in
      a session for the user of the transaction it consumed; any other success is a session for the
      owner of the account; no known provider is ever denied, so a lost race always finds its winner.
      A link session's transaction was this user's, for this provider, and consumed before it expired. */
  lemma EveryOutcome(actions: seq<Action>, i: nat)
    requires i < |Run(EMPTY, actions).callbacks| && Run(EMPTY, actions).callbacks[i].phase.Done?
    ensures var w := Run(EMPTY, actions);
      var c := w.callbacks[i];
      var outcome := c.phase.outcome;
      && (outcome.SignedIn? ==>
            && c.request.account.Some? && Owner(w.db, c.request.account.value).Some?
            && match c.request.intent
               case NoIntent => Owner(w.db, c.request.account.value) == Some(outcome.userId)
               case FailedIntent => false
               case PendingIntent(txId, userId) =>
                 && outcome.userId == userId && txId in w.db.links
                 && w.db.links[txId].userId == userId && w.db.links[txId].provider == c.request.account.value.provider
                 && w.db.links[txId].consumedAt.Some? && w.db.links[txId].consumedAt.value < w.db.links[txId].expiresAt)
      && (outcome.AlreadyLinked? ==>
            && c.request.account.Some? && c.request.intent.PendingIntent?
            && Owner(w.db, c.request.account.value) !in {None, Some(c.request.intent.userId)})
      && (outcome.LinkFailed? ==> !c.request.intent.NoIntent?)
      && (outcome.Denied? <==>
            c.request.account.Some? && c.request.account.value.provider !in KNOWN_OAUTH + RESOLVED)
      && (outcome.Passed? <==> c.request.account.None? || c.request.account.value.provider in RESOLVED)
  {
    hide Run, Consistent, OneConsumer;
    ReachableKeepsInv(actions);
    var w := Run(EMPTY, actions);
    assert CallbackInv(w.db, w.callbacks[i]);
  }

  /** A link callback passes its consuming call exactly when the transaction is there, is this user's
      and this provider's, was never consumed and has not expired; it then marks it. Otherwise it ends
      as a failed link, and nothing is written. */
  lemma ConsumesIff(w: World, i: nat)
    requires i < |w.callbacks| && w.callbacks[i].phase.Before? && w.callbacks[i].phase.call.Consuming?
    ensures var account, call := w.callbacks[i].phase.account, w.callbacks[i].phase.call;
      var next := Step(w, Resume(i, Works));
      if call.txId in w.db.links && w.db.links[call.txId].userId == call.userId
         && w.db.links[call.txId].provider == account.provider
         && w.db.links[call.txId].consumedAt == None && w.db.now < w.db.links[call.txId].expiresAt
      then
        && next.db == w.db.(links := w.db.links[call.txId := w.db.links[call.txId].(consumedAt := Some(w.db.now))])
        && next.callbacks[i].verified == Some(call.userId)
        && (next.callbacks[i].phase == Done(LinkFailed) <==> call.userId == "")
      else next.db == w.db && next.callbacks[i].phase == Done(LinkFailed)
  {
  }

  /** Every user row a sign-in creates has a binding, and every binding exactly one event naming
      its owner. */
  lemma NoOrphanUsers(actions: seq<Action>)
    ensures var db := Run(EMPTY, actions).db;
      && (forall u :: u in db.users ==> u in db.outside || exists a :: a in db.bindings && db.bindings[a].userId == u)
      && (forall a :: a in db.bindings ==> exists i :: 0 <= i < |db.events| && db.events[i] == BindEvent(db.bindings[a].userId, a))
      && (forall i, j :: 0 <= i < j < |db.events| ==> db.events[i].account != db.events[j].account)
  {
    hide Run, CallbackInv, OneConsumer;
    ReachableKeepsInv(actions);
    var db := Run(EMPTY, actions).db;
    forall u | u in db.users && u !in db.outside ensures exists a :: a in db.bindings && db.bindings[a].userId == u {
      assert HasBinding(db, u);
    }
    forall a | a in db.bindings ensures exists i :: 0 <= i < |db.events| && db.events[i] == BindEvent(db.bindings[a].userId, a) {
      var i :| 0 <= i < |db.events| && db.events[i].account == a;
      assert db.events[i] == BindEvent(db.bindings[a].userId, a);
    }
  }

  // ----- a link that loses its account -----

  /** A link callback that found the account free ends in a session for its user whether or not its
      binding was the one inserted. The account is its user's, then and ever after, exactly when no
      other user's binding came in between the lookup and the insert. */
  lemma LinkOwnsAccountIff(before: seq<Action>, i: nat, after: seq<Action>)
    requires var w := Run(EMPTY, before);
      i < |w.callbacks| && w.callbacks[i].phase.Before? && w.callbacks[i].phase.call.CreatingBinding?
    ensures var w := Run(EMPTY, before);
      var account, userId := w.callbacks[i].phase.account, w.callbacks[i].phase.call.userId;
      var later := Run(Step(w, Resume(i, Works)), after);
      && Advanced(w.db, Advanced(w.db, w.callbacks[i])).phase == Done(SignedIn(userId))
      && (Owner(later.db, account) == Some(userId) <==> Owner(w.db, account) in {None, Some(userId)})
  {
    hide Run, Inv;
    ReachableKeepsInv(before);
    var w := Run(EMPTY, before);
    StepKeepsInv(w, Resume(i, Works));
    RunKeepsInv(Step(w, Resume(i, Works)), after);
    assert Owner(Step(w, Resume(i, Works)).db, w.callbacks[i].phase.account).Some?;
  }

  lemma {:induction false} RunJoins(w: World, xs: seq<Action>, ys: seq<Action>)
    ensures Run(w, xs + ys) == Run(Run(w, xs), ys)
  {
    if ys == [] {
      assert xs + ys == xs;
    } else {
      RunJoins(w, xs, ys[..|ys| - 1]);
      assert (xs + ys)[..|xs + ys| - 1] == xs + ys[..|ys| - 1];
    }
  }

  lemma RunTwo(w: World, a: Action, b: Action)
    ensures Run(w, [a, b]) == Step(Step(w, a), b)
  {
    assert [a, b][..1] == [a] && [a][..0] == [];
    assert Run(w, [a]) == Step(Run(w, []), a);
  }

  const CONTESTED := Account("github", "7")
  const ANN_LINKS := Request(Some(CONTESTED), PendingIntent("t", "ann"), None, "x")
  const BEN_LOGS_IN := Request(Some(CONTESTED), NoIntent, None, "ben")

  /** Ann's link is open and the two callbacks have arrived. */
  const OPENING := World(
    Db({"ann"}, {"ann"}, map[], map["t" := LinkTransaction("ann", "github", 5, None)], [], 0),
    [Arrived(ANN_LINKS), Arrived(BEN_LOGS_IN)])

  const OPENING_ACTIONS := [InsertUser("ann"), StartLink("t", "ann", "github", 5)] + [Arrive(ANN_LINKS), Arrive(BEN_LOGS_IN)]

  lemma OpeningIsReachable()
    ensures Run(EMPTY, OPENING_ACTIONS) == OPENING
  {
    RunJoins(EMPTY, [InsertUser("ann"), StartLink("t", "ann", "github", 5)], [Arrive(ANN_LINKS), Arrive(BEN_LOGS_IN)]);
    RunTwo(EMPTY, InsertUser("ann"), StartLink("t", "ann", "github", 5));
    var w := Step(Step(EMPTY, InsertUser("ann")), StartLink("t", "ann", "github", 5));
    RunTwo(w, Arrive(ANN_LINKS), Arrive(BEN_LOGS_IN));
  }

  /** Such a loss: ann's link looks the account up and consumes its transaction, the account's first
      login creates ben, and then ann's binding is skipped. */
  lemma LinkLosesAccount()
    ensures Run(EMPTY, OPENING_ACTIONS) == OPENING
    ensures
      var looked := Run(OPENING, [Resume(0, Works), Resume(0, Works)]);
      var created := Run(looked, [Resume(1, Works), Resume(1, Works)]);
      var w := Run(created, [Resume(0, Works), Resume(0, Works)]);
      && |w.callbacks| == 2
      && w.callbacks[0].phase == Done(SignedIn("ann"))
      && w.callbacks[1].phase == Done(SignedIn("ben"))
      && Owner(w.db, CONTESTED) == Some("ben")
  {
    hide Run;
    OpeningIsReachable();
    var ready := Callback(ANN_LINKS, Before(CONTESTED, CreatingBinding("ann")), Some("ann"));
    var ended := Callback(BEN_LOGS_IN, Done(SignedIn("ben")), None);
    var consumed := OPENING.db.(links := map["t" := LinkTransaction("ann", "github", 5, Some(0))]);
    var looked := World(consumed, [ready, Arrived(BEN_LOGS_IN)]);
    assert Run(OPENING, [Resume(0, Works), Resume(0, Works)]) == looked by {
      RunTwo(OPENING, Resume(0, Works), Resume(0, Works));
    }
    var created := World(Bound(consumed.(users := {"ann", "ben"}), CONTESTED, "ben", None), [ready, ended]);
    assert Run(looked, [Resume(1, Works), Resume(1, Works)]) == created by {
      RunTwo(looked, Resume(1, Works), Resume(1, Works));
    }
    RunTwo(created, Resume(0, Works), Resume(0, Works));
  }

  // ----- one callback with nothing in between -----

  function CallsLeft(phase: Phase): nat {
    match phase
    case Done(_) => 0
    case Before(_, Looking) => 6
    case Before(_, Consuming(_, _, _)) => 5
    case Before(_, UpdatingLogin(_, _)) => 1
    case Before(_, CreatingBinding(_)) => 2
    case Before(_, ReadingUser(_)) => 1
    case Before(_, CreatingUser) => 2
    case Before(_, FetchingWinner) => 1
  }

  /** The callback run to its end, every database call working. */
  function Finish(db: Db, c: Callback): (r: (Db, Outcome))
    decreases CallsLeft(c.phase)
  {
    match c.phase
    case Done(outcome) => (db, outcome)
    case Before(_, _) => Finish(Wrote(db, c), Advanced(db, c))
  }

  /** The login a returning user's binding shows afterwards. */
  function ShownLogin(request: Request, before: Option<string>): Option<string> {
    if request.login.Some? && request.login.value != "" then request.login else before
  }

  /** The database with the transaction marked and the account bound as given. */
  function Marked(db: Db, txId: string): Db {
    if txId in db.links then db.(links := db.links[txId := db.links[txId].(consumedAt := Some(db.now))]) else db
  }

  /** The bindings after a returning user's login. */
  function Relogged(db: Db, request: Request, account: Account): map<Account, Binding> {
    if account in db.bindings
    then db.bindings[account := Binding(db.bindings[account].userId, ShownLogin(request, db.bindings[account].login))]
    else db.bindings
  }

  /** What an OAuth callback decides and writes when nothing comes in between. */
  ghost predicate Decides(db: Db, request: Request, account: Account, after: Db, outcome: Outcome) {
    match request.intent
    case FailedIntent => outcome == LinkFailed && after == db
    case NoIntent =>
      if account in db.bindings then
        outcome == SignedIn(db.bindings[account].userId) && after == db.(bindings := Relogged(db, request, account))
      else if request.newUserId in db.users then
        outcome == Threw && after == db
      else
        && outcome == SignedIn(request.newUserId)
        && after == db.(users := db.users + {request.newUserId},
                        bindings := db.bindings[account := Binding(request.newUserId, request.login)],
                        events := db.events + [BindEvent(request.newUserId, account)])
    case PendingIntent(txId, userId) =>
      if !(txId in db.links && db.links[txId].userId == userId && db.links[txId].provider == account.provider
           && db.links[txId].consumedAt == None && db.now < db.links[txId].expiresAt) then
        outcome == LinkFailed && after == db
      else if userId == "" then
        outcome == LinkFailed && after == Marked(db, txId)
      else if account in db.bindings then
        && outcome == (if db.bindings[account].userId == userId then SignedIn(userId) else AlreadyLinked)
        && after == Marked(db, txId).(bindings := Relogged(db, request, account))
      else
        && outcome == SignedIn(userId)
        && after == Marked(db, txId).(bindings := db.bindings[account := Binding(userId, None)],
                                      events := db.events + [BindEvent(userId, account)])
  }

  /** The whole decision, undisturbed. */
  lemma UndisturbedDecision(db: Db, request: Request, account: Account)
    requires request.account == Some(account) && account.provider in KNOWN_OAUTH && account.provider !in RESOLVED
    ensures Decides(db, request, account, Finish(db, Arrived(request)).0, Finish(db, Arrived(request)).1)
  {
    var c0 := Arrived(request);
    var c1 := Advanced(db, c0);
    assert Finish(db, c0) == Finish(db, c1);
    match request.intent
    case FailedIntent =>
    case NoIntent => FinishSettled(db, c1);
    case PendingIntent(txId, userId) =>
      var db2, c2 := Wrote(db, c1), Advanced(db, c1);
      assert Finish(db, c1) == Finish(db2, c2);
      if c2.phase.Before? {
        FinishSettled(db2, c2);
      }
  }

  /** From the settled link intent to the end. */
  ghost function SettledEnd(db: Db, c: Callback): (Db, Outcome) {
    match c.phase
    case Done(outcome) => (db, outcome)
    case Before(account, UpdatingLogin(owner, login)) => (LoginUpdated(db, account, login), Conclude(owner, c.verified))
    case Before(account, CreatingBinding(userId)) => (Bound(db, account, userId, None), SignedIn(userId))
    case Before(account, _) =>
      (FirstLoggedIn(db, account, c.request.newUserId, c.request.login),
       if c.request.newUserId in db.users then Threw else SignedIn(c.request.newUserId))
  }

  lemma FinishSettled(db: Db, c: Callback)
    requires c.phase.Before? ==>
      c.phase.call.UpdatingLogin? || c.phase.call.CreatingBinding? || (c.phase.call.CreatingUser? && c.phase.account !in db.bindings)
    ensures Finish(db, c) == SettledEnd(db, c)
  {
    if c.phase.Before? {
      var db2, c2 := Wrote(db, c), Advanced(db, c);
      assert Finish(db, c) == Finish(db2, c2);
      if c2.phase.Before? {
        assert Finish(db2, c2) == Finish(Wrote(db2, c2), Advanced(db2, c2));
      }
    }
  }

  /** So, undisturbed, a session is always for the owner of the account, linking or not. */
  lemma UndisturbedSignInIsOwner(db: Db, request: Request)
    ensures var (after, outcome) := Finish(db, Arrived(request));
      outcome.SignedIn? ==> request.account.Some? && Owner(after, request.account.value) == Some(outcome.userId)
  {
    if request.account.Some? && Arrived(request).phase.Before? {
      UndisturbedDecision(db, request, request.account.value);
      hide Finish;
    }
  }

  /** The callback as one call; `c` follows it from one database call to the next. */
  method HandleSignIn(db: Database, request: Request) returns (outcome: Outcome)
    modifies db
    ensures (db.View(), outcome) == Finish(old(db.View()), Arrived(request))
  {
    ghost var goal, c, view := Finish(db.View(), Arrived(request)), Arrived(request), db.View();
    if request.account.None? || request.account.value.provider in RESOLVED {
      return Passed;
    }
    var account := request.account.value;
    if account.provider !in KNOWN_OAUTH {
      return Denied;
    }
    var existing := db.FindBinding(account);
    c := Advanced(view, c);
    assert goal == Finish(db.View(), c);
    if request.intent.FailedIntent? {
      return LinkFailed;
    }
    var verified: Option<string> := None;
    if request.intent.PendingIntent? {
      verified := db.ConsumeLinkTransaction(request.intent.txId, request.intent.userId, account.provider);
      c, view := Advanced(view, c), db.View();
      assert goal == Finish(view, c);
      if verified.None? || verified.value == "" {
        return LinkFailed;
      }
    }
    if existing.Some? {
      var owner := existing.value.userId;
      if request.login.Some? && request.login.value != "" {
        db.UpdateLogin(account, request.login.value);
        c, view := Advanced(view, c), db.View();
      }
      assert c.phase.Done? && goal == Finish(view, c);
      if verified.Some? {
        return if owner == verified.value then SignedIn(owner) else AlreadyLinked;
      }
      return SignedIn(owner);
    }
    if verified.Some? {
      var _ := db.CreateBinding(account, verified.value);
      c, view := Advanced(view, c), db.View();
      assert goal == Finish(view, c);
      c := Advanced(view, c);   // reading the user row, for its wallet address
      assert goal == Finish(view, c);
      return SignedIn(verified.value);
    }
    outcome := SignInNewUser(db, account, c, request.newUserId, request.login);
  }

  /** The end of a callback that found no binding: the account may meanwhile be bound. */
  method SignInNewUser(db: Database, account: Account, ghost c: Callback, newUserId: string, login: Option<string>) returns (outcome: Outcome)
    requires c.phase == Before(account, CreatingUser) && c.request.newUserId == newUserId && c.request.login == login
    modifies db
    ensures (db.View(), outcome) == Finish(old(db.View()), c)
  {
    ghost var view, d := db.View(), Advanced(db.View(), c);
    var first := db.CreateUserWithBinding(account, newUserId, login);
    assert Finish(view, c) == Finish(db.View(), d);
    match first {
      case KeyTaken =>
        assert d.phase == Done(Threw);
        outcome := Threw;
      case Created =>
        assert d.phase == Done(SignedIn(newUserId));
        outcome := SignedIn(newUserId);
      case RaceLost =>
        assert d.phase == Before(account, FetchingWinner);
        var winner := db.FindBinding(account);
        outcome := if winner.Some? then SignedIn(winner.value.userId) else Denied;
        assert Finish(db.View(), d) == Finish(db.View(), Advanced(db.View(), d));
    }
  }
}

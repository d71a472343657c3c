/** The shared MCP connection cache (graph-executor.factory.ts, `McpConnectionCache`).

    Each atomic piece of the class between two awaits is one step; a run interleaves the steps of
    any number of callers with connection attempts succeeding or failing. */
module McpCache {
  import opened Wrappers

  datatype Connection = Connection(id: nat, createdAt: int)

  /** The cache's two fields, and what its environment has seen of it: how many connections were
      opened, how often each was closed, how many `connect()` calls await the servers, how many have
      returned without their `finally` having run, and how many `close()` calls are at their await. */
  datatype Cache = Cache(
    state: Option<Connection>, connecting: bool,
    openCount: nat, closed: multiset<nat>, pending: nat, settling: nat, closing: nat)

  const EMPTY := Cache(None, false, 0, multiset{}, 0, 0, 0)

  datatype Served = FromCache(id: nat) | FromAttempt

  datatype Event =
    | GetSource(now: int, configured: bool)   // `configured`: some MCP server is configured
    | Invalidate
    | ConnectSucceeds(now: int)
    | ConnectFails
    | Settle                                  // the `finally` of a returned `connect()`
    | CloseStarts                             // `close()` up to its await
    | CloseEnds                               // `close()` from its await on

  // ----- the steps -----

  function Invalidated(c: Cache): Cache {
    match c.state
    case None => c
    case Some(s) => c.(state := None, closed := c.closed + multiset{s.id})
  }

  predicate Fresh(c: Cache, ttlMs: int, now: int) {
    c.state.Some? && now - c.state.value.createdAt < ttlMs
  }

  /** `connect()` up to its first await: it returns at once when no server is configured. */
  function ConnectStarted(c: Cache, configured: bool): Cache {
    var d := Invalidated(c);
    if configured then d.(connecting := true, pending := d.pending + 1)
    else d.(connecting := true, settling := d.settling + 1)
  }

  function SourceRequested(c: Cache, ttlMs: int, now: int, configured: bool): Cache {
    if Fresh(c, ttlMs, now) || c.connecting then c else ConnectStarted(c, configured)
  }

  function Connected(c: Cache, now: int): Cache {
    if c.pending == 0 then c
    else c.(state := Some(Connection(c.openCount, now)), openCount := c.openCount + 1, pending := c.pending - 1, settling := c.settling + 1)
  }

  function Failed(c: Cache): Cache {
    if c.pending == 0 then c else c.(pending := c.pending - 1, settling := c.settling + 1)
  }

  function Settled(c: Cache): Cache {
    if c.settling == 0 then c else c.(connecting := false, settling := c.settling - 1)
  }

  function CloseStarted(c: Cache): Cache {
    match c.state
    case None => c
    case Some(s) => c.(closed := c.closed + multiset{s.id}, closing := c.closing + 1)
  }

  function CloseEnded(c: Cache): Cache {
    if c.closing == 0 then c else c.(state := None, closing := c.closing - 1)
  }

  function Step(c: Cache, ttlMs: int, e: Event): Cache {
    match e
    case GetSource(now, configured) => SourceRequested(c, ttlMs, now, configured)
    case Invalidate => Invalidated(c)
    case ConnectSucceeds(now) => Connected(c, now)
    case ConnectFails => Failed(c)
    case Settle => Settled(c)
    case CloseStarts => CloseStarted(c)
    case CloseEnds => CloseEnded(c)
  }

  function Run(c: Cache, ttlMs: int, events: seq<Event>): Cache {
    if |events| == 0 then c else Step(Run(c, ttlMs, events[..|events| - 1]), ttlMs, events[|events| - 1])
  }

  // ----- the class -----

  class McpConnectionCache {
    const ttlMs: int
    var state: Option<Connection>
    var connecting: bool
    ghost var openCount: nat
    ghost var closed: multiset<nat>
    ghost var pending: nat
    ghost var settling: nat
    ghost var closing: nat

    constructor (ttl: int)
      ensures ttlMs == ttl && View() == EMPTY
    {
      ttlMs, state, connecting := ttl, None, false;
      openCount, closed, pending, settling, closing := 0, multiset{}, 0, 0, 0;
    }

    ghost function View(): Cache
      reads this
    {
      Cache(state, connecting, openCount, closed, pending, settling, closing)
    }

    method GetSource(now: int, configured: bool) returns (r: Served)
      modifies this
      ensures View() == SourceRequested(old(View()), ttlMs, now, configured)
      ensures r == if Fresh(old(View()), ttlMs, now) then FromCache(old(state).value.id) else FromAttempt
    {
      if state.Some? && now - state.value.createdAt < ttlMs {
        return FromCache(state.value.id);
      }
      if !connecting {
        Connect(configured);
      }
      r := FromAttempt;
    }

    method Invalidate()
      modifies this
      ensures View() == Invalidated(old(View()))
    {
      if state.Some? {
        closed := closed + multiset{state.value.id};
        state := None;
      }
    }

    method Connect(configured: bool)
      modifies this
      ensures View() == ConnectStarted(old(View()), configured)
    {
      Invalidate();
      if configured {
        pending := pending + 1;
      } else {
        settling := settling + 1;
      }
      connecting := true;
    }

    /** `loadMcpTools` resolved. */
    method ConnectSucceeds(connection: Connection)
      requires pending > 0 && connection.id == openCount
      modifies this
      ensures View() == Connected(old(View()), connection.createdAt)
    {
      state := Some(connection);
      openCount := openCount + 1;
      pending, settling := pending - 1, settling + 1;
    }

    /** `loadMcpTools` rejected: the error is logged and the attempt yields no source. */
    method ConnectFails()
      requires pending > 0
      modifies this
      ensures View() == Failed(old(View()))
    {
      pending, settling := pending - 1, settling + 1;
    }

    method Settle()
      requires settling > 0
      modifies this
      ensures View() == Settled(old(View()))
    {
      connecting := false;
      settling := settling - 1;
    }

    /** `close()` up to its await; `waiting` tells that there was a connection to close. */
    method StartClose() returns (waiting: bool)
      modifies this
      ensures View() == CloseStarted(old(View()))
      ensures waiting == old(state).Some?
    {
      waiting := state.Some?;
      if waiting {
        closed := closed + multiset{state.value.id};
        closing := closing + 1;
      }
    }

    /** `close()` from its await on, whether or not closing the connection threw. */
    method EndClose()
      requires closing > 0
      modifies this
      ensures View() == CloseEnded(old(View()))
    {
      state := None;
      closing := closing - 1;
    }
  }

  // ----- the invariant -----

  /** Connection `id` was opened and is the current one, still open, or was closed exactly once. */
  ghost predicate Accounted(c: Cache, id: nat) {
    c.closed[id] == if id < c.openCount && !(c.state.Some? && c.state.value.id == id) then 1 else 0
  }

  ghost predicate Inv(c: Cache) {
    && c.pending + c.settling == (if c.connecting then 1 else 0)
    && (c.pending > 0 ==> c.state.None?)
    && (c.state.Some? ==> c.state.value.id < c.openCount)
    && forall id: nat :: Accounted(c, id)
  }

  predicate IsClose(e: Event) {
    e.CloseStarts? || e.CloseEnds?
  }

  lemma StepKeepsInv(c: Cache, ttlMs: int, e: Event)
    requires Inv(c) && !IsClose(e)
    ensures Inv(Step(c, ttlMs, e))
  {
    var d := Step(c, ttlMs, e);
    forall id: nat ensures Accounted(d, id) {
      assert Accounted(c, id);
    }
    assert Accounted(c, c.openCount);
  }

  ghost predicate NoClose(events: seq<Event>) {
    forall i :: 0 <= i < |events| ==> !IsClose(events[i])
  }

  lemma {:induction false} RunKeepsInv(c: Cache, ttlMs: int, events: seq<Event>)
    requires Inv(c) && NoClose(events)
    ensures Inv(Run(c, ttlMs, events))
  {
    if |events| > 0 {
      RunKeepsInv(c, ttlMs, events[..|events| - 1]);
      StepKeepsInv(Run(c, ttlMs, events[..|events| - 1]), ttlMs, events[|events| - 1]);
    }
  }

  lemma EmptyKeepsInv()
    ensures Inv(EMPTY)
  {
  }

  lemma InvAccounts(c: Cache, id: nat)
    requires Inv(c)
    ensures c.pending <= 1 && (c.pending == 1 ==> c.connecting && c.state.None?)
    ensures c.state.Some? ==> c.state.value.id < c.openCount
    ensures id < c.openCount ==> c.closed[id] == if c.state.Some? && c.state.value.id == id then 0 else 1
    ensures id >= c.openCount ==> c.closed[id] == 0
  {
    assert Accounted(c, id);
  }

  /** No leak, no double close: in every run without shutdown at most one connection attempt is in
      flight, none while a connection is cached, and every connection ever opened is either the
      cached one, not yet closed, or was closed exactly once. */
  lemma NeverLeaks(ttlMs: int, events: seq<Event>, id: nat)
    requires NoClose(events)
    ensures var c := Run(EMPTY, ttlMs, events);
      && c.pending <= 1 && (c.pending == 1 ==> c.connecting && c.state.None?)
      && (c.state.Some? ==> c.state.value.id < c.openCount)
      && (id < c.openCount ==> c.closed[id] == if c.state.Some? && c.state.value.id == id then 0 else 1)
      && (id >= c.openCount ==> c.closed[id] == 0)
  {
    hide Run, Step, Inv, Accounted;
    EmptyKeepsInv();
    RunKeepsInv(EMPTY, ttlMs, events);
    InvAccounts(Run(EMPTY, ttlMs, events), id);
  }

  /** A successful attempt never overwrites a cached connection. */
  lemma NeverOverwrites(ttlMs: int, events: seq<Event>, now: int)
    requires NoClose(events) && Run(EMPTY, ttlMs, events).pending > 0
    ensures var c := Run(EMPTY, ttlMs, events); c.state.None? && Connected(c, now).state == Some(Connection(c.openCount, now))
  {
    hide Run, Step;
    NeverLeaks(ttlMs, events, 0);
  }

  /** A source served from the cache is the current connection, within its time to live and open. */
  lemma ServedConnectionIsOpen(ttlMs: int, events: seq<Event>, now: int)
    requires NoClose(events) && Fresh(Run(EMPTY, ttlMs, events), ttlMs, now)
    ensures var c := Run(EMPTY, ttlMs, events); c.state.value.id < c.openCount && c.closed[c.state.value.id] == 0
  {
    hide Run, Step;
    NeverLeaks(ttlMs, events, Run(EMPTY, ttlMs, events).state.value.id);
  }

  // ----- a connection while others go on -----

  /** The step drops the cached connection. */
  predicate Drops(c: Cache, ttlMs: int, e: Event) {
    e.Invalidate? || (e.GetSource? && !Fresh(c, ttlMs, e.now) && !c.connecting)
  }

  /** Nothing drops the cached connection while `events` happen. */
  ghost predicate Undisturbed(c: Cache, ttlMs: int, events: seq<Event>) {
    forall i :: 0 <= i < |events| ==> !Drops(Run(c, ttlMs, events[..i]), ttlMs, events[i])
  }

  ghost predicate KeepsOrNewer(c: Cache, d: Cache, undisturbed: bool) {
    && c.openCount <= d.openCount
    && if undisturbed then d.state == c.state else d.state.None? || d.state.value.id >= c.openCount
  }

  lemma StepKeepsOrNewer(c: Cache, d: Cache, ttlMs: int, e: Event, undisturbed: bool)
    requires c.state.Some? && Inv(d) && !IsClose(e) && KeepsOrNewer(c, d, undisturbed)
    ensures KeepsOrNewer(c, Step(d, ttlMs, e), undisturbed && !Drops(d, ttlMs, e))
  {
  }

  lemma UndisturbedSteps(c: Cache, ttlMs: int, events: seq<Event>)
    requires |events| > 0
    ensures var front := events[..|events| - 1];
      Undisturbed(c, ttlMs, events) <==> Undisturbed(c, ttlMs, front) && !Drops(Run(c, ttlMs, front), ttlMs, events[|events| - 1])
  {
    hide Run, Drops;
    var front := events[..|events| - 1];
    assert forall i :: 0 <= i < |front| ==> front[..i] == events[..i] && front[i] == events[i];
  }

  lemma {:induction false} RunKeepsOrNewer(c: Cache, ttlMs: int, events: seq<Event>)
    requires Inv(c) && c.state.Some? && NoClose(events)
    ensures KeepsOrNewer(c, Run(c, ttlMs, events), Undisturbed(c, ttlMs, events))
  {
    hide Step, Drops, Inv;
    if |events| > 0 {
      var front := events[..|events| - 1];
      RunKeepsOrNewer(c, ttlMs, front);
      RunKeepsInv(c, ttlMs, front);
      UndisturbedSteps(c, ttlMs, events);
      StepKeepsOrNewer(c, Run(c, ttlMs, front), ttlMs, events[|events| - 1], Undisturbed(c, ttlMs, front));
    }
  }

  /** A source received through a shared attempt is the connection the attempt opened. When a caller
      gets to use it, after whatever happened in the meantime, it is open exactly when nothing
      dropped it meanwhile; otherwise it was closed once. */
  lemma SharedConnectionIsOpenIff(ttlMs: int, before: seq<Event>, now: int, meanwhile: seq<Event>)
    requires NoClose(before) && NoClose(meanwhile) && Run(EMPTY, ttlMs, before).pending > 0
    ensures var c := Step(Run(EMPTY, ttlMs, before), ttlMs, ConnectSucceeds(now));
      var d := Run(c, ttlMs, meanwhile);
      && c.state == Some(Connection(Run(EMPTY, ttlMs, before).openCount, now))
      && d.closed[c.state.value.id] == if Undisturbed(c, ttlMs, meanwhile) then 0 else 1
  {
    hide Run, Step, Inv, Accounted, Undisturbed;
    EmptyKeepsInv();
    RunKeepsInv(EMPTY, ttlMs, before);
    var b := Run(EMPTY, ttlMs, before);
    StepKeepsInv(b, ttlMs, ConnectSucceeds(now));
    var c := Step(b, ttlMs, ConnectSucceeds(now));
    ConnectedState(b, ttlMs, now);
    RunKeepsInv(c, ttlMs, meanwhile);
    RunKeepsOrNewer(c, ttlMs, meanwhile);
    InvAccounts(c, c.state.value.id);
    InvAccounts(Run(c, ttlMs, meanwhile), c.state.value.id);
  }

  lemma ConnectedState(c: Cache, ttlMs: int, now: int)
    requires c.pending > 0
    ensures Step(c, ttlMs, ConnectSucceeds(now)).state == Some(Connection(c.openCount, now))
  {
  }

  // ----- reconnecting -----

  /** MCP_NOT_SINGLETON: a connection opened at some time is served for its time to live and not a
      moment longer. */
  lemma ServedForItsLifetime(c: Cache, ttlMs: int, openedAt: int, now: int)
    requires c.state.Some? && c.state.value.createdAt == openedAt
    ensures Fresh(c, ttlMs, now) <==> now < openedAt + ttlMs
    ensures Fresh(c, ttlMs, now) ==> forall configured :: Step(c, ttlMs, GetSource(now, configured)) == c
  {
  }

  ghost predicate Reconnects(c: Cache, ttlMs: int, now: int, later: int) {
    var started := Step(c, ttlMs, GetSource(now, true));
    var connected, failed := Step(started, ttlMs, ConnectSucceeds(later)), Step(started, ttlMs, ConnectFails);
    && started.connecting && started.pending == 1 && started.state.None?
    && (c.state.Some? ==> started.closed == c.closed + multiset{c.state.value.id})
    && (forall t, configured :: Step(started, ttlMs, GetSource(t, configured)) == started)
    && connected.state == Some(Connection(c.openCount, later)) && connected.openCount == c.openCount + 1
    && failed.state.None? && failed.openCount == c.openCount
    && !Step(connected, ttlMs, Settle).connecting && Step(connected, ttlMs, Settle).state == connected.state
    && !Step(failed, ttlMs, Settle).connecting
  }

  lemma IdleReconnects(c: Cache, ttlMs: int, now: int, later: int)
    requires c.pending == 0 && c.settling == 0 && !c.connecting && !Fresh(c, ttlMs, now)
    ensures Reconnects(c, ttlMs, now, later)
  {
  }

  /** MCP_RECONNECT_ON_ERROR: without a fresh connection and without an attempt under way, the next
      request closes what is left and starts an attempt; the requests after it only wait for that
      one. Its success is cached from then on, and either way a later request may connect again. */
  lemma NextRequestReconnects(ttlMs: int, events: seq<Event>, now: int, later: int)
    requires NoClose(events)
    requires var c := Run(EMPTY, ttlMs, events); !Fresh(c, ttlMs, now) && !c.connecting
    ensures Reconnects(Run(EMPTY, ttlMs, events), ttlMs, now, later)
  {
    hide Run, Step, Inv, Reconnects, Fresh;
    EmptyKeepsInv();
    RunKeepsInv(EMPTY, ttlMs, events);
    IdleReconnects(Run(EMPTY, ttlMs, events), ttlMs, now, later);
  }

  /** Without servers the attempt ends at once, and nothing is opened. */
  lemma NothingConfigured(ttlMs: int, c: Cache, now: int)
    requires !Fresh(c, ttlMs, now) && !c.connecting
    ensures var started := Step(c, ttlMs, GetSource(now, false));
      && started.state.None? && started.pending == c.pending && started.openCount == c.openCount
      && started.connecting && !Step(started, ttlMs, Settle).connecting
  {
  }

  // ----- shutdown -----

  /** No step but `CloseEnds` reads what was closed or is closing. */
  lemma {:induction false} RunWhileClosing(c: Cache, ttlMs: int, events: seq<Event>, id: nat)
    requires NoClose(events)
    ensures var d := Run(c, ttlMs, events);
      Run(c.(closed := c.closed + multiset{id}, closing := c.closing + 1), ttlMs, events)
      == d.(closed := d.closed + multiset{id}, closing := d.closing + 1)
  {
    hide Step;
    if |events| > 0 {
      var front := events[..|events| - 1];
      RunWhileClosing(c, ttlMs, front, id);
      StepWhileClosing(Run(c, ttlMs, front), ttlMs, events[|events| - 1], id);
    }
  }

  lemma StepWhileClosing(c: Cache, ttlMs: int, e: Event, id: nat)
    requires !IsClose(e)
    ensures var d := Step(c, ttlMs, e);
      Step(c.(closed := c.closed + multiset{id}, closing := c.closing + 1), ttlMs, e)
      == d.(closed := d.closed + multiset{id}, closing := d.closing + 1)
  {
    if c.state.Some? {
      var x, y := multiset{c.state.value.id}, multiset{id};
      assert c.closed + y + x == c.closed + x + y;
    }
  }

  /** Shutdown: while `close()` awaits, other callers go on. It leaves every connection accounted
      for exactly when none of them dropped the connection it is closing; otherwise that connection
      is closed twice or a newer one is forgotten without being closed. */
  lemma CloseAccountsForAllIff(c: Cache, ttlMs: int, during: seq<Event>)
    requires Inv(c) && c.state.Some? && NoClose(during)
    ensures var d := Step(Run(Step(c, ttlMs, CloseStarts), ttlMs, during), ttlMs, CloseEnds);
      (forall id: nat :: Accounted(d, id)) <==> Undisturbed(c, ttlMs, during)
  {
    hide Run, Undisturbed;
    var s := c.state.value.id;
    RunWhileClosing(c, ttlMs, during, s);
    RunKeepsInv(c, ttlMs, during);
    RunKeepsOrNewer(c, ttlMs, during);
    var m := Run(c, ttlMs, during);
    var d := CloseEnded(m.(closed := m.closed + multiset{s}, closing := m.closing + 1));
    assert Step(Run(Step(c, ttlMs, CloseStarts), ttlMs, during), ttlMs, CloseEnds) == d;
    if Undisturbed(c, ttlMs, during) {
      forall id: nat ensures Accounted(d, id) { assert Accounted(m, id); }
    } else {
      assert Accounted(m, s);
      assert !Accounted(d, s);
    }
  }

  /** A connection was opened at time 0 and is cached. */
  const OPENED := [GetSource(0, true), ConnectSucceeds(0), Settle]

  lemma OpenedState(ttlMs: int)
    ensures Run(EMPTY, ttlMs, OPENED) == Cache(Some(Connection(0, 0)), false, 1, multiset{}, 0, 0, 0)
  {
    assert OPENED[..2][..1] == OPENED[..1] && OPENED[..1][..0] == [];
    assert Run(EMPTY, ttlMs, OPENED[..1]) == ConnectStarted(EMPTY, true);
    assert Run(EMPTY, ttlMs, OPENED[..2]) == Connected(ConnectStarted(EMPTY, true), 0);
  }

  /** Such a run: the time to live runs out while `close()` awaits. */
  lemma ShutdownRace(ttlMs: int)
    requires ttlMs > 0
    ensures var events := [CloseStarts, GetSource(ttlMs, true), ConnectSucceeds(ttlMs), CloseEnds];
      var c := Run(Run(EMPTY, ttlMs, OPENED), ttlMs, events);
      c.openCount == 2 && c.closed[0] == 2 && c.state.None? && c.closed[1] == 0
  {
    OpenedState(ttlMs);
    var c0 := Run(EMPTY, ttlMs, OPENED);
    var events := [CloseStarts, GetSource(ttlMs, true), ConnectSucceeds(ttlMs), CloseEnds];
    assert events[..3][..2] == events[..2] && events[..2][..1] == events[..1] && events[..1][..0] == [];
    assert Run(c0, ttlMs, events[..1]) == CloseStarted(c0);
    assert Run(c0, ttlMs, events[..2]) == ConnectStarted(CloseStarted(c0), true);
  }
}

/** The promises of the connection pool, for every interleaving of any number of calls. */
module PoolTheorems {
  import opened Results
  import opened Counting
  import opened PoolProtocol
  import opened PoolInvariants

  // ---- what is owned ----

  /** Semaphore tokens and budget units are each held by exactly one attached client or call. */
  lemma TenantTokensAreOwned(states: seq<State>, events: seq<Event>, lim: Limits, i: nat, k: Tenant)
    requires Sensible(lim) && Run(states, events, lim) && i < |states|
    ensures var s := states[i];
      && Tokens(s, k) == CountActive(s.active, OfTenant(k)) + CountCalls(s.calls, HoldsToken(k)) <= lim.tenantPerKey
      && s.tenantActive == CountActive(s.active, AnyTenant) + CountCalls(s.calls, HoldsBudget) <= lim.tenantBudget
  {
    RunKeepsInv(states, events, lim, i);
  }

  /**
    What can happen while a section that releases clients holds the lock: it gives back one client
    after another, and other calls send to a semaphore, receive from one, or give up waiting.
  */
  datatype Inside = Gives(client: ClientId, now: int) | Sends(id: CallId) | Receives(id: CallId) | StopsWaiting(id: CallId)

  ghost predicate CanHappen(s: State, e: Inside, lim: Limits) {
    match e
    case Gives(c, _) => c in s.active
    case Sends(id) => InPhase(s, id, Waiting) && Tokens(s, s.calls[id].tenant.value) < lim.tenantPerKey
    case Receives(id) => InPhase(s, id, ReturningToken)
    case StopsWaiting(id) => InPhase(s, id, Waiting)
  }

  ghost function Happened(s: State, e: Inside, lim: Limits): State
    requires CanHappen(s, e, lim)
  {
    match e
    case Gives(c, now) => ReleaseOne(s, c, now, lim)
    case Sends(id) => TakeToken(s, id)
    case Receives(id) => ReturnToken(s, id)
    case StopsWaiting(id) => GiveUp(s, id)
  }

  ghost predicate CanAllHappen(s: State, es: seq<Inside>, lim: Limits)
    decreases |es|
  {
    es == [] || (CanHappen(s, es[0], lim) && CanAllHappen(Happened(s, es[0], lim), es[1..], lim))
  }

  /** The moment inside such a section that began in s, after these things happened. */
  ghost function Inner(s: State, es: seq<Inside>, lim: Limits): State
    requires CanAllHappen(s, es, lim)
    decreases |es|
  {
    if es == [] then s else Inner(Happened(s, es[0], lim), es[1..], lim)
  }

  lemma {:induction false} InnerKeepsInv(s: State, es: seq<Inside>, lim: Limits)
    requires Inv(s, lim) && CanAllHappen(s, es, lim)
    ensures Inv(Inner(s, es, lim), lim)
    decreases |es|
  {
    hide Inv, Decide, ReleaseOne;
    if es != [] {
      match es[0] {
        case Gives(c, now) => ReleaseOneKeepsInv(s, c, now, lim);
        case Sends(id) => TakeTokenKeepsInv(s, id, lim);
        case Receives(id) => ReturnTokenKeepsInv(s, id, lim);
        case StopsWaiting(id) => GiveUpKeepsInv(s, id, lim);
      }
      InnerKeepsInv(Happened(s, es[0], lim), es[1..], lim);
    }
  }

  /**
    The receive done with the lock held never waits: at every moment inside a release, whatever other
    calls do to the semaphores in the meantime, the token of a tenant client still held is there.
  */
  lemma ReceiveUnderLockNeverBlocks(states: seq<State>, events: seq<Event>, lim: Limits, i: nat,
                                    es: seq<Inside>, c: ClientId)
    requires Sensible(lim) && Run(states, events, lim) && i < |states|
    requires CanAllHappen(states[i], es, lim) && c in Inner(states[i], es, lim).active
    ensures var t := Inner(states[i], es, lim);
      t.active[c].tenant.Some? ==>
        t.active[c].tenant.value in t.sem && t.sem[t.active[c].tenant.value] >= 1 && t.tenantActive >= 1
  {
    RunKeepsInv(states, events, lim, i);
    InnerKeepsInv(states[i], es, lim);
    ReleaseIsReady(Inner(states[i], es, lim), c, lim);
  }

  /** The in-use counts are the attached clients plus the reservations whose factory is running. */
  lemma ReservationsAreConserved(states: seq<State>, events: seq<Event>, lim: Limits, i: nat)
    requires Sensible(lim) && Run(states, events, lim) && i < |states|
    ensures var s := states[i];
      && (forall srv :: InUse(s, srv) == CountActive(s.active, OnServer(srv)) + CountCalls(s.calls, ReservingOn(srv)))
      && s.total == Sum(s.perServer) == |s.active| + CountCalls(s.calls, Reserving)
      && (forall srv :: srv in s.perServer ==> s.perServer[srv] > 0)
  {
    RunKeepsInv(states, events, lim, i);
    forall srv ensures
      InUse(states[i], srv) == CountActive(states[i].active, OnServer(srv)) + CountCalls(states[i].calls, ReservingOn(srv))
    {
      assert InUse(states[i], srv) == Get(states[i].perServer, srv);
    }
  }

  /** The clamp never fires: a failed factory and a release each return exactly one connection. */
  lemma ClampNeverFires(states: seq<State>, events: seq<Event>, lim: Limits, i: nat)
    requires Sensible(lim) && Run(states, events, lim) && i < |events|
    ensures match events[i]
      case RolledBack(id) => states[i + 1].total == states[i].total - 1
      case Released(session, srv, c, _) =>
        states[i + 1].total == states[i].total - (if HeldBy(states[i], session, srv, c) then 1 else 0)
      case ReleasedSession(_, order, _) => states[i + 1].total == states[i].total - |order|
      case _ => true
  {
    RunKeepsInv(states, events, lim, i);
    RunStep(states, events, lim, i);
    match events[i]
    case RolledBack(id) =>
      ReservationIsHeld(states[i], id, lim);
      FewerTakesOne(states[i].perServer, states[i].calls[id].server);
    case Released(session, srv, c, now) =>
      if HeldBy(states[i], session, srv, c) {
        ReleaseIsReady(states[i], c, lim);
        FewerTakesOne(states[i].perServer, srv);
      }
    case ReleasedSession(session, order, now) => ReleaseEachParks(states[i], order, now, lim);
    case _ =>
  }

  // ---- caps ----

  /** In-use plus parked connections of a server never exceed the cap, although reuse checks no cap. */
  lemma ServerCapIsGlobal(states: seq<State>, events: seq<Event>, lim: Limits, i: nat, srv: Server)
    requires Sensible(lim) && Run(states, events, lim) && i < |states|
    ensures CountIdle(states[i].idle, srv) + InUse(states[i], srv) <= lim.maxPerServer
  {
    RunKeepsInv(states, events, lim, i);
    assert InUse(states[i], srv) == Get(states[i].perServer, srv);
  }

  lemma ReleaseOneParks(s: State, c: ClientId, now: int, lim: Limits)
    requires Inv(s, lim) && c in s.active
    ensures var t := ReleaseOne(s, c, now, lim);
      && t.active == s.active - {c} && t.idle == s.idle[c := Parked(s.active[c].server, now)]
      && t.total == s.total - 1 && t.calls == s.calls && t.made == s.made
  {
    ReleaseIsReady(s, c, lim);
    FewerTakesOne(s.perServer, s.active[c].server);
    hide Inv, Fewer, Receive, CountIdle;
  }

  /** Every listed client ends up parked, every other checkout stays as it was. */
  lemma {:induction false} ReleaseEachParks(s: State, cs: seq<ClientId>, now: int, lim: Limits)
    requires Inv(s, lim)
    requires forall i, j :: 0 <= i < j < |cs| ==> cs[i] != cs[j]
    requires forall c :: c in cs ==> c in s.active
    ensures var t := ReleaseEach(s, cs, now, lim);
      && t.total == s.total - |cs|
      && t.calls == s.calls && t.made == s.made
      && (forall c :: c in t.active <==> c in s.active && c !in cs)
      && (forall c :: c in t.active ==> t.active[c] == s.active[c])
      && (forall c :: c in t.idle <==> c in s.idle || c in cs)
      && (forall c :: c in t.idle ==> t.idle[c] == if c in cs then Parked(s.active[c].server, now) else s.idle[c])
  {
    if cs != [] {
      hide Inv, ReleaseOne;
      var init, c := cs[..|cs| - 1], cs[|cs| - 1];
      assert cs == init + [c];
      assert c !in init;
      ReleaseEachParks(s, init, now, lim);
      ReleaseEachKeepsInv(s, init, now, lim);
      ReleaseOneParks(ReleaseEach(s, init, now, lim), c, now, lim);
    }
  }

  /** The branches that close a released connection because its server is full are never taken. */
  lemma ReleaseNeverCloses(states: seq<State>, events: seq<Event>, lim: Limits, i: nat)
    requires Sensible(lim) && Run(states, events, lim) && i < |events|
    ensures match events[i]
      case Released(session, srv, c, now) =>
        HeldBy(states[i], session, srv, c) ==> states[i + 1].idle == states[i].idle[c := Parked(srv, now)]
      case ReleasedSession(session, order, now) =>
        forall c :: c in states[i].active && states[i].active[c].session == session ==>
          c in states[i + 1].idle && states[i + 1].idle[c] == Parked(states[i].active[c].server, now)
      case _ => true
  {
    RunKeepsInv(states, events, lim, i);
    RunStep(states, events, lim, i);
    match events[i]
    case Released(session, srv, c, now) =>
      if HeldBy(states[i], session, srv, c) { ReleaseIsReady(states[i], c, lim); }
    case ReleasedSession(session, order, now) => ReleaseEachParks(states[i], order, now, lim);
    case _ =>
  }

  ghost function OperatorUse(s: State): nat {
    CountActive(s.active, Operator) + CountCalls(s.calls, OperatorReserving)
  }

  ghost function TenantUse(s: State): nat {
    CountActive(s.active, AnyTenant) + CountCalls(s.calls, TenantReserving)
  }

  lemma ActiveSplits(m: map<ClientId, Checkout>)
    ensures |m| == CountActive(m, Operator) + CountActive(m, AnyTenant)
  {
    assert m.Keys == ActiveOf(m, Operator) + ActiveOf(m, AnyTenant);
  }

  lemma ReservationsSplit(m: map<CallId, Call>)
    ensures CountCalls(m, Reserving) == CountCalls(m, OperatorReserving) + CountCalls(m, TenantReserving)
    ensures CountCalls(m, TenantReserving) <= CountCalls(m, HoldsBudget)
  {
    assert CallsOf(m, Reserving) == CallsOf(m, OperatorReserving) + CallsOf(m, TenantReserving);
    SubsetSize(CallsOf(m, TenantReserving), CallsOf(m, HoldsBudget));
  }

  /**
    An acquire is refused for a full pool exactly when no idle client can be reused and operator and
    tenant connections together reach the cap; so tenants can never cause it while the operator's
    own use leaves the tenant budget free.
  */
  lemma OperatorHeadroom(states: seq<State>, events: seq<Event>, lim: Limits, i: nat, srv: Server)
    requires Sensible(lim) && Run(states, events, lim) && i < |states|
    ensures var s := states[i];
      && (Decide(s, srv, lim) == PoolFull
          <==> CountIdle(s.idle, srv) == 0 && OperatorUse(s) + TenantUse(s) >= lim.maxTotal)
      && TenantUse(s) <= lim.tenantBudget
      && (OperatorUse(s) + lim.tenantBudget < lim.maxTotal ==> Decide(s, srv, lim) != PoolFull)
  {
    RunKeepsInv(states, events, lim, i);
    ActiveSplits(states[i].active);
    ReservationsSplit(states[i].calls);
  }

  /** What the global cap does bound: first checkouts plus running reservations. */
  lemma FirstCheckoutsAreBounded(states: seq<State>, events: seq<Event>, lim: Limits, i: nat)
    requires Sensible(lim) && Run(states, events, lim) && i < |states|
    ensures |states[i].debut| + CountCalls(states[i].calls, Reserving) <= lim.maxTotal
    ensures forall c :: c in states[i].debut ==> c in states[i].active
  {
    RunKeepsInv(states, events, lim, i);
  }

  lemma Extend(states: seq<State>, events: seq<Event>, lim: Limits, e: Event, s': State)
    requires Run(states, events, lim) && Next(states[|states| - 1], e, s', lim)
    ensures Run(states + [s'], events + [e], lim)
  {
    hide Next;
    var longer, more := states + [s'], events + [e];
    forall i {:trigger more[i]} | 0 <= i < |more| ensures Next(longer[i], more[i], longer[i + 1], lim) {
      if i < |events| { assert more[i] == events[i]; }
    }
  }

  /** Only a reuse, or a reservation below the cap, raises the total, and by one. */
  lemma TotalGrowsBy(s: State, e: Event, s': State, lim: Limits)
    requires Inv(s, lim) && Next(s, e, s', lim)
    ensures e.Reused? ==> s'.total == s.total + 1
    ensures e.Reserved? ==> s'.total == s.total + 1 <= lim.maxTotal
    ensures !e.Reused? && !e.Reserved? ==> s'.total <= s.total
  {
    hide Inv, Fewer, CountIdle, OneMore, Receive, ReleaseEach, Sensible;
    match e
    case ReleasedSession(session, order, now) => ReleaseEachParks(s, order, now, lim);
    case _ =>
  }

  /** A run keeps the global cap at every moment exactly if each of its reuses starts below it. */
  lemma GlobalCapHoldsExactlyIf(states: seq<State>, events: seq<Event>, lim: Limits)
    requires Sensible(lim) && Run(states, events, lim)
    ensures (forall i :: 0 <= i < |states| ==> states[i].total <= lim.maxTotal)
       <==> (forall i :: 0 <= i < |events| && events[i].Reused? ==> states[i].total < lim.maxTotal)
  {
    hide Inv, Next;
    if forall i :: 0 <= i < |states| ==> states[i].total <= lim.maxTotal {
      forall i | 0 <= i < |events| && events[i].Reused? ensures states[i].total < lim.maxTotal {
        RunKeepsInv(states, events, lim, i);
        RunStep(states, events, lim, i);
        TotalGrowsBy(states[i], events[i], states[i + 1], lim);
      }
    }
    if forall i :: 0 <= i < |events| && events[i].Reused? ==> states[i].total < lim.maxTotal {
      forall i | 0 <= i < |states| ensures states[i].total <= lim.maxTotal { StaysWithinCap(states, events, lim, i); }
    }
  }

  lemma {:induction false} StaysWithinCap(states: seq<State>, events: seq<Event>, lim: Limits, i: nat)
    requires Sensible(lim) && Run(states, events, lim) && i < |states|
    requires forall j :: 0 <= j < |events| && events[j].Reused? ==> states[j].total < lim.maxTotal
    ensures states[i].total <= lim.maxTotal
  {
    hide Inv, Next;
    if i > 0 {
      StaysWithinCap(states, events, lim, i - 1);
      RunKeepsInv(states, events, lim, i - 1);
      RunStep(states, events, lim, i - 1);
      TotalGrowsBy(states[i - 1], events[i - 1], states[i], lim);
    }
  }

  /** The n-th of any number of different servers; the first is "a". */
  function NthServer(n: nat): Server { if n == 0 then "a" else NthServer(n - 1) + "b" }

  lemma {:induction false} NthServerLength(n: nat)
    ensures |NthServer(n)| == n + 1
  {
    if n > 0 { NthServerLength(n - 1); }
  }

  /** An operator call with the given id creates client c for srv: three steps. */
  lemma Connect(states: seq<State>, events: seq<Event>, lim: Limits, id: CallId, srv: Server, c: ClientId)
    returns (states': seq<State>, events': seq<Event>)
    requires Sensible(lim) && Run(states, events, lim)
    requires var s := states[|states| - 1];
      id !in s.calls && c !in s.made && s.total < lim.maxTotal && srv !in s.perServer && CountIdle(s.idle, srv) == 0
    ensures Run(states', events', lim) && states' != []
    ensures var s := states[|states| - 1];
      states'[|states'| - 1] == s.(active := s.active[c := Checkout("s", srv, None)], made := s.made[c := srv],
        debut := s.debut + {c}, perServer := s.perServer[srv := 1], total := s.total + 1, calls := s.calls - {id})
  {
    var s := states[|states| - 1];
    hide Run;
    var s1 := Begin(s, id, "s", srv, None);
    Extend(states, events, lim, Began(id, "s", srv, None), s1);
    var s2 := ReserveSlot(s1, id);
    Extend(states + [s1], events + [Began(id, "s", srv, None)], lim, Reserved(id), s2);
    var s3 := Attach(s2, id, c);
    Extend(states + [s1] + [s2], events + [Began(id, "s", srv, None)] + [Reserved(id)], lim, Attached(id, c), s3);
    states' := states + [s1] + [s2] + [s3];
    events' := events + [Began(id, "s", srv, None)] + [Reserved(id)] + [Attached(id, c)];
  }

  /** One client for server "a" parked, and n others in use, each for a server of its own. */
  ghost predicate FilledUpTo(s: State, n: nat) {
    && s.idle == map[0 := Parked("a", 0)] && s.calls == map[] && s.total == n
    && (forall c :: c in s.made ==> c <= n)
    && (forall srv :: srv in s.perServer ==> 1 < |srv| <= n + 1)
  }

  /** One client for server "a", created and parked again. */
  lemma ConnectAndPark(lim: Limits) returns (states: seq<State>, events: seq<Event>)
    requires Sensible(lim)
    ensures Run(states, events, lim) && states != [] && FilledUpTo(states[|states| - 1], 0)
  {
    hide Run;
    EmptyRun(lim);
    assert IdleAt(Empty.idle, "a") == {};
    states, events := Connect([Empty], [], lim, 0, "a", 0);
    var s := states[|states| - 1];
    assert IdleAt(s.idle, "a") == {};
    Extend(states, events, lim, Released("s", "a", 0, 0), Release(s, "s", "a", 0, 0, lim));
    states, events := states + [Release(s, "s", "a", 0, 0, lim)], events + [Released("s", "a", 0, 0)];
  }

  lemma EmptyRun(lim: Limits)
    ensures Run([Empty], [], lim)
  {
  }

  lemma {:induction false} FillUp(lim: Limits, n: nat) returns (states: seq<State>, events: seq<Event>)
    requires Sensible(lim) && n <= lim.maxTotal
    ensures Run(states, events, lim) && states != [] && FilledUpTo(states[|states| - 1], n)
  {
    hide Run;
    if n == 0 {
      states, events := ConnectAndPark(lim);
    } else {
      states, events := FillUp(lim, n - 1);
      NthServerLength(n);
      assert IdleAt(states[|states| - 1].idle, NthServer(n)) == {};
      states, events := Connect(states, events, lim, 1, NthServer(n), n);
    }
  }

  /** Whatever the limits, some run goes above the cap: fill the pool up, then reuse a parked client. */
  lemma ReuseCanExceedGlobalCap(lim: Limits) returns (states: seq<State>, events: seq<Event>)
    requires Sensible(lim)
    ensures Run(states, events, lim) && states[|states| - 1].total > lim.maxTotal
  {
    hide Run;
    states, events := FillUp(lim, lim.maxTotal);
    var s1 := Begin(states[|states| - 1], 2, "s", "a", None);
    Extend(states, events, lim, Began(2, "s", "a", None), s1);
    states, events := states + [s1], events + [Began(2, "s", "a", None)];
    var s2 := Reuse(s1, 2, 0);
    Extend(states, events, lim, Reused(2, 0), s2);
    states, events := states + [s2], events + [Reused(2, 0)];
  }

  // ---- exactly one place ----

  /** A client that is checked out is not parked and is not handed out again. */
  lemma ClientInOnePlace(states: seq<State>, events: seq<Event>, lim: Limits, i: nat, c: ClientId)
    requires Sensible(lim) && Run(states, events, lim) && i < |states|
    ensures c in states[i].active ==> c !in states[i].idle
    ensures i < |events| && c in states[i].active ==>
              !(events[i].Reused? && events[i].client == c) && !(events[i].Attached? && events[i].client == c)
  {
    RunKeepsInv(states, events, lim, i);
    if i < |events| { RunStep(states, events, lim, i); }
  }

  lemma StepKeepsMade(s: State, e: Event, s': State, lim: Limits, c: ClientId)
    requires Inv(s, lim) && Next(s, e, s', lim) && c in s.made
    ensures c in s'.made && s'.made[c] == s.made[c]
  {
    hide Inv, Decide, Fewer, Clamped, CountIdle, OneMore, Receive, ReleaseEach;
    match e
    case ReleasedSession(session, order, now) => ReleaseEachParks(s, order, now, lim);
    case _ =>
  }

  lemma {:induction false} MadeIsForGood(states: seq<State>, events: seq<Event>, lim: Limits, i: nat, j: nat, c: ClientId)
    requires Sensible(lim) && Run(states, events, lim) && i <= j < |states| && c in states[i].made
    ensures c in states[j].made && states[j].made[c] == states[i].made[c]
    decreases j
  {
    hide Inv, Next;
    if i < j {
      MadeIsForGood(states, events, lim, i, j - 1, c);
      RunKeepsInv(states, events, lim, j - 1);
      RunStep(states, events, lim, j - 1);
      StepKeepsMade(states[j - 1], events[j - 1], states[j], lim, c);
    }
  }

  /** A client created for one server is only ever handed to acquires for that server. */
  lemma ReusedOnlyForItsServer(states: seq<State>, events: seq<Event>, lim: Limits, i: nat, j: nat)
    requires Sensible(lim) && Run(states, events, lim) && i < j < |events|
    requires events[i].Attached? && events[j].Reused? && events[i].client == events[j].client
    ensures events[i].id in states[i].calls && events[j].id in states[j].calls
    ensures states[i].calls[events[i].id].server == states[j].calls[events[j].id].server
  {
    var c := events[i].client;
    RunStep(states, events, lim, i);
    RunStep(states, events, lim, j);
    MadeIsForGood(states, events, lim, i + 1, j, c);
    RunKeepsInv(states, events, lim, j);
  }

  // ---- nothing leaks ----

  /** Once no call is in flight and nothing is checked out, every counter is back at zero. */
  lemma QuiescentPoolHoldsNothing(states: seq<State>, events: seq<Event>, lim: Limits, i: nat)
    requires Sensible(lim) && Run(states, events, lim) && i < |states|
    requires states[i].calls == map[] && states[i].active == map[]
    ensures states[i].perServer == map[] && states[i].total == 0 && states[i].tenantActive == 0
    ensures forall k :: Tokens(states[i], k) == 0
  {
    var s := states[i];
    RunKeepsInv(states, events, lim, i);
    assert forall kind :: ActiveOf(s.active, kind) == {};
    assert forall kind :: CallsOf(s.calls, kind) == {};
    forall srv ensures srv !in s.perServer { assert Get(s.perServer, srv) == 0; }
    forall k ensures Tokens(s, k) == 0 { assert Get(s.sem, k) == 0; }
  }
}

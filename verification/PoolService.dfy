/** Whom the connection pool serves and whom it refuses, in every state of every run, in terms of who holds what. */
module PoolService {
  import opened Results
  import opened Counting
  import opened PoolProtocol
  import opened PoolInvariants
  import opened PoolTheorems

  // ---- acquires ----

  ghost predicate NothingParked(s: State, srv: Server) { forall c :: c in s.idle ==> s.idle[c].server != srv }

  /** Connections of a server that sessions hold, and those whose factory is running. */
  ghost function ServerUse(s: State, srv: Server): nat {
    CountActive(s.active, OnServer(srv)) + CountCalls(s.calls, ReservingOn(srv))
  }

  ghost function TotalUse(s: State): nat { |s.active| + CountCalls(s.calls, Reserving) }

  lemma NothingIdle(s: State, srv: Server)
    ensures CountIdle(s.idle, srv) == 0 <==> NothingParked(s, srv)
  {
    if c :| c in s.idle && s.idle[c].server == srv { assert c in IdleAt(s.idle, srv); }
    if NothingParked(s, srv) { assert IdleAt(s.idle, srv) == {}; }
  }

  /**
    The verdict on an acquire: reuse exactly if something is parked; else the pool is full exactly if
    its use reaches the global cap; else the server is full exactly if its own use is at its cap; and
    in every other case there is room.
  */
  lemma VerdictExactlyIf(states: seq<State>, events: seq<Event>, lim: Limits, i: nat, srv: Server)
    requires Sensible(lim) && Run(states, events, lim) && i < |states|
    ensures var s := states[i];
      && (Decide(s, srv, lim) == ReuseIdle <==> !NothingParked(s, srv))
      && (Decide(s, srv, lim) == PoolFull <==> NothingParked(s, srv) && TotalUse(s) >= lim.maxTotal)
      && (Decide(s, srv, lim) == ServerFull
          <==> NothingParked(s, srv) && TotalUse(s) < lim.maxTotal && ServerUse(s, srv) == lim.maxPerServer)
      && (Decide(s, srv, lim) == Reserve
          <==> NothingParked(s, srv) && TotalUse(s) < lim.maxTotal && ServerUse(s, srv) < lim.maxPerServer)
  {
    ReservationsAreConserved(states, events, lim, i);
    ServerCapIsGlobal(states, events, lim, i, srv);
    NothingIdle(states[i], srv);
    assert InUse(states[i], srv) == ServerUse(states[i], srv);
  }

  /** So a run reserves or refuses only then. */
  lemma AcquireStepOnlyIf(states: seq<State>, events: seq<Event>, lim: Limits, i: nat)
    requires Sensible(lim) && Run(states, events, lim) && i < |events|
    ensures var s, e := states[i], events[i];
      && (e.Reserved? || e.Refused? ==> e.id in s.calls && NothingParked(s, s.calls[e.id].server))
      && (e.Reserved? ==> TotalUse(s) < lim.maxTotal && ServerUse(s, s.calls[e.id].server) < lim.maxPerServer)
      && (e.Refused? ==> TotalUse(s) >= lim.maxTotal || ServerUse(s, s.calls[e.id].server) == lim.maxPerServer)
  {
    RunStep(states, events, lim, i);
    if events[i].Reserved? || events[i].Refused? {
      VerdictExactlyIf(states, events, lim, i, states[i].calls[events[i].id].server);
    }
  }

  /** A call of an operator in some other phase than looking for a client or creating one. */
  predicate WaitsAsOperator(s: State, id: CallId) {
    id in s.calls && s.calls[id].tenant.None? && s.calls[id].phase != Ready && s.calls[id].phase != Creating
  }

  /** The steps of a call before it knows whether there is a client for it. */
  predicate BeforeVerdict(e: Event) { e.Began? || e.GaveUp? || e.TookToken? || e.TriedBudget? || e.Reused? }

  lemma EarlyStepServesOperator(s: State, e: Event, s': State, lim: Limits, id: CallId)
    requires !WaitsAsOperator(s, id) && Next(s, e, s', lim) && BeforeVerdict(e)
    ensures !WaitsAsOperator(s', id)
  {
    if e.TriedBudget? {
      var t := TakeBudget(s, e.id, lim);
      assert id != e.id && id in t.calls ==> id in s.calls && t.calls[id] == s.calls[id];
    }
  }

  lemma LateStepServesOperator(s: State, e: Event, s': State, lim: Limits, id: CallId)
    requires !WaitsAsOperator(s, id) && Next(s, e, s', lim) && !BeforeVerdict(e) && !e.Released? && !e.ReleasedSession?
    ensures !WaitsAsOperator(s', id)
  {
    hide Decide, OneMore, Fewer, Clamped, Receive, CheckoutFor;
    if e.RolledBack? || e.Refused? { WayOut(s.calls, e.id, id); }
  }

  lemma StepServesOperator(s: State, e: Event, s': State, lim: Limits, id: CallId)
    requires !WaitsAsOperator(s, id) && Next(s, e, s', lim)
    ensures !WaitsAsOperator(s', id)
  {
    if e.Released? || e.ReleasedSession? {
      ReleasesKeepCalls(s, e, s', lim);
    } else {
      hide Next, WaitsAsOperator;
      if BeforeVerdict(e) {
        EarlyStepServesOperator(s, e, s', lim, id);
      } else {
        LateStepServesOperator(s, e, s', lim, id);
      }
    }
  }

  lemma WayOut(calls: map<CallId, Call>, out: CallId, id: CallId)
    requires out in calls
    ensures id in OnItsWayOut(calls, out) ==>
      id in calls && OnItsWayOut(calls, out)[id].tenant == calls[id].tenant
      && (id != out || calls[id].tenant.None? ==> OnItsWayOut(calls, out)[id] == calls[id])
  {
  }

  lemma ReleasesKeepCalls(s: State, e: Event, s': State, lim: Limits)
    requires (e.Released? || e.ReleasedSession?) && Next(s, e, s', lim)
    ensures s'.calls == s.calls
  {
    if e.ReleasedSession? { ReleaseKeepsCalls(s, e.order, e.now, lim); }
  }

  /** An operator's acquire never waits for a token or a budget unit. */
  lemma {:induction false} OperatorNeverWaits(states: seq<State>, events: seq<Event>, lim: Limits, i: nat, id: CallId)
    requires Run(states, events, lim) && i < |states|
    ensures !WaitsAsOperator(states[i], id)
  {
    if i > 0 {
      OperatorNeverWaits(states, events, lim, i - 1, id);
      RunStep(states, events, lim, i - 1);
      StepServesOperator(states[i - 1], events[i - 1], states[i], lim, id);
    }
  }

  lemma {:induction false} ReleaseKeepsCalls(s: State, cs: seq<ClientId>, now: int, lim: Limits)
    ensures ReleaseEach(s, cs, now, lim).calls == s.calls
  {
    if cs != [] { ReleaseKeepsCalls(s, cs[..|cs| - 1], now, lim); }
  }

  /** A call begins without any effect on the others: an operator's ready, a tenant's waiting for a token. */
  lemma BeginsLikeThis(s: State, id: CallId, session: Session, srv: Server, tenant: Option<Tenant>, s': State, lim: Limits)
    requires Next(s, Began(id, session, srv, tenant), s', lim)
    ensures id !in s.calls && s'.calls == s.calls[id := Call(session, srv, tenant, if tenant.None? then Ready else Waiting)]
    ensures s' == s.(calls := s'.calls, sem := s'.sem) && forall k :: Tokens(s', k) == Tokens(s, k)
  {
  }

  // ---- tenant limits ----

  /** A waiting call can have a token exactly while its tenant's connections and calls are below its cap. */
  lemma TokenExactlyIf(states: seq<State>, events: seq<Event>, lim: Limits, i: nat, id: CallId, k: Tenant)
    requires Sensible(lim) && Run(states, events, lim) && i < |states|
    requires InPhase(states[i], id, Waiting) && states[i].calls[id].tenant == Some(k)
    ensures var s := states[i];
      Next(s, TookToken(id), TakeToken(s, id), lim)
      <==> CountActive(s.active, OfTenant(k)) + CountCalls(s.calls, HoldsToken(k)) < lim.tenantPerKey
  {
    TenantTokensAreOwned(states, events, lim, i, k);
  }

  /** A call with a token gets a budget unit exactly while all tenants together are below the budget. */
  lemma BudgetExactlyIf(states: seq<State>, events: seq<Event>, lim: Limits, i: nat, id: CallId)
    requires Sensible(lim) && Run(states, events, lim) && i < |events| && events[i] == TriedBudget(id)
    ensures var s := states[i];
      && id in s.calls && id in states[i + 1].calls
      && states[i + 1].calls[id].phase
         == if CountActive(s.active, AnyTenant) + CountCalls(s.calls, HoldsBudget) < lim.tenantBudget
            then Ready else ReturningToken
  {
    RunStep(states, events, lim, i);
    TenantTokensAreOwned(states, events, lim, i, "");
  }

  // ---- parked clients and the sweep ----

  /** This event parked the client at that time. */
  ghost predicate Parks(s: State, e: Event, c: ClientId, at: int) {
    match e
    case Released(session, srv, d, now) => d == c && now == at && HeldBy(s, session, srv, c)
    case ReleasedSession(session, order, now) => c in order && now == at && c in s.active && s.active[c].session == session
    case _ => false
  }

  lemma StepParks(s: State, e: Event, s': State, lim: Limits, c: ClientId)
    requires Inv(s, lim) && Next(s, e, s', lim) && c in s'.idle
    ensures if c in s.idle then s'.idle[c] == s.idle[c] else Parks(s, e, c, s'.idle[c].usedAt)
  {
    hide Inv, Decide, Fewer, Clamped, CountIdle, OneMore, Receive, ReleaseEach, ReleaseOne, Sensible;
    match e
    case Released(session, srv, d, now) =>
      if HeldBy(s, session, srv, d) {
        ReleaseOneParks(s, d, now, lim);
        PlacedOnce(s, d, lim);
      }
    case ReleasedSession(session, order, now) => SessionParks(s, session, order, now, lim, c);
    case _ =>
  }

  lemma SessionParks(s: State, session: Session, order: seq<ClientId>, now: int, lim: Limits, c: ClientId)
    requires Inv(s, lim) && ListsSession(order, s, session) && c in ReleaseEach(s, order, now, lim).idle
    ensures var t := ReleaseEach(s, order, now, lim);
      if c in s.idle then t.idle[c] == s.idle[c] else c in order && t.idle[c].usedAt == now
  {
    hide Inv, ReleaseEach;
    ReleaseEachParks(s, order, now, lim);
    if c in order { PlacedOnce(s, c, lim); }
  }

  /** A client is not parked and checked out at once. */
  lemma PlacedOnce(s: State, c: ClientId, lim: Limits)
    requires Inv(s, lim) && c in s.active
    ensures c !in s.idle
  {
  }

  /** A parked client has been parked since some release, at the time it carries. */
  lemma {:induction false} ParkedSinceRelease(states: seq<State>, events: seq<Event>, lim: Limits, i: nat, c: ClientId)
    returns (j: nat)
    requires Sensible(lim) && Run(states, events, lim) && i < |states| && c in states[i].idle
    ensures j < i && Parks(states[j], events[j], c, states[i].idle[c].usedAt)
    ensures forall k :: j < k <= i ==> c in states[k].idle && states[k].idle[c] == states[i].idle[c]
  {
    hide Inv, Next, Parks;
    assert i > 0;
    RunKeepsInv(states, events, lim, i - 1);
    RunStep(states, events, lim, i - 1);
    StepParks(states[i - 1], events[i - 1], states[i], lim, c);
    if c in states[i - 1].idle {
      j := ParkedSinceRelease(states, events, lim, i - 1, c);
    } else {
      j := i - 1;
    }
  }

  /** A sweep drops exactly the clients released more than the TTL ago, and touches nothing else. */
  lemma SweptExactlyIf(states: seq<State>, events: seq<Event>, lim: Limits, i: nat, c: ClientId) returns (j: nat, at: int)
    requires Sensible(lim) && Run(states, events, lim) && i < |events| && events[i].Swept? && c in states[i].idle
    ensures j < i && Parks(states[j], events[j], c, at)
    ensures forall k :: j < k <= i ==> c in states[k].idle
    ensures c !in states[i + 1].idle <==> events[i].now - at > events[i].ttl
    ensures states[i + 1] == states[i].(idle := states[i + 1].idle)
  {
    j := ParkedSinceRelease(states, events, lim, i, c);
    at := states[i].idle[c].usedAt;
    RunStep(states, events, lim, i);
  }

  // ---- the limits of a started pool ----

  /** Configured values count where they make sense; the rest is 100, 5, 3, and a share of 30 percent, rounded down, of at least one. */
  lemma StartupLimitsAre(maxTotal: int, maxPerServer: int, budget: int, perKey: int)
    ensures var lim := StartupLimits(maxTotal, maxPerServer, budget, perKey);
      && Sensible(lim)
      && lim.maxTotal == (if maxTotal >= 1 then maxTotal else 100)
      && lim.maxPerServer == (if maxPerServer >= 1 then maxPerServer else 5)
      && lim.tenantPerKey == (if perKey >= 1 then perKey else 3)
      && (1 <= budget <= lim.maxTotal ==> lim.tenantBudget == budget)
      && (budget > lim.maxTotal ==> lim.tenantBudget == lim.maxTotal)
      && (budget < 1 && lim.maxTotal < 4 ==> lim.tenantBudget == 1)
      && (budget < 1 && lim.maxTotal >= 4 ==>
            100 * lim.tenantBudget <= 30 * lim.maxTotal < 100 * (lim.tenantBudget + 1))
  {
  }
}

/** What every step of the pool keeps, and what that means for every interleaving of calls. */
module PoolInvariants {
  import opened Results
  import opened Counting
  import opened PoolProtocol

  // ---- the invariant ----

  /** Per server: in-use connections are the attached clients plus the running reservations. */
  ghost predicate ServersBalanced(s: State) {
    && (forall srv :: Get(s.perServer, srv) == CountActive(s.active, OnServer(srv)) + CountCalls(s.calls, ReservingOn(srv)))
    && (forall srv :: srv in s.perServer ==> s.perServer[srv] > 0)
  }

  ghost predicate TotalBalanced(s: State) {
    && s.total == |s.active| + CountCalls(s.calls, Reserving)
    && s.total == Sum(s.perServer)
  }

  /** Per tenant: tokens in the semaphore are held by attached clients and in-flight calls. */
  ghost predicate TokensOwned(s: State, lim: Limits) {
    forall k ::
      && Get(s.sem, k) == CountActive(s.active, OfTenant(k)) + CountCalls(s.calls, HoldsToken(k))
      && Get(s.sem, k) <= lim.tenantPerKey
  }

  ghost predicate BudgetOwned(s: State, lim: Limits) {
    && s.tenantActive == CountActive(s.active, AnyTenant) + CountCalls(s.calls, HoldsBudget)
    && s.tenantActive <= lim.tenantBudget
  }

  ghost predicate ServerCapHolds(s: State, lim: Limits) {
    forall srv :: CountIdle(s.idle, srv) + Get(s.perServer, srv) <= lim.maxPerServer
  }

  /** Every client is parked or checked out, never both, and only where it was made for. */
  ghost predicate Placed(s: State) {
    && (forall c :: c in s.idle ==> c !in s.active && c in s.made && s.made[c] == s.idle[c].server)
    && (forall c :: c in s.active ==> c in s.made && s.made[c] == s.active[c].server)
  }

  ghost predicate DebutBounded(s: State, lim: Limits) {
    && (forall c :: c in s.debut ==> c in s.active)
    && |s.debut| + CountCalls(s.calls, Reserving) <= lim.maxTotal
  }

  ghost predicate CallsFormed(s: State) {
    forall id :: id in s.calls ==> InPhase(s, id, s.calls[id].phase)
  }

  ghost predicate Balanced(s: State) { ServersBalanced(s) && TotalBalanced(s) }

  ghost predicate Capped(s: State, lim: Limits) { ServerCapHolds(s, lim) && DebutBounded(s, lim) }

  ghost predicate ServerSide(s: State, lim: Limits) { Balanced(s) && Capped(s, lim) }

  ghost predicate TenantSide(s: State, lim: Limits) {
    TokensOwned(s, lim) && BudgetOwned(s, lim)
  }

  ghost predicate Inv(s: State, lim: Limits) {
    ServerSide(s, lim) && TenantSide(s, lim) && Placed(s) && CallsFormed(s)
  }

  // ---- how one entry moves every count at once ----

  ghost function One(b: bool): int { if b then 1 else 0 }

  lemma CheckoutAddedTo(m: map<ClientId, Checkout>, c: ClientId, a: Checkout, m': map<ClientId, Checkout>, kind: CheckoutKind)
    requires c !in m && m' == m[c := a]
    ensures CountActive(m', kind) == CountActive(m, kind) + One(IsCheckout(kind, a))
  {
    hide IsCheckout;
    assert ActiveOf(m', kind) == if IsCheckout(kind, a) then ActiveOf(m, kind) + {c} else ActiveOf(m, kind);
  }

  lemma CheckoutAdded(m: map<ClientId, Checkout>, c: ClientId, a: Checkout, m': map<ClientId, Checkout>)
    requires c !in m && m' == m[c := a]
    ensures |m'| == |m| + 1
    ensures forall srv {:trigger CountActive(m', OnServer(srv))} ::
              CountActive(m', OnServer(srv)) == CountActive(m, OnServer(srv)) + One(a.server == srv)
    ensures forall k {:trigger CountActive(m', OfTenant(k))} ::
              CountActive(m', OfTenant(k)) == CountActive(m, OfTenant(k)) + One(a.tenant == Some(k))
    ensures CountActive(m', AnyTenant) == CountActive(m, AnyTenant) + One(a.tenant.Some?)
  {
    forall srv { CheckoutAddedTo(m, c, a, m', OnServer(srv)); }
    forall k { CheckoutAddedTo(m, c, a, m', OfTenant(k)); }
    CheckoutAddedTo(m, c, a, m', AnyTenant);
    assert m'.Keys == m.Keys + {c};
  }

  lemma CheckoutDropped(m: map<ClientId, Checkout>, c: ClientId, m': map<ClientId, Checkout>)
    requires c in m && m' == m - {c}
    ensures |m'| == |m| - 1
    ensures forall srv {:trigger CountActive(m', OnServer(srv))} ::
              CountActive(m', OnServer(srv)) == CountActive(m, OnServer(srv)) - One(m[c].server == srv)
    ensures forall k {:trigger CountActive(m', OfTenant(k))} ::
              CountActive(m', OfTenant(k)) == CountActive(m, OfTenant(k)) - One(m[c].tenant == Some(k))
    ensures CountActive(m', AnyTenant) == CountActive(m, AnyTenant) - One(m[c].tenant.Some?)
  {
    CheckoutAdded(m', c, m[c], m);
  }

  lemma ParkedAdded(m: map<ClientId, Parked>, c: ClientId, p: Parked, m': map<ClientId, Parked>)
    requires c !in m && m' == m[c := p]
    ensures forall srv {:trigger CountIdle(m', srv)} ::
              CountIdle(m', srv) == CountIdle(m, srv) + One(p.server == srv)
  {
    forall srv ensures CountIdle(m', srv) == CountIdle(m, srv) + One(p.server == srv) {
      assert IdleAt(m', srv) == if p.server == srv then IdleAt(m, srv) + {c} else IdleAt(m, srv);
    }
  }

  lemma ParkedDropped(m: map<ClientId, Parked>, c: ClientId, m': map<ClientId, Parked>)
    requires c in m && m' == m - {c}
    ensures forall srv {:trigger CountIdle(m', srv)} ::
              CountIdle(m', srv) == CountIdle(m, srv) - One(m[c].server == srv)
  {
    ParkedAdded(m', c, m[c], m);
    assert forall srv {:trigger CountIdle(m', srv)} ::
        CountIdle(m, srv) == CountIdle(m', srv) + One(m[c].server == srv);
  }

  lemma CallAddedTo(m: map<CallId, Call>, id: CallId, call: Call, m': map<CallId, Call>, kind: CallKind)
    requires id !in m && m' == m[id := call]
    ensures CountCalls(m', kind) == CountCalls(m, kind) + One(IsCall(kind, call))
  {
    hide IsCall;
    assert CallsOf(m', kind) == if IsCall(kind, call) then CallsOf(m, kind) + {id} else CallsOf(m, kind);
  }

  lemma CallAdded(m: map<CallId, Call>, id: CallId, call: Call, m': map<CallId, Call>)
    requires id !in m && m' == m[id := call]
    ensures forall srv {:trigger CountCalls(m', ReservingOn(srv))} ::
              CountCalls(m', ReservingOn(srv)) == CountCalls(m, ReservingOn(srv)) + One(call.phase == Creating && call.server == srv)
    ensures forall k {:trigger CountCalls(m', HoldsToken(k))} ::
              CountCalls(m', HoldsToken(k)) == CountCalls(m, HoldsToken(k)) + One(call.tenant == Some(k) && call.phase != Waiting)
    ensures CountCalls(m', Reserving) == CountCalls(m, Reserving) + One(call.phase == Creating)
    ensures CountCalls(m', HoldsBudget) == CountCalls(m, HoldsBudget) + One(WithBudget(call))
  {
    forall srv { CallAddedTo(m, id, call, m', ReservingOn(srv)); }
    forall k { CallAddedTo(m, id, call, m', HoldsToken(k)); }
    CallAddedTo(m, id, call, m', Reserving);
    CallAddedTo(m, id, call, m', HoldsBudget);
  }

  lemma CallDropped(m: map<CallId, Call>, id: CallId, m': map<CallId, Call>)
    requires id in m && m' == m - {id}
    ensures forall srv {:trigger CountCalls(m', ReservingOn(srv))} ::
              CountCalls(m', ReservingOn(srv)) == CountCalls(m, ReservingOn(srv)) - One(m[id].phase == Creating && m[id].server == srv)
    ensures forall k {:trigger CountCalls(m', HoldsToken(k))} ::
              CountCalls(m', HoldsToken(k)) == CountCalls(m, HoldsToken(k)) - One(m[id].tenant == Some(k) && m[id].phase != Waiting)
    ensures CountCalls(m', Reserving) == CountCalls(m, Reserving) - One(m[id].phase == Creating)
    ensures CountCalls(m', HoldsBudget) == CountCalls(m, HoldsBudget) - One(WithBudget(m[id]))
  {
    CallAdded(m', id, m[id], m);
  }

  lemma CallChanged(m: map<CallId, Call>, id: CallId, call: Call, m': map<CallId, Call>)
    requires id in m && m' == m[id := call]
    ensures forall srv {:trigger CountCalls(m', ReservingOn(srv))} ::
              CountCalls(m', ReservingOn(srv)) == CountCalls(m, ReservingOn(srv)) + One(call.phase == Creating && call.server == srv)
              - One(m[id].phase == Creating && m[id].server == srv)
    ensures forall k {:trigger CountCalls(m', HoldsToken(k))} ::
              CountCalls(m', HoldsToken(k)) == CountCalls(m, HoldsToken(k)) + One(call.tenant == Some(k) && call.phase != Waiting)
              - One(m[id].tenant == Some(k) && m[id].phase != Waiting)
    ensures CountCalls(m', Reserving) == CountCalls(m, Reserving) + One(call.phase == Creating)
              - One(m[id].phase == Creating)
    ensures CountCalls(m', HoldsBudget) == CountCalls(m, HoldsBudget) + One(WithBudget(call))
              - One(WithBudget(m[id]))
  {
    CallDropped(m, id, m - {id});
    CallAdded(m - {id}, id, call, m');
  }

  lemma OneMoreAdds(m: map<Server, int>, srv: Server)
    ensures Sum(OneMore(m, srv)) == Sum(m) + 1
    ensures forall t {:trigger Get(OneMore(m, srv), t)} :: Get(OneMore(m, srv), t) == Get(m, t) + One(t == srv)
  {
    SumPut(m, srv, Get(m, srv) + 1);
  }

  /** When a connection is in use the clamp does nothing: exactly one is returned. */
  lemma FewerTakesOne(m: map<Server, int>, srv: Server)
    requires Get(m, srv) >= 1
    ensures Clamped(m, srv, 1) == 1
    ensures Sum(Fewer(m, srv, 1)) == Sum(m) - 1
    ensures forall t {:trigger Get(Fewer(m, srv, 1), t)} :: Get(Fewer(m, srv, 1), t) == Get(m, t) - One(t == srv)
    ensures (forall t :: t in m ==> m[t] > 0) ==> forall t :: t in Fewer(m, srv, 1) ==> Fewer(m, srv, 1)[t] > 0
  {
    if Get(m, srv) == 1 {
      SumDrop(m, srv);
    } else {
      SumPut(m, srv, Get(m, srv) - 1);
    }
  }

  // ---- each step keeps the invariant ----

  lemma EmptyInv(lim: Limits)
    requires Sensible(lim)
    ensures Inv(Empty, lim)
  {
  }

  /** A step that only moves calls which are not creating leaves the server side as it is. */
  lemma ServerSideUntouched(s: State, s': State, lim: Limits)
    requires ServerSide(s, lim)
    requires s'.(sem := s.sem, tenantActive := s.tenantActive, calls := s.calls) == s
    requires forall srv {:trigger CountCalls(s'.calls, ReservingOn(srv))} ::
               CountCalls(s'.calls, ReservingOn(srv)) == CountCalls(s.calls, ReservingOn(srv))
    requires CountCalls(s'.calls, Reserving) == CountCalls(s.calls, Reserving)
    ensures ServerSide(s', lim)
  {
    hide CountActive, CountCalls, CountIdle, Sum;
  }

  /** A step that leaves the tenants' tokens and budget with their owners. */
  lemma TenantSideUntouched(s: State, s': State, lim: Limits)
    requires TenantSide(s, lim) && s'.tenantActive == s.tenantActive && s'.active == s.active
    requires forall k {:trigger Get(s'.sem, k)} :: Get(s'.sem, k) == Get(s.sem, k)
    requires forall k {:trigger CountCalls(s'.calls, HoldsToken(k))} ::
               CountCalls(s'.calls, HoldsToken(k)) == CountCalls(s.calls, HoldsToken(k))
    requires CountCalls(s'.calls, HoldsBudget) == CountCalls(s.calls, HoldsBudget)
    ensures TenantSide(s', lim)
  {
    hide CountActive, CountCalls;
  }

  lemma BeginKeepsInv(s: State, id: CallId, session: Session, srv: Server, tenant: Option<Tenant>, lim: Limits)
    requires Inv(s, lim) && id !in s.calls
    ensures Inv(Begin(s, id, session, srv, tenant), lim)
  {
    hide ServerSide, TenantSide;
    var s' := Begin(s, id, session, srv, tenant);
    CallAdded(s.calls, id, s'.calls[id], s'.calls);
    assert forall k :: Get(s'.sem, k) == Get(s.sem, k);
    ServerSideUntouched(s, s', lim);
    TenantSideUntouched(s, s', lim);
  }

  lemma GiveUpKeepsInv(s: State, id: CallId, lim: Limits)
    requires Inv(s, lim) && InPhase(s, id, Waiting)
    ensures Inv(GiveUp(s, id), lim)
  {
    hide ServerSide, TenantSide;
    var s' := GiveUp(s, id);
    CallDropped(s.calls, id, s'.calls);
    ServerSideUntouched(s, s', lim);
    TenantSideUntouched(s, s', lim);
  }

  lemma TakeTokenKeepsTenantSide(s: State, id: CallId, lim: Limits)
    requires TenantSide(s, lim) && InPhase(s, id, Waiting) && Tokens(s, s.calls[id].tenant.value) < lim.tenantPerKey
    ensures TenantSide(TakeToken(s, id), lim)
  {
    hide CountActive, CountCalls;
    var k, s' := s.calls[id].tenant.value, TakeToken(s, id);
    CallChanged(s.calls, id, s'.calls[id], s'.calls);
    assert forall j {:trigger Get(s'.sem, j)} :: Get(s'.sem, j) == Get(s.sem, j) + One(j == k);
  }

  lemma TakeTokenKeepsInv(s: State, id: CallId, lim: Limits)
    requires Inv(s, lim) && InPhase(s, id, Waiting) && Tokens(s, s.calls[id].tenant.value) < lim.tenantPerKey
    ensures Inv(TakeToken(s, id), lim)
  {
    hide ServerSide, TenantSide;
    var s' := TakeToken(s, id);
    CallChanged(s.calls, id, s'.calls[id], s'.calls);
    ServerSideUntouched(s, s', lim);
    TakeTokenKeepsTenantSide(s, id, lim);
  }

  lemma TokenIsHeld(s: State, id: CallId, lim: Limits)
    requires Inv(s, lim) && InPhase(s, id, ReturningToken)
    ensures Get(s.sem, s.calls[id].tenant.value) >= 1
  {
    assert id in CallsOf(s.calls, HoldsToken(s.calls[id].tenant.value));
  }

  lemma ReturnTokenKeepsTenantSide(s: State, id: CallId, lim: Limits)
    requires TenantSide(s, lim) && InPhase(s, id, ReturningToken)
    ensures TenantSide(ReturnToken(s, id), lim)
  {
    hide CountActive, CountCalls;
    var k, s' := s.calls[id].tenant.value, ReturnToken(s, id);
    CallDropped(s.calls, id, s'.calls);
    assert forall j {:trigger Get(s'.sem, j)} :: Get(s'.sem, j) == Get(s.sem, j) - One(j == k);
  }

  lemma ReturnTokenKeepsInv(s: State, id: CallId, lim: Limits)
    requires Inv(s, lim) && InPhase(s, id, ReturningToken)
    ensures Inv(ReturnToken(s, id), lim)
  {
    hide ServerSide, TenantSide;
    var s' := ReturnToken(s, id);
    CallDropped(s.calls, id, s'.calls);
    ServerSideUntouched(s, s', lim);
    ReturnTokenKeepsTenantSide(s, id, lim);
  }

  lemma TakeBudgetKeepsTenantSide(s: State, id: CallId, lim: Limits)
    requires TenantSide(s, lim) && InPhase(s, id, HasToken)
    ensures TenantSide(TakeBudget(s, id, lim), lim)
  {
    hide CountActive, CountCalls, CountIdle;
    var s' := TakeBudget(s, id, lim);
    CallChanged(s.calls, id, s'.calls[id], s'.calls);
  }

  lemma TakeBudgetKeepsInv(s: State, id: CallId, lim: Limits)
    requires Inv(s, lim) && InPhase(s, id, HasToken)
    ensures Inv(TakeBudget(s, id, lim), lim)
  {
    hide ServerSide, TenantSide;
    var s' := TakeBudget(s, id, lim);
    CallChanged(s.calls, id, s'.calls[id], s'.calls);
    ServerSideUntouched(s, s', lim);
    TakeBudgetKeepsTenantSide(s, id, lim);
  }

  lemma ReturnBudgetKeepsTenantSide(s: State, id: CallId, lim: Limits)
    requires TenantSide(s, lim) && InPhase(s, id, ReturningBudget)
    ensures TenantSide(ReturnBudget(s, id), lim)
  {
    hide CountActive, CountCalls;
    var s' := ReturnBudget(s, id);
    CallChanged(s.calls, id, s'.calls[id], s'.calls);
  }

  lemma ReturnBudgetKeepsInv(s: State, id: CallId, lim: Limits)
    requires Inv(s, lim) && InPhase(s, id, ReturningBudget)
    ensures Inv(ReturnBudget(s, id), lim)
  {
    hide ServerSide, TenantSide;
    var s' := ReturnBudget(s, id);
    CallChanged(s.calls, id, s'.calls[id], s'.calls);
    ServerSideUntouched(s, s', lim);
    ReturnBudgetKeepsTenantSide(s, id, lim);
  }

  lemma RefuseKeepsInv(s: State, id: CallId, lim: Limits)
    requires Inv(s, lim) && InPhase(s, id, Ready)
    ensures Inv(Refuse(s, id), lim)
  {
    hide ServerSide, TenantSide;
    var s' := Refuse(s, id);
    if s.calls[id].tenant.None? {
      CallDropped(s.calls, id, s'.calls);
    } else {
      CallChanged(s.calls, id, s'.calls[id], s'.calls);
    }
    ServerSideUntouched(s, s', lim);
    TenantSideUntouched(s, s', lim);
  }

  lemma ReuseKeepsBalance(s: State, id: CallId, c: ClientId)
    requires Balanced(s) && c !in s.active && InPhase(s, id, Ready)
    ensures Balanced(Reuse(s, id, c))
  {
    hide CountActive, CountCalls, Sum;
    var s' := Reuse(s, id, c);
    CheckoutAdded(s.active, c, s'.active[c], s'.active);
    CallDropped(s.calls, id, s'.calls);
    OneMoreAdds(s.perServer, s.calls[id].server);
  }

  lemma ReuseKeepsCaps(s: State, id: CallId, c: ClientId, lim: Limits)
    requires Capped(s, lim) && InPhase(s, id, Ready) && c in s.idle && s.idle[c].server == s.calls[id].server
    ensures Capped(Reuse(s, id, c), lim)
  {
    hide CountCalls, CountIdle, Sum;
    var s' := Reuse(s, id, c);
    ParkedDropped(s.idle, c, s'.idle);
    CallDropped(s.calls, id, s'.calls);
    OneMoreAdds(s.perServer, s.calls[id].server);
  }

  lemma ReuseKeepsTenantSide(s: State, id: CallId, c: ClientId, lim: Limits)
    requires TenantSide(s, lim) && InPhase(s, id, Ready) && c !in s.active
    ensures TenantSide(Reuse(s, id, c), lim)
  {
    hide CountActive, CountCalls, CountIdle;
    var s' := Reuse(s, id, c);
    CheckoutAdded(s.active, c, s'.active[c], s'.active);
    CallDropped(s.calls, id, s'.calls);
  }

  lemma ReuseKeepsInv(s: State, id: CallId, c: ClientId, lim: Limits)
    requires Inv(s, lim) && InPhase(s, id, Ready) && c in s.idle && s.idle[c].server == s.calls[id].server
    ensures Inv(Reuse(s, id, c), lim)
  {
    hide Balanced, Capped, TenantSide;
    ReuseKeepsBalance(s, id, c);
    ReuseKeepsCaps(s, id, c, lim);
    ReuseKeepsTenantSide(s, id, c, lim);
  }

  lemma ReserveKeepsBalance(s: State, id: CallId)
    requires Balanced(s) && InPhase(s, id, Ready)
    ensures Balanced(ReserveSlot(s, id))
  {
    hide CountActive, CountCalls, Sum;
    var s' := ReserveSlot(s, id);
    CallChanged(s.calls, id, s'.calls[id], s'.calls);
    OneMoreAdds(s.perServer, s.calls[id].server);
  }

  lemma ReserveKeepsCaps(s: State, id: CallId, lim: Limits)
    requires Capped(s, lim) && TotalBalanced(s) && InPhase(s, id, Ready) && Decide(s, s.calls[id].server, lim) == Reserve
    ensures Capped(ReserveSlot(s, id), lim)
  {
    hide CountCalls, CountIdle, Sum;
    var s' := ReserveSlot(s, id);
    CallChanged(s.calls, id, s'.calls[id], s'.calls);
    OneMoreAdds(s.perServer, s.calls[id].server);
    SubsetSize(s.debut, s.active.Keys);
  }

  lemma ReserveKeepsInv(s: State, id: CallId, lim: Limits)
    requires Inv(s, lim) && InPhase(s, id, Ready) && Decide(s, s.calls[id].server, lim) == Reserve
    ensures Inv(ReserveSlot(s, id), lim)
  {
    hide ServersBalanced, TotalBalanced, Capped, TenantSide, Decide;
    var s' := ReserveSlot(s, id);
    CallChanged(s.calls, id, s'.calls[id], s'.calls);
    ReserveKeepsBalance(s, id);
    ReserveKeepsCaps(s, id, lim);
    TenantSideUntouched(s, s', lim);
  }

  lemma AttachKeepsBalance(s: State, id: CallId, c: ClientId)
    requires Balanced(s) && InPhase(s, id, Creating) && c !in s.active
    ensures Balanced(Attach(s, id, c))
  {
    hide CountActive, CountCalls, Sum;
    var s' := Attach(s, id, c);
    CheckoutAdded(s.active, c, s'.active[c], s'.active);
    CallDropped(s.calls, id, s'.calls);
  }

  lemma AttachKeepsCaps(s: State, id: CallId, c: ClientId, lim: Limits)
    requires Capped(s, lim) && InPhase(s, id, Creating) && c !in s.active
    ensures Capped(Attach(s, id, c), lim)
  {
    hide CountCalls, CountIdle;
    CallDropped(s.calls, id, Attach(s, id, c).calls);
  }

  lemma AttachKeepsTenantSide(s: State, id: CallId, c: ClientId, lim: Limits)
    requires TenantSide(s, lim) && InPhase(s, id, Creating) && c !in s.active
    ensures TenantSide(Attach(s, id, c), lim)
  {
    hide CountActive, CountCalls, CountIdle;
    var s' := Attach(s, id, c);
    CheckoutAdded(s.active, c, s'.active[c], s'.active);
    CallDropped(s.calls, id, s'.calls);
  }

  lemma AttachKeepsInv(s: State, id: CallId, c: ClientId, lim: Limits)
    requires Inv(s, lim) && InPhase(s, id, Creating) && c !in s.made
    ensures Inv(Attach(s, id, c), lim)
  {
    hide Balanced, Capped, TenantSide;
    AttachKeepsBalance(s, id, c);
    AttachKeepsCaps(s, id, c, lim);
    AttachKeepsTenantSide(s, id, c, lim);
  }

  lemma ReservationIsHeld(s: State, id: CallId, lim: Limits)
    requires ServerSide(s, lim) && InPhase(s, id, Creating)
    ensures Get(s.perServer, s.calls[id].server) >= 1
  {
    assert id in CallsOf(s.calls, ReservingOn(s.calls[id].server));
  }

  lemma CallLeavesCreating(s: State, id: CallId, calls': map<CallId, Call>)
    requires InPhase(s, id, Creating) && calls' == OnItsWayOut(s.calls, id)
    ensures forall srv {:trigger CountCalls(calls', ReservingOn(srv))} ::
              CountCalls(calls', ReservingOn(srv)) == CountCalls(s.calls, ReservingOn(srv)) - One(s.calls[id].server == srv)
    ensures CountCalls(calls', Reserving) == CountCalls(s.calls, Reserving) - 1
  {
    hide CountCalls;
    if s.calls[id].tenant.None? {
      CallDropped(s.calls, id, calls');
    } else {
      CallChanged(s.calls, id, calls'[id], calls');
    }
  }

  lemma RollBackKeepsBalance(s: State, id: CallId)
    requires Balanced(s) && InPhase(s, id, Creating) && Get(s.perServer, s.calls[id].server) >= 1
    ensures Balanced(RollBack(s, id))
  {
    hide CountActive, CountCalls, Sum, Fewer, Clamped, OnItsWayOut;
    FewerTakesOne(s.perServer, s.calls[id].server);
    CallLeavesCreating(s, id, RollBack(s, id).calls);
  }

  lemma RollBackKeepsCaps(s: State, id: CallId, lim: Limits)
    requires Capped(s, lim) && InPhase(s, id, Creating) && Get(s.perServer, s.calls[id].server) >= 1
    ensures Capped(RollBack(s, id), lim)
  {
    hide CountCalls, CountIdle, Sum, Fewer, Clamped, OnItsWayOut;
    FewerTakesOne(s.perServer, s.calls[id].server);
    CallLeavesCreating(s, id, RollBack(s, id).calls);
  }

  lemma RollBackKeepsTenantSide(s: State, id: CallId, lim: Limits)
    requires TenantSide(s, lim) && InPhase(s, id, Creating)
    ensures TenantSide(RollBack(s, id), lim)
  {
    hide CountActive, CountCalls, CountIdle;
    var s' := RollBack(s, id);
    if s.calls[id].tenant.None? {
      CallDropped(s.calls, id, s'.calls);
    } else {
      CallChanged(s.calls, id, s'.calls[id], s'.calls);
    }
  }

  lemma RollBackKeepsInv(s: State, id: CallId, lim: Limits)
    requires Inv(s, lim) && InPhase(s, id, Creating)
    ensures Inv(RollBack(s, id), lim)
  {
    ReservationIsHeld(s, id, lim);
    hide Balanced, Capped, TenantSide;
    RollBackKeepsBalance(s, id);
    RollBackKeepsCaps(s, id, lim);
    RollBackKeepsTenantSide(s, id, lim);
  }

  /**
    On the way out of a checkout: the clamp does not fire, the receive done under the lock finds a
    token, and there is room to park the client.
  */
  lemma ReleaseIsReady(s: State, c: ClientId, lim: Limits)
    requires Inv(s, lim) && c in s.active
    ensures InUse(s, s.active[c].server) >= 1
    ensures s.active[c].tenant.Some? ==> Tokens(s, s.active[c].tenant.value) >= 1 && s.tenantActive >= 1
    ensures CountIdle(s.idle, s.active[c].server) < lim.maxPerServer
    ensures Get(s.perServer, s.active[c].server) >= 1
  {
    var a := s.active[c];
    assert c in ActiveOf(s.active, OnServer(a.server));
    assert InUse(s, a.server) >= 1;
    if a.tenant.Some? {
      assert c in ActiveOf(s.active, OfTenant(a.tenant.value));
      assert c in ActiveOf(s.active, AnyTenant);
      assert Tokens(s, a.tenant.value) >= 1;
    }
  }

  lemma ReleaseOneKeepsBalance(s: State, c: ClientId, now: int, lim: Limits)
    requires Balanced(s) && c in s.active && Get(s.perServer, s.active[c].server) >= 1
    ensures Balanced(ReleaseOne(s, c, now, lim))
  {
    hide CountActive, CountCalls, CountIdle, Sum, Fewer, Clamped, Receive;
    CheckoutDropped(s.active, c, ReleaseOne(s, c, now, lim).active);
    FewerTakesOne(s.perServer, s.active[c].server);
  }

  lemma ReleaseOneKeepsCaps(s: State, c: ClientId, now: int, lim: Limits)
    requires Capped(s, lim) && c in s.active && c !in s.idle
    requires Get(s.perServer, s.active[c].server) >= 1 && CountIdle(s.idle, s.active[c].server) < lim.maxPerServer
    ensures Capped(ReleaseOne(s, c, now, lim), lim)
  {
    hide CountCalls, CountIdle, Sum, Fewer, Clamped, Receive;
    var s' := ReleaseOne(s, c, now, lim);
    ParkedAdded(s.idle, c, s'.idle[c], s'.idle);
    FewerTakesOne(s.perServer, s.active[c].server);
    SubsetSize(s'.debut, s.debut);
  }

  lemma ReleaseOneKeepsTenantSide(s: State, c: ClientId, now: int, lim: Limits)
    requires TenantSide(s, lim) && c in s.active
    ensures TenantSide(ReleaseOne(s, c, now, lim), lim)
  {
    hide CountActive, CountCalls, CountIdle;
    var a, s' := s.active[c], ReleaseOne(s, c, now, lim);
    CheckoutDropped(s.active, c, s'.active);
    assert forall k :: Get(s'.sem, k) == Get(s.sem, k) - One(a.tenant == Some(k));
  }

  lemma ReleaseOneKeepsInv(s: State, c: ClientId, now: int, lim: Limits)
    requires Inv(s, lim) && c in s.active
    ensures Inv(ReleaseOne(s, c, now, lim), lim)
  {
    hide Balanced, Capped, TenantSide;
    ReleaseIsReady(s, c, lim);
    ReleaseOneKeepsBalance(s, c, now, lim);
    ReleaseOneKeepsCaps(s, c, now, lim);
    ReleaseOneKeepsTenantSide(s, c, now, lim);
  }

  lemma {:induction false} ReleaseEachKeepsInv(s: State, cs: seq<ClientId>, now: int, lim: Limits)
    requires Inv(s, lim)
    ensures Inv(ReleaseEach(s, cs, now, lim), lim)
  {
    if cs != [] {
      var t, c := ReleaseEach(s, cs[..|cs| - 1], now, lim), cs[|cs| - 1];
      ReleaseEachKeepsInv(s, cs[..|cs| - 1], now, lim);
      if c in t.active {
        ReleaseOneKeepsInv(t, c, now, lim);
      }
    }
  }

  lemma SweepKeepsInv(s: State, now: int, ttl: int, lim: Limits)
    requires Inv(s, lim)
    ensures Inv(Sweep(s, now, ttl), lim)
  {
    var s' := Sweep(s, now, ttl);
    forall t ensures CountIdle(s'.idle, t) <= CountIdle(s.idle, t) {
      SubsetSize(IdleAt(s'.idle, t), IdleAt(s.idle, t));
    }
  }

  lemma StepKeepsInv(s: State, e: Event, s': State, lim: Limits)
    requires Inv(s, lim) && Next(s, e, s', lim)
    ensures Inv(s', lim)
  {
    hide Inv, Decide, Begin, GiveUp, TakeToken, TakeBudget, Reuse, Refuse, ReserveSlot, Attach, RollBack, ReturnBudget;
    hide ReturnToken, ReleaseOne, ReleaseEach, Sweep, Tokens;
    match e
    case Began(id, session, srv, tenant) => BeginKeepsInv(s, id, session, srv, tenant, lim);
    case GaveUp(id) => GiveUpKeepsInv(s, id, lim);
    case TookToken(id) => TakeTokenKeepsInv(s, id, lim);
    case TriedBudget(id) => TakeBudgetKeepsInv(s, id, lim);
    case Reused(id, c) => ReuseKeepsInv(s, id, c, lim);
    case Refused(id) => RefuseKeepsInv(s, id, lim);
    case Reserved(id) => ReserveKeepsInv(s, id, lim);
    case Attached(id, c) => AttachKeepsInv(s, id, c, lim);
    case RolledBack(id) => RollBackKeepsInv(s, id, lim);
    case ReturnedBudget(id) => ReturnBudgetKeepsInv(s, id, lim);
    case ReturnedToken(id) => ReturnTokenKeepsInv(s, id, lim);
    case Released(session, srv, c, now) =>
      if HeldBy(s, session, srv, c) { ReleaseOneKeepsInv(s, c, now, lim); }
    case ReleasedSession(session, order, now) => ReleaseEachKeepsInv(s, order, now, lim);
    case Swept(now, ttl) => SweepKeepsInv(s, now, ttl, lim);
  }

  lemma RunStep(states: seq<State>, events: seq<Event>, lim: Limits, i: nat)
    requires Run(states, events, lim) && i < |events|
    ensures Next(states[i], events[i], states[i + 1], lim)
  {
  }

  lemma {:induction false} RunKeepsInv(states: seq<State>, events: seq<Event>, lim: Limits, i: nat)
    requires Sensible(lim) && Run(states, events, lim) && i < |states|
    ensures Inv(states[i], lim)
  {
    hide Inv, Next;
    if i == 0 {
      EmptyInv(lim);
    } else {
      RunKeepsInv(states, events, lim, i - 1);
      RunStep(states, events, lim, i - 1);
      StepKeepsInv(states[i - 1], events[i - 1], states[i], lim);
    }
  }
}

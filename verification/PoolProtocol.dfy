/**
  The connection pool as a state machine. One step is one critical section under the pool's
  lock, or one semaphore operation done outside it; the connection factory runs between two steps,
  so an in-flight call owns what it has taken (a semaphore token, a budget unit, a reservation)
  until it hands it to a client or gives it back.

  A client is named by its pointer identity. The state says for every client where it is; the
  stacks that hold the clients are in module Pool, which refines this machine.
*/
module PoolProtocol {
  import opened Results

  type ClientId = nat
  type CallId = nat
  type Session = string
  type Server = string
  type Tenant = string

  datatype Limits = Limits(maxTotal: int, maxPerServer: int, tenantBudget: int, tenantPerKey: int)

  predicate Sensible(lim: Limits) {
    lim.maxPerServer >= 1 && 1 <= lim.tenantBudget <= lim.maxTotal && lim.tenantPerKey >= 1
  }

  /** The limits after startup: the pool's defaults, then the configured tenant limits. */
  function StartupLimits(maxTotal: int, maxPerServer: int, budget: int, perKey: int): Limits {
    var total := if maxTotal <= 0 then 100 else maxTotal;
    var share := if total * 30 / 100 < 1 then 1 else total * 30 / 100;
    Limits(total, if maxPerServer <= 0 then 5 else maxPerServer,
           if budget < 1 then share else if budget > total then total else budget,
           if perKey < 1 then 3 else perKey)
  }

  datatype Phase =
    | Waiting          // a tenant call that wants a semaphore token
    | HasToken         // a tenant call that wants a budget unit
    | Ready            // about to look for an idle client
    | Creating         // has a reservation; its factory is running
    | ReturningBudget  // a tenant call on its way out, still holding budget and token
    | ReturningToken   // a tenant call on its way out, still holding its token

  datatype Call = Call(session: Session, server: Server, tenant: Option<Tenant>, phase: Phase)

  datatype Parked = Parked(server: Server, usedAt: int)

  datatype Checkout = Checkout(session: Session, server: Server, tenant: Option<Tenant>)

  /**
    The first six fields are the pool's own. `calls` are the calls in flight; `made` remembers for
    which server each client was ever created; `debut` are the clients in their first checkout.
  */
  datatype State = State(
    idle: map<ClientId, Parked>,
    active: map<ClientId, Checkout>,
    perServer: map<Server, int>,
    total: int,
    tenantActive: int,
    sem: map<Tenant, int>,
    calls: map<CallId, Call>,
    made: map<ClientId, Server>,
    debut: set<ClientId>
  )

  // ---- what is counted ----

  datatype CheckoutKind = OnServer(server: Server) | OfTenant(tenant: Tenant) | AnyTenant | Operator

  predicate IsCheckout(kind: CheckoutKind, a: Checkout) {
    match kind
    case OnServer(srv) => a.server == srv
    case OfTenant(k) => a.tenant == Some(k)
    case AnyTenant => a.tenant.Some?
    case Operator => a.tenant.None?
  }

  ghost function ActiveOf(m: map<ClientId, Checkout>, kind: CheckoutKind): set<ClientId> {
    set c | c in m && IsCheckout(kind, m[c])
  }

  ghost function CountActive(m: map<ClientId, Checkout>, kind: CheckoutKind): nat { |ActiveOf(m, kind)| }

  ghost function IdleAt(m: map<ClientId, Parked>, srv: Server): set<ClientId> {
    set c | c in m && m[c].server == srv
  }

  ghost function CountIdle(m: map<ClientId, Parked>, srv: Server): nat { |IdleAt(m, srv)| }

  datatype CallKind =
    | Reserving | ReservingOn(server: Server) | OperatorReserving | TenantReserving
    | HoldsBudget | HoldsToken(tenant: Tenant)

  predicate IsCall(kind: CallKind, c: Call) {
    match kind
    case Reserving => c.phase == Creating
    case ReservingOn(srv) => c.phase == Creating && c.server == srv
    case OperatorReserving => c.phase == Creating && c.tenant.None?
    case TenantReserving => c.phase == Creating && c.tenant.Some?
    case HoldsBudget => WithBudget(c)
    case HoldsToken(k) => c.tenant == Some(k) && c.phase != Waiting
  }

  predicate WithBudget(c: Call) {
    c.tenant.Some? && (c.phase == Ready || c.phase == Creating || c.phase == ReturningBudget)
  }

  ghost function CallsOf(m: map<CallId, Call>, kind: CallKind): set<CallId> {
    set id | id in m && IsCall(kind, m[id])
  }

  ghost function CountCalls(m: map<CallId, Call>, kind: CallKind): nat { |CallsOf(m, kind)| }

  function Get(m: map<string, int>, k: string): int { if k in m then m[k] else 0 }

  function InUse(s: State, srv: Server): int { Get(s.perServer, srv) }

  function Tokens(s: State, k: Tenant): int { Get(s.sem, k) }

  // ---- the pieces of a critical section ----

  function OneMore(m: map<string, int>, k: string): map<string, int> { m[k := Get(m, k) + 1] }

  /** What is really returned when n connections are: never more than there are, never less than 0. */
  function Clamped(m: map<Server, int>, srv: Server, n: int): int {
    var most := if n > Get(m, srv) then Get(m, srv) else n;
    if most <= 0 then 0 else most
  }

  /** The per-server counts after n are returned; an entry that reaches zero goes. */
  function Fewer(m: map<Server, int>, srv: Server, n: int): map<Server, int> {
    var d := Clamped(m, srv, n);
    if d == 0 then m else if d == Get(m, srv) then m - {srv} else m[srv := Get(m, srv) - d]
  }

  function Receive(sem: map<Tenant, int>, k: Tenant): map<Tenant, int> { sem[k := Get(sem, k) - 1] }

  function InPhaseOf(calls: map<CallId, Call>, id: CallId, phase: Phase): map<CallId, Call>
    requires id in calls
  {
    calls[id := calls[id].(phase := phase)]
  }

  // ---- the steps ----

  /** A tenant call first looks its semaphore up, creating it on first use. */
  function Begin(s: State, id: CallId, session: Session, srv: Server, tenant: Option<Tenant>): State {
    match tenant
    case None => s.(calls := s.calls[id := Call(session, srv, None, Ready)])
    case Some(k) => s.(sem := s.sem[k := Get(s.sem, k)], calls := s.calls[id := Call(session, srv, tenant, Waiting)])
  }

  function GiveUp(s: State, id: CallId): State { s.(calls := s.calls - {id}) }

  function TakeToken(s: State, id: CallId): State
    requires id in s.calls && s.calls[id].tenant.Some?
  {
    s.(sem := OneMore(s.sem, s.calls[id].tenant.value), calls := InPhaseOf(s.calls, id, HasToken))
  }

  function TakeBudget(s: State, id: CallId, lim: Limits): State
    requires id in s.calls
  {
    if s.tenantActive >= lim.tenantBudget then s.(calls := InPhaseOf(s.calls, id, ReturningToken))
    else s.(tenantActive := s.tenantActive + 1, calls := InPhaseOf(s.calls, id, Ready))
  }

  datatype Verdict = ReuseIdle | PoolFull | ServerFull | Reserve

  ghost function Decide(s: State, srv: Server, lim: Limits): Verdict {
    if CountIdle(s.idle, srv) > 0 then ReuseIdle
    else if s.total >= lim.maxTotal then PoolFull
    else if InUse(s, srv) >= lim.maxPerServer then ServerFull
    else Reserve
  }

  function CheckoutFor(call: Call): Checkout { Checkout(call.session, call.server, call.tenant) }

  function Reuse(s: State, id: CallId, c: ClientId): State
    requires id in s.calls
  {
    s.(idle := s.idle - {c}, active := s.active[c := CheckoutFor(s.calls[id])],
       perServer := OneMore(s.perServer, s.calls[id].server), total := s.total + 1, calls := s.calls - {id})
  }

  /** An operator call just returns its error; a tenant call has budget and token to give back. */
  function OnItsWayOut(calls: map<CallId, Call>, id: CallId): map<CallId, Call>
    requires id in calls
  {
    if calls[id].tenant.None? then calls - {id} else InPhaseOf(calls, id, ReturningBudget)
  }

  function Refuse(s: State, id: CallId): State
    requires id in s.calls
  {
    s.(calls := OnItsWayOut(s.calls, id))
  }

  function ReserveSlot(s: State, id: CallId): State
    requires id in s.calls
  {
    s.(perServer := OneMore(s.perServer, s.calls[id].server), total := s.total + 1,
       calls := InPhaseOf(s.calls, id, Creating))
  }

  function Attach(s: State, id: CallId, c: ClientId): State
    requires id in s.calls
  {
    s.(active := s.active[c := CheckoutFor(s.calls[id])], made := s.made[c := s.calls[id].server],
       debut := s.debut + {c}, calls := s.calls - {id})
  }

  /** The factory failed or panicked. */
  function RollBack(s: State, id: CallId): State
    requires id in s.calls
  {
    s.(perServer := Fewer(s.perServer, s.calls[id].server, 1),
       total := s.total - Clamped(s.perServer, s.calls[id].server, 1), calls := OnItsWayOut(s.calls, id))
  }

  function ReturnBudget(s: State, id: CallId): State
    requires id in s.calls
  {
    s.(tenantActive := s.tenantActive - 1, calls := InPhaseOf(s.calls, id, ReturningToken))
  }

  function ReturnToken(s: State, id: CallId): State
    requires id in s.calls && s.calls[id].tenant.Some?
  {
    s.(sem := Receive(s.sem, s.calls[id].tenant.value), calls := s.calls - {id})
  }

  /** Takes client c off its checkout, gives back what it holds, and parks it if there is room. */
  ghost function ReleaseOne(s: State, c: ClientId, now: int, lim: Limits): State
    requires c in s.active
  {
    var a := s.active[c];
    s.(active := s.active - {c}, debut := s.debut - {c},
       perServer := Fewer(s.perServer, a.server, 1), total := s.total - Clamped(s.perServer, a.server, 1),
       tenantActive := if a.tenant.Some? then s.tenantActive - 1 else s.tenantActive,
       sem := if a.tenant.Some? then Receive(s.sem, a.tenant.value) else s.sem,
       idle := if CountIdle(s.idle, a.server) < lim.maxPerServer
               then s.idle[c := Parked(a.server, now)] else s.idle)
  }

  predicate HeldBy(s: State, session: Session, srv: Server, c: ClientId) {
    c in s.active && s.active[c].session == session && s.active[c].server == srv
  }

  ghost function Release(s: State, session: Session, srv: Server, c: ClientId, now: int, lim: Limits): State {
    if HeldBy(s, session, srv, c) then ReleaseOne(s, c, now, lim) else s
  }

  /** A session's clients released one after the other. */
  ghost function ReleaseEach(s: State, cs: seq<ClientId>, now: int, lim: Limits): State {
    if cs == [] then s
    else
      var t := ReleaseEach(s, cs[..|cs| - 1], now, lim);
      var c := cs[|cs| - 1];
      if c in t.active then ReleaseOne(t, c, now, lim) else t
  }

  ghost predicate ListsSession(cs: seq<ClientId>, s: State, session: Session) {
    && (forall i, j :: 0 <= i < j < |cs| ==> cs[i] != cs[j])
    && (forall c :: c in cs <==> c in s.active && s.active[c].session == session)
  }

  function NotExpired(idle: map<ClientId, Parked>, now: int, ttl: int): map<ClientId, Parked> {
    map c | c in idle && now - idle[c].usedAt <= ttl :: idle[c]
  }

  function Sweep(s: State, now: int, ttl: int): State {
    s.(idle := NotExpired(s.idle, now, ttl))
  }

  // ---- the transition relation ----

  datatype Event =
    | Began(id: CallId, session: Session, server: Server, tenant: Option<Tenant>)
    | GaveUp(id: CallId)                      // the caller's context ended while waiting
    | TookToken(id: CallId)
    | TriedBudget(id: CallId)
    | Reused(id: CallId, client: ClientId)
    | Refused(id: CallId)                     // errPoolFull or errPerServerFull
    | Reserved(id: CallId)
    | Attached(id: CallId, client: ClientId)
    | RolledBack(id: CallId)
    | ReturnedBudget(id: CallId)
    | ReturnedToken(id: CallId)
    | Released(session: Session, server: Server, client: ClientId, now: int)
    | ReleasedSession(session: Session, order: seq<ClientId>, now: int)
    | Swept(now: int, ttl: int)

  predicate InPhase(s: State, id: CallId, phase: Phase) {
    && id in s.calls && s.calls[id].phase == phase
    && (phase == Ready || phase == Creating || s.calls[id].tenant.Some?)
  }

  ghost predicate Next(s: State, e: Event, s': State, lim: Limits) {
    match e
    case Began(id, session, srv, tenant) => id !in s.calls && s' == Begin(s, id, session, srv, tenant)
    case GaveUp(id) => InPhase(s, id, Waiting) && s' == GiveUp(s, id)
    case TookToken(id) =>
      InPhase(s, id, Waiting) && Tokens(s, s.calls[id].tenant.value) < lim.tenantPerKey && s' == TakeToken(s, id)
    case TriedBudget(id) => InPhase(s, id, HasToken) && s' == TakeBudget(s, id, lim)
    case Reused(id, c) =>
      InPhase(s, id, Ready) && c in s.idle && s.idle[c].server == s.calls[id].server && s' == Reuse(s, id, c)
    case Refused(id) =>
      InPhase(s, id, Ready) && Decide(s, s.calls[id].server, lim) in {PoolFull, ServerFull} && s' == Refuse(s, id)
    case Reserved(id) =>
      InPhase(s, id, Ready) && Decide(s, s.calls[id].server, lim) == Reserve && s' == ReserveSlot(s, id)
    case Attached(id, c) => InPhase(s, id, Creating) && c !in s.made && s' == Attach(s, id, c)
    case RolledBack(id) => InPhase(s, id, Creating) && s' == RollBack(s, id)
    case ReturnedBudget(id) => InPhase(s, id, ReturningBudget) && s' == ReturnBudget(s, id)
    case ReturnedToken(id) => InPhase(s, id, ReturningToken) && s' == ReturnToken(s, id)
    case Released(session, srv, c, now) => s' == Release(s, session, srv, c, now, lim)
    case ReleasedSession(session, order, now) =>
      ListsSession(order, s, session) && s' == ReleaseEach(s, order, now, lim)
    case Swept(now, ttl) => s' == Sweep(s, now, ttl)
  }

  const Empty: State := State(map[], map[], map[], 0, 0, map[], map[], map[], {})

  /** A run: any interleaving of any number of calls, from the empty pool. */
  ghost predicate Run(states: seq<State>, events: seq<Event>, lim: Limits) {
    && |states| == |events| + 1
    && states[0] == Empty
    && forall i {:trigger events[i]} :: 0 <= i < |events| ==> Next(states[i], events[i], states[i + 1], lim)
  }
}

/**
  The pool as the program keeps it: stacks of pooled clients, counters and semaphores, updated in
  place. Each method is one critical section; its contract says which step of module PoolProtocol
  it takes. The ghost field `st` is the state of that machine.
*/
module Pool {
  import opened Results
  import opened PoolProtocol
  import opened PoolInvariants
  import opened PoolTheorems

  class PooledClient {
    const client: ClientId
    var usedAt: int
    var tenant: bool
    var tenantKey: Tenant

    constructor (client: ClientId, usedAt: int, tenant: bool, tenantKey: Tenant)
      ensures this.client == client && this.usedAt == usedAt
      ensures this.tenant == tenant && this.tenantKey == tenantKey
    {
      this.client, this.usedAt, this.tenant, this.tenantKey := client, usedAt, tenant, tenantKey;
    }

    function Owner(): Option<Tenant> reads this { if tenant then Some(tenantKey) else None }
  }

  type Stack = seq<PooledClient>

  // ---- stacks and the maps they stand for ----

  ghost predicate Distinct(stack: Stack) {
    forall i, j :: 0 <= i < j < |stack| ==> stack[i].client != stack[j].client
  }

  ghost predicate Has(stack: Stack, c: ClientId) {
    exists i :: 0 <= i < |stack| && stack[i].client == c
  }

  /** The stack holds exactly the clients that m checks out to this session and server. */
  ghost predicate ListsCheckouts(stack: Stack, session: Session, srv: Server, m: map<ClientId, Checkout>)
    reads stack
  {
    && Distinct(stack)
    && (forall i :: 0 <= i < |stack| ==>
          stack[i].client in m && m[stack[i].client] == Checkout(session, srv, stack[i].Owner()))
    && (forall c :: c in m && m[c].session == session && m[c].server == srv ==> Has(stack, c))
  }

  /** The stack holds exactly the clients that m parks at this server, none flagged for a tenant. */
  ghost predicate ListsParked(stack: Stack, srv: Server, m: map<ClientId, Parked>)
    reads stack
  {
    && Distinct(stack)
    && (forall i :: 0 <= i < |stack| ==>
          !stack[i].tenant && stack[i].client in m && m[stack[i].client] == Parked(srv, stack[i].usedAt))
    && (forall c :: c in m && m[c].server == srv ==> Has(stack, c))
  }

  function IdleStack(idle: map<Server, Stack>, srv: Server): Stack { if srv in idle then idle[srv] else [] }

  function ActiveStack(active: map<Session, map<Server, Stack>>, session: Session, srv: Server): Stack {
    if session in active && srv in active[session] then active[session][srv] else []
  }

  ghost function Clients(stack: Stack): set<ClientId> {
    set i | 0 <= i < |stack| :: stack[i].client
  }

  lemma {:induction false} DistinctSize(stack: Stack)
    requires Distinct(stack)
    ensures |Clients(stack)| == |stack|
  {
    if stack != [] {
      var n := |stack| - 1;
      DistinctSize(stack[..n]);
      assert Clients(stack) == Clients(stack[..n]) + {stack[n].client};
    }
  }

  lemma ParkedSize(stack: Stack, srv: Server, m: map<ClientId, Parked>)
    requires ListsParked(stack, srv, m)
    ensures |stack| == CountIdle(m, srv)
  {
    DistinctSize(stack);
    assert Clients(stack) == IdleAt(m, srv);
  }

  /** Removing by swap-with-last loses and duplicates nothing. */
  function SwapRemove<T>(stack: seq<T>, idx: nat): seq<T>
    requires idx < |stack|
  {
    stack[idx := stack[|stack| - 1]][..|stack| - 1]
  }

  lemma SwapRemoveKeepsRest(stack: Stack, idx: nat)
    requires idx < |stack| && Distinct(stack)
    ensures Distinct(SwapRemove(stack, idx))
    ensures multiset(SwapRemove(stack, idx)) == multiset(stack) - multiset{stack[idx]}
    ensures forall c :: Has(SwapRemove(stack, idx), c) <==> Has(stack, c) && c != stack[idx].client
  {
    var rest, n := SwapRemove(stack, idx), |stack| - 1;
    assert stack == stack[..n] + [stack[n]];
    assert idx < n ==> stack[..n][idx := stack[n]] == rest;
    forall c ensures Has(rest, c) <==> Has(stack, c) && c != stack[idx].client {
      if Has(rest, c) {
        var i :| 0 <= i < |rest| && rest[i].client == c;
        assert stack[if i == idx then n else i].client == c;
      }
      if Has(stack, c) && c != stack[idx].client {
        var i :| 0 <= i < |stack| && stack[i].client == c;
        assert rest[if i == n then idx else i].client == c;
      }
    }
  }

  /** Replaces one stack; an empty stack is not kept, nor a session without stacks. */
  function SetStack(active: map<Session, map<Server, Stack>>, session: Session, srv: Server, stack: Stack)
    : map<Session, map<Server, Stack>>
  {
    var m := if session in active then active[session] else map[];
    var m' := if stack == [] then m - {srv} else m[srv := stack];
    if m' == map[] then active - {session} else active[session := m']
  }

  ghost predicate Within(stack: Stack, repr: set<PooledClient>) {
    forall i :: 0 <= i < |stack| ==> stack[i] in repr
  }

  /** The idle stacks hold exactly the clients m parks. */
  ghost predicate IdleMatches(idle: map<Server, Stack>, repr: set<PooledClient>, m: map<ClientId, Parked>)
    reads repr
  {
    forall srv :: Within(IdleStack(idle, srv), repr) && ListsParked(IdleStack(idle, srv), srv, m)
  }

  /** No session keeps an empty stack, and no session without stacks is kept. */
  ghost predicate NoEmptyStacks(active: map<Session, map<Server, Stack>>) {
    && (forall session, srv :: session in active && srv in active[session] ==> active[session][srv] != [])
    && (forall session :: session in active ==> active[session] != map[])
  }

  /** The active stacks hold exactly the clients m checks out. */
  ghost predicate ActiveMatches(active: map<Session, map<Server, Stack>>, repr: set<PooledClient>, m: map<ClientId, Checkout>)
    reads repr
  {
    && NoEmptyStacks(active)
    && (forall session, srv ::
          && Within(ActiveStack(active, session, srv), repr)
          && ListsCheckouts(ActiveStack(active, session, srv), session, srv, m))
  }

  lemma SetStackAt(active: map<Session, map<Server, Stack>>, session: Session, srv: Server, stack: Stack)
    requires NoEmptyStacks(active)
    ensures NoEmptyStacks(SetStack(active, session, srv, stack))
    ensures forall s, v {:trigger ActiveStack(SetStack(active, session, srv, stack), s, v)} ::
              ActiveStack(SetStack(active, session, srv, stack), s, v) ==
              (if s == session && v == srv then stack else ActiveStack(active, s, v))
  {
    var m := if session in active then active[session] else map[];
    var m' := if stack == [] then m - {srv} else m[srv := stack];
    assert stack != [] ==> srv in m';
    forall v | v in m && v != srv ensures v in m' {}
  }

  lemma PlacedFor(s: State, c: ClientId, lim: Limits)
    requires Inv(s, lim)
    ensures c in s.idle ==> c !in s.active
    ensures c in s.idle || c in s.active ==> c in s.made
  {
  }

  // ---- what moving one client does to the stacks (the rest of the heap stays) ----

  predicate At(m: map<ClientId, Checkout>, c: ClientId, session: Session, srv: Server) {
    c in m && m[c].session == session && m[c].server == srv
  }

  twostate lemma OtherCheckoutsStay(stack: Stack, new session: Session, new srv: Server,
                                    new m: map<ClientId, Checkout>, new m': map<ClientId, Checkout>, new c: ClientId)
    requires old(ListsCheckouts(stack, session, srv, m))
    requires !At(m, c, session, srv) && !At(m', c, session, srv) && m - {c} == m' - {c}
    requires forall i :: 0 <= i < |stack| && stack[i].client != c ==> unchanged(stack[i])
    ensures ListsCheckouts(stack, session, srv, m')
  {
    forall x | x != c ensures (x in m <==> x in m') && (x in m ==> m[x] == m'[x]) {
      assert x in m - {c} <==> x in m;
      assert x in m' - {c} <==> x in m';
      assert x in m ==> (m - {c})[x] == (m' - {c})[x];
    }
  }

  twostate lemma OtherParkedStay(stack: Stack, new srv: Server,
                                 new m: map<ClientId, Parked>, new m': map<ClientId, Parked>, new c: ClientId)
    requires old(ListsParked(stack, srv, m))
    requires (c in m ==> m[c].server != srv) && (c in m' ==> m'[c].server != srv) && m - {c} == m' - {c}
    requires forall i :: 0 <= i < |stack| && stack[i].client != c ==> unchanged(stack[i])
    ensures ListsParked(stack, srv, m')
  {
    forall x | x != c ensures (x in m <==> x in m') && (x in m ==> m[x] == m'[x]) {
      assert x in m - {c} <==> x in m;
      assert x in m' - {c} <==> x in m';
      assert x in m ==> (m - {c})[x] == (m' - {c})[x];
    }
  }

  lemma HasPrefix(stack: Stack, c: ClientId)
    requires stack != []
    ensures Has(stack, c) <==> Has(stack[..|stack| - 1], c) || c == stack[|stack| - 1].client
  {
    if Has(stack, c) && c != stack[|stack| - 1].client {
      var i :| 0 <= i < |stack| && stack[i].client == c;
      assert stack[..|stack| - 1][i].client == c;
    }
    if Has(stack[..|stack| - 1], c) {
      var i :| 0 <= i < |stack| - 1 && stack[..|stack| - 1][i].client == c;
      assert stack[i].client == c;
    }
  }

  twostate lemma PopParked(stack: Stack, new srv: Server, new m: map<ClientId, Parked>)
    requires stack != [] && old(ListsParked(stack, srv, m))
    requires forall i :: 0 <= i < |stack| - 1 ==> unchanged(stack[i])
    ensures ListsParked(stack[..|stack| - 1], srv, m - {stack[|stack| - 1].client})
  {
    forall c { HasPrefix(stack, c); }
  }

  twostate lemma PushCheckout(stack: Stack, new session: Session,
                              new srv: Server, new m: map<ClientId, Checkout>, new pc: PooledClient)
    requires old(ListsCheckouts(stack, session, srv, m)) && pc.client !in m
    requires forall i :: 0 <= i < |stack| ==> unchanged(stack[i])
    ensures ListsCheckouts(stack + [pc], session, srv, m[pc.client := Checkout(session, srv, pc.Owner())])
  {
    assert (stack + [pc])[..|stack|] == stack;
    forall c { HasPrefix(stack + [pc], c); }
  }

  twostate lemma PushParked(stack: Stack, new srv: Server, new m: map<ClientId, Parked>, new pc: PooledClient)
    requires old(ListsParked(stack, srv, m)) && pc.client !in m && !pc.tenant
    requires forall i :: 0 <= i < |stack| ==> unchanged(stack[i])
    ensures ListsParked(stack + [pc], srv, m[pc.client := Parked(srv, pc.usedAt)])
  {
    assert (stack + [pc])[..|stack|] == stack;
    forall c { HasPrefix(stack + [pc], c); }
  }

  twostate lemma RemoveCheckout(stack: Stack, new idx: nat,
                                new session: Session, new srv: Server, new m: map<ClientId, Checkout>)
    requires idx < |stack| && old(ListsCheckouts(stack, session, srv, m))
    requires forall i :: 0 <= i < |stack| && i != idx ==> unchanged(stack[i])
    ensures ListsCheckouts(SwapRemove(stack, idx), session, srv, m - {stack[idx].client})
  {
    SwapRemoveKeepsRest(stack, idx);
  }

  twostate lemma RemoveFirst(stack: Stack, new session: Session, new srv: Server, new m: map<ClientId, Checkout>)
    requires stack != [] && old(ListsCheckouts(stack, session, srv, m))
    requires forall i :: 0 < i < |stack| ==> unchanged(stack[i])
    ensures ListsCheckouts(stack[1..], session, srv, m - {stack[0].client})
  {
    forall c | At(m, c, session, srv) && c != stack[0].client ensures Has(stack[1..], c) {
      var i :| 0 <= i < |stack| && stack[i].client == c;
      assert stack[1..][i - 1].client == c;
    }
  }

  lemma IdleTop(idle: map<Server, Stack>, repr: set<PooledClient>, m: map<ClientId, Parked>, srv: Server)
    requires IdleMatches(idle, repr, m) && srv in idle && idle[srv] != []
    ensures var pc := idle[srv][|idle[srv]| - 1];
      pc in repr && pc.client in m && m[pc.client].server == srv
  {
    assert Within(IdleStack(idle, srv), repr) && ListsParked(IdleStack(idle, srv), srv, m);
  }

  lemma IdleSize(idle: map<Server, Stack>, repr: set<PooledClient>, m: map<ClientId, Parked>, srv: Server)
    requires IdleMatches(idle, repr, m)
    ensures |IdleStack(idle, srv)| == CountIdle(m, srv)
  {
    assert ListsParked(IdleStack(idle, srv), srv, m);
    ParkedSize(IdleStack(idle, srv), srv, m);
  }

  /** Searching a stack by client finds exactly the checkout of that client. */
  lemma ActiveAt(active: map<Session, map<Server, Stack>>, repr: set<PooledClient>, m: map<ClientId, Checkout>,
                 session: Session, srv: Server, c: ClientId)
    requires ActiveMatches(active, repr, m)
    ensures At(m, c, session, srv) <==> Has(ActiveStack(active, session, srv), c)
    ensures forall i :: 0 <= i < |ActiveStack(active, session, srv)| ==>
              var pc := ActiveStack(active, session, srv)[i];
              pc in repr && pc.client in m && m[pc.client] == Checkout(session, srv, pc.Owner())
  {
    assert Within(ActiveStack(active, session, srv), repr);
    assert ListsCheckouts(ActiveStack(active, session, srv), session, srv, m);
  }

  twostate lemma IdleMatchesMore(idle: map<Server, Stack>, new repr: set<PooledClient>,
                                 new m: map<ClientId, Parked>, new pc: PooledClient)
    requires old(allocated(repr)) && old(IdleMatches(idle, repr, m))
    requires forall x :: x in repr ==> unchanged(x)
    ensures IdleMatches(idle, repr + {pc}, m)
  {
    forall v ensures Within(IdleStack(idle, v), repr + {pc}) && ListsParked(IdleStack(idle, v), v, m) {
      assert Within(IdleStack(idle, v), repr) && old(ListsParked(IdleStack(idle, v), v, m));
    }
  }

  twostate lemma IdlePopped(idle: map<Server, Stack>, new repr: set<PooledClient>,
                            new m: map<ClientId, Parked>, new srv: Server)
    requires old(allocated(repr)) && old(IdleMatches(idle, repr, m)) && srv in idle && idle[srv] != []
    requires forall pc :: pc in repr && pc != idle[srv][|idle[srv]| - 1] ==> unchanged(pc)
    ensures IdleMatches(idle[srv := idle[srv][..|idle[srv]| - 1]], repr, m - {idle[srv][|idle[srv]| - 1].client})
  {
    var idle' := idle[srv := idle[srv][..|idle[srv]| - 1]];
    var c := idle[srv][|idle[srv]| - 1].client;
    assert Within(IdleStack(idle, srv), repr) && old(ListsParked(IdleStack(idle, srv), srv, m));
    forall v ensures Within(IdleStack(idle', v), repr) && ListsParked(IdleStack(idle', v), v, m - {c}) {
      assert Within(IdleStack(idle, v), repr) && old(ListsParked(IdleStack(idle, v), v, m));
      if v == srv { PopParked(idle[srv], srv, m); }
      else { OtherParkedStay(IdleStack(idle, v), v, m, m - {c}, c); }
    }
  }

  twostate lemma IdlePushed(idle: map<Server, Stack>, new repr: set<PooledClient>,
                            new m: map<ClientId, Parked>, new srv: Server, new pc: PooledClient)
    requires old(allocated(repr)) && old(IdleMatches(idle, repr, m)) && pc.client !in m && !pc.tenant && pc in repr
    requires forall x :: x in repr && x != pc ==> unchanged(x)
    ensures IdleMatches(idle[srv := IdleStack(idle, srv) + [pc]], repr, m[pc.client := Parked(srv, pc.usedAt)])
  {
    var idle', m' := idle[srv := IdleStack(idle, srv) + [pc]], m[pc.client := Parked(srv, pc.usedAt)];
    forall v ensures Within(IdleStack(idle', v), repr) && ListsParked(IdleStack(idle', v), v, m') {
      assert Within(IdleStack(idle, v), repr) && old(ListsParked(IdleStack(idle, v), v, m));
      if v == srv { PushParked(IdleStack(idle, srv), srv, m, pc); }
      else { OtherParkedStay(IdleStack(idle, v), v, m, m', pc.client); }
    }
  }

  twostate lemma ActivePushed(active: map<Session, map<Server, Stack>>, new repr: set<PooledClient>,
                              new m: map<ClientId, Checkout>, new session: Session, new srv: Server, new pc: PooledClient)
    requires old(allocated(repr)) && old(ActiveMatches(active, repr, m)) && pc.client !in m
    requires forall x :: x in repr && x != pc ==> unchanged(x)
    ensures ActiveMatches(SetStack(active, session, srv, ActiveStack(active, session, srv) + [pc]), repr + {pc},
                          m[pc.client := Checkout(session, srv, pc.Owner())])
  {
    var active' := SetStack(active, session, srv, ActiveStack(active, session, srv) + [pc]);
    var m' := m[pc.client := Checkout(session, srv, pc.Owner())];
    SetStackAt(active, session, srv, ActiveStack(active, session, srv) + [pc]);
    forall s, v ensures Within(ActiveStack(active', s, v), repr + {pc}) && ListsCheckouts(ActiveStack(active', s, v), s, v, m') {
      assert Within(ActiveStack(active, s, v), repr) && old(ListsCheckouts(ActiveStack(active, s, v), s, v, m));
      if s == session && v == srv { PushCheckout(ActiveStack(active, s, v), s, v, m, pc); }
      else { OtherCheckoutsStay(ActiveStack(active, s, v), s, v, m, m', pc.client); }
    }
  }

  twostate lemma ActiveFirstRemoved(active: map<Session, map<Server, Stack>>, new repr: set<PooledClient>,
                                    new m: map<ClientId, Checkout>, new session: Session, new srv: Server)
    requires old(allocated(repr)) && old(ActiveMatches(active, repr, m)) && ActiveStack(active, session, srv) != []
    requires forall x :: x in repr && x != ActiveStack(active, session, srv)[0] ==> unchanged(x)
    ensures ActiveMatches(SetStack(active, session, srv, ActiveStack(active, session, srv)[1..]), repr,
                          m - {ActiveStack(active, session, srv)[0].client})
  {
    var stack := ActiveStack(active, session, srv);
    var c := stack[0].client;
    var active' := SetStack(active, session, srv, stack[1..]);
    SetStackAt(active, session, srv, stack[1..]);
    assert Within(stack, repr) && old(ListsCheckouts(stack, session, srv, m));
    forall s, v ensures Within(ActiveStack(active', s, v), repr) && ListsCheckouts(ActiveStack(active', s, v), s, v, m - {c}) {
      assert Within(ActiveStack(active, s, v), repr) && old(ListsCheckouts(ActiveStack(active, s, v), s, v, m));
      if s == session && v == srv { RemoveFirst(stack, s, v, m); }
      else { OtherCheckoutsStay(ActiveStack(active, s, v), s, v, m, m - {c}, c); }
    }
  }

  twostate lemma ActiveRemoved(active: map<Session, map<Server, Stack>>, new repr: set<PooledClient>,
                               new m: map<ClientId, Checkout>, new session: Session, new srv: Server, new idx: nat)
    requires old(allocated(repr)) && old(ActiveMatches(active, repr, m)) && idx < |ActiveStack(active, session, srv)|
    requires forall x :: x in repr && x != ActiveStack(active, session, srv)[idx] ==> unchanged(x)
    ensures ActiveMatches(SetStack(active, session, srv, SwapRemove(ActiveStack(active, session, srv), idx)), repr,
                          m - {ActiveStack(active, session, srv)[idx].client})
  {
    var stack := ActiveStack(active, session, srv);
    var c := stack[idx].client;
    var active' := SetStack(active, session, srv, SwapRemove(stack, idx));
    SetStackAt(active, session, srv, SwapRemove(stack, idx));
    assert Within(stack, repr) && old(ListsCheckouts(stack, session, srv, m));
    forall s, v ensures Within(ActiveStack(active', s, v), repr) && ListsCheckouts(ActiveStack(active', s, v), s, v, m - {c}) {
      assert Within(ActiveStack(active, s, v), repr) && old(ListsCheckouts(ActiveStack(active, s, v), s, v, m));
      if s == session && v == srv { RemoveCheckout(stack, idx, s, v, m); }
      else { OtherCheckoutsStay(ActiveStack(active, s, v), s, v, m, m - {c}, c); }
    }
  }

  // ---- releasing a session, one client after the other ----

  /** s is what releasing the clients of `order`, all of this session, makes of s0. */
  ghost predicate SoFar(s0: State, s: State, order: seq<ClientId>, session: Session, now: int, lim: Limits) {
    && s == ReleaseEach(s0, order, now, lim)
    && (forall i, j :: 0 <= i < j < |order| ==> order[i] != order[j])
    && (forall c :: c in order ==> c in s0.active && s0.active[c].session == session)
    && (forall c :: c in s.active <==> c in s0.active && c !in order)
    && (forall c :: c in s.active ==> s.active[c] == s0.active[c])
  }

  lemma SoFarStarts(s: State, session: Session, now: int, lim: Limits)
    ensures SoFar(s, s, [], session, now, lim)
  {
  }

  lemma SoFarStep(s0: State, s: State, order: seq<ClientId>, session: Session, now: int, lim: Limits, c: ClientId)
    requires SoFar(s0, s, order, session, now, lim) && c in s.active && s.active[c].session == session
    ensures SoFar(s0, ReleaseOne(s, c, now, lim), order + [c], session, now, lim)
  {
    hide Fewer, Clamped, Receive, CountIdle;
    assert (order + [c])[..|order|] == order;
  }

  lemma ReleaseOneFields(s: State, c: ClientId, now: int, lim: Limits)
    requires c in s.active && CountIdle(s.idle, s.active[c].server) < lim.maxPerServer
    ensures var t, a := ReleaseOne(s, c, now, lim), s.active[c];
      && t.active == s.active - {c} && t.idle == s.idle[c := Parked(a.server, now)]
      && t.perServer == Fewer(s.perServer, a.server, 1) && t.total == s.total - Clamped(s.perServer, a.server, 1)
      && t.tenantActive == (if a.tenant.Some? then s.tenantActive - 1 else s.tenantActive)
      && t.sem == (if a.tenant.Some? then Receive(s.sem, a.tenant.value) else s.sem)
  {
  }

  lemma ReuseFields(s: State, id: CallId, c: ClientId)
    requires id in s.calls
    ensures var t, call := Reuse(s, id, c), s.calls[id];
      && t.active == s.active[c := Checkout(call.session, call.server, call.tenant)] && t.idle == s.idle - {c}
      && t.perServer == OneMore(s.perServer, call.server) && t.total == s.total + 1
      && t.tenantActive == s.tenantActive && t.sem == s.sem
  {
  }

  lemma AttachFields(s: State, id: CallId, c: ClientId)
    requires id in s.calls
    ensures var t, call := Attach(s, id, c), s.calls[id];
      && t.active == s.active[c := Checkout(call.session, call.server, call.tenant)] && t.idle == s.idle
      && t.perServer == s.perServer && t.total == s.total && t.tenantActive == s.tenantActive && t.sem == s.sem
  {
  }

  lemma ReleaseOneCounts(s: State, c: ClientId, now: int, lim: Limits)
    requires c in s.active && Get(s.perServer, s.active[c].server) >= 1
    ensures ReleaseOne(s, c, now, lim).perServer == Fewer(s.perServer, s.active[c].server, 1)
    ensures ReleaseOne(s, c, now, lim).total == s.total - 1
  {
  }

  lemma FewerStarts(p: map<Server, int>, srv: Server)
    ensures Fewer(p, srv, 0) == p && Clamped(p, srv, 0) == 0
  {
  }

  lemma FewerSteps(p: map<Server, int>, srv: Server, i: nat)
    requires Get(Fewer(p, srv, i), srv) >= 1
    ensures Fewer(Fewer(p, srv, i), srv, 1) == Fewer(p, srv, i + 1)
    ensures i < Get(p, srv) && Clamped(p, srv, i + 1) == i + 1
  {
  }

  lemma ActiveHolds(active: map<Session, map<Server, Stack>>, repr: set<PooledClient>, m: map<ClientId, Checkout>)
    requires ActiveMatches(active, repr, m)
    ensures NoEmptyStacks(active)
    ensures forall c :: c in m ==> Has(ActiveStack(active, m[c].session, m[c].server), c)
  {
    forall c | c in m ensures Has(ActiveStack(active, m[c].session, m[c].server), c) {
      assert ListsCheckouts(ActiveStack(active, m[c].session, m[c].server), m[c].session, m[c].server, m);
    }
  }

  lemma SoFarDone(s0: State, s: State, order: seq<ClientId>, session: Session, now: int, lim: Limits,
                  active: map<Session, map<Server, Stack>>, repr: set<PooledClient>)
    requires SoFar(s0, s, order, session, now, lim) && ActiveMatches(active, repr, s.active) && session !in active
    ensures ListsSession(order, s0, session) && s == ReleaseEach(s0, order, now, lim)
  {
    ActiveHolds(active, repr, s.active);
    forall c | c in s0.active && s0.active[c].session == session ensures c in order {
      assert c in s.active ==> Has(ActiveStack(active, session, s.active[c].server), c);
    }
  }

  lemma SessionGone(active: map<Session, map<Server, Stack>>, session: Session)
    requires NoEmptyStacks(active)
    ensures NoEmptyStacks(active - {session})
    ensures forall s, v :: ActiveStack(active - {session}, s, v) == if s == session then [] else ActiveStack(active, s, v)
  {
  }

  /** Without empty stacks, the stacks determine the map. */
  lemma SameStacks(a: map<Session, map<Server, Stack>>, b: map<Session, map<Server, Stack>>)
    requires NoEmptyStacks(a) && NoEmptyStacks(b)
    requires forall s, v :: ActiveStack(a, s, v) == ActiveStack(b, s, v)
    ensures a == b
  {
    SameStacksHalf(a, b);
    SameStacksHalf(b, a);
    forall s | s in a ensures a[s] == b[s] {
      assert a[s].Keys == b[s].Keys;
      forall v | v in a[s] ensures a[s][v] == b[s][v] { assert ActiveStack(a, s, v) == ActiveStack(b, s, v); }
    }
  }

  lemma SameStacksHalf(a: map<Session, map<Server, Stack>>, b: map<Session, map<Server, Stack>>)
    requires NoEmptyStacks(a) && forall s, v :: ActiveStack(a, s, v) == ActiveStack(b, s, v)
    ensures forall s :: s in a ==> s in b && forall v :: v in a[s] ==> v in b[s]
  {
    forall s | s in a ensures s in b && forall v :: v in a[s] ==> v in b[s] {
      assert a[s].Keys != {};
      var w :| w in a[s];
      assert ActiveStack(a, s, w) != [];
      forall v | v in a[s] ensures v in b[s] { assert ActiveStack(a, s, v) != []; }
    }
  }

  // ---- sweeping ----

  function Kept(stack: Stack, now: int, ttl: int): Stack
    reads stack
  {
    if stack == [] then []
    else
      var pc := stack[|stack| - 1];
      Kept(stack[..|stack| - 1], now, ttl) + (if now - pc.usedAt > ttl then [] else [pc])
  }

  ghost predicate IsExpired(stack: Stack, c: ClientId, now: int, ttl: int)
    reads stack
  {
    exists i :: 0 <= i < |stack| && stack[i].client == c && now - stack[i].usedAt > ttl
  }

  lemma ExpiredStep(stack: Stack, i: nat, now: int, ttl: int)
    requires i < |stack|
    ensures stack[..i + 1][..i] == stack[..i]
    ensures forall c :: IsExpired(stack[..i + 1], c, now, ttl) <==>
              IsExpired(stack[..i], c, now, ttl) || (c == stack[i].client && now - stack[i].usedAt > ttl)
  {
    forall c ensures IsExpired(stack[..i + 1], c, now, ttl) <==>
              IsExpired(stack[..i], c, now, ttl) || (c == stack[i].client && now - stack[i].usedAt > ttl)
    {
      if IsExpired(stack[..i], c, now, ttl) {
        var j :| 0 <= j < i && stack[..i][j].client == c && now - stack[..i][j].usedAt > ttl;
        assert stack[..i + 1][j] == stack[j];
      }
      if c == stack[i].client && now - stack[i].usedAt > ttl { assert stack[..i + 1][i] == stack[i]; }
      if IsExpired(stack[..i + 1], c, now, ttl) {
        var j :| 0 <= j < i + 1 && stack[..i + 1][j].client == c && now - stack[..i + 1][j].usedAt > ttl;
        assert j < i ==> stack[..i][j] == stack[j];
      }
    }
  }

  lemma {:induction false} KeptElements(stack: Stack, now: int, ttl: int)
    requires Distinct(stack)
    ensures Distinct(Kept(stack, now, ttl))
    ensures forall i :: 0 <= i < |Kept(stack, now, ttl)| ==>
              Kept(stack, now, ttl)[i] in stack && now - Kept(stack, now, ttl)[i].usedAt <= ttl
    ensures forall pc :: pc in stack && now - pc.usedAt <= ttl ==> pc in Kept(stack, now, ttl)
  {
    if stack != [] {
      var n := |stack| - 1;
      assert stack == stack[..n] + [stack[n]];
      KeptElements(stack[..n], now, ttl);
    }
  }

  lemma KeptLists(stack: Stack, srv: Server, m: map<ClientId, Parked>, now: int, ttl: int)
    requires ListsParked(stack, srv, m)
    ensures ListsParked(Kept(stack, now, ttl), srv, NotExpired(m, now, ttl))
  {
    KeptElements(stack, now, ttl);
    var kept, m' := Kept(stack, now, ttl), NotExpired(m, now, ttl);
    forall i | 0 <= i < |kept|
      ensures !kept[i].tenant && kept[i].client in m' && m'[kept[i].client] == Parked(srv, kept[i].usedAt)
    {
      var j :| 0 <= j < |stack| && stack[j] == kept[i];
    }
    forall c | c in m' && m'[c].server == srv ensures Has(kept, c) {
      var i :| 0 <= i < |stack| && stack[i].client == c;
      assert stack[i] in kept;
      var j :| 0 <= j < |kept| && kept[j] == stack[i];
    }
  }

  /** Sweeping half done: the servers of todo still have their stacks, the others only kept clients. */
  ghost predicate HalfSwept(idle0: map<Server, Stack>, idle: map<Server, Stack>, todo: set<Server>, closed: seq<ClientId>,
                            repr: set<PooledClient>, now: int, ttl: int)
    reads repr
  {
    && (forall srv :: Within(IdleStack(idle0, srv), repr) && IdleStack(idle, srv) ==
          if srv in todo then IdleStack(idle0, srv) else Kept(IdleStack(idle0, srv), now, ttl))
    && (forall c :: c in closed <==>
          exists srv :: srv !in todo && Within(IdleStack(idle0, srv), repr) && IsExpired(IdleStack(idle0, srv), c, now, ttl))
  }

  lemma SweepStarts(idle: map<Server, Stack>, repr: set<PooledClient>, m: map<ClientId, Parked>, now: int, ttl: int)
    requires IdleMatches(idle, repr, m)
    ensures HalfSwept(idle, idle, idle.Keys, [], repr, now, ttl)
  {
  }

  lemma SweepStep(idle0: map<Server, Stack>, idle: map<Server, Stack>, todo: set<Server>, closed: seq<ClientId>,
                  repr: set<PooledClient>, now: int, ttl: int, srv: Server)
    requires HalfSwept(idle0, idle, todo, closed, repr, now, ttl) && srv in todo && srv in idle
    ensures var kept := Kept(idle[srv], now, ttl);
      forall expired :: (forall c :: c in expired <==> IsExpired(idle[srv], c, now, ttl)) ==>
        HalfSwept(idle0, if |kept| == 0 then idle[srv := kept] - {srv} else idle[srv := kept], todo - {srv}, closed + expired,
                  repr, now, ttl)
  {
    hide IsExpired, Kept;
    var kept := Kept(idle[srv], now, ttl);
    var idle' := if |kept| == 0 then idle[srv := kept] - {srv} else idle[srv := kept];
    assert idle[srv] == IdleStack(idle, srv) == IdleStack(idle0, srv);
    forall v ensures Within(IdleStack(idle0, v), repr) && IdleStack(idle', v) ==
        if v in todo - {srv} then IdleStack(idle0, v) else Kept(IdleStack(idle0, v), now, ttl)
    {
      assert Within(IdleStack(idle0, v), repr);
    }
  }

  lemma KeptStack(stack: Stack, srv: Server, repr: set<PooledClient>, m: map<ClientId, Parked>, now: int, ttl: int)
    requires Within(stack, repr) && ListsParked(stack, srv, m)
    ensures Within(Kept(stack, now, ttl), repr)
    ensures ListsParked(Kept(stack, now, ttl), srv, NotExpired(m, now, ttl))
  {
    KeptLists(stack, srv, m, now, ttl);
    KeptElements(stack, now, ttl);
  }

  lemma SweepLeavesKept(idle0: map<Server, Stack>, idle: map<Server, Stack>, closed: seq<ClientId>,
                        repr: set<PooledClient>, m: map<ClientId, Parked>, now: int, ttl: int)
    requires IdleMatches(idle0, repr, m) && HalfSwept(idle0, idle, {}, closed, repr, now, ttl)
    ensures IdleMatches(idle, repr, NotExpired(m, now, ttl))
  {
    hide ListsParked, IsExpired, Kept, Within;
    var m' := NotExpired(m, now, ttl);
    forall v ensures Within(IdleStack(idle, v), repr) && ListsParked(IdleStack(idle, v), v, m') {
      assert Within(IdleStack(idle0, v), repr) && ListsParked(IdleStack(idle0, v), v, m);
      KeptStack(IdleStack(idle0, v), v, repr, m, now, ttl);
      assert IdleStack(idle, v) == Kept(IdleStack(idle0, v), now, ttl);
    }
  }

  /** What a stack says about the age of a client is what the map says. */
  lemma ExpiredInMap(stack: Stack, srv: Server, m: map<ClientId, Parked>, c: ClientId, now: int, ttl: int)
    requires ListsParked(stack, srv, m)
    ensures IsExpired(stack, c, now, ttl) <==> c in m && m[c].server == srv && now - m[c].usedAt > ttl
  {
    if c in m && m[c].server == srv { assert Has(stack, c); }
  }

  lemma SweepClosesExpired(idle0: map<Server, Stack>, idle: map<Server, Stack>, closed: seq<ClientId>,
                           repr: set<PooledClient>, m: map<ClientId, Parked>, now: int, ttl: int)
    requires IdleMatches(idle0, repr, m) && HalfSwept(idle0, idle, {}, closed, repr, now, ttl)
    ensures forall c :: c in closed <==> c in m && now - m[c].usedAt > ttl
  {
    hide ListsParked, IsExpired, Kept;
    forall c ensures c in closed <==> c in m && now - m[c].usedAt > ttl {
      forall v ensures Within(IdleStack(idle0, v), repr)
          && (IsExpired(IdleStack(idle0, v), c, now, ttl) <==> c in m && m[c].server == v && now - m[c].usedAt > ttl)
      {
        assert Within(IdleStack(idle0, v), repr) && ListsParked(IdleStack(idle0, v), v, m);
        ExpiredInMap(IdleStack(idle0, v), v, m, c, now, ttl);
      }
      if c in m && now - m[c].usedAt > ttl { assert IsExpired(IdleStack(idle0, m[c].server), c, now, ttl); }
    }
  }

  lemma SweepFields(s: State, now: int, ttl: int)
    ensures var t := Sweep(s, now, ttl);
      && t.idle == NotExpired(s.idle, now, ttl) && t.active == s.active
      && t.perServer == s.perServer && t.total == s.total && t.tenantActive == s.tenantActive && t.sem == s.sem
  {
  }

  datatype Acquired = Connected(client: ClientId) | ErrPoolFull | ErrPerServerFull | SlotReserved

  class Pool {
    const lim: Limits
    const idleTTL: int

    var idle: map<Server, Stack>
    var active: map<Session, map<Server, Stack>>
    var activePerServer: map<Server, int>
    var activeTotal: int
    var lastUsed: map<Server, int>
    var tenantActive: int
    var tenantSem: map<Tenant, int>  // how many tokens each semaphore holds

    ghost var st: State
    ghost var Repr: set<PooledClient>

    ghost predicate CountersMatch() reads this {
      && st.perServer == activePerServer && st.total == activeTotal
      && st.tenantActive == tenantActive && st.sem == tenantSem
    }

    ghost predicate Valid() reads this, Repr {
      && Sensible(lim) && Inv(st, lim) && CountersMatch() && lastUsed.Keys == idle.Keys
      && IdleMatches(idle, Repr, st.idle) && ActiveMatches(active, Repr, st.active)
    }

    constructor (maxTotal: int, maxPerServer: int, idleTTL: int, tenantBudget: int, tenantPerKey: int)
      ensures Valid() && st == Empty && fresh(Repr)
      ensures lim == StartupLimits(maxTotal, maxPerServer, tenantBudget, tenantPerKey)
      ensures this.idleTTL == if idleTTL >= 1 then idleTTL else 5 * 60
    {
      lim := StartupLimits(maxTotal, maxPerServer, tenantBudget, tenantPerKey);
      this.idleTTL := if idleTTL <= 0 then 300 else idleTTL;
      idle, active, activePerServer, activeTotal, lastUsed := map[], map[], map[], 0, map[];
      tenantActive, tenantSem := 0, map[];
      st, Repr := Empty, {};
      new;
      EmptyInv(lim);
    }

    // ---- entering and leaving AcquireTenant ----

    method Begin(ghost id: CallId, session: Session, srv: Server, tenant: Option<Tenant>)
      requires Valid() && id !in st.calls
      modifies this`tenantSem, this`st
      ensures Valid() && st == PoolProtocol.Begin(old(st), id, session, srv, tenant)
    {
      hide Inv, IdleMatches, ActiveMatches;
      BeginKeepsInv(st, id, session, srv, tenant, lim);
      if tenant.Some? && tenant.value !in tenantSem {
        tenantSem := tenantSem[tenant.value := 0];
      }
      st := PoolProtocol.Begin(st, id, session, srv, tenant);
    }

    /** One attempt to put a token into the tenant's semaphore; the caller waits while it is full. */
    method TryToken(ghost id: CallId, tenantKey: Tenant) returns (taken: bool)
      requires Valid() && InPhase(st, id, Waiting) && st.calls[id].tenant == Some(tenantKey) && tenantKey in tenantSem
      modifies this`tenantSem, this`st
      ensures Valid()
      ensures taken <==> old(tenantSem[tenantKey]) < lim.tenantPerKey
      ensures st == if taken then TakeToken(old(st), id) else old(st)
    {
      hide Inv, IdleMatches, ActiveMatches;
      taken := tenantSem[tenantKey] < lim.tenantPerKey;
      if taken {
        TakeTokenKeepsInv(st, id, lim);
        tenantSem := tenantSem[tenantKey := tenantSem[tenantKey] + 1];
        st := TakeToken(st, id);
      }
    }

    method TryBudget(ghost id: CallId) returns (granted: bool)
      requires Valid() && InPhase(st, id, HasToken)
      modifies this`tenantActive, this`st
      ensures Valid() && st == TakeBudget(old(st), id, lim)
      ensures granted <==> old(tenantActive) < lim.tenantBudget
    {
      hide Inv, IdleMatches, ActiveMatches;
      TakeBudgetKeepsInv(st, id, lim);
      granted := tenantActive < lim.tenantBudget;
      if granted {
        tenantActive := tenantActive + 1;
      }
      st := TakeBudget(st, id, lim);
    }

    method ReturnBudgetUnit(ghost id: CallId)
      requires Valid() && InPhase(st, id, ReturningBudget)
      modifies this`tenantActive, this`st
      ensures Valid() && st == ReturnBudget(old(st), id)
    {
      hide Inv, IdleMatches, ActiveMatches;
      ReturnBudgetKeepsInv(st, id, lim);
      tenantActive := tenantActive - 1;
      st := ReturnBudget(st, id);
    }

    /** A receive from a semaphore: it would wait for ever on a missing or empty one. */
    method ReceiveToken(tenantKey: Tenant)
      requires tenantKey in tenantSem && tenantSem[tenantKey] > 0
      modifies this`tenantSem
      ensures tenantSem == Receive(old(tenantSem), tenantKey)
    {
      tenantSem := tenantSem[tenantKey := tenantSem[tenantKey] - 1];
    }

    method ReturnSlot(ghost id: CallId, tenantKey: Tenant)
      requires Valid() && InPhase(st, id, ReturningToken) && st.calls[id].tenant == Some(tenantKey)
      modifies this`tenantSem, this`st
      ensures Valid() && st == ReturnToken(old(st), id)
    {
      hide Inv, IdleMatches, ActiveMatches;
      TokenIsHeld(st, id, lim);
      ReturnTokenKeepsInv(st, id, lim);
      ReceiveToken(tenantKey);
      st := ReturnToken(st, id);
    }

    // ---- counters ----

    method IncActiveLocked(srv: Server)
      modifies this`activePerServer, this`activeTotal
      ensures activePerServer == OneMore(old(activePerServer), srv) && activeTotal == old(activeTotal) + 1
    {
      activePerServer := activePerServer[srv := (if srv in activePerServer then activePerServer[srv] else 0) + 1];
      activeTotal := activeTotal + 1;
    }

    method DecActiveLocked(srv: Server, count: int)
      modifies this`activePerServer, this`activeTotal
      ensures activePerServer == Fewer(old(activePerServer), srv, count)
      ensures activeTotal == old(activeTotal) - Clamped(old(activePerServer), srv, count)
    {
      var cur, n := if srv in activePerServer then activePerServer[srv] else 0, count;
      if n > cur { n := cur; }
      if n <= 0 { return; }
      if cur == n {
        activePerServer := activePerServer - {srv};
      } else {
        activePerServer := activePerServer[srv := cur - n];
      }
      activeTotal := activeTotal - n;
    }

    // ---- acquire ----

    method AttachLocked(session: Session, srv: Server, pc: PooledClient)
      modifies this`active
      ensures active == SetStack(old(active), session, srv, ActiveStack(old(active), session, srv) + [pc])
    {
      if session !in active {
        active := active[session := map[]];
      }
      var m := active[session];
      active := active[session := m[srv := (if srv in m then m[srv] else []) + [pc]]];
      assert srv in active[session];
    }

    /** Moves the top of a server's idle stack to the session's active stack. */
    method TakeOverIdle(session: Session, srv: Server, tenant: Option<Tenant>, now: int) returns (pc: PooledClient)
      requires IdleMatches(idle, Repr, st.idle) && ActiveMatches(active, Repr, st.active) && lastUsed.Keys == idle.Keys
      requires srv in idle && idle[srv] != [] && idle[srv][|idle[srv]| - 1].client !in st.active
      modifies this`idle, this`lastUsed, this`active, Repr
      ensures pc == old(idle[srv][|idle[srv]| - 1])
      ensures pc.client in st.idle && st.idle[pc.client].server == srv && lastUsed.Keys == idle.Keys
      ensures IdleMatches(idle, Repr, st.idle - {pc.client})
      ensures ActiveMatches(active, Repr, st.active[pc.client := Checkout(session, srv, tenant)])
    {
      hide IdleMatches, ActiveMatches, SetStack;
      var stack := idle[srv];
      IdleTop(idle, Repr, st.idle, srv);
      pc := stack[|stack| - 1];
      idle := idle[srv := stack[..|stack| - 1]];
      lastUsed := lastUsed[srv := now];
      pc.tenant := tenant.Some?;
      pc.tenantKey := if tenant.Some? then tenant.value else "";
      AttachLocked(session, srv, pc);
      IdlePopped(old(idle), Repr, st.idle, srv);
      ActivePushed(old(active), Repr, st.active, session, srv, pc);
      assert Repr + {pc} == Repr;
    }

    /** Hands out the top of a server's idle stack. */
    method ReuseIdleLocked(ghost id: CallId, session: Session, srv: Server, tenant: Option<Tenant>, now: int)
      returns (c: ClientId)
      requires Valid() && InPhase(st, id, Ready) && st.calls[id] == Call(session, srv, tenant, Ready)
      requires srv in idle && idle[srv] != []
      modifies this, Repr
      ensures Valid() && Repr == old(Repr)
      ensures c == old(idle[srv][|idle[srv]| - 1].client)
      ensures c in old(st).idle && old(st).idle[c].server == srv && st == Reuse(old(st), id, c)
    {
      hide Inv, IdleMatches, ActiveMatches, OneMore, CountIdle, Reuse, Sensible;
      IdleTop(idle, Repr, st.idle, srv);
      PlacedFor(st, idle[srv][|idle[srv]| - 1].client, lim);
      var pc := TakeOverIdle(session, srv, tenant, now);
      c := pc.client;
      IncActiveLocked(srv);
      ReuseKeepsInv(st, id, c, lim);
      ReuseFields(st, id, c);
      st := Reuse(st, id, c);
    }

    /** Without an idle client: check the caps, and reserve before the factory runs. */
    method ReserveLocked(ghost id: CallId, srv: Server) returns (r: Acquired)
      requires Valid() && InPhase(st, id, Ready) && st.calls[id].server == srv && CountIdle(st.idle, srv) == 0
      modifies this`activePerServer, this`activeTotal, this`st
      ensures Valid() && !r.Connected?
      ensures r == match Decide(old(st), srv, lim)
                   case PoolFull => ErrPoolFull
                   case ServerFull => ErrPerServerFull
                   case _ => SlotReserved
      ensures st == if r == SlotReserved then ReserveSlot(old(st), id) else Refuse(old(st), id)
    {
      hide Inv, IdleMatches, ActiveMatches, CountIdle, OneMore, OnItsWayOut, InPhaseOf;
      if activeTotal >= lim.maxTotal {
        RefuseKeepsInv(st, id, lim);
        st := Refuse(st, id);
        return ErrPoolFull;
      }
      if (if srv in activePerServer then activePerServer[srv] else 0) >= lim.maxPerServer {
        RefuseKeepsInv(st, id, lim);
        st := Refuse(st, id);
        return ErrPerServerFull;
      }
      ReserveKeepsInv(st, id, lim);
      IncActiveLocked(srv);
      st := ReserveSlot(st, id);
      return SlotReserved;
    }

    /** The locked part of acquire: reuse an idle client, or check the caps and reserve. */
    method AcquireLocked(ghost id: CallId, session: Session, srv: Server, tenant: Option<Tenant>, now: int)
      returns (r: Acquired)
      requires Valid() && InPhase(st, id, Ready) && st.calls[id] == Call(session, srv, tenant, Ready)
      modifies this, Repr
      ensures Valid() && Repr == old(Repr)
      ensures match r
        case Connected(c) => c in old(st).idle && old(st).idle[c].server == srv && st == Reuse(old(st), id, c)
        case ErrPoolFull => Decide(old(st), srv, lim) == PoolFull && st == Refuse(old(st), id)
        case ErrPerServerFull => Decide(old(st), srv, lim) == ServerFull && st == Refuse(old(st), id)
        case SlotReserved => Decide(old(st), srv, lim) == Reserve && st == ReserveSlot(old(st), id)
    {
      hide Valid, CountIdle, Reuse, Refuse, ReserveSlot;
      assert |IdleStack(idle, srv)| == CountIdle(st.idle, srv) by {
        ValidParts();
        IdleSize(idle, Repr, st.idle, srv);
      }
      if srv in idle && |idle[srv]| > 0 {
        var c := ReuseIdleLocked(id, session, srv, tenant, now);
        return Connected(c);
      }
      r := ReserveLocked(id, srv);
    }

    /** The factory returned a client: it takes over what the call held. */
    method AttachNew(ghost id: CallId, session: Session, srv: Server, tenant: Option<Tenant>, client: ClientId, now: int)
      requires Valid() && InPhase(st, id, Creating) && st.calls[id] == Call(session, srv, tenant, Creating)
      requires client !in st.made
      modifies this`active, this`st, this`Repr
      ensures Valid() && st == Attach(old(st), id, client) && fresh(Repr - old(Repr))
    {
      hide Inv, IdleMatches, ActiveMatches, SetStack, Sensible, Attach;
      AttachFields(st, id, client);
      AttachKeepsInv(st, id, client, lim);
      PlacedFor(st, client, lim);
      var pc := new PooledClient(client, now, tenant.Some?, if tenant.Some? then tenant.value else "");
      AttachLocked(session, srv, pc);
      ActivePushed(old(active), Repr, old(st).active, session, srv, pc);
      IdleMatchesMore(idle, Repr, st.idle, pc);
      Repr := Repr + {pc};
      st := Attach(st, id, client);
    }

    /** The factory failed or panicked: the reservation goes back. */
    method RollBackReservation(ghost id: CallId, srv: Server)
      requires Valid() && InPhase(st, id, Creating) && st.calls[id].server == srv
      modifies this`activePerServer, this`activeTotal, this`st
      ensures Valid() && st == RollBack(old(st), id)
    {
      hide Inv, IdleMatches, ActiveMatches;
      RollBackKeepsInv(st, id, lim);
      DecActiveLocked(srv, 1);
      st := RollBack(st, id);
    }

    // ---- release ----

    /** Returns a tenant client's budget unit and token, with the lock held. */
    method ReleaseTenantLocked(pc: PooledClient)
      requires pc.tenant ==> pc.tenantKey in tenantSem && tenantSem[pc.tenantKey] > 0
      modifies this`tenantActive, this`tenantSem, pc`tenant
      ensures !pc.tenant
      ensures old(pc.tenant) ==> tenantActive == old(tenantActive) - 1 && tenantSem == Receive(old(tenantSem), pc.tenantKey)
      ensures !old(pc.tenant) ==> tenantActive == old(tenantActive) && tenantSem == old(tenantSem)
    {
      if !pc.tenant { return; }
      pc.tenant := false;
      tenantActive := tenantActive - 1;
      ReceiveToken(pc.tenantKey);
    }

    /** Gives back what a tenant client holds, then parks it if its server has room for another. */
    method ParkLocked(srv: Server, pc: PooledClient, now: int) returns (parked: bool)
      requires pc.tenant ==> pc.tenantKey in tenantSem && tenantSem[pc.tenantKey] > 0
      modifies this`tenantActive, this`tenantSem, this`idle, this`lastUsed, pc
      ensures !pc.tenant
      ensures tenantActive == (if old(pc.tenant) then old(tenantActive) - 1 else old(tenantActive))
      ensures tenantSem == (if old(pc.tenant) then Receive(old(tenantSem), old(pc.tenantKey)) else old(tenantSem))
      ensures parked <==> |IdleStack(old(idle), srv)| < lim.maxPerServer
      ensures parked ==> idle == old(idle)[srv := IdleStack(old(idle), srv) + [pc]] && pc.usedAt == now
      ensures !parked ==> idle == old(idle) && pc.usedAt == old(pc.usedAt)
      ensures old(lastUsed).Keys == old(idle).Keys ==> lastUsed.Keys == idle.Keys
    {
      ReleaseTenantLocked(pc);
      parked := (if srv in idle then |idle[srv]| else 0) < lim.maxPerServer;
      if parked {
        pc.usedAt := now;
        idle := idle[srv := (if srv in idle then idle[srv] else []) + [pc]];
        lastUsed := lastUsed[srv := now];
      }
    }

    /** The position of a client in a stack, or -1. */
    static method IndexOf(stack: Stack, client: ClientId) returns (idx: int)
      ensures -1 <= idx < |stack|
      ensures idx >= 0 ==> stack[idx].client == client
      ensures idx < 0 ==> !Has(stack, client)
    {
      for i := 0 to |stack|
        invariant forall j :: 0 <= j < i ==> stack[j].client != client
      {
        if stack[i].client == client { return i; }
      }
      return -1;
    }

    /** Removes a client from its stack by swap-with-last, and empty maps with it. */
    method DetachLocked(session: Session, srv: Server, idx: nat)
      requires session in active && srv in active[session] && idx < |active[session][srv]|
      modifies this`active
      ensures active == SetStack(old(active), session, srv, SwapRemove(ActiveStack(old(active), session, srv), idx))
    {
      var m := active[session];
      var stack := m[srv];
      stack := stack[idx := stack[|stack| - 1]];
      stack := stack[..|stack| - 1];
      if |stack| == 0 {
        m := m - {srv};
      } else {
        m := m[srv := stack];
      }
      active := active[session := m];
      if m == map[] {
        active := active - {session};
        assert active == old(active) - {session};
      }
    }

    /** Takes the client at this place off its checkout and parks it. */
    method ReleaseFound(session: Session, srv: Server, idx: nat, now: int) returns (closed: bool)
      requires Valid() && idx < |ActiveStack(active, session, srv)|
      modifies this, Repr
      ensures Valid() && Repr == old(Repr) && !closed
      ensures At(old(st).active, old(ActiveStack(active, session, srv)[idx].client), session, srv)
      ensures st == ReleaseOne(old(st), old(ActiveStack(active, session, srv)[idx].client), now, lim)
    {
      hide Inv, IdleMatches, ActiveMatches, Fewer, Clamped, CountIdle, SetStack, SwapRemove, ReleaseOne, Receive;
      var pc := active[session][srv][idx];
      ghost var c := pc.client;
      ActiveAt(active, Repr, st.active, session, srv, c);
      assert pc == ActiveStack(active, session, srv)[idx];
      ReleaseIsReady(st, c, lim);
      ReleaseOneKeepsInv(st, c, now, lim);
      PlacedFor(st, c, lim);
      IdleSize(idle, Repr, st.idle, srv);
      ReleaseOneFields(st, c, now, lim);
      DetachLocked(session, srv, idx);
      DecActiveLocked(srv, 1);
      var parked := ParkLocked(srv, pc, now);
      closed := !parked;
      assert ActiveMatches(active, Repr, old(st).active - {c}) by {
        ActiveRemoved(old(active), Repr, old(st).active, session, srv, idx);
      }
      assert IdleMatches(idle, Repr, old(st).idle[c := Parked(srv, now)]) by {
        IdlePushed(old(idle), Repr, old(st).idle, srv, pc);
      }
      st := ReleaseOne(st, c, now, lim);
      assert lastUsed.Keys == idle.Keys;
      assert CountersMatch();
    }

    /** Returns one client to the idle pool; `closed` says that it was closed instead. */
    method Release(session: Session, srv: Server, client: ClientId, now: int) returns (closed: bool)
      requires Valid()
      modifies this, Repr
      ensures Valid() && Repr == old(Repr) && !closed
      ensures st == PoolProtocol.Release(old(st), session, srv, client, now, lim)
    {
      hide Valid, ReleaseOne;
      closed := false;
      assert At(st.active, client, session, srv) <==> Has(ActiveStack(active, session, srv), client) by {
        ValidParts();
        ActiveAt(active, Repr, st.active, session, srv, client);
      }
      if session !in active { return; }
      var m := active[session];
      var stack := if srv in m then m[srv] else [];
      var idx := IndexOf(stack, client);
      if idx < 0 { return; }
      closed := ReleaseFound(session, srv, idx, now);
    }

    lemma ValidParts()
      requires Valid()
      ensures IdleMatches(idle, Repr, st.idle) && ActiveMatches(active, Repr, st.active)
    {
    }

    /**
      Half-way through releasing a session: `rest` are the stacks still to come. The session itself
      is already gone from `active`, and the server counts follow only after each stack.
    */
    ghost predicate Midway(rest: map<Session, map<Server, Stack>>) reads this, Repr {
      && Sensible(lim) && Inv(st, lim) && st.tenantActive == tenantActive && st.sem == tenantSem
      && lastUsed.Keys == idle.Keys && IdleMatches(idle, Repr, st.idle) && ActiveMatches(rest, Repr, st.active) && NoEmptyStacks(rest)
    }

    /** Releases the first client of a stack of the session. */
    method ReleaseHeld(ghost rest: map<Session, map<Server, Stack>>, session: Session, srv: Server, pc: PooledClient, now: int)
      returns (parked: bool)
      requires Midway(rest) && ActiveStack(rest, session, srv) != [] && ActiveStack(rest, session, srv)[0] == pc
      modifies this`tenantActive, this`tenantSem, this`idle, this`lastUsed, this`st, Repr
      ensures Midway(SetStack(rest, session, srv, ActiveStack(rest, session, srv)[1..])) && parked
      ensures At(old(st).active, pc.client, session, srv) && st == ReleaseOne(old(st), pc.client, now, lim)
      ensures Get(old(st).perServer, srv) >= 1
    {
      hide Inv, IdleMatches, ActiveMatches, Fewer, Clamped, SetStack, ReleaseOne, Receive, CountIdle;
      ghost var c := pc.client;
      ActiveAt(rest, Repr, st.active, session, srv, c);
      assert pc == ActiveStack(rest, session, srv)[0];
      ReleaseIsReady(st, c, lim);
      ReleaseOneKeepsInv(st, c, now, lim);
      PlacedFor(st, c, lim);
      IdleSize(idle, Repr, st.idle, srv);
      ReleaseOneFields(st, c, now, lim);
      parked := ParkLocked(srv, pc, now);
      ActiveFirstRemoved(rest, Repr, old(st).active, session, srv);
      IdlePushed(old(idle), Repr, old(st).idle, srv, pc);
      st := ReleaseOne(st, c, now, lim);
    }

    /** Releases one stack of the session, client by client, and then lowers the server's count. */
    method ReleaseStack(ghost rest: map<Session, map<Server, Stack>>, session: Session, srv: Server, stack: Stack, now: int,
                        ghost s0: State, ghost order: seq<ClientId>)
      returns (toClose: seq<ClientId>, ghost rest': map<Session, map<Server, Stack>>, ghost order': seq<ClientId>)
      requires Midway(rest) && stack == ActiveStack(rest, session, srv) && activePerServer == st.perServer && activeTotal == st.total
      requires SoFar(s0, st, order, session, now, lim)
      modifies this`tenantActive, this`tenantSem, this`idle, this`lastUsed, this`st, this`activePerServer, this`activeTotal, Repr
      ensures Midway(rest') && activePerServer == st.perServer && activeTotal == st.total && toClose == []
      ensures SoFar(s0, st, order', session, now, lim)
      ensures forall s, v :: ActiveStack(rest', s, v) ==
                (if s == session && v == srv then [] else ActiveStack(rest, s, v))
    {
      hide Inv, IdleMatches, ActiveMatches, SetStack, Fewer, Clamped, ReleaseOne, SoFar;
      toClose, rest', order' := [], rest, order;
      ghost var p0, t0 := activePerServer, activeTotal;
      FewerStarts(p0, srv);
      for i := 0 to |stack|
        invariant Midway(rest') && toClose == [] && activePerServer == p0 && activeTotal == t0
        invariant SoFar(s0, st, order', session, now, lim)
        invariant st.perServer == Fewer(p0, srv, i) && st.total == t0 - i && Clamped(p0, srv, i) == i
        invariant forall s, v :: ActiveStack(rest', s, v) ==
                    (if s == session && v == srv then stack[i..] else ActiveStack(rest, s, v))
      {
        ghost var before, c := st, stack[i].client;
        assert ActiveStack(rest', session, srv) == stack[i..];
        var pc, client := stack[i], stack[i].client;
        var parked := ReleaseHeld(rest', session, srv, pc, now);
        if !parked { toClose := toClose + [client]; }
        SoFarStep(s0, before, order', session, now, lim, c);
        FewerSteps(p0, srv, i);
        ReleaseOneCounts(before, c, now, lim);
        order' := order' + [c];
        SetStackAt(rest', session, srv, stack[i..][1..]);
        assert stack[i..][1..] == stack[i + 1..];
        rest' := SetStack(rest', session, srv, stack[i + 1..]);
      }
      DecActiveLocked(srv, |stack|);
    }

    /**
      Releases all clients of a session. `order` is the order in which that happened (a map is walked
      in any order); `toClose` are the clients to be closed instead of parked.
    */
    method ReleaseSession(session: Session, now: int) returns (toClose: seq<ClientId>, ghost order: seq<ClientId>)
      requires Valid()
      modifies this, Repr
      ensures Valid() && Repr == old(Repr) && toClose == []
      ensures ListsSession(order, old(st), session) && st == ReleaseEach(old(st), order, now, lim)
    {
      hide Inv, IdleMatches, SetStack, ReleaseOne, ActiveMatches, SoFar, NoEmptyStacks;
      toClose, order := [], [];
      SoFarStarts(st, session, now, lim);
      ActiveHolds(active, Repr, st.active);
      ghost var rest := active;
      if session in active {
        var m := active[session];
        active := active - {session};
        var todo := m.Keys;
        while todo != {}
          invariant todo <= m.Keys && toClose == [] && Repr == old(Repr)
          invariant active == old(active) - {session} && session in old(active) && m == old(active)[session]
          invariant Midway(rest) && activePerServer == st.perServer && activeTotal == st.total
          invariant SoFar(old(st), st, order, session, now, lim)
          invariant forall s, v :: ActiveStack(rest, s, v) ==
                      if s == session && v !in todo then [] else ActiveStack(old(active), s, v)
          decreases todo
        {
          var srv :| srv in todo;
          todo := todo - {srv};
          var closing;
          closing, rest, order := ReleaseStack(rest, session, srv, m[srv], now, old(st), order);
          toClose := toClose + closing;
        }
        SessionGone(old(active), session);
        SameStacks(rest, active);
      }
      SoFarDone(old(st), st, order, session, now, lim, active, Repr);
    }

    /** Splits one idle stack into the clients to keep and those to close. */
    static method SplitExpired(stack: Stack, now: int, ttl: int) returns (kept: Stack, expired: seq<ClientId>)
      ensures kept == Kept(stack, now, ttl)
      ensures forall c :: c in expired <==> IsExpired(stack, c, now, ttl)
    {
      kept, expired := [], [];
      for i := 0 to |stack|
        invariant kept == Kept(stack[..i], now, ttl)
        invariant forall c :: c in expired <==> IsExpired(stack[..i], c, now, ttl)
      {
        ExpiredStep(stack, i, now, ttl);
        if now - stack[i].usedAt > ttl {
          expired := expired + [stack[i].client];
        } else {
          kept := kept + [stack[i]];
        }
      }
      assert stack[..|stack|] == stack;
    }

    /** Sweeps the stack of one server; an empty stack goes. */
    method SweepServer(srv: Server, now: int) returns (expired: seq<ClientId>)
      requires srv in idle && lastUsed.Keys == idle.Keys
      modifies this`idle, this`lastUsed
      ensures var kept := Kept(old(idle)[srv], now, idleTTL);
        && idle == (if |kept| == 0 then old(idle)[srv := kept] - {srv} else old(idle)[srv := kept])
        && lastUsed.Keys == idle.Keys
      ensures forall c :: c in expired <==> IsExpired(old(idle)[srv], c, now, idleTTL)
    {
      var kept;
      kept, expired := SplitExpired(idle[srv], now, idleTTL);
      idle := idle[srv := kept];
      if |kept| == 0 {
        idle := idle - {srv};
        lastUsed := lastUsed - {srv};
      }
    }

    /** Drops idle clients unused for longer than the TTL; the caller closes them. */
    method SweepExpired(now: int) returns (toClose: seq<ClientId>)
      requires Valid()
      modifies this`idle, this`lastUsed, this`st
      ensures Valid() && st == Sweep(old(st), now, idleTTL)
      ensures forall c :: c in toClose <==> c in old(st).idle && c !in st.idle
    {
      hide Inv, IdleMatches, ActiveMatches, HalfSwept, Kept, IsExpired, Sensible, Sweep;
      SweepKeepsInv(st, now, idleTTL, lim);
      SweepFields(st, now, idleTTL);
      toClose := [];
      var todo := idle.Keys;
      ghost var idle0 := idle;
      SweepStarts(idle0, Repr, st.idle, now, idleTTL);
      while todo != {}
        invariant st == old(st) && todo <= idle.Keys && lastUsed.Keys == idle.Keys
        invariant HalfSwept(idle0, idle, todo, toClose, Repr, now, idleTTL)
        decreases todo
      {
        var srv :| srv in todo;
        SweepStep(idle0, idle, todo, toClose, Repr, now, idleTTL, srv);
        todo := todo - {srv};
        var expired := SweepServer(srv, now);
        toClose := toClose + expired;
      }
      SweepLeavesKept(idle0, idle, toClose, Repr, st.idle, now, idleTTL);
      SweepClosesExpired(idle0, idle, toClose, Repr, st.idle, now, idleTTL);
      st := Sweep(st, now, idleTTL);
    }
  }
}

/**
  How concurrent callers share one fetch of a server's tools (internal/mcp/aggregator.go): every
  critical section under the cache lock is one step, and so is everything a caller does outside it.
*/
module FetchProtocol {
  import opened Results

  /** One version of a server's tools, as some fetch returned it. */
  type Version = nat

  /** A group that callers wait on; it is completed by its fetcher. */
  type Group = nat

  /**
    Where a call stands: before the first look at the cache; after finding nothing fresh; waiting
    for a group; fetching; with a fetched version to store; with a failed fetch; ready to leave with
    its answer; past leaving but not yet done with its group; finished.
  */
  datatype Phase =
    | Started
    | Missed
    | Waiting(group: Group)
    | Fetching(group: Group)
    | Fetched(group: Group, version: Version)
    | Failed(group: Group)
    | Leaving(group: Group, answer: Option<Version>)
    | Left(group: Group, answer: Option<Version>)
    | Finished(answer: Option<Version>)

  datatype Call = Call(server: string, phase: Phase)

  /** fetches records what fetches have returned so far, by server; completed counts completions. */
  datatype State = State(cache: map<string, Version>, inflight: map<string, Group>, completed: map<Group, nat>,
                         calls: map<nat, Call>, owner: map<Group, nat>, fetches: set<(string, Version)>)

  const EMPTY := State(map[], map[], map[], map[], map[], {})

  datatype Event =
    | Begin(id: nat, server: string)
    | Look(id: nat, recent: bool)
    | Join(id: nat, newGroup: Group)
    | Wake(id: nat)
    | Fetch(id: nat, result: Option<Version>)
    | Store(id: nat)
    | UseStale(id: nat)
    | Leave(id: nat)
    | Done(id: nat)
    | Refresh(server: string, result: Option<Version>)
    | Forget(server: string)

  function Cached(s: State, server: string): Option<Version> {
    if server in s.cache then Some(s.cache[server]) else None
  }

  function At(s: State, id: nat, p: Phase): State
    requires id in s.calls
  {
    s.(calls := s.calls[id := s.calls[id].(phase := p)])
  }

  /** A waiter goes on only once its group is completed; a new group is one nobody used before. */
  predicate Enabled(s: State, e: Event) {
    match e
    case Begin(id, _) => id !in s.calls
    case Look(id, recent) => id in s.calls && s.calls[id].phase == Started && (recent ==> s.calls[id].server in s.cache)
    case Join(id, g) => id in s.calls && s.calls[id].phase == Missed && g !in s.owner && g !in s.completed
    case Wake(id) => id in s.calls && s.calls[id].phase.Waiting? && s.calls[id].phase.group in s.completed
                     && s.completed[s.calls[id].phase.group] > 0
    case Fetch(id, _) => id in s.calls && s.calls[id].phase.Fetching?
    case Store(id) => id in s.calls && s.calls[id].phase.Fetched?
    case UseStale(id) => id in s.calls && s.calls[id].phase.Failed?
    case Leave(id) => id in s.calls && s.calls[id].phase.Leaving?
    case Done(id) => id in s.calls && s.calls[id].phase.Left? && s.calls[id].phase.group in s.completed
    case Refresh(_, _) => true
    case Forget(_) => true
  }

  function Record(s: State, server: string, result: Option<Version>): State {
    if result.Some? then s.(fetches := s.fetches + {(server, result.value)}) else s
  }

  function Next(s: State, e: Event): State
    requires Enabled(s, e)
  {
    match e
    case Begin(id, server) => s.(calls := s.calls[id := Call(server, Started)])
    case Look(id, recent) => At(s, id, if recent then Finished(Cached(s, s.calls[id].server)) else Missed)
    case Join(id, g) =>
      var server := s.calls[id].server;
      if server in s.inflight then At(s, id, Waiting(s.inflight[server]))
      else
        At(s, id, Fetching(g)).(
          inflight := s.inflight[server := g], completed := s.completed[g := 0], owner := s.owner[g := id])
    case Wake(id) => At(s, id, Finished(Cached(s, s.calls[id].server)))
    case Fetch(id, result) =>
      var g := s.calls[id].phase.group;
      At(Record(s, s.calls[id].server, result), id, if result.Some? then Fetched(g, result.value) else Failed(g))
    case Store(id) =>
      var p := s.calls[id].phase;
      At(s, id, Leaving(p.group, Some(p.version))).(cache := s.cache[s.calls[id].server := p.version])
    case UseStale(id) => At(s, id, Leaving(s.calls[id].phase.group, Cached(s, s.calls[id].server)))
    case Leave(id) =>
      var p := s.calls[id].phase;
      At(s, id, Left(p.group, p.answer)).(inflight := s.inflight - {s.calls[id].server})
    case Done(id) =>
      var p := s.calls[id].phase;
      At(s, id, Finished(p.answer)).(completed := s.completed[p.group := s.completed[p.group] + 1])
    case Refresh(server, result) =>
      if result.Some? then Record(s, server, result).(cache := s.cache[server := result.value]) else s
    case Forget(server) => s.(cache := s.cache - {server})
  }

  predicate Possible(s: State, events: seq<Event>)
    decreases |events|
  {
    events == [] || (Enabled(s, events[0]) && Possible(Next(s, events[0]), events[1..]))
  }

  function Run(s: State, events: seq<Event>): State
    requires Possible(s, events)
    decreases |events|
  {
    if events == [] then s else Run(Next(s, events[0]), events[1..])
  }

  // ---- invariants ----

  /** The call is the fetcher of its server: from joining until it takes the in-flight entry away. */
  predicate IsFetcher(p: Phase) { p.Fetching? || p.Fetched? || p.Failed? || p.Leaving? }

  /** An in-flight entry names a group whose owner is fetching for that server. */
  ghost predicate EntriesHaveFetchers(s: State) {
    forall server <- s.inflight :: var g := s.inflight[server];
      && g in s.owner && s.owner[g] in s.calls
      && var c := s.calls[s.owner[g]]; c.server == server && IsFetcher(c.phase) && c.phase.group == g
  }

  /** A fetcher has the entry of its server; it and whoever has just left own a group not yet completed. */
  ghost predicate FetchersOwn(s: State) {
    forall id <- s.calls :: var c := s.calls[id];
      && (IsFetcher(c.phase) ==> c.server in s.inflight && s.inflight[c.server] == c.phase.group)
      && (IsFetcher(c.phase) || c.phase.Left? ==>
            && c.phase.group in s.completed && s.completed[c.phase.group] == 0
            && c.phase.group in s.owner && s.owner[c.phase.group] == id)
      && (c.phase.Waiting? ==> c.phase.group in s.owner)
  }

  /** A group is completed exactly when its owner is through with it, and then once. */
  ghost predicate GroupsCompleteOnce(s: State) {
    && s.completed.Keys == s.owner.Keys
    && forall g <- s.owner :: && s.owner[g] in s.calls
         && var p := s.calls[s.owner[g]].phase;
            if (IsFetcher(p) || p.Left?) && p.group == g then s.completed[g] == 0
            else s.completed[g] == 1 && p.Finished?
  }

  /** What is cached or answered was returned by a successful fetch for that server. */
  ghost predicate FromFetches(s: State) {
    && (forall server <- s.cache :: (server, s.cache[server]) in s.fetches)
    && forall id <- s.calls :: var c := s.calls[id];
         && (c.phase.Fetched? ==> (c.server, c.phase.version) in s.fetches)
         && ((c.phase.Leaving? || c.phase.Left? || c.phase.Finished?) && c.phase.answer.Some? ==>
               (c.server, c.phase.answer.value) in s.fetches)
  }

  ghost predicate Inv(s: State) { EntriesHaveFetchers(s) && FetchersOwn(s) && GroupsCompleteOnce(s) && FromFetches(s) }

  /** The steps of a fetcher after it joined. */
  predicate ByFetcher(e: Event) { e.Fetch? || e.Store? || e.UseStale? || e.Leave? || e.Done? }

  lemma FetcherStepKeepsEntries(s: State, e: Event)
    requires Inv(s) && Enabled(s, e) && ByFetcher(e)
    ensures EntriesHaveFetchers(Next(s, e))
  {
    hide FromFetches, GroupsCompleteOnce;
  }

  lemma OtherStepKeepsEntries(s: State, e: Event)
    requires Inv(s) && Enabled(s, e) && !ByFetcher(e)
    ensures EntriesHaveFetchers(Next(s, e))
  {
    hide FromFetches, GroupsCompleteOnce;
  }

  lemma FetcherStepKeepsOwners(s: State, e: Event)
    requires Inv(s) && Enabled(s, e) && ByFetcher(e)
    ensures FetchersOwn(Next(s, e))
  {
    hide FromFetches, GroupsCompleteOnce;
  }

  lemma OtherStepKeepsOwners(s: State, e: Event)
    requires Inv(s) && Enabled(s, e) && !ByFetcher(e)
    ensures FetchersOwn(Next(s, e))
  {
    hide FromFetches;
  }

  lemma DoneKeepsGroups(s: State, e: Event)
    requires FetchersOwn(s) && GroupsCompleteOnce(s) && Enabled(s, e) && e.Done?
    ensures GroupsCompleteOnce(Next(s, e))
  {
  }

  lemma FetcherStepKeepsGroups(s: State, e: Event)
    requires FetchersOwn(s) && GroupsCompleteOnce(s) && Enabled(s, e) && ByFetcher(e) && !e.Done?
    ensures GroupsCompleteOnce(Next(s, e))
  {
  }

  lemma OtherStepKeepsGroups(s: State, e: Event)
    requires FetchersOwn(s) && GroupsCompleteOnce(s) && Enabled(s, e) && !ByFetcher(e)
    ensures GroupsCompleteOnce(Next(s, e))
  {
  }

  lemma FetcherStepKeepsProvenance(s: State, e: Event)
    requires FromFetches(s) && Enabled(s, e) && ByFetcher(e)
    ensures FromFetches(Next(s, e))
  {
  }

  lemma OtherStepKeepsProvenance(s: State, e: Event)
    requires FromFetches(s) && Enabled(s, e) && !ByFetcher(e)
    ensures FromFetches(Next(s, e))
  {
  }

  lemma StepKeepsInv(s: State, e: Event)
    requires Inv(s) && Enabled(s, e)
    ensures Inv(Next(s, e))
  {
    hide EntriesHaveFetchers, FetchersOwn, GroupsCompleteOnce, FromFetches, Next;
    if ByFetcher(e) {
      FetcherStepKeepsEntries(s, e);
      FetcherStepKeepsOwners(s, e);
      FetcherStepKeepsProvenance(s, e);
      if e.Done? { DoneKeepsGroups(s, e); } else { FetcherStepKeepsGroups(s, e); }
    } else {
      OtherStepKeepsEntries(s, e);
      OtherStepKeepsOwners(s, e);
      OtherStepKeepsGroups(s, e);
      OtherStepKeepsProvenance(s, e);
    }
  }

  /** The invariants hold after every run, over every interleaving. */
  lemma {:induction false} RunKeepsInv(s: State, events: seq<Event>)
    requires Inv(s) && Possible(s, events)
    ensures Inv(Run(s, events))
    decreases |events|
  {
    hide Inv, Next;
    if events != [] {
      StepKeepsInv(s, events[0]);
      RunKeepsInv(Next(s, events[0]), events[1..]);
    }
  }

  lemma EmptyIsFine()
    ensures Inv(EMPTY)
  {
  }

  // ---- what the protocol promises ----

  /** A server is in flight exactly while one call is its fetcher, and there is no second one. */
  lemma InFlightExactlyWhileFetching(events: seq<Event>, server: string)
    requires Possible(EMPTY, events)
    ensures var s := Run(EMPTY, events);
      && (server in s.inflight <==> exists id :: id in s.calls && s.calls[id].server == server && IsFetcher(s.calls[id].phase))
      && (forall i, j :: (i in s.calls && s.calls[i].server == server && IsFetcher(s.calls[i].phase)
            && j in s.calls && s.calls[j].server == server && IsFetcher(s.calls[j].phase)) ==> i == j)
  {
    EmptyIsFine();
    RunKeepsInv(EMPTY, events);
    hide Run, Possible, FromFetches, IsFetcher;
    var s := Run(EMPTY, events);
    if server in s.inflight { var id := EntryHasFetcher(s, server); }
    forall i, j | i in s.calls && s.calls[i].server == server && IsFetcher(s.calls[i].phase)
        && j in s.calls && s.calls[j].server == server && IsFetcher(s.calls[j].phase)
      ensures i == j
    {
      assert s.owner[s.calls[i].phase.group] == i && s.owner[s.calls[j].phase.group] == j;
    }
  }

  /** Every group is completed at most once, and a group that waiters wait for is completed or its owner can go on. */
  lemma NoWaiterIsForgotten(events: seq<Event>, id: nat)
    requires Possible(EMPTY, events) && id in Run(EMPTY, events).calls && Run(EMPTY, events).calls[id].phase.Waiting?
    ensures var s := Run(EMPTY, events);
      var g := s.calls[id].phase.group;
      && g in s.completed && s.completed[g] <= 1 && g in s.owner
      && (Enabled(s, Wake(id)) || CanGoOn(s, s.owner[g]))
  {
    EmptyIsFine();
    RunKeepsInv(EMPTY, events);
    hide Run, Possible, FromFetches, EntriesHaveFetchers;
    var s := Run(EMPTY, events);
    var g := s.calls[id].phase.group;
    assert g in s.owner;
    if s.completed[g] == 0 { AdvancesAlone(s, s.owner[g]); }
  }

  /** A step of this call is possible now, whatever the others do. */
  predicate CanGoOn(s: State, id: nat) {
    || Enabled(s, Fetch(id, None)) || Enabled(s, Store(id)) || Enabled(s, UseStale(id))
    || Enabled(s, Leave(id)) || Enabled(s, Done(id))
  }

  lemma AdvancesAlone(s: State, id: nat)
    requires Inv(s) && id in s.calls && (IsFetcher(s.calls[id].phase) || s.calls[id].phase.Left?)
    ensures CanGoOn(s, id)
  {
    hide FromFetches, EntriesHaveFetchers, GroupsCompleteOnce;
  }

  lemma GroupIsOpen(s: State, id: nat)
    requires Inv(s) && id in s.calls && IsFetcher(s.calls[id].phase)
    ensures s.calls[id].phase.group in s.completed && s.completed[s.calls[id].phase.group] == 0
  {
  }

  lemma EntryHasFetcher(s: State, server: string) returns (id: nat)
    requires Inv(s) && server in s.inflight
    ensures id in s.calls && s.calls[id].server == server && IsFetcher(s.calls[id].phase)
  {
    id := s.owner[s.inflight[server]];
  }

  /** When all calls have finished nothing is in flight and every group has been completed exactly once. */
  lemma QuiescentAfterAll(events: seq<Event>)
    requires Possible(EMPTY, events)
    requires forall id <- Run(EMPTY, events).calls :: Run(EMPTY, events).calls[id].phase.Finished?
    ensures Run(EMPTY, events).inflight == map[]
    ensures forall g <- Run(EMPTY, events).completed :: Run(EMPTY, events).completed[g] == 1
  {
    EmptyIsFine();
    RunKeepsInv(EMPTY, events);
    hide Run, Possible, FromFetches, FetchersOwn;
    var s := Run(EMPTY, events);
    forall server ensures server !in s.inflight {
      if server in s.inflight { var id := EntryHasFetcher(s, server); }
    }
  }

  /** Every answer and every cached entry was returned by a successful fetch or refresh for that server. */
  lemma AnswersWereFetched(events: seq<Event>, server: string, v: Version)
    requires Possible(EMPTY, events)
    requires var s := Run(EMPTY, events);
      || (server in s.cache && s.cache[server] == v)
      || exists id :: id in s.calls && s.calls[id] == Call(server, Finished(Some(v)))
    ensures Returned(EMPTY, events, server, v)
  {
    EmptyIsFine();
    RunKeepsInv(EMPTY, events);
    FetchesAreReturned(EMPTY, events, server, v);
  }

  /** Some event of the run is a fetch or refresh for a server that returned this version. */
  predicate Returned(s: State, events: seq<Event>, server: string, v: Version)
    requires Possible(s, events)
    decreases |events|
  {
    && events != []
    && (Returns(s, events[0], server, v) || Returned(Next(s, events[0]), events[1..], server, v))
  }

  predicate Returns(s: State, e: Event, server: string, v: Version)
    requires Enabled(s, e)
  {
    match e
    case Fetch(id, result) => result == Some(v) && s.calls[id].server == server
    case Refresh(name, result) => result == Some(v) && name == server
    case _ => false
  }

  lemma {:induction false} FetchesAreReturned(s: State, events: seq<Event>, server: string, v: Version)
    requires Possible(s, events)
    ensures (server, v) in Run(s, events).fetches ==> (server, v) in s.fetches || Returned(s, events, server, v)
    decreases |events|
  {
    if events != [] { FetchesAreReturned(Next(s, events[0]), events[1..], server, v); }
  }

  predicate Fails(e: Event) {
    match e
    case Fetch(_, result) => result.None?
    case Refresh(_, result) => result.None?
    case Forget(_) => false
    case _ => true
  }

  /** However many fetches fail, the cached tools stay: only a success or forgetting a server changes the cache. */
  lemma {:induction false} FailuresKeepTheCache(s: State, events: seq<Event>)
    requires Possible(s, events) && forall i :: 0 <= i < |events| ==> Fails(events[i])
    requires forall id <- s.calls :: !s.calls[id].phase.Fetched?
    ensures Run(s, events).cache == s.cache
    decreases |events|
  {
    if events != [] {
      FailureKeepsTheCache(s, events[0]);
      hide Next, Fails;
      FailuresKeepTheCache(Next(s, events[0]), events[1..]);
    }
  }

  lemma FailureKeepsTheCache(s: State, e: Event)
    requires Enabled(s, e) && Fails(e) && forall id <- s.calls :: !s.calls[id].phase.Fetched?
    ensures Next(s, e).cache == s.cache && forall id <- Next(s, e).calls :: !Next(s, e).calls[id].phase.Fetched?
  {
  }
}

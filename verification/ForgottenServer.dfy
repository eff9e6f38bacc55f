/**
  What a server's tools are after it was forgotten (internal/mcp/aggregator.go): a call that began
  with the old settings may still store what it fetched with them.
*/
module ForgottenServer {
  import opened FetchProtocol
  import opened Results

  /** The event writes or removes the cached tools of the server. */
  predicate Writes(s: State, e: Event, server: string)
    requires Enabled(s, e)
  {
    match e
    case Store(id) => s.calls[id].server == server
    case Refresh(name, result) => name == server && result.Some?
    case Forget(name) => name == server
    case _ => false
  }

  function LastWrite(s: State, events: seq<Event>, server: string): Option<Event>
    requires Possible(s, events)
    decreases |events|
  {
    if events == [] then None
    else
      var later := LastWrite(Next(s, events[0]), events[1..], server);
      if later.Some? then later else if Writes(s, events[0], server) then Some(events[0]) else None
  }

  // ---- old and new settings ----

  /** Versions below first come from the old settings; this event fetches such a version exactly for a call that has them. */
  predicate Dated(s: State, e: Event, server: string, holders: set<nat>, first: Version)
    requires Enabled(s, e)
  {
    match e
    case Fetch(id, result) => s.calls[id].server == server && result.Some? ==> (result.value < first <==> id in holders)
    case Refresh(name, result) => name == server && result.Some? ==> result.value >= first
    case _ => true
  }

  predicate AllDated(s: State, events: seq<Event>, server: string, holders: set<nat>, first: Version)
    requires Possible(s, events)
    decreases |events|
  {
    events == [] || (Dated(s, events[0], server, holders, first) && AllDated(Next(s, events[0]), events[1..], server, holders, first))
  }

  /** What calls have fetched and not yet stored is old exactly for those with the old settings. */
  ghost predicate FetchedByAge(s: State, server: string, holders: set<nat>, first: Version) {
    forall id <- s.calls :: s.calls[id].server == server && s.calls[id].phase.Fetched? ==>
      (s.calls[id].phase.version < first <==> id in holders)
  }

  predicate HasOld(s: State, server: string, first: Version) { server in s.cache && s.cache[server] < first }

  predicate StoredByOld(e: Event, holders: set<nat>) { e.Store? && e.id in holders }

  lemma StepByAge(s: State, e: Event, server: string, holders: set<nat>, first: Version)
    requires Enabled(s, e) && FetchedByAge(s, server, holders, first) && Dated(s, e, server, holders, first)
    ensures FetchedByAge(Next(s, e), server, holders, first)
    ensures HasOld(Next(s, e), server, first) <==>
      if Writes(s, e, server) then StoredByOld(e, holders) else HasOld(s, server, first)
  {
  }

  lemma {:induction false} OldByLastWrite(s: State, events: seq<Event>, server: string, holders: set<nat>, first: Version)
    requires Possible(s, events) && FetchedByAge(s, server, holders, first) && AllDated(s, events, server, holders, first)
    ensures var last := LastWrite(s, events, server);
      HasOld(Run(s, events), server, first) <==>
        if last.Some? then StoredByOld(last.value, holders) else HasOld(s, server, first)
    decreases |events|
  {
    hide FetchedByAge, Dated, HasOld, StoredByOld, Writes, Next;
    if events != [] {
      StepByAge(s, events[0], server, holders, first);
      OldByLastWrite(Next(s, events[0]), events[1..], server, holders, first);
    }
  }

  /**
    After a server was forgotten, tools of its old settings are cached exactly if the last write of
    its entry since then was by a call that had fetched them with the old settings.
  */
  lemma OldAfterForgetExactlyIf(s: State, events: seq<Event>, server: string, holders: set<nat>, first: Version)
    requires Possible(Next(s, Forget(server)), events) && FetchedByAge(s, server, holders, first)
    requires AllDated(Next(s, Forget(server)), events, server, holders, first)
    ensures var after := Next(s, Forget(server));
      var last := LastWrite(after, events, server);
      HasOld(Run(after, events), server, first) <==> last.Some? && StoredByOld(last.value, holders)
  {
    OldByLastWrite(Next(s, Forget(server)), events, server, holders, first);
  }

  // ---- what later calls are answered ----

  /** The answer or version that a call carries. */
  function Carried(p: Phase): Option<Version> {
    match p
    case Fetched(_, version) => Some(version)
    case Leaving(_, answer) => answer
    case Left(_, answer) => answer
    case Finished(answer) => answer
    case _ => None
  }

  /** No old version is cached or carried by a call without the old settings. */
  ghost predicate OnlyNew(s: State, server: string, holders: set<nat>, first: Version) {
    && !HasOld(s, server, first)
    && forall id <- s.calls :: id !in holders && s.calls[id].server == server && Carried(s.calls[id].phase).Some? ==>
         Carried(s.calls[id].phase).value >= first
  }

  predicate NoOldStore(s: State, events: seq<Event>, server: string, holders: set<nat>)
    requires Possible(s, events)
    decreases |events|
  {
    events == []
    || (!(Writes(s, events[0], server) && StoredByOld(events[0], holders)) && NoOldStore(Next(s, events[0]), events[1..], server, holders))
  }

  lemma StepKeepsOnlyNew(s: State, e: Event, server: string, holders: set<nat>, first: Version)
    requires Enabled(s, e) && OnlyNew(s, server, holders, first) && Dated(s, e, server, holders, first)
    requires !(Writes(s, e, server) && StoredByOld(e, holders))
    ensures OnlyNew(Next(s, e), server, holders, first)
  {
  }

  /** Unless such a call stores after that, no later call is answered with tools of the old settings. */
  lemma {:induction false} LaterAnswersAreNew(s: State, events: seq<Event>, server: string, holders: set<nat>, first: Version)
    requires OnlyNew(s, server, holders, first) && Possible(s, events)
    requires AllDated(s, events, server, holders, first) && NoOldStore(s, events, server, holders)
    ensures OnlyNew(Run(s, events), server, holders, first)
    decreases |events|
  {
    hide OnlyNew, Dated, Writes, StoredByOld, Next;
    if events != [] {
      StepKeepsOnlyNew(s, events[0], server, holders, first);
      LaterAnswersAreNew(Next(s, events[0]), events[1..], server, holders, first);
    }
  }

  /** Right after forgetting a server with every earlier call counted as old, nothing old is left for later calls. */
  lemma ForgetLeavesOnlyNew(s: State, server: string, first: Version)
    ensures OnlyNew(Next(s, Forget(server)), server, s.calls.Keys, first)
  {
  }

  /** Call 0 is fetching the tools of the server, and nothing is cached. */
  function Fetching0(server: string): State {
    State(map[], map[server := 0], map[0 := 0], map[0 := Call(server, Fetching(0))], map[0 := 0], {})
  }

  lemma GetsFetching(server: string)
    ensures Possible(EMPTY, [Begin(0, server), Look(0, false), Join(0, 0)])
    ensures Run(EMPTY, [Begin(0, server), Look(0, false), Join(0, 0)]) == Fetching0(server)
  {
    var s1 := Next(EMPTY, Begin(0, server));
    var s2 := Next(s1, Look(0, false));
    var s3 := Next(s2, Join(0, 0));
    assert s3 == Fetching0(server);
    hide Next, Run, Possible, Enabled;
    Empty(s3);
    Unroll(s2, Join(0, 0), [], s3);
    Unroll(s1, Look(0, false), [Join(0, 0)], s3);
    Unroll(EMPTY, Begin(0, server), [Look(0, false), Join(0, 0)], s3);
  }

  lemma Empty(s: State)
    ensures Possible(s, []) && Run(s, []) == s
  {
  }

  /** Tools fetched while the server is forgotten are cached after that, and answer a call that begins later. */
  lemma FetchOutlivesForget(server: string)
    ensures var events := [Forget(server), Fetch(0, Some(1)), Store(0), Begin(1, server), Look(1, true)];
      && Possible(Fetching0(server), events)
      && Run(Fetching0(server), events).calls ==
           map[0 := Call(server, Leaving(0, Some(1))), 1 := Call(server, Finished(Some(1)))]
  {
    var s1 := Next(Fetching0(server), Forget(server));
    var s2 := Next(s1, Fetch(0, Some(1)));
    var s3 := Next(s2, Store(0));
    var s4 := Next(s3, Begin(1, server));
    var s5 := Next(s4, Look(1, true));
    assert s5.calls == map[0 := Call(server, Leaving(0, Some(1))), 1 := Call(server, Finished(Some(1)))];
    hide Next, Run, Possible, Enabled, Fetching0;
    Empty(s5);
    Unroll(s4, Look(1, true), [], s5);
    Unroll(s3, Begin(1, server), [Look(1, true)], s5);
    Unroll(s2, Store(0), [Begin(1, server), Look(1, true)], s5);
    Unroll(s1, Fetch(0, Some(1)), [Store(0), Begin(1, server), Look(1, true)], s5);
    Unroll(Fetching0(server), Forget(server), [Fetch(0, Some(1)), Store(0), Begin(1, server), Look(1, true)], s5);
  }

  lemma Unroll(s: State, e: Event, rest: seq<Event>, t: State)
    requires Enabled(s, e) && Possible(Next(s, e), rest) && Run(Next(s, e), rest) == t
    ensures Possible(s, [e] + rest) && Run(s, [e] + rest) == t
  {
    assert ([e] + rest)[1..] == rest;
  }
}

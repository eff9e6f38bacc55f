/** The tool cache of the aggregator and its single-flight fetches (internal/mcp/aggregator.go). */
module ToolCache {
  import opened FetchProtocol
  import opened Results

  /**
    Each method is one critical section, or one step outside the lock, of a call to getServerTools.
    completed counts how often each wait group was completed; the ghost fields say where each call stands.
  */
  class Cache {
    var toolCache: map<string, Version>
    var inflight: map<string, Group>
    var completed: map<Group, nat>
    ghost var calls: map<nat, Call>
    ghost var owner: map<Group, nat>
    ghost var fetches: set<(string, Version)>

    ghost function Value(): State
      reads this
    {
      State(toolCache, inflight, completed, calls, owner, fetches)
    }

    constructor ()
      ensures Value() == EMPTY
    {
      toolCache, inflight, completed, calls, owner, fetches := map[], map[], map[], map[], map[], {};
    }

    ghost method Begin(id: nat, server: string)
      requires Enabled(Value(), FetchProtocol.Begin(id, server))
      modifies this
      ensures Value() == Next(old(Value()), FetchProtocol.Begin(id, server))
    {
      calls := calls[id := Call(server, Started)];
    }

    /** The first look at the cache: an entry that is recent enough is the answer. */
    method LookFresh(ghost id: nat, server: string, recent: bool) returns (answer: Option<Version>)
      requires id in calls && calls[id] == Call(server, Started)
      modifies this
      ensures var hit := server in old(toolCache) && recent;
        && answer == (if hit then Some(old(toolCache)[server]) else None)
        && Value() == Next(old(Value()), Look(id, hit))
    {
      if server in toolCache && recent {
        answer := Some(toolCache[server]);
        calls := calls[id := Call(server, Finished(answer))];
      } else {
        answer := None;
        calls := calls[id := Call(server, Missed)];
      }
    }

    /** Finds the group of the fetch under way, or becomes the fetcher with a new group. */
    method JoinFlight(ghost id: nat, server: string, newGroup: Group) returns (group: Group, waits: bool)
      requires id in calls && calls[id] == Call(server, Missed) && newGroup !in owner && newGroup !in completed
      modifies this
      ensures Value() == Next(old(Value()), Join(id, newGroup))
      ensures waits == (server in old(inflight)) && group == if waits then old(inflight)[server] else newGroup
      ensures calls[id].phase == if waits then Waiting(group) else Fetching(group)
    {
      waits := server in inflight;
      if waits {
        group := inflight[server];
        calls := calls[id := Call(server, Waiting(group))];
      } else {
        group := newGroup;
        inflight := inflight[server := group];
        completed := completed[group := 0];
        calls, owner := calls[id := Call(server, Fetching(group))], owner[group := id];
      }
    }

    /** A waiter reads the cache once its group is completed. */
    method ReadAfterWait(ghost id: nat, server: string, group: Group) returns (answer: Option<Version>)
      requires id in calls && calls[id] == Call(server, Waiting(group)) && Enabled(Value(), Wake(id))
      modifies this
      ensures Value() == Next(old(Value()), Wake(id)) && answer == Cached(old(Value()), server)
    {
      answer := if server in toolCache then Some(toolCache[server]) else None;
      calls := calls[id := Call(server, Finished(answer))];
    }

    /** What the upstream returned, without the lock. */
    ghost method RecordFetch(id: nat, result: Option<Version>)
      requires Enabled(Value(), Fetch(id, result))
      modifies this
      ensures Value() == Next(old(Value()), Fetch(id, result))
    {
      var g, server := calls[id].phase.group, calls[id].server;
      if result.Some? { fetches := fetches + {(server, result.value)}; }
      calls := calls[id := Call(server, if result.Some? then Fetched(g, result.value) else Failed(g))];
    }

    /** The section after a fetch: store what it returned, or fall back to a stale entry. */
    method Settle(ghost id: nat, server: string, ghost group: Group, result: Option<Version>) returns (answer: Option<Version>)
      requires id in calls && calls[id] == Call(server, if result.Some? then Fetched(group, result.value) else Failed(group))
      modifies this
      ensures Value() == Next(old(Value()), if result.Some? then Store(id) else UseStale(id))
      ensures answer == if result.Some? then result else Cached(old(Value()), server)
    {
      if result.None? {
        answer := if server in toolCache then Some(toolCache[server]) else None;
      } else {
        toolCache := toolCache[server := result.value];
        answer := result;
      }
      calls := calls[id := Call(server, Leaving(group, answer))];
    }

    /** The deferred end of a fetcher: the entry goes away under the lock. */
    method LeaveFlight(ghost id: nat, server: string)
      requires Enabled(Value(), Leave(id)) && calls[id].server == server
      modifies this
      ensures Value() == Next(old(Value()), Leave(id))
    {
      inflight := inflight - {server};
      calls := calls[id := Call(server, Left(calls[id].phase.group, calls[id].phase.answer))];
    }

    /** After that its group is completed. */
    method CompleteGroup(ghost id: nat, group: Group)
      requires Enabled(Value(), Done(id)) && calls[id].phase.group == group
      modifies this
      ensures Value() == Next(old(Value()), Done(id))
    {
      completed := completed[group := completed[group] + 1];
      calls := calls[id := calls[id].(phase := Finished(calls[id].phase.answer))];
    }

    /** The fetcher's way from its fetch to its end, with nobody in between. */
    method FetchAlone(ghost id: nat, server: string, group: Group, result: Option<Version>) returns (answer: Option<Version>)
      requires Inv(Value()) && id in calls && calls[id] == Call(server, Fetching(group))
      modifies this
      ensures Inv(Value()) && server !in inflight && group in completed && completed[group] == 1
      ensures answer == if result.Some? then result else Cached(old(Value()), server)
      ensures toolCache == if result.Some? then old(toolCache)[server := result.value] else old(toolCache)
      ensures calls == old(calls)[id := Call(server, Finished(answer))]
    {
      hide Inv;
      GroupIsOpen(Value(), id);
      StepKeepsInv(Value(), Fetch(id, result));
      RecordFetch(id, result);
      StepKeepsInv(Value(), if result.Some? then Store(id) else UseStale(id));
      answer := Settle(id, server, group, result);
      StepKeepsInv(Value(), Leave(id));
      LeaveFlight(id, server);
      StepKeepsInv(Value(), Done(id));
      CompleteGroup(id, group);
    }

    /** A fetch outside the single flight, on behalf of an administrator; a failure changes nothing. */
    method RefreshServer(server: string, result: Option<Version>) returns (ok: bool)
      modifies this
      ensures Value() == Next(old(Value()), Refresh(server, result)) && ok == result.Some?
      ensures toolCache == if result.Some? then old(toolCache)[server := result.value] else old(toolCache)
    {
      ok := result.Some?;
      if ok {
        toolCache := toolCache[server := result.value];
        fetches := fetches + {(server, result.value)};
      }
    }

    method ForgetServer(server: string)
      modifies this
      ensures Value() == Next(old(Value()), Forget(server))
      ensures toolCache == old(toolCache) - {server}
    {
      toolCache := toolCache - {server};
    }
  }
}

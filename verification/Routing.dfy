/** Building the routes of a namespace and finding the target of a call (internal/mcp/aggregator.go). */
module Routing {
  import opened Results
  import opened RoutingModel
  import opened ToolNames

  // ---- building routes ----

  /** What asking a server for its tools came to: the raw names, or an error. */
  type Fetched = map<string, Option<seq<string>>>

  predicate Offers(s: Server, fetched: Fetched, name: string) {
    && s.uuid in fetched && fetched[s.uuid].Some?
    && exists i :: 0 <= i < |fetched[s.uuid].value| && ToolName(s.name, fetched[s.uuid].value[i]) == name
  }

  predicate Errored(s: Server, fetched: Fetched) { s.uuid !in fetched || fetched[s.uuid].None? }

  /** Server i is the first to offer a name. */
  ghost predicate FirstOffers(servers: seq<Server>, i: int, fetched: Fetched, name: string) {
    && 0 <= i < |servers| && Offers(servers[i], fetched, name)
    && forall j :: 0 <= j < i ==> !Offers(servers[j], fetched, name)
  }

  /** Each offered name leads to the first server, in the order of arrival, that offers it. */
  ghost predicate FirstServerWins(routes: Routes, servers: seq<Server>, fetched: Fetched) {
    && (forall n <- routes :: exists i :: FirstOffers(servers, i, fetched, n) && servers[i].uuid == routes[n])
    && (forall i, n :: 0 <= i < |servers| && Offers(servers[i], fetched, n) ==> n in routes)
  }

  lemma BuiltRoutesAreSound(routes: Routes, servers: seq<Server>, fetched: Fetched)
    requires FirstServerWins(routes, servers, fetched)
    ensures SoundRoutes(routes, servers)
  {
    forall n | n in routes
      ensures exists i :: 0 <= i < |servers| && servers[i].uuid == routes[n] && Prefix(servers[i].name) <= n
    {
      var i :| FirstOffers(servers, i, fetched, n) && servers[i].uuid == routes[n];
      assert Prefix(servers[i].name) <= n;
    }
  }

  lemma OneMoreServer(before: Routes, after: Routes, servers: seq<Server>, i: nat, fetched: Fetched)
    requires i < |servers| && FirstServerWins(before, servers[..i], fetched)
    requires forall n <- before :: n in after && after[n] == before[n]
    requires forall n <- after :: n in before || (after[n] == servers[i].uuid && Offers(servers[i], fetched, n))
    requires forall n :: Offers(servers[i], fetched, n) ==> n in after
    ensures FirstServerWins(after, servers[..i + 1], fetched)
  {
    hide Offers;
    var more := servers[..i + 1];
    assert forall j :: 0 <= j < i ==> more[j] == servers[..i][j];
    forall n | n in after ensures exists j :: FirstOffers(more, j, fetched, n) && more[j].uuid == after[n] {
      if n in before {
        var j :| FirstOffers(servers[..i], j, fetched, n) && servers[..i][j].uuid == before[n];
        assert FirstOffers(more, j, fetched, n);
      } else {
        assert FirstOffers(more, i, fetched, n);
      }
    }
  }

  /** Adds the names of one server that no earlier server has. */
  method AddRoutes(routes: Routes, s: Server, tools: seq<string>) returns (r: Routes)
    ensures forall n <- routes :: n in r && r[n] == routes[n]
    ensures forall n <- r :: n in routes || (r[n] == s.uuid && exists i :: 0 <= i < |tools| && ToolName(s.name, tools[i]) == n)
    ensures forall i :: 0 <= i < |tools| ==> ToolName(s.name, tools[i]) in r
  {
    hide ToolName;
    r := routes;
    for i := 0 to |tools|
      invariant forall n <- routes :: n in r && r[n] == routes[n]
      invariant forall n <- r :: n in routes || (r[n] == s.uuid && exists k :: 0 <= k < i && ToolName(s.name, tools[k]) == n)
      invariant forall k :: 0 <= k < i ==> ToolName(s.name, tools[k]) in r
    {
      var name := ToolName(s.name, tools[i]);
      if name in r { continue; }
      r := r[name := s.uuid];
    }
  }

  /** Servers come in the order in which they answer. It fails only if nothing was found and a server failed. */
  method BuildRouteMap(servers: seq<Server>, fetched: Fetched) returns (r: Option<Routes>, cacheable: bool)
    ensures cacheable <==> forall i :: 0 <= i < |servers| ==> !Errored(servers[i], fetched)
    ensures r.Some? ==> FirstServerWins(r.value, servers, fetched)
    ensures r.None? <==> !cacheable && forall i, n :: 0 <= i < |servers| ==> !Offers(servers[i], fetched, n)
  {
    hide ToolName;
    var routes: Routes := map[];
    cacheable := true;
    for i := 0 to |servers|
      invariant cacheable <==> forall j :: 0 <= j < i ==> !Errored(servers[j], fetched)
      invariant FirstServerWins(routes, servers[..i], fetched)
    {
      var s := servers[i];
      ghost var before := routes;
      if Errored(s, fetched) {
        cacheable := false;
      } else {
        routes := AddRoutes(routes, s, fetched[s.uuid].value);
      }
      OneMoreServer(before, routes, servers, i, fetched);
    }
    assert servers[..|servers|] == servers;
    NoRoutesNoOffers(routes, servers, fetched);
    r := if routes == map[] && !cacheable then None else Some(routes);
  }

  lemma NoRoutesNoOffers(routes: Routes, servers: seq<Server>, fetched: Fetched)
    requires FirstServerWins(routes, servers, fetched)
    ensures routes == map[] <==> forall i, n :: 0 <= i < |servers| ==> !Offers(servers[i], fetched, n)
  {
    hide Offers;
    if n :| n in routes {
      var i :| FirstOffers(servers, i, fetched, n) && servers[i].uuid == routes[n];
    } else {
      forall i, n | 0 <= i < |servers| ensures !Offers(servers[i], fetched, n) {
        assert Offers(servers[i], fetched, n) ==> n in routes;
      }
      assert routes == map[];
    }
  }

  // ---- finding the target of a call ----

  /** What a name that a client sees under a server prefix stands for. */
  datatype Reverse = Reverse(original: string, server: string, active: bool)

  /** The table of overridden names; a later mapping replaces an earlier one. */
  method ReverseOverrides(mappings: seq<Mapping>, servers: seq<Server>) returns (table: map<(string, string), Reverse>)
    ensures forall server, name :: (server, name) in table <==> LastShowing(mappings, servers, server, name).Some?
    ensures forall k <- table :: var m := LastShowing(mappings, servers, k.0, k.1).value;
      table[k] == Reverse(m.tool, m.server, m.active)
  {
    hide ServerNameFor, SanitizeName;
    table := map[];
    for i := 0 to |mappings|
      invariant forall server, name :: (server, name) in table <==> LastShowing(mappings[..i], servers, server, name).Some?
      invariant forall k <- table :: var m := LastShowing(mappings[..i], servers, k.0, k.1).value;
        table[k] == Reverse(m.tool, m.server, m.active)
    {
      var m := mappings[i];
      assert mappings[..i + 1][..i] == mappings[..i] && mappings[..i + 1][i] == m;
      if m.overrideName.None? { continue; }
      var key := (SanitizeName(ServerNameFor(m.server, servers)), m.overrideName.value);
      table := table[key := Reverse(m.tool, m.server, m.active)];
    }
    assert mappings[..|mappings|] == mappings;
  }

  method IsDisabled(mappings: seq<Mapping>, server: string, tool: string) returns (disabled: bool)
    ensures disabled == ToolDisabled(mappings, server, tool)
  {
    for i := 0 to |mappings|
      invariant forall j :: 0 <= j < i ==> mappings[j].server != server || mappings[j].tool != tool || mappings[j].active
    {
      if mappings[i].server == server && mappings[i].tool == tool && !mappings[i].active { return true; }
    }
    return false;
  }

  method FindNamed(servers: seq<Server>, sanitized: string) returns (found: Option<Server>)
    ensures found == FirstNamed(servers, sanitized)
  {
    for i := 0 to |servers|
      invariant FirstNamed(servers, sanitized) == FirstNamed(servers[i..], sanitized)
    {
      if Sanitized(servers[i]) == sanitized { return Some(servers[i]); }
    }
    return None;
  }

  method FindUUID(servers: seq<Server>, uuid: string) returns (found: Option<Server>)
    ensures found == FirstWithUUID(servers, uuid)
  {
    for i := 0 to |servers|
      invariant FirstWithUUID(servers, uuid) == FirstWithUUID(servers[i..], uuid)
    {
      if servers[i].uuid == uuid { return Some(servers[i]); }
    }
    return None;
  }

  /** Where a call goes, up to the dispatch; the routes are missing when they could not be built. */
  method CallTarget(toolName: string, servers: seq<Server>, mappings: seq<Mapping>, built: Option<Routes>)
    returns (target: Target)
    ensures target == Resolve(toolName, servers, mappings, built.UnwrapOr(map[]))
  {
    var (serverName, originalName) := ParseToolName(toolName);
    if serverName == "" { return MissingPrefix; }
    var reverse := ReverseOverrides(mappings, servers);
    var server: Option<string>, dispatchName := None, originalName;
    if (serverName, originalName) in reverse {
      var rv := reverse[(serverName, originalName)];
      if !rv.active { return InactiveTool; }
      server, dispatchName := Some(rv.server), rv.original;
    }
    if server.None? && built.Some? && toolName in built.value {
      server := Some(built.value[toolName]);
    }
    if server.None? {
      var named := FindNamed(servers, serverName);
      if named.Some? { server := Some(named.value.uuid); }
    }
    if server.None? { return NoServer; }
    var s := FindUUID(servers, server.value);
    UUIDFound(servers, server.value);
    if s.None? { return NoServer; }
    if !s.value.hasURL { return NoURL; }
    if s.value.tenantManaged {
      var disabled := IsDisabled(mappings, s.value.uuid, dispatchName);
      if disabled { return DisabledTool; }
    }
    return Dispatch(server.value, dispatchName);
  }

  lemma {:induction false} UUIDFound(servers: seq<Server>, uuid: string)
    ensures FirstWithUUID(servers, uuid).Some? ==> FirstWithUUID(servers, uuid).value.uuid == uuid
  {
    if servers != [] { UUIDFound(servers[1..], uuid); }
  }

  // ---- list and call by the routes that are built ----

  /** The first server to offer a name, among those that answered, is this one. */
  ghost predicate LeadsHere(arrived: seq<Server>, fetched: Fetched, s: Server, name: string) {
    forall i :: FirstOffers(arrived, i, fetched, name) ==> arrived[i] == s
  }

  lemma BuiltRouteOf(servers: seq<Server>, arrived: seq<Server>, fetched: Fetched, routes: Routes, s: Server, tool: string)
    requires DistinctServers(servers) && s in servers && (forall o <- arrived :: o in servers)
    requires FirstServerWins(routes, arrived, fetched) && Parses(Sanitized(s))
    ensures RouteOf(ToolName(s.name, tool), servers, routes) == Some(s.uuid)
       <==> LeadsHere(arrived, fetched, s, ToolName(s.name, tool))
  {
    hide Offers, FirstNamed, Parses, SanitizeName, ToolName;
    var name := ToolName(s.name, tool);
    ParseUndoesName(s.name, tool);
    FindsServer(servers, s);
    if name in routes {
      var i :| FirstOffers(arrived, i, fetched, name) && arrived[i].uuid == routes[name];
      forall j | FirstOffers(arrived, j, fetched, name) ensures j == i {}
      FindsServer(servers, arrived[i]);
    }
  }

  /** By the routes that are built: exactly if the name prevails and, unless an override, no other server offered it first. */
  lemma BuiltRoutesResolveExactlyIf(servers: seq<Server>, arrived: seq<Server>, fetched: Fetched, routes: Routes,
                                    s: Server, tool: string, mappings: seq<Mapping>)
    requires DistinctServers(servers) && OneMappingEach(mappings) && s in servers && s.hasURL && Parses(Sanitized(s))
    requires FirstServerWins(routes, arrived, fetched) && (forall o <- arrived :: o in servers)
    requires VisibleName(mappings, s.uuid, tool).Some?
    ensures var name := VisibleName(mappings, s.uuid, tool).value;
      Resolve(ToolName(s.name, name), servers, mappings, routes) == Dispatch(s.uuid, tool)
      <==> Prevails(mappings, s.uuid, tool, name)
           && (IsShown(mappings, s.uuid, name) || LeadsHere(arrived, fetched, s, ToolName(s.name, name)))
  {
    hide Resolve, RouteOf, Prevails, IsShown, FirstServerWins, LeadsHere, OneMappingEach, VisibleName, ToolName;
    BuiltRouteOf(servers, arrived, fetched, routes, s, VisibleName(mappings, s.uuid, tool).value);
    ResolvesExactlyIf(servers, s, tool, mappings, routes);
  }

  const UNDERSCORE := Server("2", "a_", false, true)
  const PLAIN := Server("1", "a", false, true)

  lemma UnderscoreNames()
    ensures ToolName("a_", "x") == "a___x" == ToolName("a", "_x") && Sanitized(UNDERSCORE) == "a_" && Sanitized(PLAIN) == "a"
    ensures Parses("a") && ParseToolName("a___x") == ("a", "_x")
  {
    ParseUndoesName("a", "_x");
  }

  /** For instance a server named a_ with a tool x, before a server named a with a tool _x: both are listed as a___x. */
  lemma UnderscoreTakesCall(fetched: Fetched)
    requires fetched == map["2" := Some(["x"]), "1" := Some(["_x"])]
    ensures DistinctServers([UNDERSCORE, PLAIN]) && Offers(PLAIN, fetched, "a___x")
    ensures FirstServerWins(map["a___x" := "2"], [UNDERSCORE, PLAIN], fetched)
    ensures Resolve("a___x", [UNDERSCORE, PLAIN], [], map["a___x" := "2"]) == Dispatch("2", "_x")
  {
    UnderscoreNames();
    hide ToolName, SanitizeName, ParseToolName, Parses;
    assert fetched["2"].value[0] == "x" && fetched["1"].value[0] == "_x";
    assert FirstOffers([UNDERSCORE, PLAIN], 0, fetched, "a___x");
  }
}

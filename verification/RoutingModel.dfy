/**
  Under which name a namespace lists a tool, and where a call to a name goes: the two must undo
  each other.
*/
module RoutingModel {
  import opened Results
  import opened ToolNames

  datatype Server = Server(uuid: string, name: string, tenantManaged: bool, hasURL: bool)

  /** A namespace's setting for one tool of one server. */
  datatype Mapping = Mapping(server: string, tool: string, active: bool, overrideName: Option<string>)

  type Routes = map<string, string>

  datatype Target =
    | MissingPrefix
    | InactiveTool
    | DisabledTool
    | NoServer
    | NoURL
    | Dispatch(server: string, tool: string)

  function Sanitized(s: Server): string { SanitizeName(s.name) }

  // ---- lookups; of several matching mappings the last one counts ----

  function LastFor(mappings: seq<Mapping>, server: string, tool: string): Option<Mapping> {
    if mappings == [] then None
    else
      var m := mappings[|mappings| - 1];
      if m.server == server && m.tool == tool then Some(m) else LastFor(mappings[..|mappings| - 1], server, tool)
  }

  /** The name of a server, or nothing. */
  function ServerNameFor(uuid: string, servers: seq<Server>): string {
    if servers == [] then "" else if servers[0].uuid == uuid then servers[0].name else ServerNameFor(uuid, servers[1..])
  }

  /** The mapping that shows a tool under this name on a server with this sanitized name. */
  function LastShowing(mappings: seq<Mapping>, servers: seq<Server>, server: string, name: string): Option<Mapping> {
    if mappings == [] then None
    else
      var m := mappings[|mappings| - 1];
      if m.overrideName == Some(name) && SanitizeName(ServerNameFor(m.server, servers)) == server then Some(m)
      else LastShowing(mappings[..|mappings| - 1], servers, server, name)
  }

  predicate ToolDisabled(mappings: seq<Mapping>, server: string, tool: string) {
    exists i :: 0 <= i < |mappings| && mappings[i].server == server && mappings[i].tool == tool && !mappings[i].active
  }

  function FirstNamed(servers: seq<Server>, sanitized: string): Option<Server> {
    if servers == [] then None
    else if Sanitized(servers[0]) == sanitized then Some(servers[0]) else FirstNamed(servers[1..], sanitized)
  }

  function FirstWithUUID(servers: seq<Server>, uuid: string): Option<Server> {
    if servers == [] then None
    else if servers[0].uuid == uuid then Some(servers[0]) else FirstWithUUID(servers[1..], uuid)
  }

  // ---- listing and calling ----

  /** The part of the name after the server prefix, unless the tool is hidden. */
  function VisibleName(mappings: seq<Mapping>, server: string, tool: string): Option<string> {
    match LastFor(mappings, server, tool)
    case None => Some(tool)
    case Some(m) => if !m.active then None else Some(m.overrideName.UnwrapOr(tool))
  }

  /** The server and tool that a name without a reverse override stands for, if any server does. */
  function RouteOf(name: string, servers: seq<Server>, routes: Routes): Option<string> {
    if name in routes then Some(routes[name])
    else
      match FirstNamed(servers, ParseToolName(name).0)
      case Some(s) => Some(s.uuid)
      case None => None
  }

  /** What is left to decide once server and tool are known. */
  function Admit(server: string, tool: string, servers: seq<Server>, mappings: seq<Mapping>): Target {
    match FirstWithUUID(servers, server)
    case None => NoServer
    case Some(s) =>
      if !s.hasURL then NoURL
      else if s.tenantManaged && ToolDisabled(mappings, server, tool) then DisabledTool
      else Dispatch(server, tool)
  }

  /** Where a call to a name goes. */
  function Resolve(name: string, servers: seq<Server>, mappings: seq<Mapping>, routes: Routes): Target {
    var (server, tool) := ParseToolName(name);
    if server == "" then MissingPrefix
    else
      match LastShowing(mappings, servers, server, tool)
      case Some(m) => if !m.active then InactiveTool else Admit(m.server, m.tool, servers, mappings)
      case None =>
        match RouteOf(name, servers, routes)
        case None => NoServer
        case Some(uuid) => Admit(uuid, tool, servers, mappings)
  }

  // ---- what the namespace guarantees ----

  predicate DistinctServers(servers: seq<Server>) {
    forall i, j :: 0 <= i < j < |servers| ==>
      servers[i].uuid != servers[j].uuid && Sanitized(servers[i]) != Sanitized(servers[j])
  }

  /** One mapping for each tool of a server. */
  predicate OneMappingEach(mappings: seq<Mapping>) {
    forall i, j :: 0 <= i < j < |mappings| ==>
      mappings[i].server != mappings[j].server || mappings[i].tool != mappings[j].tool
  }

  predicate NamesParse(servers: seq<Server>) { forall s <- servers :: Parses(Sanitized(s)) }

  /** A route leads from a name to a server with the prefix of the name, as building the routes makes it. */
  predicate SoundRoutes(routes: Routes, servers: seq<Server>) {
    forall n <- routes :: exists i :: 0 <= i < |servers| && servers[i].uuid == routes[n] && Prefix(servers[i].name) <= n
  }

  // ---- lookups among distinct servers ----

  lemma {:induction false} FindsServer(servers: seq<Server>, s: Server)
    requires DistinctServers(servers) && s in servers
    ensures FirstWithUUID(servers, s.uuid) == Some(s) && FirstNamed(servers, Sanitized(s)) == Some(s)
    ensures ServerNameFor(s.uuid, servers) == s.name
  {
    if servers[0] != s {
      var i :| 0 <= i < |servers| && servers[i] == s;
      assert servers[1..][i - 1] == s;
      FindsServer(servers[1..], s);
    }
  }

  lemma {:induction false} NamedServerExists(uuid: string, servers: seq<Server>)
    ensures ServerNameFor(uuid, servers) != "" ==>
      exists s :: s in servers && s.uuid == uuid && s.name == ServerNameFor(uuid, servers)
  {
    if servers != [] && servers[0].uuid != uuid {
      NamedServerExists(uuid, servers[1..]);
    }
  }

  /** A sanitized name that is not empty leads back to one server. */
  lemma NameIdentifies(servers: seq<Server>, s: Server, uuid: string)
    requires DistinctServers(servers) && s in servers && Sanitized(s) != ""
    ensures SanitizeName(ServerNameFor(uuid, servers)) == Sanitized(s) <==> uuid == s.uuid
  {
    FindsServer(servers, s);
    NamedServerExists(uuid, servers);
    if SanitizeName(ServerNameFor(uuid, servers)) == Sanitized(s) {
      var t :| t in servers && t.uuid == uuid && t.name == ServerNameFor(uuid, servers);
      var i :| 0 <= i < |servers| && servers[i] == s;
      var j :| 0 <= j < |servers| && servers[j] == t;
      assert i == j;
    }
  }

  predicate Shows(m: Mapping, server: string, name: string) { m.server == server && m.overrideName == Some(name) }

  /** The last mapping that shows a name on a server is the last such mapping in the list. */
  lemma {:induction false} LastShowingIsLast(mappings: seq<Mapping>, servers: seq<Server>, s: Server, name: string)
    returns (i: int)
    requires DistinctServers(servers) && s in servers && Sanitized(s) != ""
    ensures var found := LastShowing(mappings, servers, Sanitized(s), name);
      && i < |mappings| && found == (if i < 0 then None else Some(mappings[i]))
      && (i >= 0 ==> Shows(mappings[i], s.uuid, name))
      && forall j :: 0 <= j < |mappings| && i < j ==> !Shows(mappings[j], s.uuid, name)
  {
    hide SanitizeName, ServerNameFor, DistinctServers;
    if mappings == [] { return -1; }
    var n := |mappings| - 1;
    NameIdentifies(servers, s, mappings[n].server);
    if Shows(mappings[n], s.uuid, name) { return n; }
    i := LastShowingIsLast(mappings[..n], servers, s, name);
  }

  lemma {:induction false} LastForIsTheOne(mappings: seq<Mapping>, server: string, tool: string)
    requires OneMappingEach(mappings)
    ensures match LastFor(mappings, server, tool)
            case None => forall m <- mappings :: m.server != server || m.tool != tool
            case Some(m) => m in mappings && m.server == server && m.tool == tool
                            && forall x <- mappings :: x.server == server && x.tool == tool ==> x == m
  {
    if mappings != [] {
      var n := |mappings| - 1;
      LastForIsTheOne(mappings[..n], server, tool);
      assert mappings == mappings[..n] + [mappings[n]];
      assert forall x <- mappings[..n] :: x.server != mappings[n].server || x.tool != mappings[n].tool;
    }
  }

  /** Two server prefixes of one name are the same, if both parse. */
  lemma PrefixesAgree(server: string, other: string, tool: string)
    requires Parses(SanitizeName(server)) && Parses(SanitizeName(other)) && Prefix(other) <= ToolName(server, tool)
    ensures SanitizeName(server) == SanitizeName(other)
  {
    var name := ToolName(server, tool);
    var rest := name[|Prefix(other)|..];
    assert name == ToolName(other, rest);
    ParseUndoesName(server, tool);
    ParseUndoesName(other, rest);
  }

  /** No other server's prefix begins this name. */
  predicate OwnsName(servers: seq<Server>, s: Server, name: string) { forall o <- servers :: Prefix(o.name) <= name ==> o == s }

  lemma ParsingNamesOwn(servers: seq<Server>, s: Server, tool: string)
    requires DistinctServers(servers) && NamesParse(servers) && s in servers
    ensures OwnsName(servers, s, ToolName(s.name, tool))
  {
    hide SanitizeName, SeparatorIndex, Parses, Prefix, ToolName;
    forall o | o in servers && Prefix(o.name) <= ToolName(s.name, tool) ensures o == s {
      PrefixesAgree(s.name, o.name, tool);
      var i :| 0 <= i < |servers| && servers[i] == o;
      var j :| 0 <= j < |servers| && servers[j] == s;
      assert i == j;
    }
  }

  /** A name of its own, under a prefix that parses, can only be routed to its server. */
  lemma RoutesBack(servers: seq<Server>, s: Server, tool: string, routes: Routes)
    requires DistinctServers(servers) && SoundRoutes(routes, servers) && s in servers
    requires Parses(Sanitized(s)) && OwnsName(servers, s, ToolName(s.name, tool))
    ensures RouteOf(ToolName(s.name, tool), servers, routes) == Some(s.uuid)
  {
    hide FirstNamed, FirstWithUUID, ServerNameFor, SanitizeName, SeparatorIndex, Parses, Prefix, ToolName;
    var name := ToolName(s.name, tool);
    ParseUndoesName(s.name, tool);
    FindsServer(servers, s);
    hide ParseToolName;
    if name in routes {
      var i :| 0 <= i < |servers| && servers[i].uuid == routes[name] && Prefix(servers[i].name) <= name;
      assert servers[i] in servers;
    }
  }

  // ---- listed names resolve back ----

  /** No other tool of the server takes this name: where one does, a later mapping of this tool takes it back. */
  predicate Prevails(mappings: seq<Mapping>, server: string, tool: string, name: string) {
    forall i :: 0 <= i < |mappings| && Shows(mappings[i], server, name) && mappings[i].tool != tool ==>
      exists j :: i < j < |mappings| && Shows(mappings[j], server, name) && mappings[j].tool == tool
  }

  lemma LastDecides(mappings: seq<Mapping>, server: string, tool: string, name: string, i: int)
    requires i < |mappings| && (i >= 0 ==> Shows(mappings[i], server, name))
    requires forall j :: 0 <= j < |mappings| && i < j ==> !Shows(mappings[j], server, name)
    ensures Prevails(mappings, server, tool, name) <==> i < 0 || mappings[i].tool == tool
  {
  }

  /** Some mapping shows a tool of the server under this name. */
  predicate IsShown(mappings: seq<Mapping>, server: string, name: string) { exists m <- mappings :: Shows(m, server, name) }

  /**
    A listed tool of a server whose name parses is called under its listed name exactly if the name
    prevails and is an override, or leads to the server by these routes.
  */
  lemma ResolvesExactlyIf(servers: seq<Server>, s: Server, tool: string, mappings: seq<Mapping>, routes: Routes)
    requires DistinctServers(servers) && OneMappingEach(mappings) && s in servers && s.hasURL && Parses(Sanitized(s))
    requires VisibleName(mappings, s.uuid, tool).Some?
    ensures var name := VisibleName(mappings, s.uuid, tool).value;
      Resolve(ToolName(s.name, name), servers, mappings, routes) == Dispatch(s.uuid, tool)
      <==> Prevails(mappings, s.uuid, tool, name)
           && (IsShown(mappings, s.uuid, name) || RouteOf(ToolName(s.name, name), servers, routes) == Some(s.uuid))
  {
    hide LastShowing, LastFor, RouteOf, FirstWithUUID, FirstNamed, ServerNameFor, OneMappingEach, Prevails;
    var name := VisibleName(mappings, s.uuid, tool).value;
    ParseUndoesName(s.name, name);
    FindsServer(servers, s);
    LastForIsTheOne(mappings, s.uuid, tool);
    var i := LastShowingIsLast(mappings, servers, s, name);
    assert !ToolDisabled(mappings, s.uuid, tool);
    LastDecides(mappings, s.uuid, tool, name, i);
    if i >= 0 {
      assert mappings[i] in mappings;
    } else if LastFor(mappings, s.uuid, tool).Some? {
      var j :| 0 <= j < |mappings| && mappings[j] == LastFor(mappings, s.uuid, tool).value;
    }
  }

  /** Among servers whose names all parse: exactly if its name prevails, whatever sound routes there are. */
  lemma ListedResolvesExactlyIf(servers: seq<Server>, s: Server, tool: string, mappings: seq<Mapping>, routes: Routes)
    requires DistinctServers(servers) && NamesParse(servers) && SoundRoutes(routes, servers) && OneMappingEach(mappings)
    requires s in servers && s.hasURL && VisibleName(mappings, s.uuid, tool).Some?
    ensures var name := VisibleName(mappings, s.uuid, tool).value;
      Resolve(ToolName(s.name, name), servers, mappings, routes) == Dispatch(s.uuid, tool)
      <==> Prevails(mappings, s.uuid, tool, name)
  {
    hide Resolve, RouteOf, SoundRoutes, OneMappingEach, Prevails, IsShown, OwnsName;
    var name := VisibleName(mappings, s.uuid, tool).value;
    ParsingNamesOwn(servers, s, name);
    RoutesBack(servers, s, name, routes);
    ResolvesExactlyIf(servers, s, tool, mappings, routes);
  }

  // ---- names that do not parse ----

  lemma NoRoutesAreSound(servers: seq<Server>)
    ensures SoundRoutes(map[], servers)
  {
  }

  lemma {:induction false} FirstNamedIsNamed(servers: seq<Server>, name: string)
    ensures var found := FirstNamed(servers, name); found.Some? ==> found.value in servers && Sanitized(found.value) == name
  {
    if servers != [] { FirstNamedIsNamed(servers[1..], name); }
  }

  /** Without routes a tool of a server whose name does not parse is not called under any listed name. */
  lemma MisparsedIsLost(servers: seq<Server>, s: Server, name: string, tool: string, mappings: seq<Mapping>)
    requires DistinctServers(servers) && s in servers && !Parses(Sanitized(s))
    ensures Resolve(ToolName(s.name, name), servers, mappings, map[]) != Dispatch(s.uuid, tool)
  {
    hide LastShowing, FirstWithUUID, DistinctServers;
    if Sanitized(s) == "" {
      EmptyPrefixIsUncallable(s, name, servers, mappings, map[]);
    } else {
      MisparsedName(s.name, name);
      FindsServer(servers, s);
      var (server, rest) := ParseToolName(ToolName(s.name, name));
      LastShowingServer(mappings, servers, server, rest);
      FirstNamedIsNamed(servers, server);
      var found := FirstNamed(servers, server);
      if found.Some? { FindsServer(servers, found.value); }
    }
  }

  /**
    Another server whose prefix begins the name, which then does not parse itself, takes the call by
    some sound routes, unless the name is an override.
  */
  lemma NeighbourTakesCall(servers: seq<Server>, s: Server, o: Server, name: string, mappings: seq<Mapping>) returns (routes: Routes)
    requires DistinctServers(servers) && s in servers && o in servers && o != s
    requires Parses(Sanitized(s)) && Prefix(o.name) <= ToolName(s.name, name) && !IsShown(mappings, s.uuid, name)
    ensures SoundRoutes(routes, servers) && !Parses(Sanitized(o)) && o.uuid != s.uuid
    ensures Resolve(ToolName(s.name, name), servers, mappings, routes) == Admit(o.uuid, name, servers, mappings)
  {
    hide SanitizeName, SeparatorIndex, Prefix, LastShowing, FirstNamed, Admit;
    routes := map[ToolName(s.name, name) := o.uuid];
    var i :| 0 <= i < |servers| && servers[i] == o;
    var j :| 0 <= j < |servers| && servers[j] == s;
    assert i != j;
    if Parses(Sanitized(o)) { PrefixesAgree(s.name, o.name, name); }
    ParseUndoesName(s.name, name);
    var k := LastShowingIsLast(mappings, servers, s, name);
    forall m | m in mappings ensures !Shows(m, s.uuid, name) {}
    assert k < 0;
  }

  lemma AdmitsOnlyItself(server: string, tool: string, servers: seq<Server>, mappings: seq<Mapping>)
    ensures var t := Admit(server, tool, servers, mappings); t.Dispatch? ==> t == Dispatch(server, tool)
  {
  }

  /**
    A listed tool, overridden or not, is called under its listed name by every sound route map,
    exactly if the name of its server parses, the listed name prevails, and it is an override or no
    other server's prefix begins it.
  */
  lemma AlwaysResolvesExactlyIf(servers: seq<Server>, s: Server, tool: string, mappings: seq<Mapping>)
    requires DistinctServers(servers) && OneMappingEach(mappings) && s in servers && s.hasURL
    requires VisibleName(mappings, s.uuid, tool).Some?
    ensures var name := VisibleName(mappings, s.uuid, tool).value;
      (forall routes | SoundRoutes(routes, servers) ::
         Resolve(ToolName(s.name, name), servers, mappings, routes) == Dispatch(s.uuid, tool))
      <==> Parses(Sanitized(s)) && Prevails(mappings, s.uuid, tool, name)
           && (IsShown(mappings, s.uuid, name) || OwnsName(servers, s, ToolName(s.name, name)))
  {
    hide Resolve, RouteOf, Admit, OneMappingEach, Prevails, IsShown, VisibleName, ToolName, Sanitized, Parses, SoundRoutes;
    var name := VisibleName(mappings, s.uuid, tool).value;
    NoRoutesAreSound(servers);
    if !Parses(Sanitized(s)) {
      MisparsedIsLost(servers, s, name, tool, mappings);
    } else if !Prevails(mappings, s.uuid, tool, name) {
      ResolvesExactlyIf(servers, s, tool, mappings, map[]);
    } else if IsShown(mappings, s.uuid, name) || OwnsName(servers, s, ToolName(s.name, name)) {
      forall routes | SoundRoutes(routes, servers)
        ensures Resolve(ToolName(s.name, name), servers, mappings, routes) == Dispatch(s.uuid, tool)
      {
        if !IsShown(mappings, s.uuid, name) { RoutesBack(servers, s, name, routes); }
        ResolvesExactlyIf(servers, s, tool, mappings, routes);
      }
    } else {
      var o :| o in servers && Prefix(o.name) <= ToolName(s.name, name) && o != s;
      var routes := NeighbourTakesCall(servers, s, o, name, mappings);
      AdmitsOnlyItself(o.uuid, name, servers, mappings);
    }
  }

  lemma {:induction false} LastShowingServer(mappings: seq<Mapping>, servers: seq<Server>, server: string, name: string)
    ensures var found := LastShowing(mappings, servers, server, name);
      found.Some? ==> SanitizeName(ServerNameFor(found.value.server, servers)) == server
  {
    if mappings != [] { LastShowingServer(mappings[..|mappings| - 1], servers, server, name); }
  }

  /** On a server no override repeats another one or the raw name of another tool. */
  predicate OverridesApart(mappings: seq<Mapping>, server: string, tools: set<string>) {
    forall m <- mappings :: m.server == server && m.overrideName.Some? ==>
      && (m.overrideName.value in tools ==> m.overrideName.value == m.tool)
      && (forall o <- mappings :: o.server == server && o.overrideName == m.overrideName ==> o == m)
  }

  /** Then every listed name of every tool goes back to the tool and the server it came from. */
  lemma EveryListedNameResolves(servers: seq<Server>, s: Server, tools: set<string>, tool: string,
                                mappings: seq<Mapping>, routes: Routes)
    requires DistinctServers(servers) && NamesParse(servers) && SoundRoutes(routes, servers) && OneMappingEach(mappings)
    requires s in servers && s.hasURL && tool in tools && OverridesApart(mappings, s.uuid, tools)
    requires VisibleName(mappings, s.uuid, tool).Some?
    ensures Resolve(ToolName(s.name, VisibleName(mappings, s.uuid, tool).value), servers, mappings, routes)
         == Dispatch(s.uuid, tool)
  {
    hide Resolve, NamesParse, SoundRoutes, LastFor;
    ListedResolvesExactlyIf(servers, s, tool, mappings, routes);
    LastForIsTheOne(mappings, s.uuid, tool);
    forall i | 0 <= i < |mappings| && Shows(mappings[i], s.uuid, VisibleName(mappings, s.uuid, tool).value)
      ensures mappings[i].tool == tool
    {
      assert mappings[i] in mappings;
    }
  }

  /** A tool of a server whose name is left empty by sanitizing is listed but can never be called. */
  lemma EmptyPrefixIsUncallable(s: Server, name: string, servers: seq<Server>, mappings: seq<Mapping>, routes: Routes)
    requires Sanitized(s) == ""
    ensures Resolve(ToolName(s.name, name), servers, mappings, routes) == MissingPrefix
  {
    ParseUndoesName(s.name, name);
  }

  // ---- hidden tools ----

  /** A hidden tool answers to its raw name exactly on an operator's server, unless another tool took the name. */
  lemma HiddenIsRefusedExactlyIf(servers: seq<Server>, s: Server, tool: string, mappings: seq<Mapping>, routes: Routes)
    requires DistinctServers(servers) && SoundRoutes(routes, servers) && OneMappingEach(mappings)
    requires Parses(Sanitized(s)) && OwnsName(servers, s, ToolName(s.name, tool))
    requires s in servers && s.hasURL && VisibleName(mappings, s.uuid, tool).None?
    requires forall m <- mappings :: !Shows(m, s.uuid, tool)
    ensures Resolve(ToolName(s.name, tool), servers, mappings, routes)
         == if s.tenantManaged then DisabledTool else Dispatch(s.uuid, tool)
  {
    hide LastShowing, LastFor, RouteOf, SoundRoutes, FirstWithUUID, FirstNamed, ServerNameFor, OneMappingEach;
    ParseUndoesName(s.name, tool);
    FindsServer(servers, s);
    RoutesBack(servers, s, tool, routes);
    LastForIsTheOne(mappings, s.uuid, tool);
    var i := LastShowingIsLast(mappings, servers, s, tool);
    forall j | 0 <= j < |mappings| ensures !Shows(mappings[j], s.uuid, tool) { assert mappings[j] in mappings; }
    assert i < 0;
    var m := LastFor(mappings, s.uuid, tool).value;
    var j :| 0 <= j < |mappings| && mappings[j] == m;
  }

  /** A tool is listed unless its mapping is inactive, under the name its mapping gives or its own. */
  lemma VisibleExactly(mappings: seq<Mapping>, server: string, tool: string)
    requires OneMappingEach(mappings)
    ensures VisibleName(mappings, server, tool) == None
       <==> exists m <- mappings :: m.server == server && m.tool == tool && !m.active
    ensures forall name :: VisibleName(mappings, server, tool) == Some(name) <==>
      || (name == tool && forall m <- mappings :: m.server == server && m.tool == tool ==> m.active && m.overrideName == None)
      || (exists m <- mappings :: m.server == server && m.tool == tool && m.active && m.overrideName == Some(name))
  {
    LastForIsTheOne(mappings, server, tool);
    hide OneMappingEach, LastFor;
  }

  // ---- which calls are refused, and which never ----

  /** A mapping that shows the name on the server, with no later one that does. */
  predicate ShowsLast(mappings: seq<Mapping>, i: int, server: string, name: string) {
    && 0 <= i < |mappings| && Shows(mappings[i], server, name)
    && forall j :: i < j < |mappings| ==> !Shows(mappings[j], server, name)
  }

  /**
    Under any routes: a name is refused as inactive exactly if the last mapping that shows it is
    inactive; and if that mapping is active, the call is for its tool.
  */
  lemma InactiveExactlyIf(servers: seq<Server>, s: Server, name: string, mappings: seq<Mapping>, routes: Routes)
    requires DistinctServers(servers) && s in servers && Parses(Sanitized(s))
    ensures Resolve(ToolName(s.name, name), servers, mappings, routes) == InactiveTool
       <==> exists i :: ShowsLast(mappings, i, s.uuid, name) && !mappings[i].active
    ensures forall i :: ShowsLast(mappings, i, s.uuid, name) && mappings[i].active ==>
      Resolve(ToolName(s.name, name), servers, mappings, routes) == Admit(s.uuid, mappings[i].tool, servers, mappings)
  {
    hide LastShowing, RouteOf, FirstNamed, FirstWithUUID, ServerNameFor, ToolDisabled;
    ParseUndoesName(s.name, name);
    var i := LastShowingIsLast(mappings, servers, s, name);
    hide ToolName, SanitizeName, ParseToolName;
    forall j | ShowsLast(mappings, j, s.uuid, name) ensures j == i {}
    if i >= 0 { assert ShowsLast(mappings, i, s.uuid, name); }
  }

  /** For instance: on an operator's server, an inactive tool under the name that its mapping gives it. */
  lemma InactiveOverrideIsRefused(servers: seq<Server>, s: Server, tool: string, mappings: seq<Mapping>, m: Mapping, routes: Routes)
    requires DistinctServers(servers) && s in servers && Parses(Sanitized(s)) && m in mappings
    requires m.server == s.uuid && m.tool == tool && !m.active && m.overrideName.Some?
    requires forall o <- mappings :: Shows(o, s.uuid, m.overrideName.value) ==> o == m
    ensures Resolve(ToolName(s.name, m.overrideName.value), servers, mappings, routes) == InactiveTool
  {
    hide Resolve;
    var name := m.overrideName.value;
    InactiveExactlyIf(servers, s, name, mappings, routes);
    var i := LastShowingIsLast(mappings, servers, s, name);
    var j :| 0 <= j < |mappings| && mappings[j] == m;
    assert Shows(mappings[j], s.uuid, name);
    assert ShowsLast(mappings, i, s.uuid, name) && mappings[i] in mappings;
  }

  /** A name without a server part is refused, and no other is refused for that. */
  lemma MissingPrefixExactlyIf(name: string, servers: seq<Server>, mappings: seq<Mapping>, routes: Routes)
    ensures Resolve(name, servers, mappings, routes) == MissingPrefix <==> name == "" || "__" <= name
  {
    hide LastShowing, RouteOf, ToolDisabled, FirstWithUUID;
    assert name == "" || "__" <= name <==> ParseToolName(name).0 == "" by {
      assert "__" <= name <==> SeparatorAt(name, 0);
    }
  }

  lemma {:induction false} FoundWithUUID(servers: seq<Server>, uuid: string)
    ensures var found := FirstWithUUID(servers, uuid);
      if found.Some? then found.value in servers && found.value.uuid == uuid else forall s <- servers :: s.uuid != uuid
  {
    if servers != [] { FoundWithUUID(servers[1..], uuid); }
  }

  predicate MayCall(s: Server, tool: string, mappings: seq<Mapping>) {
    s.hasURL && (s.tenantManaged ==> forall m <- mappings :: m.server == s.uuid && m.tool == tool ==> m.active)
  }

  /** What a decision about a server and a tool says of them. */
  predicate Justified(t: Target, servers: seq<Server>, mappings: seq<Mapping>) {
    match t
    case Dispatch(uuid, tool) => exists s <- servers :: s.uuid == uuid && MayCall(s, tool, mappings)
    case NoURL => exists s <- servers :: !s.hasURL
    case DisabledTool => exists s <- servers :: s.tenantManaged && s.hasURL && exists m <- mappings :: m.server == s.uuid && !m.active
    case _ => true
  }

  lemma AdmitIsJustified(uuid: string, tool: string, servers: seq<Server>, mappings: seq<Mapping>)
    ensures Justified(Admit(uuid, tool, servers, mappings), servers, mappings)
  {
    FoundWithUUID(servers, uuid);
    forall m | m in mappings && m.server == uuid && m.tool == tool && !m.active ensures ToolDisabled(mappings, uuid, tool) {
      var i :| 0 <= i < |mappings| && mappings[i] == m;
    }
    hide FirstWithUUID;
  }

  /**
    Whatever the name, the mappings and the routes: a call is only dispatched to a server of the
    namespace that has a URL, and on a tenant's server never to a tool that is disabled there.
  */
  lemma EveryTargetIsJustified(name: string, servers: seq<Server>, mappings: seq<Mapping>, routes: Routes)
    ensures Justified(Resolve(name, servers, mappings, routes), servers, mappings)
  {
    hide ParseToolName, LastShowing, RouteOf, Admit;
    var (server, tool) := ParseToolName(name);
    var m, route := LastShowing(mappings, servers, server, tool), RouteOf(name, servers, routes);
    if m.Some? { AdmitIsJustified(m.value.server, m.value.tool, servers, mappings); }
    if route.Some? { AdmitIsJustified(route.value, tool, servers, mappings); }
  }
}

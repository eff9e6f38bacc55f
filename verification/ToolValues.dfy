/** What a namespace makes of raw tools, on values (internal/mcp/aggregator.go). */
module ToolValues {
  import opened Results
  import opened RoutingModel
  import opened ToolNames

  /** The hints of a tool as a value. */
  datatype Hints = Hints(title: Option<string>, readOnly: Option<bool>, destructive: Option<bool>,
                         idempotent: Option<bool>, openWorld: Option<bool>)

  const NO_HINTS := Hints(None, None, None, None, None)

  /** A tool with its annotations as a value. */
  datatype ToolValue = ToolValue(name: string, title: Option<string>, description: Option<string>, hints: Option<Hints>)

  /** An override of hints; present tells whether there is any entry at all, known or not. */
  datatype Patch = Patch(present: bool, readOnly: Option<bool>, destructive: Option<bool>,
                         idempotent: Option<bool>, openWorld: Option<bool>)

  /** Everything a namespace sets for a tool. */
  datatype Setting = Setting(mapping: Mapping, description: Option<string>, title: Option<string>, patch: Patch)

  function Mappings(settings: seq<Setting>): seq<Mapping> {
    if settings == [] then [] else Mappings(settings[..|settings| - 1]) + [settings[|settings| - 1].mapping]
  }

  function Or<T>(a: Option<T>, b: Option<T>): Option<T> { if a.Some? then a else b }

  function Patched(h: Hints, p: Patch): Hints {
    Hints(h.title, Or(p.readOnly, h.readOnly), Or(p.destructive, h.destructive), Or(p.idempotent, h.idempotent),
          Or(p.openWorld, h.openWorld))
  }

  /** The hints without a title, if there are any. */
  function Untitled(h: Option<Hints>): Option<Hints> {
    match h
    case None => None
    case Some(x) => if x.(title := None) == NO_HINTS then None else Some(x.(title := None))
  }

  /** What a setting makes of a tool. */
  function Edited(t: ToolValue, serverName: string, s: Setting): ToolValue {
    ToolValue(
      if s.mapping.overrideName.Some? then ToolName(serverName, s.mapping.overrideName.value) else t.name,
      s.title,
      Or(s.description, t.description),
      if s.patch.present then Some(Patched(Untitled(t.hints).UnwrapOr(NO_HINTS), s.patch)) else Untitled(t.hints))
  }

  function Prefixed(t: ToolValue, serverName: string): ToolValue { t.(name := ToolName(serverName, t.name)) }

  /** The settings by server and tool. */
  type SettingTable = map<(string, string), Setting>

  /** What a namespace shows of one raw tool of a server. */
  function Shown(t: ToolValue, s: Server, table: SettingTable): seq<ToolValue> {
    var prefixed := Prefixed(t, s.name);
    if (s.uuid, t.name) !in table then [prefixed]
    else if !table[(s.uuid, t.name)].mapping.active then []
    else [Edited(prefixed, s.name, table[(s.uuid, t.name)])]
  }

  function ShownAll(tools: seq<ToolValue>, s: Server, table: SettingTable): seq<ToolValue> {
    if tools == [] then [] else ShownAll(tools[..|tools| - 1], s, table) + Shown(tools[|tools| - 1], s, table)
  }

  // ---- the settings of a namespace by server and tool ----

  function TableOf(settings: seq<Setting>): SettingTable {
    if settings == [] then map[]
    else
      var s := settings[|settings| - 1];
      TableOf(settings[..|settings| - 1])[(s.mapping.server, s.mapping.tool) := s]
  }

  /** The table holds for each tool the mapping that counts. */
  lemma {:induction false} TableHoldsLast(settings: seq<Setting>, server: string, tool: string)
    ensures var found := LastFor(Mappings(settings), server, tool);
      && ((server, tool) in TableOf(settings) <==> found.Some?)
      && (found.Some? ==> TableOf(settings)[(server, tool)].mapping == found.value)
  {
    if settings != [] {
      var n := |settings| - 1;
      TableHoldsLast(settings[..n], server, tool);
      assert Mappings(settings)[..|Mappings(settings)| - 1] == Mappings(settings[..n]);
    }
  }

  /** What is shown of a tool carries its visible name, and a hidden tool is not shown. */
  lemma ShownIsVisible(t: ToolValue, s: Server, settings: seq<Setting>)
    ensures var visible := VisibleName(Mappings(settings), s.uuid, t.name);
      Shown(t, s, TableOf(settings)) != [] <==> visible.Some?
    ensures var shown := Shown(t, s, TableOf(settings)); |shown| <= 1
    ensures forall v <- Shown(t, s, TableOf(settings)) ::
      v.name == ToolName(s.name, VisibleName(Mappings(settings), s.uuid, t.name).UnwrapOr(""))
  {
    hide ToolName;
    TableHoldsLast(settings, s.uuid, t.name);
  }

  /** Every entry of a server's list comes from one of its tools. */
  lemma {:induction false} ShownFrom(tools: seq<ToolValue>, s: Server, table: SettingTable, k: nat) returns (i: nat)
    requires k < |ShownAll(tools, s, table)|
    ensures i < |tools| && ShownAll(tools, s, table)[k] in Shown(tools[i], s, table)
  {
    hide Shown;
    var n := |tools| - 1;
    if k < |ShownAll(tools[..n], s, table)| {
      i := ShownFrom(tools[..n], s, table, k);
    } else {
      i := n;
    }
  }

  /**
    List and call agree: each name in the list of a server is called back on that server, as the
    tool that the entry shows, under any sound routes.
  */
  lemma ListedNamesCallBack(servers: seq<Server>, s: Server, tools: seq<ToolValue>, settings: seq<Setting>,
                            routes: Routes, k: nat)
    returns (i: nat)
    requires DistinctServers(servers) && NamesParse(servers) && SoundRoutes(routes, servers)
    requires OneMappingEach(Mappings(settings)) && s in servers && s.hasURL
    requires OverridesApart(Mappings(settings), s.uuid, set t | t in tools :: t.name)
    requires k < |ShownAll(tools, s, TableOf(settings))|
    ensures var entry := ShownAll(tools, s, TableOf(settings))[k];
      && i < |tools| && entry in Shown(tools[i], s, TableOf(settings))
      && Resolve(entry.name, servers, Mappings(settings), routes) == Dispatch(s.uuid, tools[i].name)
  {
    hide Shown, Resolve, VisibleName, OverridesApart, OneMappingEach, SoundRoutes;
    i := ShownFrom(tools, s, TableOf(settings), k);
    ShownIsVisible(tools[i], s, settings);
    EveryListedNameResolves(servers, s, set t | t in tools :: t.name, tools[i].name, Mappings(settings), routes);
  }

  /** What all servers that answered show, in the order of their answers. */
  function ShownByServers(servers: seq<Server>, raw: map<string, seq<ToolValue>>, open: set<string>, table: SettingTable)
    : seq<ToolValue>
  {
    if servers == [] then []
    else
      var s := servers[|servers| - 1];
      ShownByServers(servers[..|servers| - 1], raw, open, table)
      + (if s.uuid in raw && s.uuid !in open then ShownAll(raw[s.uuid], s, table) else [])
  }

  // ---- what a list has to show, tool by tool ----

  /** The hints that can be overridden. */
  datatype Hint = ReadOnly | Destructive | Idempotent | OpenWorld

  function HintOf(h: Option<Hints>, k: Hint): Option<bool> {
    match h
    case None => None
    case Some(x) =>
      match k
      case ReadOnly => x.readOnly
      case Destructive => x.destructive
      case Idempotent => x.idempotent
      case OpenWorld => x.openWorld
  }

  function PatchOf(p: Patch, k: Hint): Option<bool> {
    match k
    case ReadOnly => p.readOnly
    case Destructive => p.destructive
    case Idempotent => p.idempotent
    case OpenWorld => p.openWorld
  }

  /**
    An entry fits a tool and its setting: the title is the setting's or none; a description or a hint
    that is set replaces the tool's, and the others stay; there is no second title, and no empty hints.
  */
  ghost predicate Fits(v: ToolValue, t: ToolValue, x: Setting) {
    && v.title == x.title
    && (x.description.Some? ==> v.description == x.description)
    && (x.description.None? ==> v.description == t.description)
    && (forall k :: x.patch.present && PatchOf(x.patch, k).Some? ==> HintOf(v.hints, k) == PatchOf(x.patch, k))
    && (forall k :: !(x.patch.present && PatchOf(x.patch, k).Some?) ==> HintOf(v.hints, k) == HintOf(t.hints, k))
    && (v.hints.Some? ==> v.hints.value.title == None)
    && (v.hints.None? <==> !x.patch.present && forall k :: HintOf(t.hints, k) == None)
  }

  lemma EditedFits(t: ToolValue, serverName: string, x: Setting)
    ensures Fits(Edited(t, serverName, x), t, x)
  {
    var bare := Untitled(t.hints);
    forall k ensures HintOf(bare, k) == HintOf(t.hints, k) {
      if t.hints.Some? && bare.None? { assert HintOf(Some(NO_HINTS), k) == None; }
    }
    if t.hints.Some? && forall k :: HintOf(t.hints, k) == None {
      assert HintOf(t.hints, ReadOnly) == HintOf(t.hints, Destructive) == None;
      assert HintOf(t.hints, Idempotent) == HintOf(t.hints, OpenWorld) == None;
    }
    assert forall k :: HintOf(Some(NO_HINTS), k) == None;
  }

  /** The setting of a tool; of several the last one counts. */
  function LastSetting(settings: seq<Setting>, server: string, tool: string): Option<Setting> {
    if settings == [] then None
    else
      var x := settings[|settings| - 1];
      if x.mapping.server == server && x.mapping.tool == tool then Some(x)
      else LastSetting(settings[..|settings| - 1], server, tool)
  }

  lemma {:induction false} TableHoldsLastSetting(settings: seq<Setting>, server: string, tool: string)
    ensures var found := LastSetting(settings, server, tool);
      && ((server, tool) in TableOf(settings) <==> found.Some?)
      && (found.Some? ==> TableOf(settings)[(server, tool)] == found.value)
  {
    if settings != [] { TableHoldsLastSetting(settings[..|settings| - 1], server, tool); }
  }

  function VisibleAs(t: ToolValue, s: Server, settings: seq<Setting>): Option<string> {
    VisibleName(Mappings(settings), s.uuid, t.name)
  }

  /** An entry that shows a tool of a server under its visible name, with what the namespace sets for it. */
  ghost predicate IsEntry(v: ToolValue, t: ToolValue, s: Server, settings: seq<Setting>) {
    && VisibleAs(t, s, settings).Some? && v.name == ToolName(s.name, VisibleAs(t, s, settings).value)
    && match LastSetting(settings, s.uuid, t.name)
       case None => v == t.(name := v.name)
       case Some(x) => Fits(v, t, x)
  }

  lemma ShownIsEntry(t: ToolValue, s: Server, settings: seq<Setting>)
    ensures var shown := Shown(t, s, TableOf(settings));
      && |shown| == (if VisibleAs(t, s, settings).Some? then 1 else 0)
      && (shown != [] ==> IsEntry(shown[0], t, s, settings))
  {
    hide ToolName, TableOf, LastFor, LastSetting;
    ShownIsVisible(t, s, settings);
    TableHoldsLastSetting(settings, s.uuid, t.name);
    var x := LastSetting(settings, s.uuid, t.name);
    if x.Some? { EditedFits(Prefixed(t, s.name), s.name, x.value); }
    hide Edited, Fits, VisibleName;
    if Shown(t, s, TableOf(settings)) != [] { FitsUnderAnyName(t, s, settings); }
  }

  lemma FitsUnderAnyName(t: ToolValue, s: Server, settings: seq<Setting>)
    ensures forall v, x :: Fits(v, Prefixed(t, s.name), x) <==> Fits(v, t, x)
  {
    hide ToolName;
  }

  /** The tools to show, by position of their server and position among its tools. */
  predicate ToShow(at: (int, int), servers: seq<Server>, raw: map<string, seq<ToolValue>>, open: set<string>, settings: seq<Setting>) {
    && 0 <= at.0 < |servers| && servers[at.0].uuid in raw && servers[at.0].uuid !in open
    && 0 <= at.1 < |raw[servers[at.0].uuid]| && VisibleAs(raw[servers[at.0].uuid][at.1], servers[at.0], settings).Some?
  }

  predicate Precedes(a: (int, int), b: (int, int)) { a.0 < b.0 || (a.0 == b.0 && a.1 < b.1) }

  /**
    The list holds one entry for each tool to show, in the order of servers and tools; origin says
    where each entry comes from.
  */
  ghost predicate Lists(list: seq<ToolValue>, origin: seq<(int, int)>, servers: seq<Server>, raw: map<string, seq<ToolValue>>,
                        open: set<string>, settings: seq<Setting>)
  {
    && |list| == |origin|
    && (forall k :: 0 <= k < |list| ==>
          && ToShow(origin[k], servers, raw, open, settings)
          && IsEntry(list[k], raw[servers[origin[k].0].uuid][origin[k].1], servers[origin[k].0], settings))
    && (forall j, k :: 0 <= j < k < |origin| ==> Precedes(origin[j], origin[k]))
    && (forall at :: ToShow(at, servers, raw, open, settings) ==> at in origin)
  }

  /** The positions of the visible tools of one server, and what is shown of them. */
  ghost predicate ListsServer(list: seq<ToolValue>, origin: seq<int>, tools: seq<ToolValue>, s: Server, settings: seq<Setting>) {
    && |list| == |origin|
    && (forall k :: 0 <= k < |list| ==>
          0 <= origin[k] < |tools| && VisibleAs(tools[origin[k]], s, settings).Some?
          && IsEntry(list[k], tools[origin[k]], s, settings))
    && (forall j, k :: 0 <= j < k < |origin| ==> origin[j] < origin[k])
    && (forall i :: 0 <= i < |tools| && VisibleAs(tools[i], s, settings).Some? ==> i in origin)
  }

  lemma OneMoreTool(list: seq<ToolValue>, origin: seq<int>, more: seq<ToolValue>, tools: seq<ToolValue>, s: Server,
                    settings: seq<Setting>)
    requires tools != [] && ListsServer(list, origin, tools[..|tools| - 1], s, settings)
    requires var last := tools[|tools| - 1];
      && |more| == (if VisibleAs(last, s, settings).Some? then 1 else 0)
      && (more != [] ==> IsEntry(more[0], last, s, settings))
    ensures var n := |tools| - 1;
      ListsServer(list + more, if more == [] then origin else origin + [n], tools, s, settings)
  {
    hide VisibleAs, IsEntry;
    var n := |tools| - 1;
    assert forall i :: 0 <= i < n ==> tools[..n][i] == tools[i];
    if more != [] { assert (origin + [n])[|origin|] == n; }
  }

  lemma {:induction false} ShownAllLists(tools: seq<ToolValue>, s: Server, settings: seq<Setting>) returns (origin: seq<int>)
    ensures ListsServer(ShownAll(tools, s, TableOf(settings)), origin, tools, s, settings)
  {
    hide VisibleAs, IsEntry, Shown, TableOf;
    if tools == [] {
      origin := [];
    } else {
      var n := |tools| - 1;
      origin := ShownAllLists(tools[..n], s, settings);
      ShownIsEntry(tools[n], s, settings);
      var more := Shown(tools[n], s, TableOf(settings));
      hide ListsServer;
      OneMoreTool(ShownAll(tools[..n], s, TableOf(settings)), origin, more, tools, s, settings);
      origin := if more == [] then origin else origin + [n];
    }
  }

  function AtServer(n: int, own: seq<int>): (r: seq<(int, int)>)
    ensures |r| == |own| && forall k :: 0 <= k < |own| ==> r[k] == (n, own[k])
  {
    seq(|own|, k requires 0 <= k < |own| => (n, own[k]))
  }

  /** The list of a namespace shows each tool that is to be shown once, and nothing else. */
  lemma {:induction false} ShownByServersLists(servers: seq<Server>, raw: map<string, seq<ToolValue>>, open: set<string>,
                                               settings: seq<Setting>)
    returns (origin: seq<(int, int)>)
    ensures Lists(ShownByServers(servers, raw, open, TableOf(settings)), origin, servers, raw, open, settings)
  {
    hide VisibleAs, IsEntry, ShownAll, TableOf;
    if servers == [] {
      origin := [];
    } else {
      var n := |servers| - 1;
      origin := ShownByServersLists(servers[..n], raw, open, settings);
      var s := servers[n];
      hide Lists, ListsServer;
      if s.uuid in raw && s.uuid !in open {
        var own := ShownAllLists(raw[s.uuid], s, settings);
        OneMoreListed(servers, raw, open, settings, ShownByServers(servers[..n], raw, open, TableOf(settings)), origin,
                      ShownAll(raw[s.uuid], s, TableOf(settings)), own);
        origin := origin + AtServer(n, own);
      } else {
        OneMoreUnlisted(servers, raw, open, settings, origin);
      }
    }
  }

  /** What is to be shown of one server more. */
  lemma ToShowStep(at: (int, int), servers: seq<Server>, raw: map<string, seq<ToolValue>>, open: set<string>,
                   settings: seq<Setting>)
    requires servers != []
    ensures var n := |servers| - 1;
      ToShow(at, servers, raw, open, settings) <==>
        || ToShow(at, servers[..n], raw, open, settings)
        || (at.0 == n && servers[n].uuid in raw && servers[n].uuid !in open && 0 <= at.1 < |raw[servers[n].uuid]|
            && VisibleAs(raw[servers[n].uuid][at.1], servers[n], settings).Some?)
    ensures ToShow(at, servers[..|servers| - 1], raw, open, settings) ==> at.0 < |servers| - 1
  {
    hide VisibleAs;
  }

  lemma OneMoreListed(servers: seq<Server>, raw: map<string, seq<ToolValue>>, open: set<string>, settings: seq<Setting>,
                      list: seq<ToolValue>, shorter: seq<(int, int)>, mine: seq<ToolValue>, own: seq<int>)
    requires servers != [] && servers[|servers| - 1].uuid in raw && servers[|servers| - 1].uuid !in open
    requires Lists(list, shorter, servers[..|servers| - 1], raw, open, settings)
    requires ListsServer(mine, own, raw[servers[|servers| - 1].uuid], servers[|servers| - 1], settings)
    ensures Lists(list + mine, shorter + AtServer(|servers| - 1, own), servers, raw, open, settings)
  {
    hide VisibleAs, IsEntry, ToShow;
    var n := |servers| - 1;
    var origin := shorter + AtServer(n, own);
    forall at | ToShow(at, servers, raw, open, settings) ensures at in origin {
      ToShowStep(at, servers, raw, open, settings);
      if !ToShow(at, servers[..n], raw, open, settings) {
        var k :| 0 <= k < |own| && own[k] == at.1;
        assert origin[|shorter| + k] == at;
      }
    }
    forall k | 0 <= k < |origin|
      ensures ToShow(origin[k], servers, raw, open, settings)
      ensures k < |shorter| ==> 0 <= origin[k].0 < n
    {
      ToShowStep(origin[k], servers, raw, open, settings);
      if k < |shorter| { ServerInRange(origin[k], servers[..n], raw, open, settings); }
    }
    forall k | 0 <= k < |origin|
      ensures ToShow(origin[k], servers, raw, open, settings)
      ensures 0 <= origin[k].0 < |servers| && servers[origin[k].0].uuid in raw && 0 <= origin[k].1 < |raw[servers[origin[k].0].uuid]|
      ensures IsEntry((list + mine)[k], raw[servers[origin[k].0].uuid][origin[k].1], servers[origin[k].0], settings)
    {
      ServerInRange(origin[k], servers, raw, open, settings);
    }
  }

  lemma ServerInRange(at: (int, int), servers: seq<Server>, raw: map<string, seq<ToolValue>>, open: set<string>,
                      settings: seq<Setting>)
    requires ToShow(at, servers, raw, open, settings)
    ensures 0 <= at.0 < |servers| && servers[at.0].uuid in raw && 0 <= at.1 < |raw[servers[at.0].uuid]|
  {
  }

  lemma OneMoreUnlisted(servers: seq<Server>, raw: map<string, seq<ToolValue>>, open: set<string>, settings: seq<Setting>,
                        origin: seq<(int, int)>)
    requires servers != [] && (servers[|servers| - 1].uuid !in raw || servers[|servers| - 1].uuid in open)
    requires Lists(ShownByServers(servers[..|servers| - 1], raw, open, TableOf(settings)), origin, servers[..|servers| - 1], raw,
                   open, settings)
    ensures Lists(ShownByServers(servers, raw, open, TableOf(settings)), origin, servers, raw, open, settings)
  {
    hide VisibleAs, IsEntry, ShownAll, TableOf;
    var n := |servers| - 1;
    forall at ensures ToShow(at, servers, raw, open, settings) <==> ToShow(at, servers[..n], raw, open, settings) {}
  }

  lemma NothingListed(list: seq<ToolValue>, origin: seq<(int, int)>, servers: seq<Server>, raw: map<string, seq<ToolValue>>,
                      open: set<string>, settings: seq<Setting>)
    requires Lists(list, origin, servers, raw, open, settings)
    ensures list == [] <==> forall at :: !ToShow(at, servers, raw, open, settings)
  {
    hide IsEntry, ToShow;
    if list != [] { assert ToShow(origin[0], servers, raw, open, settings); }
  }
}

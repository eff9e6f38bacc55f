/**
  Listing the tools of a namespace (internal/mcp/aggregator.go). Raw tools are cached and shared by
  all namespaces; the lists made of them are edited in place.
*/
module ToolListing {
  import opened Results
  import opened RoutingModel
  import opened ToolNames
  import opened ToolValues

  class ToolAnnotations {
    var title: Option<string>
    var readOnlyHint: Option<bool>
    var destructiveHint: Option<bool>
    var idempotentHint: Option<bool>
    var openWorldHint: Option<bool>

    constructor (hints: Hints)
      ensures Value() == hints
    {
      title, readOnlyHint, destructiveHint := hints.title, hints.readOnly, hints.destructive;
      idempotentHint, openWorldHint := hints.idempotent, hints.openWorld;
    }

    function Value(): Hints
      reads this
    {
      Hints(title, readOnlyHint, destructiveHint, idempotentHint, openWorldHint)
    }
  }

  /** A tool; its annotations are shared by whoever copies it. */
  datatype Tool = Tool(name: string, title: Option<string>, description: Option<string>, annotations: ToolAnnotations?)

  ghost function ValueOf(t: Tool): ToolValue
    reads t.annotations
  {
    ToolValue(t.name, t.title, t.description, if t.annotations == null then None else Some(t.annotations.Value()))
  }

  ghost function Objects(tools: seq<Tool>): set<object> {
    set t | t in tools && t.annotations != null :: t.annotations as object
  }

  lemma ObjectsAppend(a: seq<Tool>, b: seq<Tool>)
    ensures Objects(a + b) == Objects(a) + Objects(b) && Objects([]) == {}
  {
    assert forall t :: t in a + b <==> t in a || t in b;
  }

  ghost function Values(tools: seq<Tool>): (r: seq<ToolValue>)
    reads Objects(tools)
    ensures |r| == |tools| && forall i :: 0 <= i < |tools| ==> r[i] == ValueOf(tools[i])
  {
    if tools == [] then []
    else
      assert Objects(tools[..|tools| - 1]) <= Objects(tools);
      assert tools[|tools| - 1] in tools;
      Values(tools[..|tools| - 1]) + [ValueOf(tools[|tools| - 1])]
  }

  // ---- copies ----

  /** Annotations made since, none of them shared. */
  twostate predicate OwnCopies(new tools: seq<Tool>) {
    && (forall k :: 0 <= k < |tools| && tools[k].annotations != null ==> fresh(tools[k].annotations))
    && (forall j, k :: 0 <= j < k < |tools| && tools[j].annotations != null ==> tools[j].annotations != tools[k].annotations)
  }

  /** Copies tools under their prefixed names; nothing a copy can reach is shared with the original. */
  method PrefixTools(serverName: string, tools: seq<Tool>) returns (out: seq<Tool>)
    ensures |out| == |tools|
    ensures forall i :: 0 <= i < |tools| ==> ValueOf(out[i]) == Prefixed(old(ValueOf(tools[i])), serverName)
    ensures Values(tools) == old(Values(tools)) && OwnCopies(out)
  {
    hide ToolName;
    out := [];
    for i := 0 to |tools|
      invariant |out| == i
      invariant forall k :: 0 <= k < i ==> ValueOf(out[k]) == Prefixed(ValueOf(tools[k]), serverName)
      invariant forall k :: 0 <= k < i && out[k].annotations != null ==> fresh(out[k].annotations)
      invariant forall j, k :: 0 <= j < k < i && out[j].annotations != null ==> out[j].annotations != out[k].annotations
    {
      var t := tools[i];
      var copied := t.(name := ToolName(serverName, t.name));
      if t.annotations != null {
        var c := new ToolAnnotations(t.annotations.Value());
        copied := copied.(annotations := c);
      }
      out := out + [copied];
    }
  }

  // ---- edits in place ----

  /** Merges overriding hints into annotations; the title is not among them. */
  method ApplyAnnotationOverrides(ann: ToolAnnotations, p: Patch)
    modifies ann
    ensures ann.Value() == Patched(old(ann.Value()), p)
  {
    if p.readOnly.Some? { ann.readOnlyHint := p.readOnly; }
    if p.destructive.Some? { ann.destructiveHint := p.destructive; }
    if p.idempotent.Some? { ann.idempotentHint := p.idempotent; }
    if p.openWorld.Some? { ann.openWorldHint := p.openWorld; }
  }

  /** Applies a setting to a copied tool, editing its annotations in place. */
  method EditTool(tool: Tool, serverName: string, s: Setting) returns (t: Tool)
    modifies if tool.annotations == null then {} else {tool.annotations}
    ensures ValueOf(t) == Edited(old(ValueOf(tool)), serverName, s)
    ensures t.annotations != null ==> t.annotations == tool.annotations || fresh(t.annotations)
  {
    t := tool;
    if s.mapping.overrideName.Some? { t := t.(name := ToolName(serverName, s.mapping.overrideName.value)); }
    if s.description.Some? { t := t.(description := s.description); }
    t := t.(title := s.title);
    if t.annotations != null {
      t.annotations.title := None;
      if t.annotations.Value() == NO_HINTS { t := t.(annotations := null); }
    }
    if s.patch.present {
      if t.annotations == null {
        var empty := new ToolAnnotations(NO_HINTS);
        t := t.(annotations := empty);
      }
      ApplyAnnotationOverrides(t.annotations, s.patch);
    }
  }

  /** Filters and edits one copied tool; raw is the value it was copied from. */
  method ShowTool(tool: Tool, s: Server, table: SettingTable, ghost raw: ToolValue) returns (shown: seq<Tool>)
    requires ValueOf(tool) == Prefixed(raw, s.name)
    modifies if tool.annotations == null then {} else {tool.annotations}
    ensures |shown| <= 1 && |Shown(raw, s, table)| == |shown|
    ensures shown != [] ==> ValueOf(shown[0]) == Shown(raw, s, table)[0]
    ensures shown != [] && shown[0].annotations != null ==>
      shown[0].annotations == tool.annotations || fresh(shown[0].annotations)
  {
    hide Edited;
    assert tool.name == Prefix(s.name) + raw.name;
    var unprefixed := tool.name[|Prefix(s.name)|..];
    assert unprefixed == raw.name;
    var key, t := (s.uuid, unprefixed), tool;
    if key in table && !table[key].mapping.active { return []; }
    if key in table { t := EditTool(t, s.name, table[key]); }
    return [t];
  }

  lemma ShownAllStep(raw: seq<ToolValue>, i: nat, s: Server, table: SettingTable)
    requires i < |raw|
    ensures ShownAll(raw[..i + 1], s, table) == ShownAll(raw[..i], s, table) + Shown(raw[i], s, table)
  {
    assert raw[..i + 1][..i] == raw[..i];
  }

  /** The tools from position i on share no annotations with these objects, nor among themselves. */
  ghost predicate Apart(tools: seq<Tool>, i: nat, made: set<object>) {
    && (forall k :: i <= k < |tools| && tools[k].annotations != null ==> tools[k].annotations !in made)
    && (forall j, k :: i <= j < k < |tools| && tools[j].annotations != null ==> tools[j].annotations != tools[k].annotations)
  }

  lemma ApartAfter(tools: seq<Tool>, i: nat, made: set<object>, more: seq<Tool>)
    requires Apart(tools, i, made) && i < |tools| && |more| <= 1
    requires more != [] && more[0].annotations != null && more[0].annotations != tools[i].annotations ==>
      forall k :: 0 <= k < |tools| ==> tools[k].annotations != more[0].annotations
    ensures Apart(tools, i + 1, made + Objects(more))
  {
    if more != [] && more[0].annotations != null { assert Objects(more) == {more[0].annotations}; }
    if more == [] || more[0].annotations == null { assert Objects(more) == {}; }
  }

  lemma ShownGrows(shown: seq<Tool>, more: seq<Tool>, made: set<object>, before: seq<ToolValue>, raw: ToolValue, s: Server,
                   table: SettingTable)
    requires Objects(shown) <= made && Values(shown) == before && |more| <= 1 && |Shown(raw, s, table)| == |more|
    requires more != [] ==> ValueOf(more[0]) == Shown(raw, s, table)[0]
    ensures Objects(shown + more) <= made + Objects(more) && Values(shown + more) == before + Shown(raw, s, table)
  {
    hide Shown, Values, ValueOf;
    assert forall t :: t in shown + more <==> t in shown || t in more;
  }

  /**
    What a namespace shows of one server, made of the cached raw tools. It modifies nothing that
    existed before, so the cached tools keep their values, and what it returns shares nothing with them.
  */
  method ListServerTools(cached: seq<Tool>, s: Server, table: SettingTable) returns (shown: seq<Tool>)
    ensures Values(shown) == ShownAll(old(Values(cached)), s, table)
    ensures Values(cached) == old(Values(cached)) && fresh(Objects(shown))
  {
    hide Shown, Prefixed, ShownAll, Values, ValueOf;
    ghost var raw, made: set<object> := Values(cached), {};
    var tools := PrefixTools(s.name, cached);
    shown := [];
    NothingShown(s, table);
    assert raw[..0] == [];
    assert forall o :: o in Objects(cached) ==> !fresh(o);
    for i := 0 to |tools|
      invariant Values(cached) == raw && fresh(made) && Objects(shown) <= made
      invariant Apart(tools, i, made)
      invariant forall k :: i <= k < |tools| ==> ValueOf(tools[k]) == Prefixed(raw[k], s.name)
      invariant Values(shown) == ShownAll(raw[..i], s, table)
    {
      ghost var before := Values(shown);
      var more := ShowTool(tools[i], s, table, raw[i]);
      ShownAllStep(raw, i, s, table);
      ApartAfter(tools, i, made, more);
      ShownGrows(shown, more, made, before, raw[i], s, table);
      made := made + Objects(more);
      shown := shown + more;
    }
    assert raw[..|tools|] == raw == old(Values(cached));
  }

  lemma NothingShown(s: Server, table: SettingTable)
    ensures ShownAll([], s, table) == []
  {
  }

  /** A listing on behalf of some namespace: the server as it knows it, and its settings. */
  datatype Listing = Listing(server: Server, table: SettingTable)

  /**
    Any number of listings of one server by any namespaces: each list is what its own settings make
    of the raw tools, none of them changes the cache, and none changes a list returned before.
  */
  method ListForMany(cached: seq<Tool>, listings: seq<Listing>) returns (lists: seq<seq<Tool>>)
    ensures |lists| == |listings| && Values(cached) == old(Values(cached))
    ensures forall i :: 0 <= i < |lists| ==>
      Values(lists[i]) == ShownAll(old(Values(cached)), listings[i].server, listings[i].table)
  {
    hide Values, ShownAll, Objects;
    ghost var raw := Values(cached);
    lists := [];
    for n := 0 to |listings|
      invariant |lists| == n && Values(cached) == raw
      invariant forall i :: 0 <= i < n ==> Values(lists[i]) == ShownAll(raw, listings[i].server, listings[i].table)
    {
      var list := ListServerTools(cached, listings[n].server, listings[n].table);
      lists := lists + [list];
    }
  }

  // ---- the whole list of a namespace ----

  method BuildTable(settings: seq<Setting>) returns (table: SettingTable)
    ensures table == TableOf(settings)
  {
    table := map[];
    for i := 0 to |settings|
      invariant table == TableOf(settings[..i])
    {
      var s := settings[i];
      table := table[(s.mapping.server, s.mapping.tool) := s];
      assert settings[..i + 1][..i] == settings[..i];
    }
    assert settings[..|settings|] == settings;
  }

  /** The cache holds these raw tools. */
  ghost predicate Holds(cache: map<string, seq<Tool>>, raw: map<string, seq<ToolValue>>)
    reads set u, o | u in cache && o in Objects(cache[u]) :: o
  {
    cache.Keys == raw.Keys && forall u <- cache :: Values(cache[u]) == raw[u]
  }

  /**
    The list of a namespace before sorting. routed tells whether its routes could be built; cache holds
    the tools of the servers that can be asked or have been; open lists the servers whose circuit is
    open. It fails only without routes, or if there is nothing to show and some server failed.
  */
  method ListTools(servers: seq<Server>, routed: bool, cache: map<string, seq<Tool>>, open: set<string>,
                   settings: seq<Setting>, ghost raw: map<string, seq<ToolValue>>)
    returns (r: Option<seq<Tool>>)
    requires Holds(cache, raw)
    ensures Holds(cache, raw)
    ensures r.Some? ==> Values(r.value) == ShownByServers(servers, raw, open, TableOf(settings)) && fresh(Objects(r.value))
    ensures r.Some? ==> exists origin :: Lists(Values(r.value), origin, servers, raw, open, settings)
    ensures r.None? <==> (!routed
      || ((forall at :: !ToShow(at, servers, raw, open, settings))
          && exists i :: 0 <= i < |servers| && servers[i].uuid !in open && servers[i].uuid !in cache))
  {
    hide Values, ShownAll, TableOf, Objects, Lists, ToShow;
    if !routed { return None; }
    var table := BuildTable(settings);
    var all: seq<Tool>, failed := [], false;
    ObjectsAppend([], []);
    for i := 0 to |servers|
      invariant fresh(Objects(all)) && Values(all) == ShownByServers(servers[..i], raw, open, table)
      invariant Holds(cache, raw)
      invariant failed <==> exists j :: 0 <= j < i && servers[j].uuid !in open && servers[j].uuid !in cache
    {
      var s := servers[i];
      assert servers[..i + 1][..i] == servers[..i];
      if s.uuid in open { continue; }
      if s.uuid !in cache {
        failed := true;
        continue;
      }
      ghost var before := Values(all);
      var tools := ListServerTools(cache[s.uuid], s, table);
      assert Values(all + tools) == before + Values(tools);
      ObjectsAppend(all, tools);
      all := all + tools;
    }
    assert servers[..|servers|] == servers;
    ghost var origin := ShownByServersLists(servers, raw, open, settings);
    NothingListed(Values(all), origin, servers, raw, open, settings);
    r := if |all| == 0 && failed then None else Some(all);
  }
}

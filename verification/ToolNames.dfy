/** Names of tools behind the aggregator: server__tool (internal/mcp/aggregator.go). */
module ToolNames {

  predicate Keeps(c: char) { 'a' <= c <= 'z' || 'A' <= c <= 'Z' || '0' <= c <= '9' || c == '_' || c == '-' }

  /** Drops every character outside letters, digits, underscore and hyphen. */
  function SanitizeName(name: string): string {
    if name == "" then "" else (if Keeps(name[0]) then [name[0]] else []) + SanitizeName(name[1..])
  }

  /** Only allowed characters of the name are left, and a name made of them is unchanged. */
  lemma {:induction false} SanitizedCharacters(name: string)
    ensures forall c <- SanitizeName(name) :: Keeps(c) && c in name
    ensures (forall c <- name :: Keeps(c)) ==> SanitizeName(name) == name
  {
    if name != "" {
      SanitizedCharacters(name[1..]);
      assert name == [name[0]] + name[1..];
    }
  }

  /** Sanitizing works on every part by itself, and keeps or drops a single character. */
  lemma {:induction false} SanitizeAppends(a: string, b: string)
    ensures SanitizeName(a + b) == SanitizeName(a) + SanitizeName(b)
    ensures forall c :: SanitizeName([c]) == if Keeps(c) then [c] else ""
  {
    if a == "" {
      assert a + b == b;
    } else {
      assert (a + b)[1..] == a[1..] + b;
      SanitizeAppends(a[1..], b);
    }
  }

  const SEPARATOR := "__"

  function Prefix(serverName: string): string { SanitizeName(serverName) + SEPARATOR }

  function ToolName(serverName: string, toolName: string): string { Prefix(serverName) + toolName }

  predicate SeparatorAt(name: string, i: int) { 0 <= i && i + 2 <= |name| && name[i] == '_' && name[i + 1] == '_' }

  /** The position of the first separator, or a negative number. */
  function SeparatorIndex(name: string): (i: int)
    ensures i >= 0 ==> SeparatorAt(name, i)
    ensures forall j :: SeparatorAt(name, j) ==> 0 <= i <= j
  {
    if |name| < 2 then -1
    else if name[0] == '_' && name[1] == '_' then 0
    else
      var rest := SeparatorIndex(name[1..]);
      assert forall j :: j > 0 && SeparatorAt(name, j) ==> SeparatorAt(name[1..], j - 1);
      if rest < 0 then -1 else rest + 1
  }

  /** Server and tool part, split at the first separator. */
  function ParseToolName(name: string): (string, string) {
    var i := SeparatorIndex(name);
    if i < 0 then (name, "") else (name[..i], name[i + 2..])
  }

  /** A name is what it was parsed into, cut at its first separator, or it has none. */
  lemma ParsedParts(name: string)
    ensures var (server, tool) := ParseToolName(name);
      if exists i :: SeparatorAt(name, i) then name == server + SEPARATOR + tool && forall i :: 0 <= i < |server| ==> !SeparatorAt(name, i)
      else server == name && tool == ""
  {
    var i := SeparatorIndex(name);
    if i >= 0 {
      assert SeparatorAt(name, i);
      assert name == name[..i] + name[i..i + 2] + name[i + 2..];
    }
  }

  /** A server prefix that parsing gives back: not empty, no separator in it and none begun at its end. */
  predicate Parses(server: string) {
    server != "" && SeparatorIndex(server) < 0 && server[|server| - 1] != '_'
  }

  /** Where a name splits: at the prefix exactly if the prefix neither holds nor begins a separator. */
  lemma SplitsAtPrefix(server: string, tool: string)
    ensures var i := SeparatorIndex(server + SEPARATOR + tool);
      && 0 <= i <= |server|
      && (i == |server| <==> server == "" || Parses(server))
  {
    var name := server + SEPARATOR + tool;
    var i, n := SeparatorIndex(name), |server|;
    assert SeparatorAt(name, n);
    assert forall j :: 0 <= j < n - 1 ==> (SeparatorAt(name, j) <==> SeparatorAt(server, j));
    assert n > 0 ==> (SeparatorAt(name, n - 1) <==> server[n - 1] == '_');
  }

  /** Parsing undoes naming for a tool of a server exactly if the sanitized server name parses, or is empty. */
  lemma ParseUndoesName(serverName: string, tool: string)
    ensures var server := SanitizeName(serverName);
      ParseToolName(ToolName(serverName, tool)) == (server, tool) <==> server == "" || Parses(server)
  {
    var server := SanitizeName(serverName);
    var name := ToolName(serverName, tool);
    SplitsAtPrefix(server, tool);
    assert name == server + SEPARATOR + tool;
    assert name[..|server|] == server && name[|server| + 2..] == tool;
  }

  /** A server name that does not parse leaves too long a tool name, and another server name. */
  lemma MisparsedName(serverName: string, tool: string)
    requires SanitizeName(serverName) != "" && !Parses(SanitizeName(serverName))
    ensures var (server, rest) := ParseToolName(ToolName(serverName, tool));
      server != SanitizeName(serverName) && |rest| > |tool|
  {
    SplitsAtPrefix(SanitizeName(serverName), tool);
    assert ToolName(serverName, tool) == SanitizeName(serverName) + SEPARATOR + tool;
  }
}

/** The compiled policy snapshot of auth/authorizer.rs and auth/policy_repository.rs, and the proof
    that it decides as the tables do. */
module Authorizer {
  import opened Wrappers
  import opened Text
  import opened PathPatterns
  import opened PolicyKeys
  import opened PolicyTables

  datatype HttpBinding = HttpBinding(surface: string, httpMethod: string, pattern: string, key: string)

  datatype CommandBinding = CommandBinding(surface: string, command: string, key: string)

  datatype Grant = Grant(role: string, key: string)

  datatype Snapshot = Snapshot(
    http: seq<HttpBinding>, commands: map<(string, string), string>, roleKeys: map<string, set<string>>)

  predicate Matches(b: HttpBinding, surface: string, httpMethod: string, path: string) {
    b.surface == surface && Lower(b.httpMethod) == Lower(httpMethod) && PathPatternMatches(b.pattern, path)
  }

  predicate HttpAllowed(s: Snapshot, role: string, surface: string, httpMethod: string, path: string) {
    role in s.roleKeys
    && exists i :: 0 <= i < |s.http| && Matches(s.http[i], surface, httpMethod, path)
        && s.http[i].key in s.roleKeys[role]
  }

  predicate CommandAllowed(s: Snapshot, role: string, surface: string, command: string) {
    (surface, command) in s.commands && role in s.roleKeys && s.commands[(surface, command)] in s.roleKeys[role]
  }

  // ---- Building a snapshot -----------------------------------------------------------------------

  /** The key of the last binding for a command. */
  function LastKey(commands: seq<CommandBinding>, surface: string, command: string): Option<string> {
    if commands == [] then None
    else
      var last := commands[|commands| - 1];
      if last.surface == surface && last.command == command then Some(last.key)
      else LastKey(commands[..|commands| - 1], surface, command)
  }

  function KeysGranted(grants: seq<Grant>, role: string): set<string> {
    set g | g in grants && g.role == role :: g.key
  }

  ghost predicate BuiltFrom(s: Snapshot, http: seq<HttpBinding>, commands: seq<CommandBinding>, grants: seq<Grant>) {
    && s.http == http
    && (forall surface, command ::
          LastKey(commands, surface, command) ==
            if (surface, command) in s.commands then Some(s.commands[(surface, command)]) else None)
    && (forall role :: (if role in s.roleKeys then s.roleKeys[role] else {}) == KeysGranted(grants, role))
  }

  method NewSnapshot(http: seq<HttpBinding>, commands: seq<CommandBinding>, grants: seq<Grant>) returns (s: Snapshot)
    ensures BuiltFrom(s, http, commands, grants)
  {
    var byCommand: map<(string, string), string> := map[];
    var i := 0;
    while i < |commands|
      invariant 0 <= i <= |commands|
      invariant forall surface, command ::
        LastKey(commands[..i], surface, command) ==
          if (surface, command) in byCommand then Some(byCommand[(surface, command)]) else None
    {
      byCommand := byCommand[(commands[i].surface, commands[i].command) := commands[i].key];
      assert commands[..i + 1][..i] == commands[..i];
      i := i + 1;
    }
    assert commands[..i] == commands;
    var roleKeys: map<string, set<string>> := map[];
    var j := 0;
    while j < |grants|
      invariant 0 <= j <= |grants|
      invariant forall role :: (if role in roleKeys then roleKeys[role] else {}) == KeysGranted(grants[..j], role)
    {
      var g := grants[j];
      var held := if g.role in roleKeys then roleKeys[g.role] else {};
      assert grants[..j + 1] == grants[..j] + [g];
      forall role ensures KeysGranted(grants[..j + 1], role) ==
        KeysGranted(grants[..j], role) + (if role == g.role then {g.key} else {}) {
      }
      roleKeys := roleKeys[g.role := held + {g.key}];
      j := j + 1;
    }
    assert grants[..j] == grants;
    s := Snapshot(http, byCommand, roleKeys);
  }

  // ---- The tables ----------------------------------------------------------------------------------

  /** The tables a snapshot is compiled from. */
  datatype Tables = Tables(
    keys: map<nat, KeyRow>, bindings: map<nat, BindingRow>, roles: map<nat, string>, roleKeys: set<(nat, nat)>)

  ghost predicate Granted(t: Tables, role: string, key: string) {
    exists r, k :: (r, k) in t.roleKeys && r in t.roles && t.roles[r] == role && k in t.keys && t.keys[k].key == key
  }

  /** A binding row of the given kind that survives the join with its key. */
  predicate Joined(t: Tables, id: nat, target: TargetType) {
    id in t.bindings && t.bindings[id].target == target && t.bindings[id].keyId in t.keys
  }

  function KeyOf(t: Tables, id: nat): string
    requires id in t.bindings && t.bindings[id].keyId in t.keys
  {
    t.keys[t.bindings[id].keyId].key
  }

  /** Two letters that are equal but for ASCII case. */
  ghost predicate SameLetter(c: char, d: char) {
    || c == d
    || ('A' <= c <= 'Z' && d as int == c as int + 32)
    || ('a' <= c <= 'z' && d as int == c as int - 32)
  }

  ghost predicate SameButForCase(a: string, b: string) {
    |a| == |b| && forall i :: 0 <= i < |a| ==> SameLetter(a[i], b[i])
  }

  /** The row binds a route of the surface, with the method up to case and a pattern that covers the
      path, to a key granted to the role. */
  ghost predicate RowAllows(t: Tables, id: nat, role: string, surface: string, httpMethod: string, path: string) {
    && id in t.bindings
    && var row := t.bindings[id];
    && row.target == HttpRoute && row.keyId in t.keys && row.surface == surface
    && row.httpMethod.Some? && SameButForCase(row.httpMethod.value, httpMethod)
    && row.pattern.Some? && Covers(row.pattern.value, path)
    && Granted(t, role, t.keys[row.keyId].key)
  }

  /** Some binding row allows the request. */
  ghost predicate HttpRule(t: Tables, role: string, surface: string, httpMethod: string, path: string) {
    exists id: nat :: RowAllows(t, id, role, surface, httpMethod, path)
  }

  ghost predicate BindsCommand(t: Tables, id: nat, surface: string, command: string) {
    && id in t.bindings
    && var row := t.bindings[id];
    row.target == CliCommand && row.keyId in t.keys && row.surface == surface && row.command == Some(command)
  }

  /** The last binding row for the command has a key granted to the role. */
  ghost predicate CommandRule(t: Tables, role: string, surface: string, command: string) {
    exists id: nat ::
      && BindsCommand(t, id, surface, command)
      && (forall other: nat :: BindsCommand(t, other, surface, command) ==> other <= id)
      && Granted(t, role, t.keys[t.bindings[id].keyId].key)
  }

  lemma SameLowerIsSameButForCase(a: string, b: string)
    ensures Lower(a) == Lower(b) <==> SameButForCase(a, b)
  {
    if Lower(a) == Lower(b) {
      forall i | 0 <= i < |a| ensures SameLetter(a[i], b[i]) {
        assert Lower(a)[i] == Lower(b)[i];
      }
    }
    if SameButForCase(a, b) {
      forall i | 0 <= i < |a| ensures LowerChar(a[i]) == LowerChar(b[i]) {
        assert SameLetter(a[i], b[i]);
      }
    }
  }

  /** The matcher's test on a row is the plain one. */
  lemma RowMatches(t: Tables, id: nat, role: string, surface: string, httpMethod: string, path: string)
    ensures RowAllows(t, id, role, surface, httpMethod, path) <==>
      && Joined(t, id, HttpRoute)
      && t.bindings[id].httpMethod.Some? && t.bindings[id].pattern.Some?
      && Matches(HttpBindingOf(t, id), surface, httpMethod, path)
      && Granted(t, role, KeyOf(t, id))
  {
    if id in t.bindings && t.bindings[id].httpMethod.Some? && t.bindings[id].pattern.Some? {
      MatchesCovered(t.bindings[id].pattern.value, path);
      SameLowerIsSameButForCase(t.bindings[id].httpMethod.value, httpMethod);
    }
    hide Covers, PathPatternMatches, SameButForCase, Granted, Lower;
  }

  function HttpBindingOf(t: Tables, id: nat): HttpBinding
    requires Joined(t, id, HttpRoute) && t.bindings[id].httpMethod.Some? && t.bindings[id].pattern.Some?
  {
    HttpBinding(t.bindings[id].surface, t.bindings[id].httpMethod.value, t.bindings[id].pattern.value, KeyOf(t, id))
  }

  function CommandBindingOf(t: Tables, id: nat): CommandBinding
    requires Joined(t, id, CliCommand) && t.bindings[id].command.Some?
  {
    CommandBinding(t.bindings[id].surface, t.bindings[id].command.value, KeyOf(t, id))
  }

  /** The table's CHECK: routes have a method and a pattern, commands have a name. */
  ghost predicate ColumnsPresent(t: Tables) {
    forall id :: id in t.bindings && t.bindings[id].keyId in t.keys ==>
      && (t.bindings[id].target == HttpRoute ==> t.bindings[id].httpMethod.Some? && t.bindings[id].pattern.Some?)
      && (t.bindings[id].target == CliCommand ==> t.bindings[id].command.Some?)
  }

  // ---- Compiling -------------------------------------------------------------------------------------

  ghost predicate Ascending(ids: seq<nat>) {
    forall i, j :: 0 <= i < j < |ids| ==> ids[i] < ids[j]
  }

  /** The ids of a table in ascending order. */
  method OrderById(rows: map<nat, BindingRow>) returns (ids: seq<nat>)
    ensures Ascending(ids) && forall id :: id in ids <==> id in rows
  {
    ids := [];
    var rest := rows.Keys;
    while rest != {}
      invariant rest <= rows.Keys && Ascending(ids)
      invariant forall id :: id in ids <==> id in rows && id !in rest
      invariant forall a, b :: a in ids && b in rest ==> a < b
      decreases |rest|
    {
      var least := Least(rest);
      assert forall k :: 0 <= k < |ids| ==> ids[k] in ids;
      ids := ids + [least];
      rest := rest - {least};
    }
  }

  method Least(s: set<nat>) returns (m: nat)
    requires s != {}
    ensures m in s && forall x :: x in s ==> m <= x
  {
    m :| m in s;
    var rest := s - {m};
    while rest != {}
      invariant rest <= s && m in s
      invariant forall x :: x in s && x !in rest ==> m <= x
      decreases |rest|
    {
      var x :| x in rest;
      rest := rest - {x};
      if x < m { m := x; }
    }
  }

  datatype CompileError = MissingColumn

  ghost predicate HttpRowsOf(t: Tables, ids: seq<nat>, rows: seq<HttpBinding>) {
    forall b :: b in rows <==>
      exists id ::
        && id in ids && Joined(t, id, HttpRoute)
        && t.bindings[id].httpMethod.Some? && t.bindings[id].pattern.Some?
        && b == HttpBindingOf(t, id)
  }

  method ReadHttpRows(t: Tables, ids: seq<nat>) returns (r: Result<seq<HttpBinding>, CompileError>)
    ensures r.Ok? <==> forall id :: id in ids && Joined(t, id, HttpRoute) ==>
                         t.bindings[id].httpMethod.Some? && t.bindings[id].pattern.Some?
    ensures r.Ok? ==> HttpRowsOf(t, ids, r.value)
  {
    var rows: seq<HttpBinding> := [];
    var i := 0;
    while i < |ids|
      invariant 0 <= i <= |ids|
      invariant forall id :: id in ids[..i] && Joined(t, id, HttpRoute) ==>
                  t.bindings[id].httpMethod.Some? && t.bindings[id].pattern.Some?
      invariant HttpRowsOf(t, ids[..i], rows)
    {
      var id := ids[i];
      assert ids[..i + 1] == ids[..i] + [id];
      if Joined(t, id, HttpRoute) {
        if t.bindings[id].httpMethod.None? || t.bindings[id].pattern.None? { return Err(MissingColumn); }
        rows := rows + [HttpBindingOf(t, id)];
      }
      i := i + 1;
    }
    assert ids[..i] == ids;
    r := Ok(rows);
  }

  /** The key of the last listed row that binds a command. */
  ghost function LastIdKey(t: Tables, ids: seq<nat>, surface: string, command: string): Option<string> {
    if ids == [] then None
    else
      var last := ids[|ids| - 1];
      if BindsCommand(t, last, surface, command) then Some(KeyOf(t, last))
      else LastIdKey(t, ids[..|ids| - 1], surface, command)
  }

  ghost predicate CommandRowsOf(t: Tables, ids: seq<nat>, rows: seq<CommandBinding>) {
    forall surface, command :: LastKey(rows, surface, command) == LastIdKey(t, ids, surface, command)
  }

  method ReadCommandRows(t: Tables, ids: seq<nat>) returns (r: Result<seq<CommandBinding>, CompileError>)
    ensures r.Ok? <==> forall id :: id in ids && Joined(t, id, CliCommand) ==> t.bindings[id].command.Some?
    ensures r.Ok? ==> CommandRowsOf(t, ids, r.value)
  {
    var rows: seq<CommandBinding> := [];
    var i := 0;
    while i < |ids|
      invariant 0 <= i <= |ids|
      invariant forall id :: id in ids[..i] && Joined(t, id, CliCommand) ==> t.bindings[id].command.Some?
      invariant CommandRowsOf(t, ids[..i], rows)
    {
      var id := ids[i];
      assert ids[..i + 1] == ids[..i] + [id] && ids[..i + 1][..i] == ids[..i];
      if Joined(t, id, CliCommand) {
        if t.bindings[id].command.None? { return Err(MissingColumn); }
        var row := CommandBindingOf(t, id);
        assert (rows + [row])[..|rows|] == rows;
        rows := rows + [row];
      }
      i := i + 1;
    }
    assert ids[..i] == ids;
    r := Ok(rows);
  }

  ghost predicate GrantsOf(t: Tables, pairs: set<(nat, nat)>, grants: seq<Grant>) {
    forall role, key ::
      key in KeysGranted(grants, role) <==>
        exists p :: p in pairs && p.0 in t.roles && t.roles[p.0] == role && p.1 in t.keys && t.keys[p.1].key == key
  }

  method ReadGrants(t: Tables) returns (grants: seq<Grant>)
    ensures GrantsOf(t, t.roleKeys, grants)
  {
    grants := [];
    var rest := t.roleKeys;
    while rest != {}
      invariant rest <= t.roleKeys
      invariant GrantsOf(t, t.roleKeys - rest, grants)
      decreases |rest|
    {
      hide GrantsOf;
      var p :| p in rest;
      GrantStep(t, t.roleKeys - rest, grants, p);
      assert t.roleKeys - (rest - {p}) == (t.roleKeys - rest) + {p};
      rest := rest - {p};
      if p.0 in t.roles && p.1 in t.keys {
        grants := grants + [Grant(t.roles[p.0], t.keys[p.1].key)];
      }
    }
    assert t.roleKeys - rest == t.roleKeys;
  }

  lemma GrantStep(t: Tables, pairs: set<(nat, nat)>, grants: seq<Grant>, p: (nat, nat))
    requires GrantsOf(t, pairs, grants)
    ensures GrantsOf(t, pairs + {p},
              if p.0 in t.roles && p.1 in t.keys then grants + [Grant(t.roles[p.0], t.keys[p.1].key)] else grants)
  {
    if p.0 in t.roles && p.1 in t.keys {
      var g := Grant(t.roles[p.0], t.keys[p.1].key);
      forall role ensures
        KeysGranted(grants + [g], role) == KeysGranted(grants, role) + (if role == g.role then {g.key} else {})
      {
      }
    }
  }

  // ---- The snapshot decides as the tables do ---------------------------------------------------------

  ghost predicate Decides(s: Snapshot, t: Tables) {
    && (forall role, surface, httpMethod, path ::
          HttpAllowed(s, role, surface, httpMethod, path) <==> HttpRule(t, role, surface, httpMethod, path))
    && (forall role, surface, command ::
          CommandAllowed(s, role, surface, command) <==> CommandRule(t, role, surface, command))
  }

  lemma {:induction false} LastIdKeyIsLast(t: Tables, ids: seq<nat>, surface: string, command: string)
    requires Ascending(ids)
    ensures LastIdKey(t, ids, surface, command).None? ==>
              forall id :: id in ids ==> !BindsCommand(t, id, surface, command)
    ensures LastIdKey(t, ids, surface, command).Some? ==>
              exists id ::
                && id in ids && BindsCommand(t, id, surface, command)
                && LastIdKey(t, ids, surface, command) == Some(KeyOf(t, id))
                && forall other :: other in ids && BindsCommand(t, other, surface, command) ==> other <= id
  {
    if ids == [] {
    } else {
      var last := |ids| - 1;
      LastIdKeyIsLast(t, ids[..last], surface, command);
      assert forall id :: id in ids <==> id == ids[last] || id in ids[..last];
      assert forall id :: id in ids[..last] ==> id < ids[last];
    }
  }

  lemma GrantedIs(t: Tables, grants: seq<Grant>, role: string, key: string)
    requires GrantsOf(t, t.roleKeys, grants)
    ensures key in KeysGranted(grants, role) <==> Granted(t, role, key)
  {
    if p: (nat, nat) :|
      p in t.roleKeys && p.0 in t.roles && t.roles[p.0] == role && p.1 in t.keys && t.keys[p.1].key == key
    {
      assert (p.0, p.1) == p;
    }
    if r, k :| (r, k) in t.roleKeys && r in t.roles && t.roles[r] == role && k in t.keys && t.keys[k].key == key {
      assert (r, k).0 == r && (r, k).1 == k;
    }
  }

  lemma HttpDecides(t: Tables, s: Snapshot, ids: seq<nat>, commands: seq<CommandBinding>, grants: seq<Grant>,
                    role: string, surface: string, httpMethod: string, path: string)
    requires forall id :: id in ids <==> id in t.bindings
    requires HttpRowsOf(t, ids, s.http) && GrantsOf(t, t.roleKeys, grants)
    requires BuiltFrom(s, s.http, commands, grants)
    ensures HttpAllowed(s, role, surface, httpMethod, path) <==> HttpRule(t, role, surface, httpMethod, path)
  {
    hide Matches, GrantsOf, KeysGranted, Granted;
    if HttpAllowed(s, role, surface, httpMethod, path) {
      var i :| 0 <= i < |s.http| && Matches(s.http[i], surface, httpMethod, path) && s.http[i].key in s.roleKeys[role];
      assert s.http[i] in s.http;
      GrantedIs(t, grants, role, s.http[i].key);
      var id: nat :| id in ids && Joined(t, id, HttpRoute)
        && t.bindings[id].httpMethod.Some? && t.bindings[id].pattern.Some? && s.http[i] == HttpBindingOf(t, id);
      RowMatches(t, id, role, surface, httpMethod, path);
    }
    if HttpRule(t, role, surface, httpMethod, path) {
      var id: nat :| RowAllows(t, id, role, surface, httpMethod, path);
      RowMatches(t, id, role, surface, httpMethod, path);
      GrantedIs(t, grants, role, KeyOf(t, id));
      assert HttpBindingOf(t, id) in s.http;
    }
  }

  lemma CommandDecides(t: Tables, s: Snapshot, ids: seq<nat>, commands: seq<CommandBinding>, grants: seq<Grant>,
                       role: string, surface: string, command: string)
    requires Ascending(ids) && forall id :: id in ids <==> id in t.bindings
    requires CommandRowsOf(t, ids, commands) && GrantsOf(t, t.roleKeys, grants)
    requires BuiltFrom(s, s.http, commands, grants)
    ensures CommandAllowed(s, role, surface, command) <==> CommandRule(t, role, surface, command)
  {
    hide GrantsOf, KeysGranted, Granted;
    LastIdKeyIsLast(t, ids, surface, command);
    assert LastKey(commands, surface, command) == LastIdKey(t, ids, surface, command);
    if (surface, command) in s.commands {
      GrantedIs(t, grants, role, s.commands[(surface, command)]);
    }
  }

  method CompileSnapshot(t: Tables) returns (r: Result<Snapshot, CompileError>)
    ensures r.Ok? <==> ColumnsPresent(t)
    ensures r.Ok? ==> Decides(r.value, t)
  {
    var grants := ReadGrants(t);
    var ids := OrderById(t.bindings);
    var http := ReadHttpRows(t, ids);
    if http.Err? { return Err(MissingColumn); }
    var commands := ReadCommandRows(t, ids);
    if commands.Err? { return Err(MissingColumn); }
    var s := NewSnapshot(http.value, commands.value, grants);
    forall role, surface, httpMethod, path
      ensures HttpAllowed(s, role, surface, httpMethod, path) <==> HttpRule(t, role, surface, httpMethod, path)
    {
      HttpDecides(t, s, ids, commands.value, grants, role, surface, httpMethod, path);
    }
    forall role, surface, command
      ensures CommandAllowed(s, role, surface, command) <==> CommandRule(t, role, surface, command)
    {
      CommandDecides(t, s, ids, commands.value, grants, role, surface, command);
    }
    r := Ok(s);
  }

  // ---- The shared authorizer -------------------------------------------------------------------------

  class SharedAuthorizer {
    var snapshot: Snapshot

    constructor (snapshot: Snapshot)
      ensures this.snapshot == snapshot
    {
      this.snapshot := snapshot;
    }

    method ReplaceSnapshot(next: Snapshot)
      modifies this
      ensures snapshot == next
    {
      snapshot := next;
    }

    /** Compiles the tables and shares the result; a failing compilation leaves the old snapshot. */
    method Refresh(t: Tables) returns (r: Result<(), CompileError>)
      modifies this
      ensures r.Ok? <==> ColumnsPresent(t)
      ensures r.Ok? ==> Decides(snapshot, t)
      ensures r.Err? ==> snapshot == old(snapshot)
    {
      var compiled := CompileSnapshot(t);
      if compiled.Err? { return Err(compiled.error); }
      ReplaceSnapshot(compiled.value);
      r := Ok(());
    }

    /** After a refresh from the tables, the answer is the tables' own rule. */
    method CheckHttp(role: string, surface: string, httpMethod: string, path: string, ghost t: Tables)
        returns (ok: bool)
      requires Decides(snapshot, t)
      ensures ok <==> HttpRule(t, role, surface, httpMethod, path)
    {
      ok := HttpAllowed(snapshot, role, surface, httpMethod, path);
    }

    method CheckCommand(role: string, surface: string, command: string, ghost t: Tables) returns (ok: bool)
      requires Decides(snapshot, t)
      ensures ok <==> CommandRule(t, role, surface, command)
    {
      ok := CommandAllowed(snapshot, role, surface, command);
    }
  }
}

/** The two command line scanners of commands/dynamic.rs. Arguments are plain strings, and "tail"
    is the command line without the program name. */
module Argv {
  import opened Wrappers
  import opened Text

  datatype Flag = Role | Config | Profile | Overlay

  /** What one or two arguments mean where the bootstrap scanner reads them. */
  datatype Unit =
    | Setting(flag: Flag, value: string)
    | VersionFlag
    | HelpFlag
    | Separator
    | Operand(token: string)

  function FlagOf(token: string): Option<Flag> {
    if token == "--role" then Some(Role)
    else if token == "--config" || token == "-c" then Some(Config)
    else if token == "--profile" then Some(Profile)
    else if token == "--overlay-file" then Some(Overlay)
    else None
  }

  function StripPrefix(s: string, prefix: string): Option<string> {
    if StartsWith(s, prefix) then Some(s[|prefix|..]) else None
  }

  /** The setting in a "--flag=value" argument. */
  function AssignmentOf(token: string): Option<Unit> {
    var role := StripPrefix(token, "--role=");
    var config := StripPrefix(token, "--config=");
    var profile := StripPrefix(token, "--profile=");
    var overlay := StripPrefix(token, "--overlay-file=");
    if role.Some? then Some(Setting(Role, role.value))
    else if config.Some? then Some(Setting(Config, config.value))
    else if profile.Some? then Some(Setting(Profile, profile.value))
    else if overlay.Some? then Some(Setting(Overlay, overlay.value))
    else None
  }

  predicate IsVersion(token: string) {
    token == "--version" || token == "-V"
  }

  predicate IsHelp(token: string) {
    token == "--help" || token == "-h"
  }

  function AllOperands(tail: seq<string>): seq<Unit> {
    seq(|tail|, i requires 0 <= i < |tail| => Operand(tail[i]))
  }

  /** The unit an argument starts, given the argument after it, if any. */
  function HeadUnit(x: string, next: Option<string>): Unit {
    if x == "--" then Separator
    else if FlagOf(x).Some? && next.Some? then Setting(FlagOf(x).value, next.value)
    else if AssignmentOf(x).Some? then AssignmentOf(x).value
    else if IsVersion(x) then VersionFlag
    else if IsHelp(x) then HelpFlag
    else Operand(x)
  }

  function HeadWidth(x: string, next: Option<string>): nat {
    if FlagOf(x).Some? && next.Some? then 2 else 1
  }

  function Second(tail: seq<string>): Option<string> {
    if |tail| > 1 then Some(tail[1]) else None
  }

  /** How the bootstrap scanner divides a command line. A value flag at the very end has no value
      and counts as an operand. */
  function Units(tail: seq<string>): seq<Unit>
    decreases |tail|
  {
    if tail == [] then []
    else if tail[0] == "--" then [Separator] + AllOperands(tail[1..])
    else [HeadUnit(tail[0], Second(tail))] + Units(tail[HeadWidth(tail[0], Second(tail))..])
  }

  /** The command followed by its arguments. */
  function Operands(units: seq<Unit>): seq<string> {
    if units == [] then []
    else (if units[0].Operand? then [units[0].token] else []) + Operands(units[1..])
  }

  /** The values given for a flag, in order. */
  function Values(units: seq<Unit>, flag: Flag): seq<string> {
    if units == [] then []
    else (if units[0].Setting? && units[0].flag == flag then [units[0].value] else []) + Values(units[1..], flag)
  }

  function LastOr(values: seq<string>, default: string): string {
    if values == [] then default else values[|values| - 1]
  }

  function ResolveRole(raw: string): string {
    var role := Trim(IsWhitespace, raw);
    if role == "" then "admin" else Lower(role)
  }

  datatype BootstrapOptions = BootstrapOptions(
    role: string, config: string, profile: Option<string>, overlays: seq<string>,
    version: bool, command: Option<string>, args: seq<string>)

  /** What the bootstrap scanner must return: the last value of each single option, all overlays,
      and the operands split into command and arguments. */
  function OptionsOf(units: seq<Unit>, envRole: Option<string>): BootstrapOptions {
    var profiles := Values(units, Profile);
    var operands := Operands(units);
    BootstrapOptions(
      ResolveRole(LastOr(Values(units, Role), if envRole.Some? then envRole.value else "admin")),
      LastOr(Values(units, Config), "config.toml"),
      if profiles == [] then None else Some(LastOr(profiles, "")),
      Values(units, Overlay),
      VersionFlag in units,
      if operands == [] then None else Some(operands[0]),
      if operands == [] then [] else operands[1..])
  }

  lemma {:induction false} OperandsAppend(a: seq<Unit>, b: seq<Unit>)
    ensures Operands(a + b) == Operands(a) + Operands(b)
  {
    if a == [] {
      assert a + b == b;
    } else {
      assert (a + b)[1..] == a[1..] + b;
      OperandsAppend(a[1..], b);
    }
  }

  lemma {:induction false} ValuesAppend(a: seq<Unit>, b: seq<Unit>, flag: Flag)
    ensures Values(a + b, flag) == Values(a, flag) + Values(b, flag)
  {
    if a == [] {
      assert a + b == b;
    } else {
      assert (a + b)[1..] == a[1..] + b;
      ValuesAppend(a[1..], b, flag);
    }
  }

  // ---- The bootstrap scanner -------------------------------------------------------------------------

  /** The scanner's locals after the units read so far; the role is not resolved yet. */
  ghost predicate Collected(done: seq<Unit>, envRole: Option<string>, o: BootstrapOptions) {
    && o.role == LastOr(Values(done, Role), if envRole.Some? then envRole.value else "admin")
    && o.config == LastOr(Values(done, Config), "config.toml")
    && o.profile == (if Values(done, Profile) == [] then None else Some(LastOr(Values(done, Profile), "")))
    && o.overlays == Values(done, Overlay)
    && o.version == (VersionFlag in done)
    && Operands(done) == (if o.command.None? then [] else [o.command.value] + o.args)
    && (o.command.None? ==> o.args == [])
  }

  function InitialOptions(envRole: Option<string>): BootstrapOptions {
    BootstrapOptions(if envRole.Some? then envRole.value else "admin", "config.toml", None, [], false, None, [])
  }

  /** Stores one unit in the locals it belongs to. */
  function Store(o: BootstrapOptions, u: Unit): BootstrapOptions {
    match u
    case Setting(Role, value) => o.(role := value)
    case Setting(Config, value) => o.(config := value)
    case Setting(Profile, value) => o.(profile := Some(value))
    case Setting(Overlay, value) => o.(overlays := o.overlays + [value])
    case VersionFlag => o.(version := true)
    case HelpFlag => o
    case Separator => o
    case Operand(token) => if o.command.None? then o.(command := Some(token)) else o.(args := o.args + [token])
  }

  lemma CollectOne(done: seq<Unit>, u: Unit)
    ensures Operands(done + [u]) == Operands(done) + (if u.Operand? then [u.token] else [])
    ensures forall flag :: Values(done + [u], flag) ==
              Values(done, flag) + (if u.Setting? && u.flag == flag then [u.value] else [])
    ensures VersionFlag in done + [u] <==> VersionFlag in done || u.VersionFlag?
  {
    OperandsAppend(done, [u]);
    assert Operands([u]) == (if u.Operand? then [u.token] else []) + Operands([]);
    forall flag ensures Values(done + [u], flag) ==
      Values(done, flag) + (if u.Setting? && u.flag == flag then [u.value] else [])
    {
      ValuesAppend(done, [u], flag);
      assert Values([u], flag) == (if u.Setting? && u.flag == flag then [u.value] else []) + Values([], flag);
    }
  }

  /** The units of what is left to read. */
  function RestUnits(rest: seq<string>, afterSeparator: bool): seq<Unit> {
    if afterSeparator then AllOperands(rest) else Units(rest)
  }

  method ParseBootstrapOptions(argv: seq<string>, envRole: Option<string>) returns (o: BootstrapOptions)
    ensures o == OptionsOf(Units(if argv == [] then [] else argv[1..]), envRole)
  {
    hide Collected, RestUnits, OptionsOf, Units, TodoAt, Store;
    o := InitialOptions(envRole);
    var index := 1;
    var afterSeparator := false;
    ghost var all := Units(if argv == [] then [] else argv[1..]);
    ghost var done: seq<Unit> := [];
    NothingCollected(argv, envRole);
    while index < |argv|
      invariant 1 <= index
      invariant all == done + TodoAt(argv, index, afterSeparator)
      invariant Collected(done, envRole, o)
    {
      var unit, width := NextUnit(argv[index..], afterSeparator);
      NextRest(argv, index, width, afterSeparator, afterSeparator || unit.Separator?);
      Regroup(done, unit, TodoAt(argv, index + width, afterSeparator || unit.Separator?));
      StoreStep(done, envRole, o, unit);
      afterSeparator := afterSeparator || unit.Separator?;
      o := Store(o, unit);
      done := done + [unit];
      index := index + width;
    }
    NothingLeft(argv, index, afterSeparator);
    assert done + [] == done;
    CollectedOptions(done, envRole, o);
    o := o.(role := ResolveRole(o.role));
  }

  lemma NothingCollected(argv: seq<string>, envRole: Option<string>)
    ensures Collected([], envRole, InitialOptions(envRole))
    ensures Units(if argv == [] then [] else argv[1..]) == [] + TodoAt(argv, 1, false)
  {
  }

  lemma Regroup(done: seq<Unit>, u: Unit, todo: seq<Unit>)
    ensures done + ([u] + todo) == done + [u] + todo
  {
  }

  function TodoAt(argv: seq<string>, index: nat, afterSeparator: bool): seq<Unit> {
    if index < |argv| then RestUnits(argv[index..], afterSeparator) else []
  }

  lemma NextRest(argv: seq<string>, index: nat, width: nat, before: bool, after: bool)
    requires index < |argv| && index + width <= |argv|
    ensures TodoAt(argv, index, before) == RestUnits(argv[index..], before)
    ensures TodoAt(argv, index + width, after) == RestUnits(argv[index..][width..], after)
  {
    assert argv[index..][width..] == argv[index + width..];
  }

  lemma NothingLeft(argv: seq<string>, index: nat, afterSeparator: bool)
    requires index >= |argv|
    ensures TodoAt(argv, index, afterSeparator) == []
  {
  }

  lemma StoreStep(done: seq<Unit>, envRole: Option<string>, o: BootstrapOptions, u: Unit)
    requires Collected(done, envRole, o)
    ensures Collected(done + [u], envRole, Store(o, u))
  {
    CollectOne(done, u);
    hide Operands, Values;
    if u.Operand? && o.command.Some? {
      assert [o.command.value] + o.args + [u.token] == [o.command.value] + (o.args + [u.token]);
    }
  }

  lemma CollectedOptions(done: seq<Unit>, envRole: Option<string>, o: BootstrapOptions)
    requires Collected(done, envRole, o)
    ensures OptionsOf(done, envRole) == o.(role := ResolveRole(o.role))
  {
    hide Operands, Values, LastOr, ResolveRole;
  }

  /** Reads one unit off a non-empty rest. */
  method NextUnit(rest: seq<string>, afterSeparator: bool) returns (unit: Unit, width: nat)
    requires rest != []
    ensures 1 <= width <= |rest|
    ensures RestUnits(rest, afterSeparator) == [unit] + RestUnits(rest[width..], afterSeparator || unit.Separator?)
    ensures afterSeparator ==> unit.Operand?
  {
    var value := rest[0];
    if !afterSeparator {
      if value == "--" { return Separator, 1; }
      if |rest| > 1 {
        var flag := FlagOf(value);
        if flag.Some? { return Setting(flag.value, rest[1]), 2; }
      }
      var assignment := AssignmentOf(value);
      if assignment.Some? { return assignment.value, 1; }
      if IsVersion(value) { return VersionFlag, 1; }
      if IsHelp(value) { return HelpFlag, 1; }
    } else {
      assert AllOperands(rest) == [Operand(value)] + AllOperands(rest[1..]);
    }
    unit, width := Operand(value), 1;
  }

  // ---- The runtime normaliser --------------------------------------------------------------------------

  /** An argument the normaliser keeps where it reads it. */
  predicate Kept(token: string) {
    FlagOf(token).None? && AssignmentOf(token).None?
  }

  function Normalized(tail: seq<string>): seq<string>
    decreases |tail|
  {
    if tail == [] then []
    else if FlagOf(tail[0]).Some? then (if |tail| > 1 then Normalized(tail[2..]) else [])
    else if AssignmentOf(tail[0]).Some? then Normalized(tail[1..])
    else [tail[0]] + Normalized(tail[1..])
  }

  function NormalizedArgv(argv: seq<string>): seq<string> {
    if argv == [] then [] else [argv[0]] + Normalized(argv[1..])
  }

  function NormalizedFrom(argv: seq<string>, index: nat): seq<string> {
    if index <= |argv| then Normalized(argv[index..]) else []
  }

  lemma NormalizedNext(argv: seq<string>, index: nat)
    requires index < |argv|
    ensures NormalizedFrom(argv, index) ==
      if FlagOf(argv[index]).Some? then NormalizedFrom(argv, index + 2)
      else if AssignmentOf(argv[index]).Some? then NormalizedFrom(argv, index + 1)
      else [argv[index]] + NormalizedFrom(argv, index + 1)
  {
    hide FlagOf, AssignmentOf;
    assert argv[index..][1..] == argv[index + 1..];
    assert index + 2 <= |argv| ==> argv[index..][2..] == argv[index + 2..];
  }

  method NormalizeRuntimeArgv(argv: seq<string>) returns (normalized: seq<string>)
    ensures normalized == NormalizedArgv(argv)
  {
    normalized := [];
    if argv == [] { return; }
    normalized := [argv[0]];
    var index := 1;
    while index < |argv|
      invariant 1 <= index
      invariant NormalizedArgv(argv) == normalized + NormalizedFrom(argv, index)
    {
      hide FlagOf, AssignmentOf, NormalizedFrom, NormalizedArgv;
      var value := argv[index];
      NormalizedNext(argv, index);
      if FlagOf(value).Some? {
        index := index + 2;
        continue;
      }
      if AssignmentOf(value).Some? {
        index := index + 1;
        continue;
      }
      normalized := normalized + [value];
      index := index + 1;
    }
  }
}

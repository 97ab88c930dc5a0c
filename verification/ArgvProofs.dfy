/** When the two command line scanners agree, and what neither depends on. */
module ArgvProofs {
  import opened Wrappers
  import opened Text
  import opened Argv

  // ---- Classes of arguments --------------------------------------------------------------------

  lemma StartDiffers(s: string, prefix: string, i: nat)
    requires i < |prefix| && (i < |s| ==> s[i] != prefix[i])
    ensures !StartsWith(s, prefix)
  {
    assert |prefix| <= |s| ==> s[0..|prefix|][i] == s[i];
  }

  /** The arguments that only the bootstrap scanner treats specially. */
  predicate OnlyBootstrap(token: string) {
    token == "--" || IsVersion(token) || IsHelp(token)
  }

  lemma ShortHasNoAssignment(token: string)
    requires |token| < 7
    ensures AssignmentOf(token).None?
  {
  }

  lemma OnlyBootstrapIsKept(token: string)
    requires OnlyBootstrap(token)
    ensures Kept(token)
  {
    if token == "--version" {
      StartDiffers(token, "--role=", 2);
      StartDiffers(token, "--config=", 2);
      StartDiffers(token, "--profile=", 2);
      StartDiffers(token, "--overlay-file=", 2);
    } else {
      ShortHasNoAssignment(token);
    }
  }

  lemma ValueFlagIsNoAssignment(token: string)
    requires FlagOf(token).Some?
    ensures AssignmentOf(token).None? && !OnlyBootstrap(token)
  {
    StartDiffers(token, "--role=", 6);
    StartDiffers(token, "--config=", 8);
    StartDiffers(token, "--profile=", 9);
    StartDiffers(token, "--overlay-file=", 14);
  }

  // ---- The normaliser keeps exactly the kept arguments -------------------------------------------

  ghost predicate AllKept(tokens: seq<string>) {
    forall i :: 0 <= i < |tokens| ==> Kept(tokens[i])
  }

  lemma {:induction false} NormalizedIsKept(tail: seq<string>)
    ensures AllKept(Normalized(tail))
    decreases |tail|
  {
    if tail == [] {
    } else {
      if FlagOf(tail[0]).Some? {
        if |tail| > 1 { NormalizedIsKept(tail[2..]); }
      } else {
        NormalizedIsKept(tail[1..]);
      }
    }
  }

  lemma {:induction false} KeptPassThrough(front: seq<string>, rest: seq<string>)
    requires AllKept(front)
    ensures Normalized(front + rest) == front + Normalized(rest)
  {
    if front == [] {
      assert front + rest == rest;
    } else {
      assert (front + rest)[1..] == front[1..] + rest;
      KeptPassThrough(front[1..], rest);
      assert Kept(front[0]);
    }
  }

  /** Normalising a normalised command line changes nothing, for every command line. */
  lemma {:induction false} NormalizeTwice(argv: seq<string>)
    ensures NormalizedArgv(NormalizedArgv(argv)) == NormalizedArgv(argv)
  {
    if argv != [] {
      var once := Normalized(argv[1..]);
      NormalizedIsKept(argv[1..]);
      KeptPassThrough(once, []);
      assert once + [] == once && ([argv[0]] + once)[1..] == once;
    }
  }

  // ---- Agreement ---------------------------------------------------------------------------------

  /** What the bootstrap scanner finds is clean: no separator, no version or help flag, and no value
      flag left without a value. */
  ghost predicate Clean(tail: seq<string>) {
    forall u :: u in Units(tail) ==> u.Setting? || (u.Operand? && FlagOf(u.token).None?)
  }

  lemma {:induction false} RawOperands(tail: seq<string>)
    ensures Operands(AllOperands(tail)) == tail
  {
    if tail == [] {
    } else {
      RawOperands(tail[1..]);
      assert AllOperands(tail) == [Operand(tail[0])] + AllOperands(tail[1..]);
    }
  }

  /** A command line never equals its own normal form behind more kept arguments. */
  lemma {:induction false} NeverShifted(front: seq<string>, tail: seq<string>)
    requires front != [] && AllKept(front)
    ensures tail != front + Normalized(tail)
    decreases |tail|
  {
    if |front| <= |tail| && tail[..|front|] == front {
      var rest := tail[|front|..];
      assert tail == front + rest;
      KeptPassThrough(front, rest);
      NeverShifted(front, rest);
      assert (front + Normalized(tail))[|front|..] == Normalized(tail);
    }
  }

  ghost predicate AllOnlyBootstrap(tokens: seq<string>) {
    forall i :: 0 <= i < |tokens| ==> OnlyBootstrap(tokens[i])
  }

  lemma OnlyBootstrapAreKept(tokens: seq<string>)
    requires AllOnlyBootstrap(tokens)
    ensures AllKept(tokens)
  {
    forall i | 0 <= i < |tokens| ensures Kept(tokens[i]) { OnlyBootstrapIsKept(tokens[i]); }
  }

  lemma FirstDiffers(x: string, xs: seq<string>, front: seq<string>, rest: seq<string>)
    requires front != [] && AllOnlyBootstrap(front) && !OnlyBootstrap(x)
    ensures [x] + xs != front + rest
  {
    assert ([x] + xs)[0] == x && (front + rest)[0] == front[0];
  }

  lemma {:induction false} NeverCatchesUp(front: seq<string>, tail: seq<string>)
    requires front != [] && AllOnlyBootstrap(front)
    ensures Operands(Units(tail)) != front + Normalized(tail)
    decreases |tail|
  {
    if tail == [] {
    } else {
      var x := tail[0];
      if x == "--" {
        OnlyBootstrapIsKept(x);
        RawOperands(tail[1..]);
        OnlyBootstrapAreKept(front + [x]);
        NeverShifted(front + [x], tail[1..]);
        assert front + ([x] + Normalized(tail[1..])) == front + [x] + Normalized(tail[1..]);
      } else if FlagOf(x).Some? {
        ValueFlagIsNoAssignment(x);
        if |tail| > 1 { NeverCatchesUp(front, tail[2..]); } else { FirstDiffers(x, [], front, []); }
      } else if AssignmentOf(x).Some? {
        NeverCatchesUp(front, tail[1..]);
      } else if OnlyBootstrap(x) {
        NeverCatchesUp(front + [x], tail[1..]);
        assert front + ([x] + Normalized(tail[1..])) == front + [x] + Normalized(tail[1..]);
      } else {
        FirstDiffers(x, Operands(Units(tail[1..])), front, Normalized(tail));
      }
    }
  }

  lemma UnitsOfRest(u: Unit, rest: seq<Unit>)
    ensures forall v :: v in [u] + rest <==> v == u || v in rest
  {
  }

  /** The two scanners see the same command and arguments exactly on clean command lines. */
  lemma {:induction false} ScannersAgree(tail: seq<string>)
    ensures Operands(Units(tail)) == Normalized(tail) <==> Clean(tail)
    decreases |tail|
  {
    if tail == [] {
    } else {
      var x := tail[0];
      if x == "--" {
        assert Separator in Units(tail);
        OnlyBootstrapIsKept(x);
        RawOperands(tail[1..]);
        OnlyBootstrapAreKept([x]);
        NeverShifted([x], tail[1..]);
      } else if FlagOf(x).Some? {
        ValueFlagIsNoAssignment(x);
        if |tail| > 1 {
          ScannersAgree(tail[2..]);
          UnitsOfRest(Setting(FlagOf(x).value, tail[1]), Units(tail[2..]));
        } else {
          assert Operand(x) in Units(tail);
        }
      } else if AssignmentOf(x).Some? {
        ScannersAgree(tail[1..]);
        UnitsOfRest(AssignmentOf(x).value, Units(tail[1..]));
      } else if OnlyBootstrap(x) {
        assert VersionFlag in Units(tail) || HelpFlag in Units(tail);
        NeverCatchesUp([x], tail[1..]);
      } else {
        ScannersAgree(tail[1..]);
        UnitsOfRest(Operand(x), Units(tail[1..]));
        SameTail(x, Operands(Units(tail[1..])), Normalized(tail[1..]));
      }
    }
  }

  /** A separator makes them differ: the normaliser keeps it as an argument. */
  lemma SeparatorDivides()
    ensures var tail := ["--", "x"];
      !Clean(tail) && Operands(Units(tail)) == ["x"] && Normalized(tail) == ["--", "x"]
  {
    var tail := ["--", "x"];
    assert tail[1..] == ["x"] && ["x"][1..] == [];
    assert Units(tail) == [Separator] + AllOperands(["x"]);
    RawOperands(["x"]);
    assert Operands(Units(tail)) == [] + Operands(Units(tail)[1..]);
    ShortHasNoAssignment("--");
    ShortHasNoAssignment("x");
    assert Separator in Units(tail);
  }

  lemma SameTail(x: string, a: seq<string>, b: seq<string>)
    ensures [x] + a == [x] + b <==> a == b
  {
    assert ([x] + a)[1..] == a && ([x] + b)[1..] == b;
  }

  /** Stated for whole command lines: after the program name, the normalised line is the parsed
      command followed by its arguments, exactly when the line is clean. */
  lemma {:induction false} NormalizedIsCommandAndArgs(program: string, tail: seq<string>, envRole: Option<string>)
    ensures NormalizedArgv([program] + tail) != []
    ensures var o := OptionsOf(Units(tail), envRole);
      var parsed := if o.command.None? then [] else [o.command.value] + o.args;
      NormalizedArgv([program] + tail)[1..] == parsed <==> Clean(tail)
  {
    ScannersAgree(tail);
    NormalizedRest(program, tail);
    CommandAndArgs(Units(tail), envRole);
  }

  lemma NormalizedRest(program: string, tail: seq<string>)
    ensures NormalizedArgv([program] + tail)[1..] == Normalized(tail)
  {
    assert ([program] + tail)[1..] == tail;
  }

  lemma CommandAndArgs(units: seq<Unit>, envRole: Option<string>)
    ensures var o := OptionsOf(units, envRole);
      Operands(units) == if o.command.None? then [] else [o.command.value] + o.args
  {
    hide Values, ResolveRole, LastOr;
    var operands := Operands(units);
    assert operands != [] ==> [operands[0]] + operands[1..] == operands;
  }

  // ---- Moving a global option ----------------------------------------------------------------------

  /** `front` ends at a boundary between arguments that belong together, before any separator. */
  ghost predicate EndsAtBoundary(front: seq<string>) {
    forall u :: u in Units(front) ==> !u.Separator? && (u.Operand? ==> FlagOf(u.token).None?)
  }

  /** The first argument of a non-empty front, and how far its unit reaches. */
  lemma BoundaryStep(front: seq<string>) returns (width: nat)
    requires EndsAtBoundary(front) && front != []
    ensures 1 <= width <= |front| && front[0] != "--" && EndsAtBoundary(front[width..])
    ensures width == if FlagOf(front[0]).Some? then 2 else 1
  {
    var x := front[0];
    ValueFlagOrNot(x);
    assert x == "--" ==> Separator in Units(front);
    assert FlagOf(x).Some? && |front| == 1 ==> Operand(x) in Units(front);
    width := if FlagOf(x).Some? then 2 else 1;
    UnitsOfRest(Units(front)[0], Units(front[width..]));
  }

  lemma ValueFlagOrNot(token: string)
    ensures FlagOf(token).Some? ==> AssignmentOf(token).None? && !OnlyBootstrap(token)
  {
    if FlagOf(token).Some? { ValueFlagIsNoAssignment(token); }
  }

  lemma {:induction false} UnitsSplit(front: seq<string>, rest: seq<string>)
    requires EndsAtBoundary(front)
    ensures Units(front + rest) == Units(front) + Units(rest)
    decreases |front|
  {
    hide EndsAtBoundary, Units;
    if front == [] {
      assert front + rest == rest && Units(front) == [] && Units(front) + Units(rest) == Units(rest) by { NoUnits(); }
    } else {
      var width := BoundaryStep(front);
      UnitsSplit(front[width..], rest);
      var u := FirstUnit(front, rest, width);
      assert [u] + (Units(front[width..]) + Units(rest)) == Units(front) + Units(rest);
    }
  }

  lemma NoUnits()
    ensures Units([]) == []
  {
  }

  /** What follows does not change the first unit. */
  lemma FirstUnit(front: seq<string>, rest: seq<string>, width: nat) returns (u: Unit)
    requires front != [] && width <= |front| && width == if FlagOf(front[0]).Some? then 2 else 1
    requires front[0] != "--"
    ensures Units(front) == [u] + Units(front[width..])
    ensures Units(front + rest) == [u] + Units(front[width..] + rest)
  {
    SameHead(front, rest, width);
    UnitsHead(front);
    UnitsHead(front + rest);
    u := HeadUnit(front[0], Second(front));
    hide HeadUnit, HeadWidth, FlagOf, Units;
    assert (front + rest)[width..] == front[width..] + rest;
  }

  lemma UnitsHead(tail: seq<string>)
    requires tail != [] && tail[0] != "--"
    ensures Units(tail) == [HeadUnit(tail[0], Second(tail))] + Units(tail[HeadWidth(tail[0], Second(tail))..])
  {
    hide HeadUnit, FlagOf;
  }

  lemma SameHead(front: seq<string>, rest: seq<string>, width: nat)
    requires front != [] && width <= |front| && width == if FlagOf(front[0]).Some? then 2 else 1
    ensures HeadWidth(front[0], Second(front)) == HeadWidth(front[0], Second(front + rest)) == width
    ensures HeadUnit(front[0], Second(front)) == HeadUnit(front[0], Second(front + rest))
  {
  }

  lemma {:induction false} NormalizedSplit(front: seq<string>, rest: seq<string>)
    requires EndsAtBoundary(front)
    ensures Normalized(front + rest) == Normalized(front) + Normalized(rest)
    decreases |front|
  {
    if front == [] {
      assert front + rest == rest;
    } else {
      var width := BoundaryStep(front);
      NormalizedSplit(front[width..], rest);
      assert (front + rest)[width..] == front[width..] + rest;
      hide EndsAtBoundary, AssignmentOf;
    }
  }

  /** One global option, written as two arguments or as one. */
  ghost predicate IsOption(option: seq<string>) {
    || (|option| == 2 && FlagOf(option[0]).Some?)
    || (|option| == 1 && AssignmentOf(option[0]).Some? && FlagOf(option[0]).None?)
  }

  lemma OptionIsInvisible(option: seq<string>, rest: seq<string>)
    requires IsOption(option)
    ensures Operands(Units(option + rest)) == Operands(Units(rest))
    ensures Normalized(option + rest) == Normalized(rest)
  {
    var all := option + rest;
    if |option| == 2 {
      assert all[2..] == rest;
    } else {
      assert all[1..] == rest;
      if option[0] == "--" { ShortHasNoAssignment(option[0]); }
    }
  }

  /** A global option at any boundary leaves command and arguments of both scanners alone. */
  lemma {:induction false} OptionAnywhere(front: seq<string>, option: seq<string>, rest: seq<string>)
    requires EndsAtBoundary(front) && IsOption(option)
    ensures Operands(Units(front + option + rest)) == Operands(Units(front + rest))
    ensures Normalized(front + option + rest) == Normalized(front + rest)
  {
    hide Units, Operands, Normalized, EndsAtBoundary, IsOption;
    assert front + option + rest == front + (option + rest);
    UnitsSplit(front, option + rest);
    UnitsSplit(front, rest);
    NormalizedSplit(front, option + rest);
    NormalizedSplit(front, rest);
    OptionIsInvisible(option, rest);
    OperandsAppend(Units(front), Units(option + rest));
    OperandsAppend(Units(front), Units(rest));
  }

  /** So moving it from one boundary to another changes neither. */
  lemma {:induction false} MovingAnOption(front: seq<string>, rest: seq<string>, front2: seq<string>,
                                          rest2: seq<string>,
                                          option: seq<string>, envRole: Option<string>)
    requires front + rest == front2 + rest2
    requires EndsAtBoundary(front) && EndsAtBoundary(front2) && IsOption(option)
    ensures var a := OptionsOf(Units(front + option + rest), envRole);
      var b := OptionsOf(Units(front2 + option + rest2), envRole);
      a.command == b.command && a.args == b.args
    ensures Normalized(front + option + rest) == Normalized(front2 + option + rest2)
  {
    OptionAnywhere(front, option, rest);
    OptionAnywhere(front2, option, rest2);
  }

  // ---- The options in plain words -----------------------------------------------------------------------

  /** Which argument takes which value from the argument behind it. */
  lemma ValueFlags(token: string)
    ensures FlagOf(token) == Some(Role) <==> token == "--role"
    ensures FlagOf(token) == Some(Config) <==> token == "--config" || token == "-c"
    ensures FlagOf(token) == Some(Profile) <==> token == "--profile"
    ensures FlagOf(token) == Some(Overlay) <==> token == "--overlay-file"
  {
    if |token| > 6 { assert token != "--role" && token != "-c"; }
  }

  /** Which argument carries its value behind an equals sign. */
  lemma Assignments(token: string, value: string)
    ensures AssignmentOf(token) == Some(Setting(Role, value)) <==> token == "--role=" + value
    ensures AssignmentOf(token) == Some(Setting(Config, value)) <==> token == "--config=" + value
    ensures AssignmentOf(token) == Some(Setting(Profile, value)) <==> token == "--profile=" + value
    ensures AssignmentOf(token) == Some(Setting(Overlay, value)) <==> token == "--overlay-file=" + value
    ensures AssignmentOf(token).Some? ==> AssignmentOf(token).value.Setting?
  {
    AssignmentIs(token, "--role=", value);
    AssignmentIs(token, "--config=", value);
    AssignmentIs(token, "--profile=", value);
    AssignmentIs(token, "--overlay-file=", value);
    OneAssignment(token);
    hide StripPrefix, StartsWith;
  }

  lemma AssignmentIs(token: string, prefix: string, value: string)
    ensures StripPrefix(token, prefix) == Some(value) <==> token == prefix + value
  {
    if StartsWith(token, prefix) { assert token == prefix + token[|prefix|..]; }
    if token == prefix + value { assert token[0..|prefix|] == prefix && token[|prefix|..] == value; }
  }

  /** No argument starts like two of them. */
  lemma OneAssignment(token: string)
    ensures StripPrefix(token, "--role=").Some? ==>
              StripPrefix(token, "--config=").None? && StripPrefix(token, "--profile=").None?
              && StripPrefix(token, "--overlay-file=").None?
    ensures StripPrefix(token, "--config=").Some? ==>
              StripPrefix(token, "--profile=").None? && StripPrefix(token, "--overlay-file=").None?
    ensures StripPrefix(token, "--profile=").Some? ==> StripPrefix(token, "--overlay-file=").None?
  {
    ThirdLetter(token, "--role=", 'r');
    ThirdLetter(token, "--config=", 'c');
    ThirdLetter(token, "--profile=", 'p');
    ThirdLetter(token, "--overlay-file=", 'o');
    hide StartsWith;
  }

  lemma ThirdLetter(token: string, prefix: string, c: char)
    requires |prefix| > 2 && prefix[2] == c
    ensures StripPrefix(token, prefix).Some? ==> |token| > 2 && token[2] == c
  {
    if StartsWith(token, prefix) { assert token[0..|prefix|][2] == token[2]; }
  }

  lemma InformationFlags(token: string)
    ensures IsVersion(token) <==> token == "--version" || token == "-V"
    ensures IsHelp(token) <==> token == "--help" || token == "-h"
  {
  }

  /** A role is trimmed and lower-cased, and a blank one means the administrator. */
  lemma RoleText(raw: string, text: string)
    requires Stripped(IsWhitespace, raw, text)
    ensures ResolveRole(raw) == if text == "" then "admin" else Lower(text)
  {
    StrippedIsTrim(IsWhitespace, raw, text);
    hide Stripped, Trim, Lower;
  }
}

/** Relative paths of the file browser: normalising, parsing, and joining to a root. */
module FilePaths {
  import opened Wrappers
  import opened Text
  import opened FileTree
  import opened FileSystem

  // ---- Parsing -------------------------------------------------------------------------------

  function NormalizeRelPath(raw: string): (r: string)
    ensures r != "" ==> !IsWhitespace(r[0]) && !IsWhitespace(r[|r| - 1])
    ensures r != "."
  {
    var trimmed := Trim(IsWhitespace, Trim(IsSlash, raw));
    if trimmed == "." then "" else trimmed
  }

  datatype Component = RootDir | CurDir | ParentDir | Normal(name: string)

  function PieceComponents(pieces: seq<string>): seq<Component> {
    if pieces == [] then []
    else
      (if pieces[0] == "" || pieces[0] == "." then []
       else if pieces[0] == ".." then [ParentDir]
       else [Normal(pieces[0])]) + PieceComponents(pieces[1..])
  }

  /** The components of a Unix path: empty pieces and inner "." pieces vanish. */
  function Components(path: string): seq<Component> {
    var pieces := Split(path, '/');
    (if path != "" && path[0] == '/' then [RootDir] else if pieces[0] == "." then [CurDir] else [])
    + PieceComponents(pieces)
  }

  predicate IsHidden(segment: string) {
    segment != "" && segment[0] == '.'
  }

  /** The segments of a component list, up to the first component that is not allowed. */
  function Collect(components: seq<Component>, noDots: bool): Result<seq<string>, FsError> {
    if components == [] then Ok([])
    else match components[0]
      case CurDir => Collect(components[1..], noDots)
      case ParentDir => Err(InvalidPath)
      case RootDir => Err(InvalidPath)
      case Normal(name) =>
        if name == "" then Err(InvalidPath)
        else if noDots && IsHidden(name) then Err(ForbiddenHidden)
        else
          match Collect(components[1..], noDots)
          case Ok(rest) => Ok([name] + rest)
          case Err(error) => Err(error)
  }

  function ParseSegments(raw: string, noDots: bool): Result<seq<string>, FsError> {
    var normalized := NormalizeRelPath(raw);
    if normalized == "" then Ok([])
    else if normalized[0] == '/' then Err(InvalidPath)
    else Collect(Components(normalized), noDots)
  }

  /** Both results, one after the other; the first error wins. */
  function Both(a: Result<seq<string>, FsError>, b: Result<seq<string>, FsError>): Result<seq<string>, FsError> {
    if a.Err? then a else if b.Err? then b else Ok(a.value + b.value)
  }

  lemma {:induction false} CollectAppend(a: seq<Component>, b: seq<Component>, noDots: bool)
    ensures Collect(a + b, noDots) == Both(Collect(a, noDots), Collect(b, noDots))
  {
    if a == [] {
      assert a + b == b;
      assert forall y: seq<string> :: [] + y == y;
    } else {
      assert (a + b)[1..] == a[1..] + b;
      CollectAppend(a[1..], b, noDots);
      if a[0].Normal? {
        assert forall x: seq<string>, y: seq<string> :: [a[0].name] + (x + y) == [a[0].name] + x + y;
      }
    }
  }

  // ---- What a path spells, in plain terms ----------------------------------------------------------

  /** A piece that makes the path unacceptable. */
  ghost predicate Refused(piece: string, noDots: bool) {
    piece == ".." || (noDots && piece != "" && piece != "." && piece[0] == '.')
  }

  /** The pieces that name something. */
  ghost function Named(pieces: seq<string>): seq<string> {
    if pieces == [] then []
    else (if pieces[0] == "" || pieces[0] == "." then [] else [pieces[0]]) + Named(pieces[1..])
  }

  /** The first refused piece decides the error; without one, the pieces that name something are left. */
  ghost predicate PiecesSpell(pieces: seq<string>, noDots: bool, r: Result<seq<string>, FsError>) {
    match r
    case Ok(segments) =>
      segments == Named(pieces) && forall i :: 0 <= i < |pieces| ==> !Refused(pieces[i], noDots)
    case Err(error) =>
      exists i :: 0 <= i < |pieces| && Refused(pieces[i], noDots)
        && (forall j :: 0 <= j < i ==> !Refused(pieces[j], noDots))
        && error == if pieces[i] == ".." then InvalidPath else ForbiddenHidden
  }

  ghost predicate TextSpells(text: string, noDots: bool, r: Result<seq<string>, FsError>) {
    if text == "" || text == "." then r == Ok([])
    else if text[0] == '/' then r == Err(InvalidPath)
    else exists pieces :: AreSegments(text, pieces) && PiecesSpell(pieces, noDots, r)
  }

  /** The text spells its pieces between slashes, once the slashes at its ends and then the whitespace
      at its ends are dropped. */
  ghost predicate Spells(raw: string, noDots: bool, r: Result<seq<string>, FsError>) {
    exists core, text :: IsCore(raw, core) && Stripped(IsWhitespace, core, text) && TextSpells(text, noDots, r)
  }

  lemma {:induction false} CollectSpells(pieces: seq<string>, noDots: bool)
    ensures PiecesSpell(pieces, noDots, Collect(PieceComponents(pieces), noDots))
  {
    if pieces == [] {
    } else {
      var rest := pieces[1..];
      CollectSpells(rest, noDots);
      PieceComponentsAppend([pieces[0]], rest);
      assert pieces == [pieces[0]] + rest;
      CollectAppend(PieceComponents([pieces[0]]), PieceComponents(rest), noDots);
      OnePiece(pieces[0], noDots);
      hide Collect, PieceComponents;
      OneMorePiece(pieces[0], rest, noDots, Collect(PieceComponents(rest), noDots));
    }
  }

  lemma OneMorePiece(piece: string, rest: seq<string>, noDots: bool, r: Result<seq<string>, FsError>)
    requires PiecesSpell(rest, noDots, r)
    ensures PiecesSpell([piece] + rest, noDots,
              if piece == "" || piece == "." then r
              else if piece == ".." then Err(InvalidPath)
              else if noDots && piece[0] == '.' then Err(ForbiddenHidden)
              else if r.Ok? then Ok([piece] + r.value) else r)
  {
    var pieces := [piece] + rest;
    assert pieces[1..] == rest && pieces[0] == piece;
    assert [] + Named(rest) == Named(rest);
    forall i | 0 < i < |pieces| ensures pieces[i] == rest[i - 1] {
    }
    if r.Err? && !Refused(piece, noDots) {
      var i :| 0 <= i < |rest| && Refused(rest[i], noDots)
        && (forall j :: 0 <= j < i ==> !Refused(rest[j], noDots))
        && r.error == if rest[i] == ".." then InvalidPath else ForbiddenHidden;
      assert pieces[i + 1] == rest[i];
      assert Refused(pieces[i + 1], noDots) && forall j :: 0 <= j < i + 1 ==> !Refused(pieces[j], noDots);
    }
  }

  /** Pieces spell one thing. */
  lemma PiecesSpellOnce(pieces: seq<string>, noDots: bool, r: Result<seq<string>, FsError>,
                        q: Result<seq<string>, FsError>)
    requires PiecesSpell(pieces, noDots, r) && PiecesSpell(pieces, noDots, q)
    ensures r == q
  {
    hide Refused;
  }

  lemma TextIsParsed(text: string, noDots: bool, r: Result<seq<string>, FsError>)
    requires text != "" && text != "." && text[0] != '/'
    ensures Collect(Components(text), noDots) == r <==> TextSpells(text, noDots, r)
  {
    var pieces := Split(text, '/');
    SegmentsOfCore(text, pieces);
    CollectSpells(pieces, noDots);
    ComponentsAreCollected(text, noDots);
    forall p | AreSegments(text, p) ensures p == pieces { SegmentsOfCore(text, p); }
    hide Collect, Components, PieceComponents, AreSegments, PiecesSpell, Split;
    if PiecesSpell(pieces, noDots, r) {
      PiecesSpellOnce(pieces, noDots, r, Collect(PieceComponents(pieces), noDots));
    }
  }

  lemma ComponentsAreCollected(text: string, noDots: bool)
    requires text != "" && text[0] != '/'
    ensures Collect(Components(text), noDots) == Collect(PieceComponents(Split(text, '/')), noDots)
  {
    var pieces := Split(text, '/');
    if pieces[0] == "." {
      CollectAppend([CurDir], PieceComponents(pieces), noDots);
      assert Collect([CurDir], noDots) == Collect([], noDots) == Ok([]) by { assert [CurDir][1..] == []; }
      BothNothing(Collect(PieceComponents(pieces), noDots));
    } else {
      assert Components(text) == PieceComponents(pieces);
    }
  }

  /** Parsing gives exactly what the text spells. */
  lemma {:induction false} ParseIsSpelling(raw: string, noDots: bool, r: Result<seq<string>, FsError>)
    ensures ParseSegments(raw, noDots) == r <==> Spells(raw, noDots, r)
  {
    var core := Trim(IsSlash, raw);
    var text := Trim(IsWhitespace, core);
    CoreIsTrim(raw, core);
    StrippedIsTrim(IsWhitespace, core, text);
    forall c, s | IsCore(raw, c) && Stripped(IsWhitespace, c, s) ensures c == core && s == text {
      CoreIsTrim(raw, c);
      StrippedIsTrim(IsWhitespace, c, s);
    }
    if text != "" && text != "." && text[0] != '/' { TextIsParsed(text, noDots, r); }
    ParseByText(raw, noDots);
    hide Trim, IsCore, Stripped, TextSpells, ParseSegments, Collect, Components;
    assert TextSpells(text, noDots, r) <==> ParseSegments(raw, noDots) == r by { TextSpellsSimply(text, noDots, r); }
  }

  lemma ParseByText(raw: string, noDots: bool)
    ensures var text := Trim(IsWhitespace, Trim(IsSlash, raw));
      ParseSegments(raw, noDots) ==
        if text == "" || text == "." then Ok([])
        else if text[0] == '/' then Err(InvalidPath)
        else Collect(Components(text), noDots)
  {
    hide Trim, Collect, Components;
  }

  lemma TextSpellsSimply(text: string, noDots: bool, r: Result<seq<string>, FsError>)
    ensures text == "" || text == "." ==> (TextSpells(text, noDots, r) <==> r == Ok([]))
    ensures text != "" && text != "." && text[0] == '/' ==> (TextSpells(text, noDots, r) <==> r == Err(InvalidPath))
  {
  }

  /** Slashes put around a path make no difference. */
  lemma {:induction false} SlashesAroundAreDropped(pre: string, raw: string, post: string, noDots: bool)
    requires AllSlashes(pre) && AllSlashes(post)
    ensures ParseSegments(pre + raw + post, noDots) == ParseSegments(raw, noDots)
  {
    SlashesAreSlashes(pre);
    SlashesAreSlashes(post);
    TrimPadded(IsSlash, pre, raw, post);
    ParseByText(raw, noDots);
    ParseByText(pre + raw + post, noDots);
    hide ParseSegments, Trim, Collect, Components;
  }

  method ParseRelSegments(raw: string, noDots: bool) returns (r: Result<seq<string>, FsError>)
    ensures r == ParseSegments(raw, noDots)
    ensures Spells(raw, noDots, r)
  {
    hide Spells, TextSpells, Stripped, IsCore;
    ParseIsSpelling(raw, noDots, ParseSegments(raw, noDots));
    var normalized := NormalizeRelPath(raw);
    if normalized == "" { return Ok([]); }
    if normalized[0] == '/' { return Err(InvalidPath); }
    var components := Components(normalized);
    assert ParseSegments(raw, noDots) == Collect(components, noDots);
    hide ParseSegments, Components, NormalizeRelPath, Collect;
    r := CollectSegments(components, noDots);
  }

  /** The loop over the components; it stops at the first one that is not allowed. */
  method CollectSegments(components: seq<Component>, noDots: bool) returns (r: Result<seq<string>, FsError>)
    ensures r == Collect(components, noDots)
  {
    hide IsHidden, Collect, FromHere;
    var segments := [];
    var i := 0;
    CollectStart(components, noDots);
    while i < |components|
      invariant 0 <= i <= |components|
      invariant Collect(components, noDots) == FromHere(components, i, segments, noDots)
    {
      CollectNext(components, i, segments, noDots);
      match components[i] {
        case Normal(name) =>
          if name == "" { return Err(InvalidPath); }
          if noDots && IsHidden(name) { return Err(ForbiddenHidden); }
          segments := segments + [name];
        case CurDir =>
        case ParentDir => return Err(InvalidPath);
        case RootDir => return Err(InvalidPath);
      }
      i := i + 1;
    }
    CollectEnd(components, segments, noDots);
    r := Ok(segments);
  }

  /** The segments so far and those of the components from `i` on. */
  function FromHere(components: seq<Component>, i: nat, segments: seq<string>, noDots: bool):
    Result<seq<string>, FsError>
    requires i <= |components|
  {
    Both(Ok(segments), Collect(components[i..], noDots))
  }

  lemma CollectStart(components: seq<Component>, noDots: bool)
    ensures FromHere(components, 0, [], noDots) == Collect(components, noDots)
  {
    assert components[0..] == components;
    BothNothing(Collect(components, noDots));
  }

  lemma CollectNext(components: seq<Component>, i: nat, segments: seq<string>, noDots: bool)
    requires i < |components|
    ensures components[i].ParentDir? || components[i].RootDir? ==>
              FromHere(components, i, segments, noDots) == Err(InvalidPath)
    ensures components[i].CurDir? ==>
              FromHere(components, i, segments, noDots) == FromHere(components, i + 1, segments, noDots)
    ensures components[i].Normal? ==>
              FromHere(components, i, segments, noDots)
              == if components[i].name == "" then Err(InvalidPath)
                 else if noDots && IsHidden(components[i].name) then Err(ForbiddenHidden)
                 else FromHere(components, i + 1, segments + [components[i].name], noDots)
  {
    assert components[i..][1..] == components[i + 1..];
    if components[i].Normal? {
      CollectName(segments, components[i].name, Collect(components[i + 1..], noDots));
    }
    hide IsHidden;
  }

  lemma CollectEnd(components: seq<Component>, segments: seq<string>, noDots: bool)
    ensures FromHere(components, |components|, segments, noDots) == Ok(segments)
  {
    assert components[|components|..] == [] && segments + [] == segments;
  }

  lemma BothNothing(rest: Result<seq<string>, FsError>)
    ensures Both(Ok([]), rest) == rest
  {
    if rest.Ok? { assert [] + rest.value == rest.value; }
  }

  lemma CollectName(segments: seq<string>, name: string, rest: Result<seq<string>, FsError>)
    ensures rest.Ok? ==> segments + ([name] + rest.value) == segments + [name] + rest.value
  {
  }

  // ---- Accepted segments are plain names -------------------------------------------------------

  /** A name a directory entry can have. */
  predicate EntryName(s: string) {
    s != "" && s != "." && s != ".." && '/' !in s
  }

  lemma {:induction false} PiecesGiveNames(pieces: seq<string>, noDots: bool)
    requires forall i :: 0 <= i < |pieces| ==> '/' !in pieces[i]
    ensures var r := Collect(PieceComponents(pieces), noDots);
      r.Ok? ==> forall i :: 0 <= i < |r.value| ==> EntryName(r.value[i]) && (noDots ==> !IsHidden(r.value[i]))
  {
    if pieces == [] {
    } else {
      PiecesGiveNames(pieces[1..], noDots);
      assert pieces == [pieces[0]] + pieces[1..];
      PieceComponentsAppend([pieces[0]], pieces[1..]);
      CollectAppend(PieceComponents([pieces[0]]), PieceComponents(pieces[1..]), noDots);
      OnePiece(pieces[0], noDots);
    }
  }

  /** Every accepted segment is a plain entry name: never empty, ".", ".." or slash-bearing. */
  lemma {:induction false} AcceptedSegmentsAreNames(raw: string, noDots: bool)
    ensures var r := ParseSegments(raw, noDots);
      r.Ok? ==> forall i :: 0 <= i < |r.value| ==> EntryName(r.value[i]) && (noDots ==> !IsHidden(r.value[i]))
  {
    var normalized := NormalizeRelPath(raw);
    if normalized != "" && normalized[0] != '/' {
      var pieces := Split(normalized, '/');
      PiecesGiveNames(pieces, noDots);
      if pieces[0] == "." {
        CollectAppend([CurDir], PieceComponents(pieces), noDots);
      } else {
        assert Components(normalized) == PieceComponents(pieces);
      }
    }
  }

  // ---- Pushing a segment onto a path -------------------------------------------------------------

  /** Follows path pieces from a directory, as the kernel reads them. */
  function Walk(dir: Path, pieces: seq<string>): Path
    decreases |pieces|
  {
    if pieces == [] then dir
    else if pieces[0] == "" || pieces[0] == "." then Walk(dir, pieces[1..])
    else if pieces[0] == ".." then Walk(if dir == [] then [] else dir[..|dir| - 1], pieces[1..])
    else Walk(dir + [pieces[0]], pieces[1..])
  }

  /** PathBuf::push: an absolute argument replaces the path. */
  function Push(dir: Path, segment: string): Path {
    Walk(if segment != "" && segment[0] == '/' then [] else dir, Split(segment, '/'))
  }

  lemma PushName(dir: Path, name: string)
    requires EntryName(name)
    ensures Push(dir, name) == dir + [name]
  {
    SplitPlain(name, '/');
    assert name[0] in name;
    assert Walk(dir, [name]) == Walk(dir + [name], [name][1..]);
  }

  // ---- Listing ---------------------------------------------------------------------------------

  /** The path `list` reports for an entry of the directory it was asked for. */
  function ChildRel(raw: string, name: string): string {
    var rel := NormalizeRelPath(raw);
    if rel == "" then name else rel + "/" + name
  }

  lemma PieceComponentsAppend(a: seq<string>, b: seq<string>)
    ensures PieceComponents(a + b) == PieceComponents(a) + PieceComponents(b)
  {
    if a == [] {
      assert a + b == b;
    } else {
      assert (a + b)[1..] == a[1..] + b;
      PieceComponentsAppend(a[1..], b);
    }
  }

  lemma ComponentsOfChild(rel: string, last: string)
    requires rel != "" && '/' !in last
    ensures Components(rel + "/" + last) == Components(rel) + PieceComponents([last])
  {
    SplitAt(rel, last, '/');
    SplitPlain(last, '/');
    PieceComponentsAppend(Split(rel, '/'), [last]);
  }

  /** Parsing a directory's own spelling, a slash and one more piece. */
  lemma {:induction false} ParseChild(raw: string, last: string, noDots: bool, segments: seq<string>)
    requires NormalizeRelPath(raw) != "" && ParseSegments(raw, noDots) == Ok(segments) && '/' !in last
    ensures Collect(Components(NormalizeRelPath(raw) + "/" + last), noDots)
        == Both(Ok(segments), Collect(PieceComponents([last]), noDots))
  {
    var rel := NormalizeRelPath(raw);
    ComponentsOfChild(rel, last);
    CollectAppend(Components(rel), PieceComponents([last]), noDots);
  }

  lemma SlashIsNoWhitespace()
    ensures !IsWhitespace('/')
  {
  }

  lemma TrimChild(rel: string, name: string)
    requires rel != "" && !IsWhitespace(rel[0])
    ensures Trim(IsWhitespace, rel + "/" + name) == rel + "/" + TrimEnd(IsWhitespace, name)
  {
    SlashIsNoWhitespace();
    hide Trim, TrimEnd, IsWhitespace;
    var head := rel + "/";
    assert head[0] == rel[0] && head[|head| - 1] == '/';
    TrimBehind(IsWhitespace, head, name);
  }

  lemma NormalizeChild(raw: string, name: string)
    requires NormalizeRelPath(raw) != "" && NormalizeRelPath(raw)[0] != '/' && EntryName(name)
    ensures NormalizeRelPath(ChildRel(raw, name)) == NormalizeRelPath(raw) + "/" + TrimEnd(IsWhitespace, name)
  {
    hide TrimStart, TrimEnd, Trim;
    var rel := NormalizeRelPath(raw);
    var child := ChildRel(raw, name);
    assert child[|child| - 1] == name[|name| - 1] && child[0] == rel[0];
    TrimKeeps(IsSlash, child);
    TrimChild(rel, name);
  }

  lemma TrimIsPart(p: char -> bool, s: string, c: char)
    ensures c !in s ==> c !in TrimStart(p, s) && c !in TrimEnd(p, s) && c !in Trim(p, s)
  {
  }

  lemma ParseAlone(name: string, noDots: bool)
    requires EntryName(name)
    ensures ParseSegments(name, noDots) == Collect(PieceComponents([Trim(IsWhitespace, name)]), noDots)
  {
    hide TrimStart, TrimEnd, Trim;
    var t := Trim(IsWhitespace, name);
    TrimKeeps(IsSlash, name);
    TrimIsPart(IsWhitespace, name, '/');
    OnePiece(t, noDots);
    if t != "" && t != "." {
      SplitPlain(t, '/');
      assert t[0] in t;
      assert Components(t) == PieceComponents([t]);
    }
  }

  lemma OnePiece(t: string, noDots: bool)
    ensures Collect(PieceComponents([t]), noDots) ==
      if t == "" || t == "." then Ok([])
      else if t == ".." then Err(InvalidPath)
      else if noDots && IsHidden(t) then Err(ForbiddenHidden)
      else Ok([t])
  {
    assert PieceComponents([]) == [];
    assert [t] + [] == [t];
  }

  /** The entry's name keeps its spelling when the listed path is normalised again. */
  predicate KeepsSpelling(raw: string, name: string) {
    name != "" && !IsWhitespace(name[|name| - 1]) && (NormalizeRelPath(raw) == "" ==> !IsWhitespace(name[0]))
  }

  /** A listed path resolves back to the listed entry exactly when the name does not end in
      whitespace and, directly under the root, does not start with whitespace either. This holds
      for every accepted spelling of the directory. */
  lemma {:induction false} ListedPathResolvesBack(raw: string, name: string, noDots: bool, segments: seq<string>)
    requires ParseSegments(raw, noDots) == Ok(segments)
    requires EntryName(name) && (noDots ==> !IsHidden(name))
    ensures ParseSegments(ChildRel(raw, name), noDots) == Ok(segments + [name]) <==> KeepsSpelling(raw, name)
  {
    hide TrimStart, TrimEnd, Trim, Components, PieceComponents;
    var rel := NormalizeRelPath(raw);
    if rel == "" {
      var t := Trim(IsWhitespace, name);
      ParseAlone(name, noDots);
      OnePiece(t, noDots);
      assert segments + [name] == [name];
      if KeepsSpelling(raw, name) { TrimKeeps(IsWhitespace, name); }
    } else {
      var t := TrimEnd(IsWhitespace, name);
      NormalizeChild(raw, name);
      TrimIsPart(IsWhitespace, name, '/');
      ParseChild(raw, t, noDots, segments);
      OnePiece(t, noDots);
      TrimEndKeeps(IsWhitespace, name);
      LastDiffers(segments, t, name);
    }
  }

  /** An entry whose name ends in a space, for example, is not found under its listed path. */
  lemma TrailingSpaceIsLost(noDots: bool)
    ensures EntryName("a ") && ParseSegments("", noDots) == Ok([])
    ensures ParseSegments(ChildRel("", "a "), noDots) != Ok(["a "])
  {
    hide ParseSegments, ChildRel, NormalizeRelPath, IsWhitespace;
    SpaceName();
    RootSpelling(noDots);
    ListedPathResolvesBack("", "a ", noDots, []);
    assert [] + ["a "] == ["a "];
  }

  lemma SpaceName()
    ensures var name := "a "; EntryName(name) && !IsHidden(name) && name[1] == ' ' && IsWhitespace(name[1])
  {
    assert "a "[0] == 'a';
  }

  lemma RootSpelling(noDots: bool)
    ensures NormalizeRelPath("") == "" && ParseSegments("", noDots) == Ok([])
  {
  }

  lemma TrimEndKeeps(p: char -> bool, s: string)
    requires s != ""
    ensures TrimEnd(p, s) == s <==> !p(s[|s| - 1])
  {
  }

  lemma LastDiffers(segments: seq<string>, a: string, b: string)
    ensures segments + [a] == segments + [b] <==> a == b
    ensures segments != segments + [b]
  {
    assert (segments + [a])[|segments|] == a && (segments + [b])[|segments|] == b;
  }
}

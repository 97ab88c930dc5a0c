/** Spelling a list of segments as a path and parsing it again. */
module FileSpelling {
  import opened Wrappers
  import opened Text
  import opened FileSystem
  import opened FilePaths

  ghost predicate AllNames(segments: seq<string>, noDots: bool) {
    forall i :: 0 <= i < |segments| ==> EntryName(segments[i]) && (noDots ==> !IsHidden(segments[i]))
  }

  /** The first segment does not start in whitespace and the last does not end in it. */
  predicate CleanEnds(segments: seq<string>)
    requires forall i :: 0 <= i < |segments| ==> segments[i] != ""
  {
    segments == []
    || (var last := segments[|segments| - 1]; !IsWhitespace(segments[0][0]) && !IsWhitespace(last[|last| - 1]))
  }

  lemma {:induction false} JoinEnds(segments: seq<string>)
    requires segments != [] && forall i :: 0 <= i < |segments| ==> segments[i] != ""
    ensures var t := Join(segments, '/');
      var last := segments[|segments| - 1];
      t != "" && t[0] == segments[0][0] && t[|t| - 1] == last[|last| - 1]
  {
    if |segments| <= 1 {
    } else {
      var (first, rest) := (segments[0], segments[1..]);
      JoinEnds(rest);
      var t := Join(rest, '/');
      assert Join(segments, '/') == first + ['/'] + t;
      assert rest[|rest| - 1] == segments[|segments| - 1];
      hide Join;
    }
  }

  lemma NameHasNoSlash(name: string)
    requires EntryName(name)
    ensures name[0] != '/' && name[|name| - 1] != '/'
  {
    assert name[0] in name && name[|name| - 1] in name;
  }

  lemma {:induction false} NamesCollect(segments: seq<string>, noDots: bool)
    requires AllNames(segments, noDots)
    ensures Collect(PieceComponents(segments), noDots) == Ok(segments)
  {
    if segments == [] {
    } else {
      var rest := segments[1..];
      NamesCollect(rest, noDots);
      assert segments == [segments[0]] + rest;
      PieceComponentsAppend([segments[0]], rest);
      CollectAppend(PieceComponents([segments[0]]), PieceComponents(rest), noDots);
      OnePiece(segments[0], noDots);
      hide Collect, PieceComponents;
      assert [segments[0]] + rest == segments;
    }
  }

  lemma JoinLength(piece: string, rest: seq<string>)
    ensures |Join(rest, '/')| <= |Join([piece] + rest, '/')| <= |piece| + 1 + |Join(rest, '/')|
    ensures rest != [] ==> |Join([piece] + rest, '/')| == |piece| + 1 + |Join(rest, '/')|
    ensures rest == [] ==> |Join([piece] + rest, '/')| == |piece|
  {
    assert ([piece] + rest)[1..] == rest;
  }

  /** Parsing never makes a path longer. */
  lemma {:induction false} CollectedLength(pieces: seq<string>, noDots: bool)
    ensures var r := Collect(PieceComponents(pieces), noDots);
      r.Ok? ==> |r.value| <= |pieces| && |Join(r.value, '/')| <= |Join(pieces, '/')|
  {
    if pieces == [] {
    } else {
      var rest := pieces[1..];
      CollectedLength(rest, noDots);
      assert pieces == [pieces[0]] + rest;
      PieceComponentsAppend([pieces[0]], rest);
      CollectAppend(PieceComponents([pieces[0]]), PieceComponents(rest), noDots);
      OnePiece(pieces[0], noDots);
      var below := Collect(PieceComponents(rest), noDots);
      hide Collect, PieceComponents, Join;
      JoinLength(pieces[0], rest);
      if below.Ok? {
        assert [] + below.value == below.value;
        JoinLength(pieces[0], below.value);
      }
    }
  }

  lemma ComponentsLength(n: string, noDots: bool)
    requires n != "" && n[0] != '/'
    ensures var r := Collect(Components(n), noDots);
      r.Ok? ==> |Join(r.value, '/')| <= |n|
  {
    var pieces := Split(n, '/');
    CollectedLength(pieces, noDots);
    JoinSplit(n, '/');
    assert Components(n) == (if pieces[0] == "." then [CurDir] else []) + PieceComponents(pieces);
    if pieces[0] == "." {
      CollectAppend([CurDir], PieceComponents(pieces), noDots);
      NothingCollected(noDots, Collect(PieceComponents(pieces), noDots));
    } else {
      assert Components(n) == PieceComponents(pieces);
    }
  }

  lemma NothingCollected(noDots: bool, rest: Result<seq<string>, FsError>)
    ensures Both(Collect([CurDir], noDots), rest) == rest
  {
    BothNothing(rest);
  }

  /** The spelling of names joined by slashes parses back to those names exactly when the whole has
      no whitespace at its ends. */
  lemma {:induction false} ParseOfJoin(segments: seq<string>, noDots: bool)
    requires AllNames(segments, noDots)
    ensures ParseSegments(Join(segments, '/'), noDots) == Ok(segments) <==> CleanEnds(segments)
  {
    if segments != [] {
      var t := Join(segments, '/');
      JoinEnds(segments);
      NameHasNoSlash(segments[0]);
      NameHasNoSlash(segments[|segments| - 1]);
      TrimKeeps(IsSlash, t);
      if CleanEnds(segments) {
        TrimKeeps(IsWhitespace, t);
        CleanParses(segments, noDots);
      } else {
        UncleanDiffers(segments, noDots);
      }
    }
  }

  lemma CleanParses(segments: seq<string>, noDots: bool)
    requires segments != [] && AllNames(segments, noDots)
    requires var t := Join(segments, '/');
      t != "" && t[0] != '/' && Trim(IsWhitespace, Trim(IsSlash, t)) == t
    ensures ParseSegments(Join(segments, '/'), noDots) == Ok(segments)
  {
    hide Trim;
    var t := Join(segments, '/');
    SplitJoin(segments, '/');
    if t == "." { SplitPlain(t, '/'); }
    NamesCollect(segments, noDots);
    assert Components(t) == [] + PieceComponents(segments);
    assert [] + PieceComponents(segments) == PieceComponents(segments);
  }

  lemma UncleanDiffers(segments: seq<string>, noDots: bool)
    requires segments != [] && AllNames(segments, noDots)
    requires var t := Join(segments, '/');
      t != "" && Trim(IsSlash, t) == t && (IsWhitespace(t[0]) || IsWhitespace(t[|t| - 1]))
    ensures ParseSegments(Join(segments, '/'), noDots) != Ok(segments)
  {
    var t := Join(segments, '/');
    var n := NormalizeRelPath(t);
    assert |n| < |t| by { TrimShortens(IsWhitespace, t); }
    hide Trim, Components, Collect;
    if n != "" && n[0] != '/' { ComponentsLength(n, noDots); }
  }

  lemma TrimShortens(p: char -> bool, s: string)
    requires s != "" && (p(s[0]) || p(s[|s| - 1]))
    ensures |Trim(p, s)| < |s|
  {
    var t := TrimStart(p, s);
    assert p(s[0]) ==> |t| < |s|;
  }

  /** So parsing a path, spelling the result and parsing that again gives the same segments, unless
      dropping a leading "./" or a trailing "/." has brought whitespace to an end. */
  lemma {:induction false} ParseOfParsedPath(raw: string, noDots: bool)
    requires ParseSegments(raw, noDots).Ok?
    ensures AllNames(ParseSegments(raw, noDots).value, noDots)
    ensures var segments := ParseSegments(raw, noDots).value;
      ParseSegments(Join(segments, '/'), noDots) == Ok(segments) <==> CleanEnds(segments)
  {
    AcceptedSegmentsAreNames(raw, noDots);
    hide ParseSegments;
    ParseOfJoin(ParseSegments(raw, noDots).value, noDots);
  }
}

/** Path patterns of auth/authorizer.rs. */
module PathPatterns {
  import opened Wrappers
  import opened Text

  function SplitPath(path: string): (r: seq<string>)
    ensures forall i :: 0 <= i < |r| ==> '/' !in r[i]
  {
    var trimmed := Trim(IsSlash, path);
    if trimmed == "" then [] else Split(trimmed, '/')
  }

  predicate IsPathParam(segment: string) {
    |segment| > 2 && segment[0] == '{' && segment[|segment| - 1] == '}'
  }

  predicate EndsWithStar(pattern: string) {
    pattern != "" && pattern[|pattern| - 1] == '*'
  }

  predicate PathPatternMatches(pattern: string, path: string) {
    if EndsWithStar(pattern) then StartsWith(path, pattern[..|pattern| - 1])
    else
      var expected, actual := SplitPath(pattern), SplitPath(path);
      |expected| == |actual| && forall i :: 0 <= i < |expected| ==> expected[i] == actual[i] || IsPathParam(expected[i])
  }

  /** The pattern's segments with every parameter replaced by the text given for it. */
  function Instantiate(segments: seq<string>, texts: seq<string>): seq<string>
    requires |segments| == |texts|
  {
    seq(|segments|, i requires 0 <= i < |segments| => if IsPathParam(segments[i]) then texts[i] else segments[i])
  }

  /** The text is the segments joined by slashes, every parameter replaced by the text given for it. */
  ghost predicate InstanceOf(segments: seq<string>, texts: seq<string>, trimmed: string) {
    && |texts| == |segments|
    && (forall i :: 0 <= i < |texts| ==> '/' !in texts[i])
    && trimmed == Join(Instantiate(segments, texts), '/')
    && (trimmed == "" <==> segments == [])
  }

  /** A pattern without trailing star matches exactly the paths that, slashes at the ends aside, are
      the pattern's segments joined by slashes, every parameter replaced by some slash-free text. */
  lemma {:induction false} MatchesInstances(pattern: string, path: string)
    requires !EndsWithStar(pattern)
    ensures PathPatternMatches(pattern, path) <==>
      exists texts :: InstanceOf(SplitPath(pattern), texts, Trim(IsSlash, path))
  {
    if PathPatternMatches(pattern, path) { MatchIsInstance(pattern, path); }
    forall texts | InstanceOf(SplitPath(pattern), texts, Trim(IsSlash, path))
        ensures PathPatternMatches(pattern, path) {
      InstanceMatches(pattern, path, texts);
    }
    hide PathPatternMatches, InstanceOf, SplitPath, Trim;
  }

  lemma MatchIsInstance(pattern: string, path: string)
    requires !EndsWithStar(pattern) && PathPatternMatches(pattern, path)
    ensures InstanceOf(SplitPath(pattern), SplitPath(path), Trim(IsSlash, path))
  {
    hide Trim;
    var texts := SplitPath(path);
    assert texts == Instantiate(SplitPath(pattern), texts);
    if Trim(IsSlash, path) != "" { JoinSplit(Trim(IsSlash, path), '/'); }
  }

  lemma InstanceMatches(pattern: string, path: string, texts: seq<string>)
    requires !EndsWithStar(pattern) && InstanceOf(SplitPath(pattern), texts, Trim(IsSlash, path))
    ensures PathPatternMatches(pattern, path)
  {
    var inst := Instantiate(SplitPath(pattern), texts);
    assert forall i :: 0 <= i < |inst| ==> '/' !in inst[i];
    assert SplitPath(path) == inst by {
      hide Trim, Split, Join;
      if inst != [] { SplitJoin(inst, '/'); }
    }
    hide SplitPath, Trim, StartsWith;
  }

  /** Leading and trailing slashes of the path never change the answer of such a pattern. */
  lemma {:induction false} PaddingIsIrrelevant(pattern: string, pre: string, path: string, post: string)
    requires !EndsWithStar(pattern) && AllSlashes(pre) && AllSlashes(post)
    ensures PathPatternMatches(pattern, pre + path + post) == PathPatternMatches(pattern, path)
  {
    SlashesAreSlashes(pre);
    SlashesAreSlashes(post);
    TrimPadded(IsSlash, pre, path, post);
    assert SplitPath(pre + path + post) == SplitPath(path) by { hide Trim; }
    hide SplitPath, Trim;
  }

  /** With a trailing star the pattern is a plain prefix test, also against the raw path. */
  lemma {:induction false} StarMatchesPrefix(prefix: string, path: string)
    ensures PathPatternMatches(prefix + "*", path) <==> exists rest :: path == prefix + rest
  {
    var pattern := prefix + "*";
    assert pattern[..|pattern| - 1] == prefix;
    if StartsWith(path, prefix) {
      assert path == prefix + path[|prefix|..];
    }
    if rest :| path == prefix + rest {
      assert path[0..|prefix|] == prefix;
    }
  }

  // ---- What a pattern covers, in plain terms -----------------------------------------------------------

  /** Segment by segment equal, but for segments of the pattern that are some text in braces. */
  ghost predicate Alike(segments: seq<string>, texts: seq<string>) {
    && |segments| == |texts|
    && forall i :: 0 <= i < |segments| ==>
         || segments[i] == texts[i]
         || (|segments[i]| >= 3 && segments[i][0] == '{' && segments[i][|segments[i]| - 1] == '}')
  }

  /** The pattern is a prefix with a star behind it, or its segments are those of the path, slashes at
      the ends aside, every segment in braces standing for any. */
  ghost predicate Covers(pattern: string, path: string) {
    if pattern != "" && pattern[|pattern| - 1] == '*' then
      |pattern| - 1 <= |path| && path[..|pattern| - 1] == pattern[..|pattern| - 1]
    else
      exists core, segments, pathCore, texts ::
        && IsCore(pattern, core) && AreSegments(core, segments)
        && IsCore(path, pathCore) && AreSegments(pathCore, texts)
        && Alike(segments, texts)
  }

  lemma SegmentsAreSplit(text: string, core: string, segments: seq<string>)
    requires core == Trim(IsSlash, text)
    ensures AreSegments(core, segments) <==> segments == SplitPath(text)
  {
    SegmentsOfCore(core, segments);
    hide Trim, Split, AreSegments;
  }

  lemma SegmentsAreThose(text: string, core: string, segments: seq<string>)
    ensures IsCore(text, core) && AreSegments(core, segments) <==>
              core == Trim(IsSlash, text) && segments == SplitPath(text)
  {
    CoreIsTrim(text, core);
    if core == Trim(IsSlash, text) { SegmentsAreSplit(text, core, segments); }
    hide Trim, SplitPath, IsCore, AreSegments;
  }

  lemma PlainCovers(pattern: string, path: string)
    requires pattern == "" || pattern[|pattern| - 1] != '*'
    ensures Covers(pattern, path) <==> Alike(SplitPath(pattern), SplitPath(path))
  {
    hide Trim, SplitPath, IsCore, AreSegments, Alike;
    SegmentsAreThose(pattern, Trim(IsSlash, pattern), SplitPath(pattern));
    SegmentsAreThose(path, Trim(IsSlash, path), SplitPath(path));
    if Covers(pattern, path) {
      var core, segments, pathCore, texts :|
        && IsCore(pattern, core) && AreSegments(core, segments)
        && IsCore(path, pathCore) && AreSegments(pathCore, texts)
        && Alike(segments, texts);
      SegmentsAreThose(pattern, core, segments);
      SegmentsAreThose(path, pathCore, texts);
    }
  }

  /** The matcher covers exactly what the pattern says. */
  lemma {:induction false} MatchesCovered(pattern: string, path: string)
    ensures PathPatternMatches(pattern, path) <==> Covers(pattern, path)
  {
    if EndsWithStar(pattern) {
      assert StartsWith(path, pattern[..|pattern| - 1]) <==>
             |pattern| - 1 <= |path| && path[..|pattern| - 1] == pattern[..|pattern| - 1];
    } else {
      PlainCovers(pattern, path);
      hide Covers, SplitPath;
    }
  }
}

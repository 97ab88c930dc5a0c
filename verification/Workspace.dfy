/** The nested section extractor of routes/workspace.rs. */
module Workspace {
  import opened Wrappers
  import opened Text

  const MARKER := "data-admin-workspace-module"
  const OPEN := "<section"
  const CLOSE := "</section"

  /** A section tag: where it starts and the position after its '>'. */
  datatype Tag = Tag(opens: bool, start: nat, end: nat)

  /** The first section tag at or after `cursor`; none if its '>' is missing. */
  function NextTag(low: string, cursor: nat): (r: Option<Tag>)
    ensures r.Some? ==> cursor <= r.value.start < r.value.end <= |low|
    ensures r.Some? ==> Occurs(low, if r.value.opens then OPEN else CLOSE, r.value.start)
    ensures r.Some? ==> Find(low, ">", r.value.start) == Some(r.value.end - 1)
    ensures r.Some? ==> forall j :: cursor <= j < r.value.start ==> !Occurs(low, OPEN, j) && !Occurs(low, CLOSE, j)
  {
    var open := Find(low, OPEN, cursor);
    var close := Find(low, CLOSE, cursor);
    if open.None? && close.None? then None
    else
      var opens := open.Some? && (close.None? || open.value < close.value);
      var start := if opens then open.value else close.value;
      match Find(low, ">", start)
      case Some(g) => Some(Tag(opens, start, g + 1))
      case None => None
  }

  /** There is no other reason for a tag not to be the next one. */
  lemma NextTagIs(low: string, cursor: nat, t: Tag)
    requires cursor <= t.start < t.end && Occurs(low, if t.opens then OPEN else CLOSE, t.start)
    requires forall j :: cursor <= j < t.start ==> !Occurs(low, OPEN, j) && !Occurs(low, CLOSE, j)
    requires Find(low, ">", t.start) == Some(t.end - 1)
    ensures NextTag(low, cursor) == Some(t)
  {
    OpenIsNotClose(low, t.start);
    hide Occurs;
    assert t.opens ==> Find(low, OPEN, cursor) == Some(t.start);
    assert !t.opens ==> Find(low, CLOSE, cursor) == Some(t.start);
  }

  /** All section tags from `cursor` on; text inside a tag is not looked at. */
  function Tags(low: string, cursor: nat): seq<Tag>
    decreases |low| - cursor
  {
    match NextTag(low, cursor)
    case None => []
    case Some(t) => [t] + Tags(low, t.end)
  }

  /** Opening minus closing tags. */
  function Depth(tags: seq<Tag>): int {
    if tags == [] then 0
    else Depth(tags[..|tags| - 1]) + (if tags[|tags| - 1].opens then 1 else -1)
  }

  /** The first `k` tags are the shortest balanced run. */
  ghost predicate ShortestBalanced(tags: seq<Tag>, k: nat) {
    && 0 < k <= |tags|
    && Depth(tags[..k]) == 0
    && forall j :: 0 < j < k ==> Depth(tags[..j]) > 0
  }

  /** Where the fragment starts: the last "<section" before the first marker. */
  function SectionStart(low: string): Option<nat> {
    match Find(low, MARKER, 0)
    case None => None
    case Some(marker) => FindLast(low, OPEN, marker)
  }

  lemma OccursChar(s: string, pattern: string, i: nat, k: nat)
    requires Occurs(s, pattern, i) && k < |pattern|
    ensures s[i + k] == pattern[k]
  {
    assert s[i..i + |pattern|][k] == s[i + k];
  }

  /** A character that is not in the pattern cannot lie inside an occurrence. */
  lemma NotThrough(s: string, pattern: string, j: nat, m: nat)
    requires j <= m < j + |pattern| && m < |s| && s[m] !in pattern
    ensures !Occurs(s, pattern, j)
  {
    assert pattern[m - j] in pattern;
    assert j + |pattern| <= |s| ==> s[j..j + |pattern|][m - j] == s[m];
  }

  lemma OpenIsNotClose(low: string, i: nat)
    ensures !(Occurs(low, OPEN, i) && Occurs(low, CLOSE, i))
  {
    assert OPEN[1] != CLOSE[1];
    assert i + 9 <= |low| ==> low[i..i + 8][1] == low[i + 1] && low[i..i + 9][1] == low[i + 1];
  }

  lemma FirstTagOpens(low: string, start: nat)
    requires Occurs(low, OPEN, start) && NextTag(low, start).Some?
    ensures NextTag(low, start).value.opens && NextTag(low, start).value.start == start
  {
    OpenIsNotClose(low, start);
    hide Occurs;
  }

  // ---- The scanner ----------------------------------------------------------------------------------

  /** None of the runs of the first `n` tags is balanced. */
  ghost predicate Unbalanced(tags: seq<Tag>, n: nat, depth: nat) {
    && n <= |tags| && depth == Depth(tags[..n])
    && forall j :: 0 < j <= n ==> Depth(tags[..j]) > 0
  }

  lemma OneMoreTag(tags: seq<Tag>, n: nat, depth: nat)
    requires n < |tags| && Unbalanced(tags, n, depth) && (n == 0 ==> tags[0].opens)
    ensures tags[n].opens ==> Unbalanced(tags, n + 1, depth + 1)
    ensures !tags[n].opens ==> depth > 0
    ensures !tags[n].opens && depth > 1 ==> Unbalanced(tags, n + 1, depth - 1)
    ensures !tags[n].opens && depth == 1 ==> ShortestBalanced(tags, n + 1)
  {
    assert tags[..n + 1][..n] == tags[..n] && tags[..n + 1][n] == tags[n];
  }

  /** The first `n` tags lie before `cursor`. */
  ghost predicate Scanned(low: string, start: nat, cursor: nat, n: nat, depth: nat) {
    && n <= |Tags(low, start)| && cursor <= |low|
    && Tags(low, cursor) == Tags(low, start)[n..]
    && Unbalanced(Tags(low, start), n, depth)
    && Occurs(low, OPEN, start)
  }

  lemma NextIsNth(low: string, tags: seq<Tag>, cursor: nat, n: nat)
    requires n <= |tags| && Tags(low, cursor) == tags[n..] && NextTag(low, cursor).Some?
    ensures var t := NextTag(low, cursor).value;
      n < |tags| && tags[n] == t && Tags(low, t.end) == tags[n + 1..]
  {
    hide NextTag, Occurs, Find;
    var t := NextTag(low, cursor).value;
    assert tags[n..] == [t] + Tags(low, t.end);
    assert tags[n] == tags[n..][0] && tags[n + 1..] == tags[n..][1..];
  }

  lemma ScanTag(low: string, start: nat, cursor: nat, n: nat, depth: nat)
    requires Scanned(low, start, cursor, n, depth) && NextTag(low, cursor).Some?
    ensures var t := NextTag(low, cursor).value;
            && (depth > 0 || t.opens)
            && (t.opens ==> Scanned(low, start, t.end, n + 1, depth + 1))
            && (!t.opens && depth > 1 ==> Scanned(low, start, t.end, n + 1, depth - 1))
            && (!t.opens && depth == 1 ==> SectionEnds(low, start, t.end))
  {
    var tags := Tags(low, start);
    NextIsNth(low, tags, cursor, n);
    assert tags[0].opens by {
      assert NextTag(low, start).Some? && tags[0] == NextTag(low, start).value;
      FirstTagOpens(low, start);
    }
    hide NextTag, Tags, Occurs, Find, ShortestBalanced, Unbalanced;
    OneMoreTag(tags, n, depth);
    assert tags[n + 1 - 1] == tags[n];
  }

  /** `end` closes the section that starts at `start`. */
  ghost predicate SectionEnds(low: string, start: nat, end: nat) {
    exists k :: ShortestBalanced(Tags(low, start), k) && Tags(low, start)[k - 1].end == end
  }

  lemma ScanEnds(low: string, start: nat, cursor: nat, n: nat, depth: nat)
    requires Scanned(low, start, cursor, n, depth) && NextTag(low, cursor).None?
    ensures forall end :: !SectionEnds(low, start, end)
  {
    hide NextTag, Occurs, Find;
    assert Tags(low, start)[n..] == [];
    assert n == |Tags(low, start)|;
  }

  lemma OneShortest(tags: seq<Tag>, n: nat, k: nat)
    requires ShortestBalanced(tags, n) && ShortestBalanced(tags, k)
    ensures k == n
  {
  }

  lemma OneEnd(low: string, start: nat, end: nat, other: nat)
    requires SectionEnds(low, start, end) && SectionEnds(low, start, other)
    ensures end == other
  {
    var n :| ShortestBalanced(Tags(low, start), n) && Tags(low, start)[n - 1].end == end;
    var k :| ShortestBalanced(Tags(low, start), k) && Tags(low, start)[k - 1].end == other;
    hide Tags;
    OneShortest(Tags(low, start), n, k);
  }

  /** The section that the last "<section" before the first marker opens, up to where it is closed. */
  ghost predicate IsFragment(html: string, fragment: Option<string>) {
    match SectionStart(Lower(html))
    case None => fragment == None
    case Some(start) =>
      match fragment
      case None => forall end :: !SectionEnds(Lower(html), start, end)
      case Some(text) =>
        exists end :: start <= end <= |html| && SectionEnds(Lower(html), start, end) && text == html[start..end]
  }

  lemma FragmentIsUnique(html: string, one: Option<string>, other: Option<string>)
    requires IsFragment(html, one) && IsFragment(html, other)
    ensures one == other
  {
    hide SectionStart, SectionEnds;
    if SectionStart(Lower(html)).Some? && one.Some? && other.Some? {
      var start := SectionStart(Lower(html)).value;
      var end :| start <= end <= |html| && SectionEnds(Lower(html), start, end) && one.value == html[start..end];
      var end' :| start <= end' <= |html| && SectionEnds(Lower(html), start, end') && other.value == html[start..end'];
      OneEnd(Lower(html), start, end, end');
    }
  }

  /** The depth counter is a natural number, so it never underflows. */
  method ExtractWorkspaceModuleFragment(html: string) returns (r: Option<string>)
    ensures IsFragment(html, r)
  {
    var low := Lower(html);
    hide NextTag, Lower, SectionEnds, Tags;
    var marker := Find(low, MARKER, 0);
    if marker.None? { return None; }
    var section := FindLast(low, OPEN, marker.value);
    if section.None? { return None; }
    var start := section.value;
    assert SectionStart(low) == Some(start);
    ghost var n := 0;
    NothingScanned(low, start);
    hide Find, FindLast, Occurs, SectionStart, Scanned;
    var cursor := start;
    var depth: nat := 0;
    while true
      invariant start <= cursor <= |low|
      invariant Scanned(low, start, cursor, n, depth)
      decreases |low| - cursor
    {
      var next := NextTag(low, cursor);
      if next.None? {
        ScanEnds(low, start, cursor, n, depth);
        return None;
      }
      ScanTag(low, start, cursor, n, depth);
      cursor := next.value.end;
      n := n + 1;
      if next.value.opens {
        depth := depth + 1;
      } else {
        depth := depth - 1;
        if depth == 0 { return Some(html[start..cursor]); }
      }
    }
  }

  lemma NothingScanned(low: string, start: nat)
    requires Occurs(low, OPEN, start)
    ensures Scanned(low, start, start, 0, 0)
  {
    hide Tags;
    assert Tags(low, start)[0..] == Tags(low, start);
  }

  // ---- The marker ------------------------------------------------------------------------------------

  /** No section opens between the start and the marker. */
  lemma NoOpenBeforeMarker(low: string, marker: nat, start: nat, j: nat)
    requires Find(low, MARKER, 0) == Some(marker) && FindLast(low, OPEN, marker) == Some(start)
    requires start < j < marker
    ensures !Occurs(low, OPEN, j)
  {
    OccursChar(low, MARKER, marker, 0);
    assert MARKER[0] == 'd' && 'd' !in OPEN;
    if j + |OPEN| > marker { NotThrough(low, OPEN, j, marker); }
  }

  /** A closing tag starts and ends between the end of the section's own tag and the marker. */
  ghost predicate ClosedBeforeMarker(low: string, tagEnd: nat, marker: nat) {
    exists c: nat, g: nat :: tagEnd <= c < g < marker && Occurs(low, CLOSE, c) && g < |low| && low[g] == '>'
  }

  ghost predicate IsTag(low: string, t: Tag) {
    && t.start < t.end <= |low|
    && Occurs(low, if t.opens then OPEN else CLOSE, t.start) && low[t.end - 1] == '>'
  }

  lemma NextIsTag(low: string, cursor: nat)
    requires NextTag(low, cursor).Some?
    ensures IsTag(low, NextTag(low, cursor).value) && cursor <= NextTag(low, cursor).value.start
  {
    var t := NextTag(low, cursor).value;
    OccursOne(low, '>', t.end - 1);
    hide Occurs;
  }

  lemma {:induction false} TagIsTag(low: string, cursor: nat, i: nat)
    requires i < |Tags(low, cursor)|
    ensures IsTag(low, Tags(low, cursor)[i]) && cursor <= Tags(low, cursor)[i].start
    ensures i > 0 ==> Tags(low, cursor)[0].end <= Tags(low, cursor)[i].start
    decreases i
  {
    hide NextTag, Occurs, Find, IsTag;
    NextIsTag(low, cursor);
    if i == 0 {
    } else {
      TagIsTag(low, NextTag(low, cursor).value.end, i - 1);
    }
  }

  lemma LastTagCloses(low: string, start: nat, k: nat)
    requires Occurs(low, OPEN, start) && ShortestBalanced(Tags(low, start), k)
    ensures var tags := Tags(low, start);
      && k > 1 && tags[0].opens && IsTag(low, tags[0]) && start <= tags[0].start
      && !tags[k - 1].opens && IsTag(low, tags[k - 1]) && tags[0].end <= tags[k - 1].start
  {
    var tags := Tags(low, start);
    FirstTagOpens(low, start);
    TagIsTag(low, start, 0);
    TagIsTag(low, start, k - 1);
    assert tags[0] == NextTag(low, start).value;
    hide NextTag, Occurs, Find, Tags, IsTag;
    assert tags[..1][..0] == [] && tags[..1][0] == tags[0] && Depth(tags[..1]) == 1;
    assert tags[..k][..k - 1] == tags[..k - 1] && tags[..k][k - 1] == tags[k - 1];
  }

  /** The tag after the section's own is the closing one. */
  lemma ClosesAtOnce(low: string, marker: nat, start: nat)
    requires Find(low, MARKER, 0) == Some(marker) && FindLast(low, OPEN, marker) == Some(start)
    requires Tags(low, start) != [] && ClosedBeforeMarker(low, Tags(low, start)[0].end, marker)
    ensures var tags := Tags(low, start); |tags| > 1 && !tags[1].opens && tags[1].end <= marker
  {
    var tags := Tags(low, start);
    var tagEnd := tags[0].end;
    var c: nat, g: nat :| tagEnd <= c < g < marker && Occurs(low, CLOSE, c) && g < |low| && low[g] == '>';
    TagIsTag(low, start, 0);
    forall j | tagEnd <= j < marker ensures !Occurs(low, OPEN, j) {
      NoOpenBeforeMarker(low, marker, start, j);
    }
    assert tags[1..] == Tags(low, tagEnd);
    NextCloses(low, tagEnd, c, g, marker);
  }

  lemma NextCloses(low: string, cursor: nat, c: nat, g: nat, limit: nat)
    requires forall j :: cursor <= j < limit ==> !Occurs(low, OPEN, j)
    requires cursor <= c < g < limit && Occurs(low, CLOSE, c) && g < |low| && low[g] == '>'
    ensures NextTag(low, cursor).Some?
    ensures var t := NextTag(low, cursor).value; !t.opens && t.end <= limit
  {
    OccursOne(low, '>', g);
    hide Occurs;
    assert Find(low, CLOSE, cursor).Some? && Find(low, CLOSE, cursor).value <= c;
    assert Find(low, OPEN, cursor).Some? ==> Find(low, OPEN, cursor).value >= limit;
    assert Find(low, ">", Find(low, CLOSE, cursor).value).Some?;
  }

  /** The fragment contains the marker exactly when the section is not closed before it. */
  lemma ContainsMarker(low: string, marker: nat, start: nat, k: nat)
    requires Find(low, MARKER, 0) == Some(marker) && FindLast(low, OPEN, marker) == Some(start)
    requires ShortestBalanced(Tags(low, start), k)
    ensures var tags := Tags(low, start);
      marker + |MARKER| <= tags[k - 1].end <==> !ClosedBeforeMarker(low, tags[0].end, marker)
  {
    LastTagCloses(low, start, k);
    hide Occurs, Find, FindLast, Tags, IsTag, ShortestBalanced, ClosedBeforeMarker;
    if ClosedBeforeMarker(low, Tags(low, start)[0].end, marker) {
      ClosesAtOnce(low, marker, start);
      SecondTagLast(Tags(low, start), k);
    } else {
      UnclosedContains(low, marker, Tags(low, start)[0].end, Tags(low, start)[k - 1]);
    }
  }

  lemma SecondTagLast(tags: seq<Tag>, k: nat)
    requires ShortestBalanced(tags, k) && |tags| > 1 && tags[0].opens && !tags[1].opens
    ensures k == 2
  {
    assert tags[..1][..0] == [] && tags[..1][0] == tags[0] && Depth(tags[..1]) == 1;
    assert tags[..2][..1] == tags[..1] && tags[..2][1] == tags[1] && Depth(tags[..2]) == 0;
  }

  lemma UnclosedContains(low: string, marker: nat, tagEnd: nat, last: Tag)
    requires Occurs(low, MARKER, marker) && !ClosedBeforeMarker(low, tagEnd, marker)
    requires tagEnd <= last.start && IsTag(low, last) && !last.opens
    ensures marker + |MARKER| <= last.end
  {
    OccursChar(low, CLOSE, last.start, 0);
    assert CLOSE[0] == '<' && last.start < last.end - 1;
    assert last.end - 1 >= marker;
    assert '>' !in MARKER;
    if last.end - 1 < marker + |MARKER| { NotThrough(low, MARKER, marker, last.end - 1); }
  }

  lemma SliceOccurs(low: string, start: nat, end: nat, pattern: string, i: nat)
    requires start <= end <= |low|
    ensures Occurs(low[start..end], pattern, i) <==> Occurs(low, pattern, start + i) && start + i + |pattern| <= end
  {
    if start + i + |pattern| <= end {
      var inner := low[start..end][i..i + |pattern|];
      var outer := low[start + i..start + i + |pattern|];
      assert forall k :: 0 <= k < |pattern| ==> inner[k] == low[start + i + k] == outer[k];
      assert inner == outer;
    }
  }

  lemma SliceFinds(low: string, start: nat, end: nat, marker: nat)
    requires start <= end <= |low| && Find(low, MARKER, 0) == Some(marker) && start <= marker
    ensures Find(low[start..end], MARKER, 0).Some? <==> marker + |MARKER| <= end
  {
    var slice := Find(low[start..end], MARKER, 0);
    if slice.Some? { SliceOccurs(low, start, end, MARKER, slice.value); }
    SliceOccurs(low, start, end, MARKER, marker - start);
    hide Occurs;
  }

  lemma LowerSlice(html: string, start: nat, end: nat)
    requires start <= end <= |html|
    ensures Lower(html[start..end]) == Lower(html)[start..end]
  {
  }

  /** The extracted fragment contains the marker exactly when the section is not closed before it. */
  lemma FragmentContainsMarker(html: string, text: string)
    requires IsFragment(html, Some(text))
    ensures var low := Lower(html);
            var tags := Tags(low, SectionStart(low).value);
            && tags != []
            && (Find(Lower(text), MARKER, 0).Some?
                <==> !ClosedBeforeMarker(low, tags[0].end, Find(low, MARKER, 0).value))
  {
    var low := Lower(html);
    var start := SectionStart(low).value;
    var marker := Find(low, MARKER, 0).value;
    var end :| start <= end <= |html| && SectionEnds(low, start, end) && text == html[start..end];
    assert FindLast(low, OPEN, marker) == Some(start) && start <= marker;
    hide FindLast, Tags, Occurs, ClosedBeforeMarker, SectionStart;
    var k :| ShortestBalanced(Tags(low, start), k) && Tags(low, start)[k - 1].end == end;
    LowerSlice(html, start, end);
    SliceFinds(low, start, end, marker);
    ContainsMarker(low, marker, start, k);
  }

  /** In particular the fragment contains the marker when no "</section" lies between its start and the marker. */
  lemma UnclosedFragmentContainsMarker(html: string, text: string)
    requires IsFragment(html, Some(text))
    requires forall c :: SectionStart(Lower(html)).value <= c < Find(Lower(html), MARKER, 0).value
                         ==> !Occurs(Lower(html), CLOSE, c)
    ensures Find(Lower(text), MARKER, 0).Some?
  {
    var low := Lower(html);
    var start := SectionStart(low).value;
    FragmentContainsMarker(html, text);
    TagIsTag(low, start, 0);
    hide Tags, Find, FindLast, Occurs, Lower, SectionStart;
    assert !ClosedBeforeMarker(low, Tags(low, start)[0].end, Find(low, MARKER, 0).value);
  }

  /** The text runs from a "<section" in front of the first marker to the end of a "</section" tag. */
  ghost predicate HasShape(html: string, text: string, start: nat, marker: nat, close: nat) {
    var low := Lower(html);
    && Occurs(low, "<section", start) && start < marker && Occurs(low, "data-admin-workspace-module", marker)
    && (forall j: nat :: j < marker ==> !Occurs(low, "data-admin-workspace-module", j))
    && start < close < start + |text| <= |html| && text == html[start..start + |text|]
    && Occurs(low, "</section", close) && text[|text| - 1] == '>'
  }

  lemma FragmentShape(html: string, text: string)
    requires IsFragment(html, Some(text))
    ensures exists start: nat, marker: nat, close: nat :: HasShape(html, text, start, marker, close)
  {
    var low := Lower(html);
    var start := SectionStart(low).value;
    var marker := Find(low, MARKER, 0).value;
    assert Occurs(low, OPEN, start) && start < marker && Occurs(low, MARKER, marker);
    assert forall j: nat :: j < marker ==> !Occurs(low, MARKER, j);
    hide SectionStart, FindLast, Find, Occurs, Tags, IsTag, Lower, HasShape;
    var end :| start <= end <= |html| && SectionEnds(low, start, end) && text == html[start..end];
    var k :| ShortestBalanced(Tags(low, start), k) && Tags(low, start)[k - 1].end == end;
    hide ShortestBalanced, SectionEnds, IsFragment, HasShape;
    LastTagCloses(low, start, k);
    ClosingTag(html, start, Tags(low, start)[0], Tags(low, start)[k - 1], text);
    ShapeOf(html, text, start, marker, Tags(low, start)[k - 1].start);
  }

  lemma ShapeOf(html: string, text: string, start: nat, marker: nat, close: nat)
    requires Occurs(Lower(html), OPEN, start) && start < marker && Occurs(Lower(html), MARKER, marker)
    requires forall j: nat :: j < marker ==> !Occurs(Lower(html), MARKER, j)
    requires start < close < start + |text| <= |html| && text == html[start..start + |text|]
    requires Occurs(Lower(html), CLOSE, close) && text[|text| - 1] == '>'
    ensures HasShape(html, text, start, marker, close)
  {
    hide Occurs, Lower;
  }

  lemma ClosingTag(html: string, start: nat, first: Tag, last: Tag, text: string)
    requires first.opens && IsTag(Lower(html), first) && start <= first.start
    requires !last.opens && IsTag(Lower(html), last) && first.end <= last.start
    requires start <= last.end <= |html| && text == html[start..last.end]
    ensures start < last.start < start + |text| && Occurs(Lower(html), CLOSE, last.start) && text[|text| - 1] == '>'
  {
    assert LowerChar(html[last.end - 1]) == '>';
    hide Occurs;
  }
}

/** Character classes and the string operations the scanners use. */
module Text {
  import opened Wrappers

  // ---- Characters --------------------------------------------------------------------------

  /** The Unicode White_Space property. */
  predicate IsWhitespace(c: char) {
    || '\U{0009}' <= c <= '\U{000D}'
    || c == ' ' || c == '\U{0085}' || c == '\U{00A0}' || c == '\U{1680}'
    || '\U{2000}' <= c <= '\U{200A}'
    || c == '\U{2028}' || c == '\U{2029}' || c == '\U{202F}' || c == '\U{205F}' || c == '\U{3000}'
  }

  predicate IsSlash(c: char) {
    c == '/'
  }

  function LowerChar(c: char): char {
    if 'A' <= c <= 'Z' then (c as int + 32) as char else c
  }

  function UpperChar(c: char): char {
    if 'a' <= c <= 'z' then (c as int - 32) as char else c
  }

  /** to_ascii_lowercase. */
  function Lower(s: string): (r: string)
    ensures |r| == |s| && forall i :: 0 <= i < |s| ==> r[i] == LowerChar(s[i])
  {
    seq(|s|, i requires 0 <= i < |s| => LowerChar(s[i]))
  }

  /** to_ascii_uppercase. */
  function Upper(s: string): (r: string)
    ensures |r| == |s| && forall i :: 0 <= i < |s| ==> r[i] == UpperChar(s[i])
  {
    seq(|s|, i requires 0 <= i < |s| => UpperChar(s[i]))
  }

  /** The twenty-five code points with the Unicode White_Space property. */
  lemma WhitespaceCodes(c: char)
    ensures IsWhitespace(c) <==>
      c as int in [0x09, 0x0A, 0x0B, 0x0C, 0x0D, 0x20, 0x85, 0xA0, 0x1680, 0x2000, 0x2001, 0x2002, 0x2003, 0x2004,
                   0x2005, 0x2006, 0x2007, 0x2008, 0x2009, 0x200A, 0x2028, 0x2029, 0x202F, 0x205F, 0x3000]
  {
  }

  /** The case functions exchange the ASCII letters with the same place in the alphabet and leave every
      other character alone. */
  lemma CaseOfLetters(c: char, i: nat)
    ensures i < 26 && c as int == 0x41 + i ==> LowerChar(c) as int == 0x61 + i && UpperChar(c) == c
    ensures i < 26 && c as int == 0x61 + i ==> UpperChar(c) as int == 0x41 + i && LowerChar(c) == c
    ensures !(0x41 <= c as int < 0x5B) && !(0x61 <= c as int < 0x7B) ==> LowerChar(c) == c && UpperChar(c) == c
  {
  }

  // ---- Trimming ------------------------------------------------------------------------------

  /** Drops the longest prefix of characters in the class `p`. */
  function TrimStart(p: char -> bool, s: string): (r: string)
    ensures |r| <= |s| && r == s[|s| - |r|..]
    ensures r != "" ==> !p(r[0])
    ensures forall i :: 0 <= i < |s| - |r| ==> p(s[i])
  {
    if s != "" && p(s[0]) then TrimStart(p, s[1..]) else s
  }

  /** Drops the longest suffix of characters in the class `p`. */
  function TrimEnd(p: char -> bool, s: string): (r: string)
    ensures |r| <= |s| && r == s[..|r|]
    ensures r != "" ==> !p(r[|r| - 1])
    ensures forall i :: |r| <= i < |s| ==> p(s[i])
  {
    if s != "" && p(s[|s| - 1]) then TrimEnd(p, s[..|s| - 1]) else s
  }

  function Trim(p: char -> bool, s: string): (r: string)
    ensures |r| <= |s|
    ensures r != "" ==> !p(r[0]) && !p(r[|r| - 1])
  {
    TrimEnd(p, TrimStart(p, s))
  }

  /** A text that neither starts nor ends in the class is left alone. */
  lemma TrimKeeps(p: char -> bool, s: string)
    requires s != "" ==> !p(s[0]) && !p(s[|s| - 1])
    ensures Trim(p, s) == s
  {
  }

  /** A text that starts outside the class keeps its start, whatever follows it. */
  lemma TrimStartStays(p: char -> bool, s: string, post: string)
    requires s != "" && !p(s[0])
    ensures TrimStart(p, s + post) == s + post
  {
    assert (s + post)[0] == s[0];
  }

  lemma TrimEndStays(p: char -> bool, s: string)
    requires s != "" && !p(s[|s| - 1])
    ensures TrimEnd(p, s) == s
  {
  }

  lemma {:induction false} TrimStartMore(p: char -> bool, pre: string, s: string)
    requires forall i :: 0 <= i < |pre| ==> p(pre[i])
    ensures TrimStart(p, pre + s) == TrimStart(p, s)
  {
    if pre == "" {
      assert pre + s == s;
    } else {
      assert (pre + s)[1..] == pre[1..] + s;
      TrimStartMore(p, pre[1..], s);
    }
  }

  lemma {:induction false} TrimEndMore(p: char -> bool, s: string, post: string)
    requires forall i :: 0 <= i < |post| ==> p(post[i])
    ensures TrimEnd(p, s + post) == TrimEnd(p, s)
    decreases |post|
  {
    if post == "" {
      assert s + post == s;
    } else {
      assert (s + post)[..|s + post| - 1] == s + post[..|post| - 1];
      TrimEndMore(p, s, post[..|post| - 1]);
    }
  }

  /** Trimming a text whose first part is kept at both ends trims only the end of the rest. */
  lemma TrimBehind(p: char -> bool, head: string, tail: string)
    requires head != "" && !p(head[0]) && !p(head[|head| - 1])
    ensures Trim(p, head + tail) == head + TrimEnd(p, tail)
  {
    hide TrimStart, TrimEnd;
    var t := TrimEnd(p, tail);
    TrimStartStays(p, head, tail);
    assert head + tail == head + t + tail[|t|..];
    TrimEndMore(p, head + t, tail[|t|..]);
    assert (head + t)[|head + t| - 1] == if t == "" then head[|head| - 1] else t[|t| - 1];
    TrimEndStays(p, head + t);
  }

  ghost predicate AllIn(p: char -> bool, s: string) {
    forall i :: 0 <= i < |s| ==> p(s[i])
  }

  lemma TrimAll(p: char -> bool, s: string)
    requires AllIn(p, s)
    ensures TrimStart(p, s) == "" && TrimEnd(p, s) == "" && Trim(p, s) == ""
  {
    TrimStartMore(p, s, "");
    TrimEndMore(p, "", s);
    assert s + "" == s && "" + s == s;
  }

  lemma TrimPaddedEnd(p: char -> bool, s: string, post: string)
    requires AllIn(p, post)
    ensures Trim(p, s + post) == Trim(p, s)
  {
    hide TrimStart, TrimEnd;
    var core := TrimStart(p, s);
    var front := s[..|s| - |core|];
    assert s + post == front + (core + post);
    TrimStartMore(p, front, core + post);
    if core == "" {
      assert core + post == post;
      TrimAll(p, post);
      TrimAll(p, "");
    } else {
      TrimStartStays(p, core, post);
      TrimEndMore(p, core, post);
    }
  }

  /** Characters of the class put around a text make no difference. */
  lemma TrimPadded(p: char -> bool, pre: string, s: string, post: string)
    requires AllIn(p, pre) && AllIn(p, post)
    ensures Trim(p, pre + s + post) == Trim(p, s)
  {
    hide TrimStart, TrimEnd;
    assert pre + s + post == pre + (s + post);
    TrimStartMore(p, pre, s + post);
    TrimPaddedEnd(p, s, post);
  }

  /** `core` is what is left of the text when the characters of the class are dropped at its ends. */
  ghost predicate Stripped(p: char -> bool, text: string, core: string) {
    && (core != "" ==> !p(core[0]) && !p(core[|core| - 1]))
    && exists pre, post :: text == pre + core + post && AllIn(p, pre) && AllIn(p, post)
  }

  lemma StrippedIsTrim(p: char -> bool, text: string, core: string)
    ensures Stripped(p, text, core) <==> core == Trim(p, text)
  {
    TrimIsStripped(p, text);
    hide Trim, TrimStart, TrimEnd;
    if Stripped(p, text, core) {
      var pre, post :| text == pre + core + post && AllIn(p, pre) && AllIn(p, post);
      TrimPadded(p, pre, core, post);
      TrimKeeps(p, core);
    }
  }

  lemma TrimIsStripped(p: char -> bool, text: string)
    ensures Stripped(p, text, Trim(p, text))
  {
    hide TrimStart, TrimEnd;
    var t := TrimStart(p, text);
    var core := TrimEnd(p, t);
    var pre, post := text[..|text| - |t|], t[|core|..];
    assert t == core + post && text == pre + t;
    assert text == pre + core + post;
    assert core == Trim(p, text) && AllIn(p, pre) && AllIn(p, post);
  }

  // ---- Splitting -----------------------------------------------------------------------------

  /** The pieces between occurrences of `c`; always at least one. */
  function Split(s: string, c: char): (r: seq<string>)
    ensures |r| >= 1
    ensures forall i :: 0 <= i < |r| ==> c !in r[i]
  {
    if s == "" then [""]
    else
      var rest := Split(s[1..], c);
      if s[0] == c then [""] + rest else [[s[0]] + rest[0]] + rest[1..]
  }

  function Join(pieces: seq<string>, c: char): string {
    if pieces == [] then ""
    else if |pieces| == 1 then pieces[0]
    else pieces[0] + [c] + Join(pieces[1..], c)
  }

  lemma {:induction false} SplitPlain(s: string, c: char)
    requires c !in s
    ensures Split(s, c) == [s]
  {
    if s == "" {
    } else {
      SplitPlain(s[1..], c);
      assert s == [s[0]] + s[1..];
    }
  }

  lemma SplitHead(s: string, c: char)
    requires s != ""
    ensures var rest := Split(s[1..], c);
      Split(s, c) == if s[0] == c then [""] + rest else [[s[0]] + rest[0]] + rest[1..]
  {
  }

  lemma HeadOfBoth(first: char, x: seq<string>, y: seq<string>)
    requires |x| > 0
    ensures [""] + (x + y) == [""] + x + y
    ensures [[first] + (x + y)[0]] + (x + y)[1..] == [[first] + x[0]] + x[1..] + y
  {
  }

  lemma {:induction false} SplitAt(a: string, b: string, c: char)
    ensures Split(a + [c] + b, c) == Split(a, c) + Split(b, c)
  {
    if a == "" {
      assert (a + [c] + b)[1..] == b;
    } else {
      SplitAt(a[1..], b, c);
      assert (a + [c] + b)[1..] == a[1..] + [c] + b && (a + [c] + b)[0] == a[0];
      hide Split;
      SplitHead(a + [c] + b, c);
      SplitHead(a, c);
      HeadOfBoth(a[0], Split(a[1..], c), Split(b, c));
    }
  }

  /** Joining undoes splitting. */
  lemma {:induction false} JoinSplit(s: string, c: char)
    ensures Join(Split(s, c), c) == s
  {
    if s == "" {
    } else {
      JoinSplit(s[1..], c);
      var rest := Split(s[1..], c);
      var whole := Split(s, c);
      assert whole[1..] == if s[0] == c then rest else rest[1..];
      assert s == [s[0]] + s[1..];
    }
  }

  /** Splitting undoes joining of pieces that do not contain the separator. */
  lemma {:induction false} SplitJoin(pieces: seq<string>, c: char)
    requires pieces != [] && forall i :: 0 <= i < |pieces| ==> c !in pieces[i]
    ensures Split(Join(pieces, c), c) == pieces
  {
    SplitPlain(pieces[0], c);
    if |pieces| <= 1 {
    } else {
      SplitJoin(pieces[1..], c);
      SplitAt(pieces[0], Join(pieces[1..], c), c);
    }
  }

  // ---- Segments -----------------------------------------------------------------------------

  ghost predicate AllSlashes(s: string) {
    forall i :: 0 <= i < |s| ==> s[i] == '/'
  }

  lemma SlashesAreSlashes(s: string)
    ensures AllSlashes(s) <==> AllIn(IsSlash, s)
  {
    assert forall i :: 0 <= i < |s| ==> (IsSlash(s[i]) <==> s[i] == '/');
  }

  /** `core` is the text without the slashes at its ends. */
  ghost predicate IsCore(text: string, core: string) {
    && (core != "" ==> core[0] != '/' && core[|core| - 1] != '/')
    && exists pre, post :: text == pre + core + post && AllSlashes(pre) && AllSlashes(post)
  }

  /** The texts between the slashes of a core. */
  ghost predicate AreSegments(core: string, segments: seq<string>) {
    && core == Join(segments, '/') && (core == "" <==> segments == [])
    && forall i :: 0 <= i < |segments| ==> '/' !in segments[i]
  }

  lemma CoreIsTrim(text: string, core: string)
    ensures IsCore(text, core) <==> core == Trim(IsSlash, text)
  {
    StrippedIsTrim(IsSlash, text, core);
    hide Trim;
    if IsCore(text, core) {
      var pre, post :| text == pre + core + post && AllSlashes(pre) && AllSlashes(post);
      SlashesAreSlashes(pre);
      SlashesAreSlashes(post);
      assert Stripped(IsSlash, text, core);
    }
    if Stripped(IsSlash, text, core) {
      var pre, post :| text == pre + core + post && AllIn(IsSlash, pre) && AllIn(IsSlash, post);
      SlashesAreSlashes(pre);
      SlashesAreSlashes(post);
    }
  }

  lemma SegmentsOfCore(core: string, segments: seq<string>)
    ensures AreSegments(core, segments) <==> segments == if core == "" then [] else Split(core, '/')
  {
    JoinSplit(core, '/');
    if AreSegments(core, segments) && segments != [] { SplitJoin(segments, '/'); }
  }

  // ---- Searching -----------------------------------------------------------------------------

  predicate Occurs(s: string, pattern: string, i: nat) {
    i + |pattern| <= |s| && s[i..i + |pattern|] == pattern
  }

  lemma OccursOne(s: string, c: char, i: nat)
    ensures Occurs(s, [c], i) <==> i < |s| && s[i] == c
  {
    if i < |s| { assert s[i..i + 1] == [s[i]]; }
  }

  lemma OccursTwo(s: string, c: char, d: char, i: nat)
    ensures Occurs(s, [c, d], i) <==> i + 1 < |s| && s[i] == c && s[i + 1] == d
  {
    if i + 1 < |s| { assert s[i..i + 2] == [s[i], s[i + 1]]; }
  }

  predicate StartsWith(s: string, prefix: string) {
    Occurs(s, prefix, 0)
  }

  /** The first occurrence at or after `from`. */
  function Find(s: string, pattern: string, from: nat): (r: Option<nat>)
    ensures r.Some? ==> from <= r.value && Occurs(s, pattern, r.value)
    ensures r.Some? ==> forall j :: from <= j < r.value ==> !Occurs(s, pattern, j)
    ensures r.None? ==> forall j :: from <= j ==> !Occurs(s, pattern, j)
    decreases |s| - from
  {
    if from + |pattern| > |s| then None
    else if Occurs(s, pattern, from) then Some(from)
    else Find(s, pattern, from + 1)
  }

  /** The last occurrence that lies entirely before `limit`. */
  function FindLast(s: string, pattern: string, limit: nat): (r: Option<nat>)
    requires limit <= |s|
    ensures r.Some? ==> r.value + |pattern| <= limit && Occurs(s, pattern, r.value)
    ensures r.Some? ==> forall j: nat :: r.value < j && j + |pattern| <= limit ==> !Occurs(s, pattern, j)
    ensures r.None? ==> forall j: nat :: j + |pattern| <= limit ==> !Occurs(s, pattern, j)
    decreases limit
  {
    if limit < |pattern| then None
    else if Occurs(s, pattern, limit - |pattern|) then Some(limit - |pattern|)
    else if limit == |pattern| then None
    else FindLast(s, pattern, limit - 1)
  }
}

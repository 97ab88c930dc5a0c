/** The SQL gate does not see the case of ASCII letters. */
module SqlCase {
  import opened Wrappers
  import opened Text
  import opened SqlLexer
  import opened SqlGate

  /** Equal but for the case of ASCII letters. */
  ghost predicate SameLetters(s: string, u: string) {
    |s| == |u| && forall i :: 0 <= i < |s| ==> LowerChar(s[i]) == LowerChar(u[i])
  }

  predicate IsLetter(c: char) {
    'a' <= c <= 'z' || 'A' <= c <= 'Z'
  }

  lemma SameClass(c: char, d: char)
    requires LowerChar(c) == LowerChar(d)
    ensures IsWhitespace(c) == IsWhitespace(d) && IsTokenChar(c) == IsTokenChar(d)
    ensures forall x :: !IsLetter(x) ==> (c == x <==> d == x)
  {
  }

  lemma SameTail(s: string, u: string, k: nat)
    requires SameLetters(s, u) && k <= |s|
    ensures SameLetters(s[k..], u[k..])
    ensures k < |s| ==> IsWhitespace(s[k]) == IsWhitespace(u[k])
    ensures k < |s| ==> forall x :: !IsLetter(x) ==> (s[k] == x <==> u[k] == x)
  {
    if k < |s| { SameClass(s[k], u[k]); }
  }

  // ---- Code characters -----------------------------------------------------------------------

  lemma {:induction false} AfterCharCase(s: string, u: string, c: char)
    requires SameLetters(s, u) && !IsLetter(c)
    ensures SameLetters(AfterChar(s, c), AfterChar(u, c))
  {
    if s == "" {
    } else {
      SameTail(s, u, 0);
      SameTail(s, u, 1);
      AfterCharCase(s[1..], u[1..], c);
    }
  }

  lemma {:induction false} AfterBlockCase(s: string, u: string)
    requires SameLetters(s, u)
    ensures SameLetters(AfterBlock(s), AfterBlock(u))
  {
    if s == "" {
    } else {
      SameTail(s, u, 0);
      SameTail(s, u, 1);
      if |s| > 1 { SameTail(s, u, 2); }
      AfterBlockCase(s[1..], u[1..]);
    }
  }

  lemma {:induction false} AfterQuotedCase(s: string, u: string, q: char)
    requires SameLetters(s, u) && !IsLetter(q)
    ensures SameLetters(AfterQuoted(s, q), AfterQuoted(u, q))
    decreases |s|
  {
    if s == "" {
    } else {
      SameTail(s, u, 0);
      SameTail(s, u, 1);
      if |s| > 1 {
        SameTail(s, u, 2);
        AfterQuotedCase(s[2..], u[2..], q);
      }
      AfterQuotedCase(s[1..], u[1..], q);
    }
  }

  lemma {:induction false} CodeTextCase(s: string, u: string)
    requires SameLetters(s, u)
    ensures SameLetters(CodeText(s), CodeText(u))
    decreases |s|
  {
    if s == "" {
    } else {
      SameTail(s, u, 0);
      SameTail(s, u, 1);
      if |s| > 1 { SameTail(s, u, 2); }
      hide SameLetters, IsWhitespace;
      if Opens(s, '-', '-') {
        AfterCharCase(s[2..], u[2..], '\n');
        CodeTextCase(AfterChar(s[2..], '\n'), AfterChar(u[2..], '\n'));
      } else if Opens(s, '/', '*') {
        AfterBlockCase(s[2..], u[2..]);
        CodeTextCase(AfterBlock(s[2..]), AfterBlock(u[2..]));
      } else if s[0] == '\'' || s[0] == '"' {
        AfterQuotedCase(s[1..], u[1..], s[0]);
        CodeTextCase(AfterQuoted(s[1..], s[0]), AfterQuoted(u[1..], s[0]));
      } else {
        CodeTextCase(s[1..], u[1..]);
        SameWithHead(s, u, CodeText(s[1..]), CodeText(u[1..]));
      }
    }
  }

  lemma SameWithHead(s: string, u: string, restS: string, restU: string)
    requires s != "" && SameLetters(s, u) && SameLetters(restS, restU)
    ensures SameLetters([s[0]] + restS, [u[0]] + restU)
  {
  }

  lemma SecondStatementCase(s: string, u: string)
    requires SameLetters(s, u) && HasSecondStatement(s)
    ensures HasSecondStatement(u)
  {
    var i, j :| 0 <= i < j < |s| && s[i] == ';' && !IsWhitespace(s[j]);
    SameClass(s[i], u[i]);
    SameClass(s[j], u[j]);
    assert u[i] == ';' && !IsWhitespace(u[j]);
  }

  // ---- Leading comments ------------------------------------------------------------------------

  lemma {:induction false} TrimStartCase(s: string, u: string)
    requires SameLetters(s, u)
    ensures SameLetters(TrimStart(IsWhitespace, s), TrimStart(IsWhitespace, u))
  {
    if s == "" {
    } else {
      SameTail(s, u, 0);
      SameTail(s, u, 1);
      TrimStartCase(s[1..], u[1..]);
    }
  }

  lemma {:induction false} FindCase(s: string, u: string, pattern: string, from: nat)
    requires |s| == |u| && forall i: nat :: Occurs(s, pattern, i) <==> Occurs(u, pattern, i)
    ensures Find(s, pattern, from) == Find(u, pattern, from)
    decreases |s| - from
  {
    if from + |pattern| <= |s| {
      FindCase(s, u, pattern, from + 1);
    }
  }

  lemma CommentEndCase(s: string, u: string)
    requires SameLetters(s, u)
    ensures Find(s, "\n", 0) == Find(u, "\n", 0) && Find(s, "*/", 0) == Find(u, "*/", 0)
  {
    forall i: nat ensures Occurs(s, "\n", i) <==> Occurs(u, "\n", i) {
      OccursOne(s, '\n', i);
      OccursOne(u, '\n', i);
      if i < |s| { SameClass(s[i], u[i]); }
    }
    forall i: nat ensures Occurs(s, "*/", i) <==> Occurs(u, "*/", i) {
      OccursTwo(s, '*', '/', i);
      OccursTwo(u, '*', '/', i);
      if i < |s| { SameClass(s[i], u[i]); }
      if i + 1 < |s| { SameClass(s[i + 1], u[i + 1]); }
    }
    FindCase(s, u, "\n", 0);
    FindCase(s, u, "*/", 0);
  }

  lemma {:induction false} StripCase(s: string, u: string)
    requires SameLetters(s, u)
    ensures SameLetters(StripLeadingComments(s), StripLeadingComments(u))
    decreases |s|
  {
    TrimStartCase(s, u);
    var t, v := TrimStart(IsWhitespace, s), TrimStart(IsWhitespace, u);
    CommentEndCase(t, v);
    SameTail(t, v, 0);
    if |t| <= 1 {
    } else {
      SameTail(t, v, 1);
      hide SameLetters, IsWhitespace;
      if Opens(t, '-', '-') {
        var end := Find(t, "\n", 0);
        if end.Some? {
          SameTail(t, v, end.value + 1);
          StripCase(t[end.value + 1..], v[end.value + 1..]);
        } else {
          NothingIsSame();
        }
      } else if Opens(t, '/', '*') {
        var end := Find(t, "*/", 0);
        if end.Some? {
          SameTail(t, v, end.value + 2);
          StripCase(t[end.value + 2..], v[end.value + 2..]);
        } else {
          NothingIsSame();
        }
      }
    }
  }

  lemma NothingIsSame()
    ensures SameLetters("", "")
  {
  }

  // ---- Words -----------------------------------------------------------------------------------

  lemma {:induction false} ContextCase(s: string, u: string, i: nat)
    requires SameLetters(s, u) && i <= |s|
    ensures ContextAt(s, i) == ContextAt(u, i)
  {
    if i == 0 {
    } else {
      ContextCase(s, u, i - 1);
      SameTail(s, u, i - 1);
    }
  }

  lemma LowerCase(s: string, u: string)
    requires SameLetters(s, u)
    ensures Lower(s) == Lower(u)
  {
  }

  lemma WordCase(s: string, u: string, a: nat, b: nat)
    requires SameLetters(s, u) && IsWord(s, a, b)
    ensures IsWord(u, a, b)
  {
    forall k | 0 <= k < |s| ensures IsTokenChar(s[k]) == IsTokenChar(u[k]) && IsDelimiter(s[k]) == IsDelimiter(u[k]) {
      SameClass(s[k], u[k]);
      ContextCase(s, u, k);
    }
    forall k | a <= k < b ensures IsTokenChar(u[k]) && Outside(u, k) {
      assert IsTokenChar(s[k]) && Outside(s, k);
      ContextCase(s, u, k);
    }
  }

  lemma KeywordSpanCase(s: string, u: string, a: nat, b: nat)
    requires SameLetters(s, u) && KeywordSpan(s, a, b)
    ensures KeywordSpan(u, a, b) && Lower(s[a..b]) == Lower(u[a..b])
  {
    WordCase(s, u, a, b);
    LowerCase(s[a..b], u[a..b]);
  }

  lemma {:induction false} FirstKeywordCase(s: string, u: string, i: nat)
    requires SameLetters(s, u) && i <= |s|
    ensures FirstKeywordFrom(s, i) == FirstKeywordFrom(u, i)
    decreases |s| - i
  {
    if i == |s| {
    } else {
      FirstKeywordCase(s, u, i + 1);
      SameTokenEnd(s, u, i);
      var e := TokenEnd(s, i);
      SameLettersSymmetric(s, u);
      hide SameLetters, ClassifyKeyword, IsWord;
      if KeywordSpan(s, i, e) { KeywordSpanCase(s, u, i, e); }
      if KeywordSpan(u, i, e) { KeywordSpanCase(u, s, i, e); }
    }
  }

  lemma SameLettersSymmetric(s: string, u: string)
    requires SameLetters(s, u)
    ensures SameLetters(u, s)
  {
  }

  lemma {:induction false} SameTokenEnd(s: string, u: string, i: nat)
    requires SameLetters(s, u) && i <= |s|
    ensures TokenEnd(s, i) == TokenEnd(u, i)
    decreases |s| - i
  {
    if i == |s| {
    } else {
      SameClass(s[i], u[i]);
      SameTokenEnd(s, u, i + 1);
    }
  }

  /** Changing the case of ASCII letters changes no decision of the gate. */
  lemma {:induction false} GateIgnoresCase(permission: DbPermission, s: string, u: string)
    requires SameLetters(s, u)
    ensures ClassifySql(s) == ClassifySql(u)
    ensures Check(permission, s) == Check(permission, u)
  {
    CodeTextCase(s, u);
    StripCase(s, u);
    FirstKeywordCase(StripLeadingComments(s), StripLeadingComments(u), 0);
    SameLettersSymmetric(CodeText(s), CodeText(u));
    if HasSecondStatement(CodeText(s)) { SecondStatementCase(CodeText(s), CodeText(u)); }
    if HasSecondStatement(CodeText(u)) { SecondStatementCase(CodeText(u), CodeText(s)); }
  }

  lemma LowerCharTwice(c: char)
    ensures LowerChar(LowerChar(c)) == LowerChar(c) && LowerChar(UpperChar(c)) == LowerChar(c)
  {
  }

  /** In particular a statement written in lower or upper case is decided like the original. */
  lemma {:induction false} GateIgnoresLowerAndUpper(permission: DbPermission, s: string)
    ensures Check(permission, Lower(s)) == Check(permission, s) == Check(permission, Upper(s))
  {
    forall i | 0 <= i < |s|
      ensures LowerChar(Lower(s)[i]) == LowerChar(s[i]) && LowerChar(s[i]) == LowerChar(Upper(s)[i])
    {
      LowerCharTwice(s[i]);
    }
    GateIgnoresCase(permission, Lower(s), s);
    GateIgnoresCase(permission, s, Upper(s));
  }
}

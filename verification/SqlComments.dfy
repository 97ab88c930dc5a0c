/** Exactly which texts in front of a statement the SQL gate does not notice. */
module SqlComments {
  import opened Wrappers
  import opened Text
  import opened SqlLexer
  import opened SqlGate
  import opened SqlProofs

  // ---- The comment a text starts with ------------------------------------------------------------

  datatype Lead = Plain | Unclosed | Closed(rest: string)

  /** The comment that `t` starts with, and what follows it. */
  function LeadOf(t: string): (r: Lead)
    ensures r.Closed? ==> |r.rest| < |t|
  {
    if Opens(t, '-', '-') then Behind(t, "\n")
    else if Opens(t, '/', '*') then Behind(t, "*/")
    else Plain
  }

  function Behind(t: string, end: string): (r: Lead)
    requires end != ""
    ensures r.Closed? ==> |r.rest| < |t|
  {
    match Find(t, end, 0)
    case Some(p) => Closed(t[p + |end|..])
    case None => Unclosed
  }

  lemma StripByLead(s: string)
    ensures var t := TrimStart(IsWhitespace, s);
      StripLeadingComments(s) ==
        match LeadOf(t) case Plain => t case Unclosed => "" case Closed(rest) => StripLeadingComments(rest)
  {
    hide Find, TrimStart, IsWhitespace;
    var t := TrimStart(IsWhitespace, s);
    if Opens(t, '-', '-') {
      assert LeadOf(t) == Behind(t, "\n") && |"\n"| == 1;
    } else if Opens(t, '/', '*') {
      assert LeadOf(t) == Behind(t, "*/") && |"*/"| == 2;
    }
  }

  lemma FindInFront(t: string, sql: string, pattern: string)
    requires Find(t, pattern, 0).Some?
    ensures Find(t + sql, pattern, 0) == Find(t, pattern, 0)
  {
    var p := Find(t, pattern, 0).value;
    forall i: nat | i <= p ensures Occurs(t + sql, pattern, i) <==> Occurs(t, pattern, i) {
      assert (t + sql)[i..i + |pattern|] == t[i..i + |pattern|];
    }
    hide Occurs;
    FoundAt(t + sql, pattern, p);
  }

  lemma FindNowhere(t: string, sql: string, pattern: string)
    requires pattern != "" && Find(t, pattern, 0).None? && pattern[|pattern| - 1] !in sql
    ensures Find(t + sql, pattern, 0).None?
  {
    var s := t + sql;
    forall i: nat ensures !Occurs(s, pattern, i) {
      assert !Occurs(t, pattern, i);
      NotAcross(t, sql, pattern, i);
    }
    hide Occurs;
  }

  lemma NotAcross(t: string, sql: string, pattern: string, i: nat)
    requires pattern != "" && !Occurs(t, pattern, i) && pattern[|pattern| - 1] !in sql
    ensures !Occurs(t + sql, pattern, i)
  {
    var s := t + sql;
    var last := i + |pattern| - 1;
    if last < |t| {
      assert s[i..last + 1] == t[i..last + 1];
    } else if last < |s| {
      assert s[i..last + 1][|pattern| - 1] == s[last] == sql[last - |t|];
    }
  }

  lemma BehindInFront(t: string, sql: string, end: string)
    requires end != ""
    requires Behind(t, end).Unclosed? ==> end[|end| - 1] !in sql
    ensures Behind(t + sql, end) == match Behind(t, end) case Closed(rest) => Closed(rest + sql) case other => other
  {
    match Find(t, end, 0)
    case Some(p) =>
      FindInFront(t, sql, end);
      hide Find;
      assert (t + sql)[p + |end|..] == t[p + |end|..] + sql;
    case None =>
      FindNowhere(t, sql, end);
  }

  /** A comment at the front is the same whatever follows the text it ends in. */
  lemma LeadInFront(t: string, sql: string)
    requires LeadOf(t).Plain? ==> LeadOf(t + sql).Plain?
    requires LeadOf(t).Unclosed? ==> '\n' !in sql && '/' !in sql
    ensures LeadOf(t + sql) == match LeadOf(t) case Closed(rest) => Closed(rest + sql) case other => other
  {
    if Opens(t, '-', '-') {
      assert Opens(t + sql, '-', '-');
      hide Behind;
      BehindInFront(t, sql, "\n");
    } else if Opens(t, '/', '*') {
      assert !Opens(t + sql, '-', '-') && Opens(t + sql, '/', '*');
      hide Behind;
      BehindInFront(t, sql, "*/");
    }
  }

  // ---- Stripping a text in front of a statement --------------------------------------------------

  /** What stripping leaves of `u`, or None when `u` ends inside a comment. */
  function Remainder(u: string): Option<string>
    decreases |u|
  {
    var t := TrimStart(IsWhitespace, u);
    match LeadOf(t)
    case Plain => Some(t)
    case Unclosed => None
    case Closed(rest) => Remainder(rest)
  }

  /** The text is nothing but whitespace and comments that end in it. */
  predicate Vanishes(u: string) {
    Remainder(u) == Some("")
  }

  lemma BehindEndsAlike(t: string, end: string)
    requires end != "" && Behind(t, end).Closed? && Behind(t, end).rest != ""
    ensures var rest := Behind(t, end).rest; rest[|rest| - 1] == t[|t| - 1]
  {
  }

  /** What is left starts no comment and ends as the text does. */
  lemma {:induction false} RemainderIsPlain(u: string)
    requires Remainder(u).Some? && Remainder(u).value != ""
    ensures var r := Remainder(u).value;
      u != "" && r[|r| - 1] == u[|u| - 1] && !IsWhitespace(r[0]) && LeadOf(r).Plain?
    decreases |u|
  {
    var t := TrimStart(IsWhitespace, u);
    hide TrimStart, IsWhitespace, Behind;
    if LeadOf(t).Closed? {
      var rest := LeadOf(t).rest;
      RemainderIsPlain(rest);
      BehindEndsAlike(t, if Opens(t, '-', '-') then "\n" else "*/");
    }
  }

  lemma TrimFront(u: string, sql: string)
    ensures var t := TrimStart(IsWhitespace, u);
      TrimStart(IsWhitespace, u + sql) == if t == "" then TrimStart(IsWhitespace, sql) else t + sql
  {
    hide IsWhitespace;
    var t := TrimStart(IsWhitespace, u);
    var front := u[..|u| - |t|];
    assert u + sql == front + (t + sql);
    TrimStartMore(IsWhitespace, front, t + sql);
    if t == "" {
      assert t + sql == sql;
    } else {
      TrimStartStays(IsWhitespace, t, sql);
    }
  }

  /** `sql` can neither end a comment that `u` leaves open nor start one with what `u` leaves. */
  predicate Follows(u: string, sql: string) {
    match Remainder(u)
    case None => '\n' !in sql && '/' !in sql
    case Some(r) => r == "" || LeadOf(r + sql).Plain?
  }

  /** Stripping `u + sql`, by what is left of `u`. */
  lemma {:induction false} RemainderStrips(u: string, sql: string)
    requires Follows(u, sql)
    ensures StripLeadingComments(u + sql) ==
      match Remainder(u)
      case None => ""
      case Some(r) => if r == "" then StripLeadingComments(sql) else r + sql
    decreases |u|
  {
    var t := TrimStart(IsWhitespace, u);
    TrimFront(u, sql);
    StripByLead(u + sql);
    StripByLead(sql);
    assert LeadOf("") == Plain;
    hide TrimStart, IsWhitespace, LeadOf, StripLeadingComments;
    if t == "" {
    } else {
      LeadInFront(t, sql);
      match LeadOf(t)
      case Plain =>
      case Unclosed =>
      case Closed(rest) => RemainderStrips(rest, sql);
    }
  }

  lemma LettersArePlain(s: string)
    requires s != "" && forall i :: 0 <= i < |s| ==> IsTokenChar(s[i])
    ensures '\n' !in s && '/' !in s && ';' !in s && StripLeadingComments(s) == s
    ensures forall i :: 0 <= i < |s| ==> !IsDelimiter(s[i])
  {
    hide StripLeadingComments;
    StripTokenStart(s);
    forall i | 0 <= i < |s| ensures s[i] != '\n' && s[i] != '/' && s[i] != ';' && !IsDelimiter(s[i]) {
      TokenCharIsPlain(s[i]);
    }
    hide IsTokenChar, IsDelimiter;
  }

  lemma TokenCharIsPlain(c: char)
    requires IsTokenChar(c)
    ensures c != '\n' && c != '/' && c != ';' && !IsDelimiter(c)
  {
  }

  lemma StaysPlain(r: string, sql: string)
    requires r != "" && LeadOf(r).Plain? && sql != "" && sql[0] != '*' && (sql[0] == '-' ==> r[|r| - 1] == '/')
    ensures LeadOf(r + sql).Plain?
  {
  }

  /** Stripping never notices `u` exactly when `u` vanishes. */
  lemma {:induction false} VanishingIsUnnoticed(u: string)
    ensures (forall sql :: StripLeadingComments(u + sql) == StripLeadingComments(sql)) <==> Vanishes(u)
  {
    hide StripLeadingComments, LeadOf, Remainder;
    if Vanishes(u) {
      forall sql ensures StripLeadingComments(u + sql) == StripLeadingComments(sql) {
        RemainderStrips(u, sql);
      }
    } else {
      KeywordLetters("select");
      LettersArePlain("select");
      if Remainder(u).Some? {
        RemainderIsPlain(u);
        StaysPlain(Remainder(u).value, "select");
      }
      RemainderStrips(u, "select");
      assert StripLeadingComments(u + "select") != StripLeadingComments("select");
    }
  }

  // ---- Block comments ------------------------------------------------------------------------------

  /** The block comment is all comment for the stripper too: its body does not start with a slash,
      or what that slash uncovers vanishes. */
  predicate BodyVanishes(body: string) {
    !StartsWith(body, "/") || Vanishes(body[1..] + "*/")
  }

  lemma RemainderOfBlock(body: string)
    requires NoBlockEnd(body)
    ensures Remainder("/*" + body + "*/") ==
      if StartsWith(body, "/") then Remainder(body[1..] + "*/") else Some("")
  {
    var c := "/*" + body + "*/";
    assert TrimStart(IsWhitespace, c) == c && Opens(c, '/', '*') && !Opens(c, '-', '-');
    assert Remainder(c) == match Behind(c, "*/") case Closed(rest) => Remainder(rest) case _ => None;
    if StartsWith(body, "/") {
      SlashEndsAtOnce(body);
    } else {
      BlockEndIsFirst(body, "");
      assert c + "" == c && c[|c|..] == "";
      assert Remainder("") == Some("");
    }
  }

  /** A body with a slash in front may vanish all the same: with two slashes for a body the stripper
      sees two comments. */
  lemma TwoSlashesVanish()
    ensures StartsWith("//", "/") && BodyVanishes("//")
  {
    OccursOne("//", '/', 0);
    assert "//"[1..] + "*/" == "/*" + "/" == "/*/";
    OccursTwo("/*/", '*', '/', 0);
    OccursTwo("/*/", '*', '/', 1);
    FoundAt("/*/", "*/", 1);
    assert LeadOf("/*/") == Closed("");
    assert Remainder("") == Some("");
  }

  lemma SlashEndsAtOnce(body: string)
    requires StartsWith(body, "/")
    ensures Behind("/*" + body + "*/", "*/") == Closed(body[1..] + "*/")
  {
    var c := "/*" + body + "*/";
    OccursOne(body, '/', 0);
    OccursTwo(c, '*', '/', 0);
    OccursTwo(c, '*', '/', 1);
    FoundAt(c, "*/", 1);
    assert c[3..] == body[1..] + "*/";
  }

  /** A leading block comment changes the stripped text of no statement exactly when its body
      vanishes; the code text never sees it. */
  lemma {:induction false} BlockCommentInFront(body: string)
    requires NoBlockEnd(body)
    ensures forall sql :: CodeText("/*" + body + "*/" + sql) == CodeText(sql)
    ensures (forall sql :: StripLeadingComments("/*" + body + "*/" + sql) == StripLeadingComments(sql))
            <==> BodyVanishes(body)
  {
    forall sql ensures CodeText("/*" + body + "*/" + sql) == CodeText(sql) {
      BlockCommentIsNoCode(body, sql);
    }
    hide StripLeadingComments, CodeText, Remainder;
    RemainderOfBlock(body);
    VanishingIsUnnoticed("/*" + body + "*/");
  }

  // ---- The gate ------------------------------------------------------------------------------------

  lemma {:induction false} SameContext(r: string, x: string, y: string, k: nat)
    requires k <= |r|
    ensures ContextAt(r + x, k) == ContextAt(r + y, k)
    decreases k
  {
    if k == 0 {
    } else {
      SameContext(r, x, y, k - 1);
      assert (r + x)[k - 1] == r[k - 1] == (r + y)[k - 1];
    }
  }

  /** A keyword that starts in a text ending in a slash also ends in it, whatever follows. */
  lemma KeywordStays(r: string, x: string, y: string, a: nat, b: nat)
    requires r != "" && r[|r| - 1] == '/' && a < |r| && KeywordSpan(r + x, a, b)
    ensures b < |r| && KeywordSpan(r + y, a, b) && (r + x)[a..b] == (r + y)[a..b] == r[a..b]
  {
    assert (r + x)[|r| - 1] == '/' && !IsTokenChar('/');
    assert b < |r|;
    forall k | a <= k < b ensures IsTokenChar((r + y)[k]) && Outside(r + y, k) {
      SameContext(r, x, y, k);
      assert (r + y)[k] == (r + x)[k];
    }
    assert a > 0 ==> (r + y)[a - 1] == (r + x)[a - 1];
    assert (r + y)[b] == (r + x)[b];
    assert (r + x)[a..b] == r[a..b] && (r + y)[a..b] == r[a..b];
    hide ClassifyKeyword;
  }

  /** A keyword in the text in front is the keyword of every statement behind it. */
  lemma KeywordInFront(r: string, x: string, y: string, a: nat, b: nat)
    requires r != "" && r[|r| - 1] == '/' && a < |r| && KeywordSpan(r + x, a, b)
    ensures FirstKeywordFrom(r + x, 0) == FirstKeywordFrom(r + y, 0)
  {
    hide KeywordSpan;
    var c, d := LeastSpan(r + x, a, b);
    KeywordStays(r, x, y, c, d);
    forall e: nat, f: nat | e < c ensures !KeywordSpan(r + y, e, f) {
      if KeywordSpan(r + y, e, f) { KeywordStays(r, y, x, e, f); }
    }
    FirstKeywordIs(r + x, 0, c, d);
    FirstKeywordIs(r + y, 0, c, d);
  }

  /** `y` starts with `p` dashes, and then with a keyword up to `e`. */
  ghost predicate Statement(y: string, p: nat, e: nat) {
    && p < e <= |y|
    && (forall i :: 0 <= i < p ==> y[i] == '-')
    && (forall i :: p <= i < e ==> IsTokenChar(y[i]))
    && (e < |y| ==> !IsTokenChar(y[e]) && !IsDelimiter(y[e]))
    && ClassifyKeyword(Lower(y[p..e])).Some?
  }

  /** Without one, the statement's keyword is found unless the text in front leaves a quote or a
      parenthesis open. */
  lemma KeywordBehind(r: string, y: string, p: nat, e: nat, x: string)
    requires r != "" && r[|r| - 1] == '/' && Outside(r, |r|) && Statement(y, p, e)
    requires forall a: nat, b: nat :: a < |r| ==> !KeywordSpan(r + x, a, b)
    ensures FirstKeywordFrom(r + y, 0) == Some(Lower(y[p..e]))
  {
    assert p < e <= |y|;
    hide Statement, KeywordSpan, Outside, IsTokenChar, Lower, ClassifyKeyword;
    WordIsSpan(r, y, p, e);
    forall a: nat, b: nat | a < |r| + p ensures !KeywordSpan(r + y, a, b) {
      NothingEarlier(r, y, p, e, x, a, b);
    }
    FirstKeywordIs(r + y, 0, |r| + p, |r| + e);
  }

  lemma NothingEarlier(r: string, y: string, p: nat, e: nat, x: string, a: nat, b: nat)
    requires r != "" && r[|r| - 1] == '/' && a < |r| + p && Statement(y, p, e)
    requires forall a: nat, b: nat :: a < |r| ==> !KeywordSpan(r + x, a, b)
    ensures !KeywordSpan(r + y, a, b)
  {
    if a < |r| {
      hide KeywordSpan, Statement;
      if KeywordSpan(r + y, a, b) { KeywordStays(r, y, x, a, b); }
    } else {
      assert (r + y)[a] == y[a - |r|] == '-';
      hide ClassifyKeyword;
    }
  }

  lemma {:induction false} OutsideBehind(r: string, y: string, k: nat)
    requires Outside(r, |r|) && k <= |y| && forall i :: 0 <= i < k ==> !IsDelimiter(y[i])
    ensures Outside(r + y, |r| + k)
    decreases k
  {
    if k == 0 {
      SameContext(r, y, "", |r|);
      assert r + "" == r;
    } else {
      OutsideBehind(r, y, k - 1);
      assert (r + y)[|r| + k - 1] == y[k - 1];
    }
  }

  lemma WordIsSpan(r: string, y: string, p: nat, e: nat)
    requires r != "" && r[|r| - 1] == '/' && Outside(r, |r|) && Statement(y, p, e)
    ensures KeywordSpan(r + y, |r| + p, |r| + e) && (r + y)[|r| + p..|r| + e] == y[p..e]
  {
    var s := r + y;
    forall k | |r| + p <= k < |r| + e ensures IsTokenChar(s[k]) && Outside(s, k) {
      WordIsOutside(r, y, p, e, k - |r|);
      assert s[k] == y[k - |r|];
    }
    assert s[|r| + p - 1] == if p == 0 then '/' else y[p - 1];
    assert e < |y| ==> s[|r| + e] == y[e];
    assert s[|r| + p..|r| + e] == y[p..e];
    hide ClassifyKeyword, Outside, Lower, IsWord;
    SpanOfWord(s, |r| + p, |r| + e);
  }

  lemma SpanOfWord(s: string, a: nat, b: nat)
    requires 0 < a < b <= |s| && !IsTokenChar(s[a - 1]) && (b < |s| ==> !IsTokenChar(s[b]) && !IsDelimiter(s[b]))
    requires forall k :: a <= k < b ==> IsTokenChar(s[k]) && Outside(s, k)
    requires ClassifyKeyword(Lower(s[a..b])).Some?
    ensures KeywordSpan(s, a, b)
  {
    hide IsTokenChar, IsDelimiter, ClassifyKeyword, Outside, Lower;
  }

  lemma WordIsOutside(r: string, y: string, p: nat, e: nat, k: nat)
    requires Outside(r, |r|) && Statement(y, p, e) && k < e
    ensures Outside(r + y, |r| + k)
  {
    hide ClassifyKeyword, Lower, Outside;
    OutsideBehind(r, y, k);
  }

  /** Inside a quote or a parenthesis a plain word is never found. */
  lemma {:induction false} InsideStays(r: string, y: string, k: nat)
    requires !Outside(r, |r|) && k <= |y| && forall i :: 0 <= i < k ==> !IsDelimiter(y[i])
    ensures !Outside(r + y, |r| + k)
    decreases k
  {
    if k == 0 {
      SameContext(r, y, "", |r|);
      assert r + "" == r;
    } else {
      InsideStays(r, y, k - 1);
      assert (r + y)[|r| + k - 1] == y[k - 1];
    }
  }

  lemma NoKeywordInside(r: string, y: string)
    requires !Outside(r, |r|) && forall i :: 0 <= i < |y| ==> !IsDelimiter(y[i])
    requires forall a: nat, b: nat :: a < |r| ==> !KeywordSpan(r + y, a, b)
    ensures FirstKeywordFrom(r + y, 0) == None
  {
    forall a, b | 0 <= a < b && |r| <= a && IsWord(r + y, a, b) ensures false {
      InsideStays(r, y, a - |r|);
    }
    hide ClassifyKeyword, IsWord;
    NoKeyword(r + y, 0);
  }

  /** Whatever stripping leaves in front of a statement, one of three statements is taken for
      another class. */
  lemma RemainderTells(r: string, reading: string, creating: string, commented: string, p: nat, e: nat)
    requires r != "" && r[|r| - 1] == '/'
    requires forall i :: 0 <= i < |reading| ==> !IsDelimiter(reading[i])
    requires Statement(commented, p, e) && ClassifyKeyword(Lower(commented[p..e])) == Some(SqlOperation.Admin)
    ensures || ClassOf(r + reading) != Read || ClassOf(r + creating) != SqlOperation.Admin
            || ClassOf(r + commented) != Read
  {
    hide KeywordSpan, ClassifyKeyword, Statement, IsDelimiter;
    if a: nat, b: nat :| a < |r| && KeywordSpan(r + reading, a, b) {
      KeywordInFront(r, reading, creating, a, b);
    } else if Outside(r, |r|) {
      KeywordBehind(r, commented, p, e, reading);
    } else {
      NoKeywordInside(r, reading);
    }
  }

  /** The class of a stripped text. */
  ghost function ClassOf(t: string): SqlOperation {
    match FirstKeywordFrom(t, 0)
    case Some(keyword) => (match ClassifyKeyword(keyword) case Some(op) => op case None => SqlOperation.Admin)
    case None => SqlOperation.Admin
  }

  lemma ClassByStripping(sql: string)
    ensures ClassifySql(sql) == ClassOf(StripLeadingComments(sql))
  {
    hide ClassifyKeyword, FirstKeywordFrom, StripLeadingComments;
  }

  /** Behind a text that leaves something, the class is that of the two together. */
  lemma ClassBehind(u: string, sql: string)
    requires u != "" && u[|u| - 1] == '/' && Remainder(u).Some? && Remainder(u).value != ""
    requires sql != "" && sql[0] != '*'
    ensures ClassifySql(u + sql) == ClassOf(Remainder(u).value + sql)
  {
    hide StripLeadingComments, LeadOf, Remainder, ClassOf, ClassifySql;
    RemainderIsPlain(u);
    StaysPlain(Remainder(u).value, sql);
    RemainderStrips(u, sql);
    ClassByStripping(u + sql);
  }

  /** Inside an open comment nothing is found. */
  lemma ClassInside(u: string, sql: string)
    requires Remainder(u).None? && '\n' !in sql && '/' !in sql
    ensures ClassifySql(u + sql) == SqlOperation.Admin
  {
    hide StripLeadingComments, Remainder, ClassifySql;
    RemainderStrips(u, sql);
    ClassByStripping(u + sql);
  }

  /** Put behind a text with a slash at its end that does not vanish, a read, a definition or a read
      behind a comment changes its class. */
  lemma TextTells(u: string, reading: string, creating: string, commented: string, p: nat, e: nat)
    requires u != "" && u[|u| - 1] == '/' && !Vanishes(u)
    requires reading != "" && reading[0] != '*' && creating != "" && creating[0] != '*'
    requires '\n' !in reading && '/' !in reading && forall i :: 0 <= i < |reading| ==> !IsDelimiter(reading[i])
    requires commented != "" && commented[0] != '*'
    requires Statement(commented, p, e) && ClassifyKeyword(Lower(commented[p..e])) == Some(SqlOperation.Admin)
    ensures || ClassifySql(u + reading) != Read || ClassifySql(u + creating) != SqlOperation.Admin
            || ClassifySql(u + commented) != Read
  {
    hide ClassOf, ClassifySql, Remainder, Statement, ClassifyKeyword, StripLeadingComments, IsDelimiter, IsTokenChar;
    match Remainder(u)
    case None =>
      ClassInside(u, reading);
    case Some(r) =>
      ClassBehind(u, reading);
      ClassBehind(u, creating);
      ClassBehind(u, commented);
      RemainderIsPlain(u);
      RemainderTells(r, reading, creating, commented, p, e);
  }

  lemma DropComment(rest: string)
    ensures var commented := "--" + "drop" + ("\n" + rest);
      && Statement(commented, 2, 6) && Lower(commented[2..6]) == "drop"
      && ClassifyKeyword("drop") == Some(SqlOperation.Admin)
  {
    var commented := "--" + "drop" + ("\n" + rest);
    KeywordLetters("drop");
    assert commented[2..6] == "drop";
    hide ClassifyKeyword;
  }

  lemma LineCommentKeepsClass(body: string, sql: string)
    requires '\n' !in body
    ensures ClassifySql("--" + body + "\n" + sql) == ClassifySql(sql)
  {
    LineCommentInFront(body, sql);
    hide StripLeadingComments, FirstKeywordFrom, ClassifyKeyword;
  }

  lemma CommentedSelect()
    ensures ClassifySql("--" + "drop" + ("\n" + "select")) == Read
  {
    KeywordLetters("drop");
    LettersArePlain("drop");
    LineCommentKeepsClass("drop", "select");
    SelectReads();
    hide ClassifySql;
    Regrouped("--", "drop", "\n", "select");
  }

  lemma Regrouped(a: string, b: string, c: string, d: string)
    ensures a + b + (c + d) == a + b + c + d
  {
  }

  lemma NoSemicolon(word: string, read: string)
    requires ';' !in word && ';' !in read
    ensures ';' !in "--" + word + ("\n" + read) && ("--" + word + ("\n" + read))[0] == '-'
  {
  }

  /** A text with a slash at its end that does not vanish changes the class of one of three statements. */
  lemma SomeClassChanges(u: string) returns (sql: string)
    requires u != "" && u[|u| - 1] == '/' && !Vanishes(u)
    ensures ClassifySql(u + sql) != ClassifySql(sql) && ';' !in sql
  {
    var (reading, creating, commented) := ("select", "create", "--" + "drop" + ("\n" + "select"));
    KeywordLetters("select");
    KeywordLetters("create");
    KeywordLetters("drop");
    LettersArePlain(reading);
    LettersArePlain(creating);
    LettersArePlain("drop");
    NoSemicolon("drop", reading);
    SelectReads();
    WordAlone(creating);
    DropComment("select");
    CommentedSelect();
    hide ClassifySql, StripLeadingComments, Vanishes, Statement, ClassifyKeyword;
    TextTells(u, reading, creating, commented, 2, 6);
    sql := if ClassifySql(u + reading) != Read then reading
           else if ClassifySql(u + creating) != SqlOperation.Admin then creating
           else commented;
  }

  lemma {:induction false} AfterIsPart(s: string, c: char, d: char)
    requires c !in s
    ensures c !in AfterChar(s, d) && c !in AfterBlock(s) && c !in AfterQuoted(s, d)
  {
    if s == "" {
    } else {
      AfterIsPart(s[1..], c, d);
      if |s| > 1 { AfterIsPart(s[2..], c, d); }
    }
  }

  lemma {:induction false} CodeIsPart(s: string, c: char)
    requires c !in s
    ensures c !in CodeText(s)
    decreases |s|
  {
    if s == "" {
    } else {
      if Opens(s, '-', '-') {
        AfterIsPart(s[2..], c, '\n');
        CodeIsPart(AfterChar(s[2..], '\n'), c);
      } else if Opens(s, '/', '*') {
        AfterIsPart(s[2..], c, '*');
        CodeIsPart(AfterBlock(s[2..]), c);
      } else if s[0] == '\'' || s[0] == '"' {
        AfterIsPart(s[1..], c, s[0]);
        CodeIsPart(AfterQuoted(s[1..], s[0]), c);
      } else {
        CodeIsPart(s[1..], c);
      }
    }
  }

  /** A read-only gateway tells two classes of one statement apart. */
  lemma ClassShows(s: string, t: string)
    requires CodeText(s) == CodeText(t) && ';' !in t && ClassifySql(s) != ClassifySql(t)
    ensures Check(ReadOnly, s) != Check(ReadOnly, t)
  {
    hide ClassifySql, CodeText;
    CodeIsPart(t, ';');
    assert !HasSecondStatement(CodeText(t));
    hide HasSecondStatement;
  }

  /** The gate never notices a leading block comment, for any permission and any statement, exactly
      when its body vanishes. */
  lemma {:induction false} GateIgnoresBlockComment(body: string)
    requires NoBlockEnd(body)
    ensures (forall permission, sql :: Check(permission, "/*" + body + "*/" + sql) == Check(permission, sql))
            <==> BodyVanishes(body)
  {
    var c := "/*" + body + "*/";
    BlockCommentInFront(body);
    RemainderOfBlock(body);
    hide StripLeadingComments, CodeText, Remainder, ClassifySql;
    if BodyVanishes(body) {
      forall permission, sql ensures Check(permission, c + sql) == Check(permission, sql) {
        SameStripSameCheck(permission, c + sql, sql);
      }
    } else {
      var sql := SomeClassChanges(c);
      ClassShows(c + sql, sql);
    }
  }

  lemma SameStripSameCheck(permission: DbPermission, s: string, t: string)
    requires CodeText(s) == CodeText(t) && StripLeadingComments(s) == StripLeadingComments(t)
    ensures Check(permission, s) == Check(permission, t)
  {
    hide CodeText, StripLeadingComments, FirstKeywordFrom, ClassifyKeyword, HasSecondStatement;
  }

  /** The gate never notices a leading line comment. */
  lemma {:induction false} GateIgnoresLineComment(permission: DbPermission, body: string, sql: string)
    requires '\n' !in body
    ensures Check(permission, "--" + body + "\n" + sql) == Check(permission, sql)
  {
    LineCommentInFront(body, sql);
    SameStripSameCheck(permission, "--" + body + "\n" + sql, sql);
  }
}

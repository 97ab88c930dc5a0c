/** A declarative lexer for SQL text: which characters are code, and which words can be the
    statement keyword. */
module SqlLexer {
  import opened Wrappers
  import opened Text

  // ---- Code characters -------------------------------------------------------------------------

  /** What follows the first `c`. */
  function AfterChar(s: string, c: char): (r: string)
    ensures |r| <= |s|
  {
    if s == "" then "" else if s[0] == c then s[1..] else AfterChar(s[1..], c)
  }

  /** What follows the end of a block comment whose opening has been read. */
  function AfterBlock(s: string): (r: string)
    ensures |r| <= |s|
  {
    if s == "" then ""
    else if |s| > 1 && s[0] == '*' && s[1] == '/' then s[2..]
    else AfterBlock(s[1..])
  }

  /** What follows the end of a quoted text whose opening has been read; a doubled quote stands
      for the quote itself. */
  function AfterQuoted(s: string, q: char): (r: string)
    ensures |r| <= |s|
  {
    if s == "" then ""
    else if s[0] != q then AfterQuoted(s[1..], q)
    else if |s| > 1 && s[1] == q then AfterQuoted(s[2..], q)
    else s[1..]
  }

  predicate Opens(s: string, a: char, b: char) {
    |s| > 1 && s[0] == a && s[1] == b
  }

  /** The characters outside quotes and comments, delimiters excluded. */
  function CodeText(s: string): string
    decreases |s|
  {
    if s == "" then ""
    else if Opens(s, '-', '-') then CodeText(AfterChar(s[2..], '\n'))
    else if Opens(s, '/', '*') then CodeText(AfterBlock(s[2..]))
    else if s[0] == '\'' || s[0] == '"' then CodeText(AfterQuoted(s[1..], s[0]))
    else [s[0]] + CodeText(s[1..])
  }

  /** The same lexer without the doubled-quote rule: a quote simply ends at the next one. */
  function CodeTextPlain(s: string): string
    decreases |s|
  {
    if s == "" then ""
    else if Opens(s, '-', '-') then CodeTextPlain(AfterChar(s[2..], '\n'))
    else if Opens(s, '/', '*') then CodeTextPlain(AfterBlock(s[2..]))
    else if s[0] == '\'' || s[0] == '"' then CodeTextPlain(AfterChar(s[1..], s[0]))
    else [s[0]] + CodeTextPlain(s[1..])
  }

  lemma {:induction false} PlainQuote(s: string, q: char)
    requires q == '\'' || q == '"'
    ensures CodeTextPlain(AfterChar(s, q)) == CodeText(AfterQuoted(s, q))
    decreases |s|, 0
  {
    if s == "" {
    } else {
      if s[0] != q {
        PlainQuote(s[1..], q);
      } else if |s| > 1 && s[1] == q {
        PlainQuote(s[2..], q);
        assert s[1..][1..] == s[2..];
      } else {
        LookaheadIsIrrelevant(s[1..]);
      }
    }
  }

  /** The doubled-quote lookahead never changes which characters are code. */
  lemma {:induction false} LookaheadIsIrrelevant(s: string)
    ensures CodeTextPlain(s) == CodeText(s)
    decreases |s|, 1
  {
    if s == "" {
    } else {
      if Opens(s, '-', '-') {
        LookaheadIsIrrelevant(AfterChar(s[2..], '\n'));
      } else if Opens(s, '/', '*') {
        LookaheadIsIrrelevant(AfterBlock(s[2..]));
      } else if s[0] == '\'' || s[0] == '"' {
        PlainQuote(s[1..], s[0]);
      } else {
        LookaheadIsIrrelevant(s[1..]);
      }
    }
  }

  /** Some non-blank code follows a code semicolon. */
  ghost predicate HasSecondStatement(code: string) {
    exists i, j :: 0 <= i < j < |code| && code[i] == ';' && !IsWhitespace(code[j])
  }

  // ---- Words -----------------------------------------------------------------------------------

  predicate IsTokenChar(c: char) {
    'a' <= c <= 'z' || 'A' <= c <= 'Z' || '0' <= c <= '9' || c == '_'
  }

  predicate IsDelimiter(c: char) {
    c == '\'' || c == '"' || c == '(' || c == ')'
  }

  datatype Quoting = Unquoted | SingleQuoted | DoubleQuoted

  /** Parenthesis depth, and the kind of quotes the position is inside of. */
  datatype Context = Context(depth: nat, quoting: Quoting)

  function NextContext(x: Context, c: char): Context {
    if x.quoting == SingleQuoted then (if c == '\'' then x.(quoting := Unquoted) else x)
    else if x.quoting == DoubleQuoted then (if c == '"' then x.(quoting := Unquoted) else x)
    else if c == '\'' then x.(quoting := SingleQuoted)
    else if c == '"' then x.(quoting := DoubleQuoted)
    else if c == '(' then x.(depth := x.depth + 1)
    else if c == ')' && x.depth > 0 then x.(depth := x.depth - 1)
    else x
  }

  function ContextAt(s: string, i: nat): Context
    requires i <= |s|
  {
    if i == 0 then Context(0, Unquoted) else NextContext(ContextAt(s, i - 1), s[i - 1])
  }

  predicate Outside(s: string, i: nat)
    requires i <= |s|
  {
    ContextAt(s, i) == Context(0, Unquoted)
  }

  /** A maximal run of token characters outside parentheses and quotes that is ended by a plain
      character or by the end of the text, and not by a quote or parenthesis. */
  ghost predicate IsWord(s: string, a: nat, b: nat) {
    && a < b <= |s|
    && (forall k :: a <= k < b ==> IsTokenChar(s[k]) && Outside(s, k))
    && (a > 0 ==> !IsTokenChar(s[a - 1]))
    && (b < |s| ==> !IsTokenChar(s[b]) && !IsDelimiter(s[b]))
  }

  datatype SqlOperation = Read | Write | Admin

  function ClassifyKeyword(keyword: string): Option<SqlOperation> {
    if keyword in ["select", "values", "explain"] then Some(Read)
    else if keyword in ["insert", "update", "delete", "replace", "upsert"] then Some(Write)
    else if keyword in ["create", "drop", "alter", "truncate", "pragma", "attach", "detach", "reindex",
                        "vacuum", "begin", "commit", "rollback", "analyze"] then Some(Admin)
    else None
  }

  ghost predicate KeywordSpan(s: string, a: nat, b: nat) {
    IsWord(s, a, b) && ClassifyKeyword(Lower(s[a..b])).Some?
  }

  function TokenEnd(s: string, i: nat): (e: nat)
    requires i <= |s|
    ensures i <= e <= |s|
    ensures forall k :: i <= k < e ==> IsTokenChar(s[k])
    ensures e < |s| ==> !IsTokenChar(s[e])
    decreases |s| - i
  {
    if i < |s| && IsTokenChar(s[i]) then TokenEnd(s, i + 1) else i
  }

  /** The first keyword among the words that start at or after `i`. */
  ghost function FirstKeywordFrom(s: string, i: nat): Option<string>
    requires i <= |s|
    decreases |s| - i
  {
    if i == |s| then None
    else if KeywordSpan(s, i, TokenEnd(s, i)) then Some(Lower(s[i..TokenEnd(s, i)]))
    else FirstKeywordFrom(s, i + 1)
  }

  lemma WordEndsAtTokenEnd(s: string, a: nat, b: nat)
    requires IsWord(s, a, b)
    ensures b == TokenEnd(s, a)
  {
  }

  lemma {:induction false} NoKeyword(s: string, i: nat)
    requires i <= |s|
    requires forall a, b :: i <= a && a < b ==> !KeywordSpan(s, a, b)
    ensures FirstKeywordFrom(s, i) == None
    decreases |s| - i
  {
    if i == |s| {
    } else {
      NoKeyword(s, i + 1);
    }
  }

  /** The keyword word that starts first is the one found. */
  lemma {:induction false} FirstKeywordIs(s: string, i: nat, a: nat, b: nat)
    requires i <= a && KeywordSpan(s, a, b)
    requires forall c, d :: i <= c < a ==> !KeywordSpan(s, c, d)
    ensures FirstKeywordFrom(s, i) == Some(Lower(s[a..b]))
    decreases a - i
  {
    WordEndsAtTokenEnd(s, a, b);
    if i == a {
    } else {
      FirstKeywordIs(s, i + 1, a, b);
    }
  }

  /** The keyword found in a stripped text is the keyword word that starts first, and none is
      found exactly when no word is a keyword. */
  lemma {:induction false} FirstKeywordCharacterised(t: string)
    ensures FirstKeywordFrom(t, 0).Some? <==> exists a: nat, b: nat :: KeywordSpan(t, a, b)
    ensures forall k :: FirstKeywordFrom(t, 0) == Some(k) <==>
              exists a: nat, b: nat :: KeywordSpan(t, a, b) && k == Lower(t[a..b])
                && forall c: nat, d: nat :: KeywordSpan(t, c, d) ==> a <= c
  {
    hide IsWord, ClassifyKeyword;
    if w: nat, e: nat :| KeywordSpan(t, w, e) {
      var a, b := LeastSpan(t, w, e);
      FirstKeywordIs(t, 0, a, b);
      forall c: nat, d: nat | KeywordSpan(t, c, d) && c <= a ensures c == a && d == b {
        assert a <= c;
        SameStartSameSpan(t, a, b, c, d);
      }
    } else {
      NoKeyword(t, 0);
    }
  }

  lemma SameStartSameSpan(t: string, a: nat, b: nat, c: nat, d: nat)
    requires KeywordSpan(t, a, b) && KeywordSpan(t, c, d) && a == c
    ensures b == d
  {
    WordEndsAtTokenEnd(t, a, b);
    WordEndsAtTokenEnd(t, c, d);
  }

  lemma {:induction false} LeastSpan(t: string, w: nat, e: nat) returns (a: nat, b: nat)
    requires KeywordSpan(t, w, e)
    ensures a < b <= |t| && KeywordSpan(t, a, b) && forall c: nat, d: nat :: KeywordSpan(t, c, d) ==> a <= c
    decreases w
  {
    hide ClassifyKeyword;
    if c: nat, d: nat :| KeywordSpan(t, c, d) && c < w {
      a, b := LeastSpan(t, c, d);
    } else {
      a, b := w, e;
    }
  }

  // ---- The gate's table, in plain words ----------------------------------------------------------------

  ghost predicate IsReadWord(w: string) {
    w == "select" || w == "values" || w == "explain"
  }

  ghost predicate IsWriteWord(w: string) {
    w == "insert" || w == "update" || w == "delete" || w == "replace" || w == "upsert"
  }

  ghost predicate IsAdminWord(w: string) {
    || w == "create" || w == "drop" || w == "alter" || w == "truncate" || w == "pragma" || w == "attach"
    || w == "detach" || w == "reindex" || w == "vacuum" || w == "begin" || w == "commit" || w == "rollback"
    || w == "analyze"
  }

  ghost predicate IsTableWord(w: string) {
    IsReadWord(w) || IsWriteWord(w) || IsAdminWord(w)
  }

  lemma TableOfWords(w: string)
    ensures ClassifyKeyword(w) == Some(Read) <==> IsReadWord(w)
    ensures ClassifyKeyword(w) in {Some(Read), Some(Write)} <==> IsReadWord(w) || IsWriteWord(w)
    ensures ClassifyKeyword(w).Some? <==> IsTableWord(w)
  {
  }

  /** A maximal run of ASCII letters, digits and underscores outside parentheses and quotes that is
      ended by the end of the text or by a character that is no quote or parenthesis either. */
  ghost predicate WordAt(s: string, a: nat, b: nat) {
    && a < b <= |s|
    && (forall k :: a <= k < b ==> IsWordChar(s[k]) && Outside(s, k))
    && (a > 0 ==> !IsWordChar(s[a - 1]))
    && (b < |s| ==> !IsWordChar(s[b]) && s[b] != '\'' && s[b] != '"' && s[b] != '(' && s[b] != ')')
  }

  ghost predicate IsWordChar(c: char) {
    'a' <= c <= 'z' || 'A' <= c <= 'Z' || '0' <= c <= '9' || c == '_'
  }

  /** The word of the table that starts first. */
  ghost predicate FirstTableWord(t: string, a: nat, b: nat) {
    && WordAt(t, a, b) && IsTableWord(Lower(t[a..b]))
    && forall c: nat, d: nat :: WordAt(t, c, d) && IsTableWord(Lower(t[c..d])) ==> a <= c
  }

  lemma WordAtIsWord(s: string, a: nat, b: nat)
    ensures WordAt(s, a, b) <==> IsWord(s, a, b)
  {
    hide Outside;
  }

  lemma TableWordIsKeyword(t: string, a: nat, b: nat)
    ensures WordAt(t, a, b) && IsTableWord(Lower(t[a..b])) <==> KeywordSpan(t, a, b)
  {
    WordAtIsWord(t, a, b);
    if WordAt(t, a, b) { TableOfWords(Lower(t[a..b])); }
    hide WordAt, IsWord, ClassifyKeyword, IsTableWord;
  }

  /** The keyword found is the table's word that starts first. */
  lemma FirstKeywordIsTableWord(t: string)
    ensures FirstKeywordFrom(t, 0).None? <==> forall a: nat, b: nat :: !FirstTableWord(t, a, b)
    ensures forall a: nat, b: nat :: FirstTableWord(t, a, b) ==> FirstKeywordFrom(t, 0) == Some(Lower(t[a..b]))
  {
    assert forall a: nat, b: nat :: WordAt(t, a, b) ==> a < b <= |t|;
    hide WordAt, IsTableWord, KeywordSpan;
    forall a: nat, b: nat ensures WordAt(t, a, b) && IsTableWord(Lower(t[a..b])) <==> KeywordSpan(t, a, b) {
      TableWordIsKeyword(t, a, b);
    }
    forall a: nat, b: nat | FirstTableWord(t, a, b) ensures FirstKeywordFrom(t, 0) == Some(Lower(t[a..b])) {
      FirstKeywordIs(t, 0, a, b);
    }
    if w: nat, e: nat :| KeywordSpan(t, w, e) {
      var a, b := LeastSpan(t, w, e);
      assert FirstTableWord(t, a, b);
    } else {
      NoKeyword(t, 0);
    }
  }
}

/** The SQL gate of db/gateway.rs: two character scanners and the permission check. */
module SqlGate {
  import opened Wrappers
  import opened Text
  import opened SqlLexer

  // ---- Several statements ------------------------------------------------------------------------

  /** The code characters still to come, given the scanner's flags. */
  function Resume(line: bool, block: bool, single: bool, double: bool, rest: string): string {
    if line then CodeText(AfterChar(rest, '\n'))
    else if block then CodeText(AfterBlock(rest))
    else if single then CodeText(AfterQuoted(rest, '\''))
    else if double then CodeText(AfterQuoted(rest, '"'))
    else CodeText(rest)
  }

  lemma SecondStatementFound(done: string, c: char, rest: string)
    requires ';' in done && !IsWhitespace(c)
    ensures HasSecondStatement(done + [c] + rest)
  {
    var code := done + [c] + rest;
    var i :| 0 <= i < |done| && done[i] == ';';
    assert code[i] == ';' && code[|done|] == c;
  }

  lemma StillOneStatement(done: string, c: char)
    requires !HasSecondStatement(done)
    requires ';' in done ==> IsWhitespace(c)
    ensures !HasSecondStatement(done + [c])
    ensures ';' in done + [c] <==> ';' in done || c == ';'
  {
    var code := done + [c];
    forall i, j | 0 <= i < j < |code| && code[i] == ';' ensures IsWhitespace(code[j]) {
      assert code[i] == done[i];
      if j < |done| { assert code[j] == done[j]; }
    }
  }

  /** Answers whether some non-blank code follows a code semicolon. At most one of the four mode
      flags is ever set. */
  method HasMultipleStatements(sql: string) returns (multiple: bool)
    ensures multiple <==> HasSecondStatement(CodeText(sql))
  {
    var single, double, line, block, sawSemicolon := false, false, false, false, false;
    ghost var done := "";
    var i := 0;
    assert sql[0..] == sql;
    while i < |sql|
      invariant 0 <= i <= |sql|
      invariant !(line && block) && !(line && single) && !(line && double)
      invariant !(block && single) && !(block && double) && !(single && double)
      invariant CodeText(sql) == done + Resume(line, block, single, double, sql[i..])
      invariant sawSemicolon <==> ';' in done
      invariant !HasSecondStatement(done)
    {
      hide HasSecondStatement;
      var ch := sql[i];
      ghost var rest := sql[i..];
      i := i + 1;
      assert rest[0] == ch && rest[1..] == sql[i..];
      var next := if i < |sql| then Some(sql[i]) else None;
      assert next.Some? ==> rest[1] == next.value && rest[2..] == sql[i + 1..];
      if line {
        if ch == '\n' { line := false; }
        continue;
      }
      if block {
        if ch == '*' && next == Some('/') {
          i := i + 1;
          block := false;
        }
        continue;
      }
      if single {
        if ch == '\'' {
          if next == Some('\'') { i := i + 1; } else { single := false; }
        }
        continue;
      }
      if double {
        if ch == '"' {
          if next == Some('"') { i := i + 1; } else { double := false; }
        }
        continue;
      }
      if ch == '-' && next == Some('-') {
        i := i + 1;
        line := true;
        continue;
      }
      if ch == '/' && next == Some('*') {
        i := i + 1;
        block := true;
        continue;
      }
      if ch == '\'' { single := true; continue; }
      if ch == '"' { double := true; continue; }
      assert CodeText(sql) == done + [ch] + CodeText(sql[i..]);
      if ch == ';' {
        if sawSemicolon {
          SecondStatementFound(done, ch, CodeText(sql[i..]));
          return true;
        }
        StillOneStatement(done, ch);
        done := done + [ch];
        sawSemicolon := true;
        continue;
      }
      // The source repeats its two comment tests here; they were answered above.
      if sawSemicolon && !IsWhitespace(ch) {
        SecondStatementFound(done, ch, CodeText(sql[i..]));
        return true;
      }
      StillOneStatement(done, ch);
      done := done + [ch];
    }
    assert sql[i..] == "" && done + "" == done;
    multiple := false;
  }

  // ---- The statement keyword ---------------------------------------------------------------------

  /** Drops whitespace and whole comments from the front; "/*" and the "*/" that ends it may
      share their star, as in the search the source makes. */
  function StripLeadingComments(sql: string): (r: string)
    ensures |r| <= |sql|
    decreases |sql|
  {
    var trimmed := TrimStart(IsWhitespace, sql);
    if Opens(trimmed, '-', '-') then
      match Find(trimmed, "\n", 0)
      case Some(p) => StripLeadingComments(trimmed[p + 1..])
      case None => ""
    else if Opens(trimmed, '/', '*') then
      match Find(trimmed, "*/", 0)
      case Some(p) => StripLeadingComments(trimmed[p + 2..])
      case None => ""
    else trimmed
  }

  method StripComments(sql: string) returns (r: string)
    ensures r == StripLeadingComments(sql)
  {
    var remaining := sql;
    while true
      invariant StripLeadingComments(sql) == StripLeadingComments(remaining)
      decreases |remaining|
    {
      var trimmed := TrimStart(IsWhitespace, remaining);
      if Opens(trimmed, '-', '-') {
        var end := Find(trimmed, "\n", 0);
        if end.None? { return ""; }
        remaining := trimmed[end.value + 1..];
      } else if Opens(trimmed, '/', '*') {
        var end := Find(trimmed, "*/", 0);
        if end.None? { return ""; }
        remaining := trimmed[end.value + 2..];
      } else {
        return trimmed;
      }
    }
  }

  lemma StripTrimmed(t: string)
    requires (t == "" || !IsWhitespace(t[0])) && !Opens(t, '-', '-') && !Opens(t, '/', '*')
    ensures StripLeadingComments(t) == t
  {
    hide Opens, Find, IsWhitespace;
  }

  /** Stripping what is already stripped changes nothing. */
  lemma {:induction false} StripIdempotent(sql: string)
    ensures StripLeadingComments(StripLeadingComments(sql)) == StripLeadingComments(sql)
    decreases |sql|
  {
    assert TrimStart(IsWhitespace, "") == "" && StripLeadingComments("") == "";
    var trimmed := TrimStart(IsWhitespace, sql);
    hide TrimStart, Opens, Find, IsWhitespace;
    if Opens(trimmed, '-', '-') {
      var end := Find(trimmed, "\n", 0);
      if end.Some? { StripIdempotent(trimmed[end.value + 1..]); }
    } else if Opens(trimmed, '/', '*') {
      var end := Find(trimmed, "*/", 0);
      if end.Some? { StripIdempotent(trimmed[end.value + 2..]); }
    } else {
      StripTrimmed(trimmed);
    }
  }

  ghost function FirstKeyword(sql: string): Option<string> {
    FirstKeywordFrom(StripLeadingComments(sql), 0)
  }

  /** The maximal run of token characters that ends at `i` starts at `a`, and no keyword word has
      ended before `i`. */
  ghost predicate TokenFrom(t: string, a: nat, i: nat) {
    && a <= i <= |t|
    && (forall k :: a <= k < i ==> IsTokenChar(t[k]) && Outside(t, k))
    && (!Outside(t, i) ==> a == i)
    && (Outside(t, i) && 0 < a ==> !IsTokenChar(t[a - 1]))
    && (forall c, b: nat :: b < i ==> !KeywordSpan(t, c, b))
  }

  /** What the scanner knows after reading `t[..i]`. */
  ghost predicate ScannedTo(t: string, i: nat, token: string) {
    exists a: nat :: TokenFrom(t, a, i) && token == t[a..i]
  }

  lemma TokenStart(t: string, i: nat, token: string) returns (a: nat)
    requires ScannedTo(t, i, token)
    ensures TokenFrom(t, a, i) && token == t[a..i] && (token == "" <==> a == i)
  {
    a :| TokenFrom(t, a, i) && token == t[a..i];
  }

  lemma ScanPushes(t: string, i: nat, token: string)
    requires i < |t| && ScannedTo(t, i, token) && Outside(t, i) && IsTokenChar(t[i])
    ensures Outside(t, i + 1) && ScannedTo(t, i + 1, token + [t[i]])
  {
    var a := TokenStart(t, i, token);
    RunGrows(t, a, i);
    assert token + [t[i]] == t[a..i + 1];
    hide TokenFrom, ScannedTo;
    IsScanned(t, a, i + 1);
  }

  lemma RunGrows(t: string, a: nat, i: nat)
    requires i < |t| && TokenFrom(t, a, i) && Outside(t, i) && IsTokenChar(t[i])
    ensures Outside(t, i + 1) && TokenFrom(t, a, i + 1)
  {
    forall c: nat ensures !KeywordSpan(t, c, i) {
      assert !IsWord(t, c, i);
    }
    hide KeywordSpan, IsWord, IsTokenChar;
    assert ContextAt(t, i + 1) == NextContext(ContextAt(t, i), t[i]);
  }

  lemma IsScanned(t: string, a: nat, i: nat)
    requires TokenFrom(t, a, i)
    ensures ScannedTo(t, i, t[a..i])
  {
  }

  /** A word that ends where the token ends is the token. */
  lemma WordHereIsToken(t: string, a: nat, i: nat, c: nat)
    requires TokenFrom(t, a, i) && IsWord(t, c, i)
    ensures c == a && a < i
  {
    assert ContextAt(t, i) == NextContext(ContextAt(t, i - 1), t[i - 1]);
    assert IsTokenChar(t[i - 1]) && Outside(t, i - 1);
  }

  lemma ScanClears(t: string, a: nat, i: nat)
    requires i < |t| && TokenFrom(t, a, i)
    requires Outside(t, i) ==> !IsTokenChar(t[i]) && !KeywordSpan(t, a, i)
    requires Outside(t, i + 1) ==> !IsTokenChar(t[i])
    ensures ScannedTo(t, i + 1, "")
  {
    forall c: nat ensures !KeywordSpan(t, c, i) {
      if KeywordSpan(t, c, i) { WordHereIsToken(t, a, i, c); }
    }
    hide KeywordSpan;
    assert TokenFrom(t, i + 1, i + 1);
    IsScanned(t, i + 1, i + 1);
  }

  lemma TokenIsWord(t: string, a: nat, i: nat)
    requires TokenFrom(t, a, i) && a < i
    requires i < |t| ==> Outside(t, i) && !IsTokenChar(t[i]) && !IsDelimiter(t[i])
    ensures IsWord(t, a, i)
  {
    hide KeywordSpan;
  }

  lemma TokenStartsFirst(t: string, a: nat, i: nat, c: nat, d: nat)
    requires TokenFrom(t, a, i) && IsWord(t, a, i) && c < a
    ensures !KeywordSpan(t, c, d)
  {
    assert !IsTokenChar(t[a - 1]);
  }

  lemma TokenIsKeyword(t: string, i: nat, token: string)
    requires ScannedTo(t, i, token) && token != "" && ClassifyKeyword(Lower(token)).Some?
    requires i < |t| ==> Outside(t, i) && !IsTokenChar(t[i]) && !IsDelimiter(t[i])
    ensures FirstKeywordFrom(t, 0) == Some(Lower(token))
  {
    var a := TokenStart(t, i, token);
    TokenIsWord(t, a, i);
    assert KeywordSpan(t, a, i);
    forall c, d: nat | 0 <= c < a ensures !KeywordSpan(t, c, d) {
      TokenStartsFirst(t, a, i, c, d);
    }
    hide ScannedTo, TokenFrom, KeywordSpan, IsWord, ClassifyKeyword;
    FirstKeywordIs(t, 0, a, i);
  }

  /** The context that the three flags stand for. */
  function InContext(depth: nat, single: bool, double: bool): Context {
    Context(depth, if single then SingleQuoted else if double then DoubleQuoted else Unquoted)
  }

  lemma ContextStep(t: string, i: nat, depth: nat, single: bool, double: bool)
    requires i < |t| && ContextAt(t, i) == InContext(depth, single, double) && !(single && double)
    ensures Outside(t, i) <==> depth == 0 && !single && !double
    ensures var c := t[i];
      ContextAt(t, i + 1) ==
        if single then InContext(depth, c != '\'', false)
        else if double then InContext(depth, false, c != '"')
        else if c == '(' then InContext(depth + 1, false, false)
        else if c == ')' then InContext(if depth > 0 then depth - 1 else 0, false, false)
        else InContext(depth, c == '\'', c == '"')
  {
  }

  lemma NothingScanned(t: string)
    ensures ScannedTo(t, 0, "") && ContextAt(t, 0) == InContext(0, false, false)
  {
    assert TokenFrom(t, 0, 0);
  }

  /** The scanner of the source; each round reads one character. */
  method FirstStatementKeyword(sql: string) returns (found: Option<string>)
    ensures found == FirstKeyword(sql)
  {
    var t := StripComments(sql);
    var token, single, double := "", false, false;
    var depth: nat := 0;
    var i := 0;
    assert FirstKeyword(sql) == FirstKeywordFrom(t, 0);
    NothingScanned(t);
    hide ContextAt, NextContext, InContext, Outside, ScannedTo, TokenFrom, KeywordSpan, IsTokenChar, ClassifyKeyword,
      Lower,
      FirstKeyword, FirstKeywordFrom, StripLeadingComments;
    while i < |t|
      invariant 0 <= i <= |t| && !(single && double)
      invariant ContextAt(t, i) == InContext(depth, single, double)
      invariant ScannedTo(t, i, token)
    {
      var ch := t[i];
      ghost var before := token;
      ContextStep(t, i, depth, single, double);
      if single || double {
        if single && ch == '\'' { single := false; }
        if double && ch == '"' { double := false; }
      } else if IsDelimiter(ch) {
        match ch {
          case '\'' => single := true;
          case '"' => double := true;
          case '(' => depth := depth + 1;
          case _ => depth := if depth > 0 then depth - 1 else 0;
        }
        token := "";
      } else if depth > 0 {
      } else if IsTokenChar(ch) {
        token := token + [ch];
      } else {
        if token != "" {
          var lowered := Lower(token);
          if ClassifyKeyword(lowered).Some? {
            TokenIsKeyword(t, i, token);
            return Some(lowered);
          }
        }
        token := "";
      }
      ScanStep(t, i, before);
      i := i + 1;
    }
    if token != "" {
      var lowered := Lower(token);
      if ClassifyKeyword(lowered).Some? {
        TokenIsKeyword(t, i, token);
        return Some(lowered);
      }
    }
    ScanFinds(t, token);
    found := None;
  }

  ghost function NextToken(t: string, i: nat, token: string): string
    requires i < |t|
  {
    if Outside(t, i) && !IsDelimiter(t[i]) && IsTokenChar(t[i]) then token + [t[i]] else ""
  }

  /** One character read; a word that ends here is no keyword. */
  lemma ScanStep(t: string, i: nat, token: string)
    requires i < |t| && ScannedTo(t, i, token)
    requires Outside(t, i) && !IsDelimiter(t[i]) && !IsTokenChar(t[i]) ==>
               token == "" || ClassifyKeyword(Lower(token)).None?
    ensures ScannedTo(t, i + 1, NextToken(t, i, token))
    ensures !Outside(t, i) ==> token == ""
  {
    var a := TokenStart(t, i, token);
    if IsDelimiter(t[i]) || !Outside(t, i) {
      ScanSkips(t, a, i);
    } else if IsTokenChar(t[i]) {
      ScanPushes(t, i, token);
    } else {
      assert !KeywordSpan(t, a, i);
      ScanClears(t, a, i);
    }
  }

  /** Inside quotes or parentheses, and on the characters that enter or leave them, no word ends. */
  lemma ScanSkips(t: string, a: nat, i: nat)
    requires i < |t| && TokenFrom(t, a, i)
    requires IsDelimiter(t[i]) || !Outside(t, i)
    ensures ScannedTo(t, i + 1, "")
  {
    assert ContextAt(t, i + 1) == NextContext(ContextAt(t, i), t[i]);
    assert !IsDelimiter(t[i]) ==> ContextAt(t, i + 1) == ContextAt(t, i);
    if Outside(t, i) {
      assert !KeywordSpan(t, a, i);
    }
    ScanClears(t, a, i);
  }

  lemma ScanFinds(t: string, token: string)
    requires ScannedTo(t, |t|, token)
    requires token == "" || ClassifyKeyword(Lower(token)).None?
    ensures FirstKeywordFrom(t, 0) == None
  {
    var start := TokenStart(t, |t|, token);
    forall a, b: nat | 0 <= a < b ensures !KeywordSpan(t, a, b) {
      if b == |t| && IsWord(t, a, b) { WordHereIsToken(t, start, b, a); }
    }
    hide ScannedTo, KeywordSpan, ClassifyKeyword;
    NoKeyword(t, 0);
  }

  // ---- The permission check ------------------------------------------------------------------------

  datatype DbPermission = ReadOnly | Write | Admin

  datatype Denial = MultipleStatements | NotAllowed(permission: DbPermission, operation: SqlOperation)

  ghost function ClassifySql(sql: string): SqlOperation {
    match FirstKeyword(sql)
    case Some(keyword) => (match ClassifyKeyword(keyword) case Some(op) => op case None => SqlOperation.Admin)
    case None => SqlOperation.Admin
  }

  predicate Allows(permission: DbPermission, operation: SqlOperation) {
    match permission
    case Admin => true
    case Write => operation != SqlOperation.Admin
    case ReadOnly => operation == Read
  }

  ghost function Check(permission: DbPermission, sql: string): Result<(), Denial> {
    if HasSecondStatement(CodeText(sql)) then Err(MultipleStatements)
    else if Allows(permission, ClassifySql(sql)) then Ok(())
    else Err(NotAllowed(permission, ClassifySql(sql)))
  }

  /** A read-only gateway wants a reading word first, a writing one a reading or writing word. */
  ghost predicate Permits(permission: DbPermission, statement: string) {
    match permission
    case ReadOnly => exists a: nat, b: nat :: FirstTableWord(statement, a, b) && IsReadWord(Lower(statement[a..b]))
    case Write =>
      exists a: nat, b: nat :: FirstTableWord(statement, a, b)
        && (IsReadWord(Lower(statement[a..b])) || IsWriteWord(Lower(statement[a..b])))
    case Admin => true
  }

  lemma CheckByWords(permission: DbPermission, sql: string)
    ensures var r := Check(permission, sql);
      && (r == Err(MultipleStatements) <==> HasSecondStatement(CodeText(sql)))
      && (r.Ok? <==> !HasSecondStatement(CodeText(sql)) && Permits(permission, StripLeadingComments(sql)))
  {
    var t := StripLeadingComments(sql);
    FirstKeywordIsTableWord(t);
    assert forall a: nat, b: nat :: FirstTableWord(t, a, b) ==> a < b <= |t|;
    hide StripLeadingComments, CodeText, HasSecondStatement, FirstKeywordFrom, ClassifyKeyword, FirstTableWord,
      IsReadWord, IsWriteWord;
    if FirstKeywordFrom(t, 0).Some? {
      var a: nat, b: nat :| FirstTableWord(t, a, b);
      TableOfWords(Lower(t[a..b]));
      SameFirstWord(t);
    }
  }

  lemma SameFirstWord(t: string)
    ensures forall a: nat, b: nat, c: nat, d: nat :: FirstTableWord(t, a, b) && FirstTableWord(t, c, d) ==>
              Lower(t[a..b]) == Lower(t[c..d])
  {
    FirstKeywordIsTableWord(t);
    hide FirstTableWord, FirstKeywordFrom;
  }

  method CheckPermission(permission: DbPermission, sql: string) returns (r: Result<(), Denial>)
    ensures r == Check(permission, sql)
    ensures r == Err(MultipleStatements) <==> HasSecondStatement(CodeText(sql))
    ensures r.Ok? <==> !HasSecondStatement(CodeText(sql)) && Permits(permission, StripLeadingComments(sql))
  {
    CheckByWords(permission, sql);
    var multiple := HasMultipleStatements(sql);
    if multiple { return Err(MultipleStatements); }
    var keyword := FirstStatementKeyword(sql);
    var operation := SqlOperation.Admin;
    if keyword.Some? {
      var classified := ClassifyKeyword(keyword.value);
      operation := if classified.Some? then classified.value else SqlOperation.Admin;
    }
    r := if Allows(permission, operation) then Ok(()) else Err(NotAllowed(permission, operation));
  }
}

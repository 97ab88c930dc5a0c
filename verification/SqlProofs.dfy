/** What the SQL gate does not depend on: leading comments and the case of letters. */
module SqlProofs {
  import opened Wrappers
  import opened Text
  import opened SqlLexer
  import opened SqlGate

  // ---- Leading comments ------------------------------------------------------------------------

  lemma {:induction false} AfterCharSkips(body: string, c: char, rest: string)
    requires c !in body
    ensures AfterChar(body + [c] + rest, c) == rest
  {
    var s := body + [c] + rest;
    if body == "" {
    } else {
      assert s[1..] == body[1..] + [c] + rest;
      AfterCharSkips(body[1..], c, rest);
    }
  }

  ghost predicate NoBlockEnd(body: string) {
    forall i :: 0 <= i < |body| - 1 ==> !(body[i] == '*' && body[i + 1] == '/')
  }

  lemma {:induction false} AfterBlockSkips(body: string, rest: string)
    requires NoBlockEnd(body)
    ensures AfterBlock(body + "*/" + rest) == rest
  {
    var s := body + "*/" + rest;
    if body == "" {
    } else {
      assert s[1..] == body[1..] + "*/" + rest;
      assert NoBlockEnd(body[1..]) by {
        forall i | 0 <= i < |body[1..]| - 1 ensures !(body[1..][i] == '*' && body[1..][i + 1] == '/') {
          assert body[1..][i] == body[i + 1] && body[1..][i + 1] == body[i + 2];
        }
      }
      assert s[0] == body[0] && s[1] == if |body| > 1 then body[1] else '*';
      AfterBlockSkips(body[1..], rest);
    }
  }

  lemma FoundAt(s: string, pattern: string, p: nat)
    requires Occurs(s, pattern, p) && forall i: nat :: i < p ==> !Occurs(s, pattern, i)
    ensures Find(s, pattern, 0) == Some(p)
  {
  }

  /** A line comment in front changes neither the code nor the stripped text. */
  lemma {:induction false} LineCommentInFront(body: string, sql: string)
    requires '\n' !in body
    ensures CodeText("--" + body + "\n" + sql) == CodeText(sql)
    ensures StripLeadingComments("--" + body + "\n" + sql) == StripLeadingComments(sql)
  {
    var s := "--" + body + "\n" + sql;
    assert s[2..] == body + ['\n'] + sql;
    AfterCharSkips(body, '\n', sql);
    var p := 2 + |body|;
    assert s[p] == '\n' && s[p + 1..] == sql;
    forall i: nat | i <= p ensures Occurs(s, "\n", i) <==> i == p {
      assert s[i] == if i < 2 then '-' else if i < p then body[i - 2] else '\n';
      OccursOne(s, '\n', i);
    }
    FoundAt(s, "\n", p);
    assert TrimStart(IsWhitespace, s) == s;
  }

  /** The code text never sees a block comment in front. */
  lemma BlockCommentIsNoCode(body: string, sql: string)
    requires NoBlockEnd(body)
    ensures CodeText("/*" + body + "*/" + sql) == CodeText(sql)
  {
    var s := "/*" + body + "*/" + sql;
    assert s[2..] == body + "*/" + sql;
    AfterBlockSkips(body, sql);
  }

  lemma BlockEndIsFirst(body: string, sql: string)
    requires NoBlockEnd(body) && !StartsWith(body, "/")
    ensures Find("/*" + body + "*/" + sql, "*/", 0) == Some(2 + |body|)
  {
    var s := "/*" + body + "*/" + sql;
    var p := 2 + |body|;
    OccursOne(body, '/', 0);
    forall i: nat | i <= p ensures Occurs(s, "*/", i) <==> i == p {
      OccursTwo(s, '*', '/', i);
      assert 2 <= i < p ==> s[i] == body[i - 2];
      assert i + 1 == p ==> s[i + 1] == '*';
      assert 2 <= i + 1 < p ==> s[i + 1] == body[i - 1];
    }
    FoundAt(s, "*/", p);
  }

  /** The stripper ends a comment whose body starts with a slash at once. */
  lemma {:induction false} SlashBodyEndsAtOnce(rest: string)
    ensures StripLeadingComments("/*/" + rest) == StripLeadingComments(rest)
  {
    var s := "/*/" + rest;
    OccursTwo(s, '*', '/', 0);
    OccursTwo(s, '*', '/', 1);
    FoundAt(s, "*/", 1);
    assert s[3..] == rest;
    assert TrimStart(IsWhitespace, s) == s;
  }

  lemma StripTokenStart(t: string)
    requires t != "" && IsTokenChar(t[0])
    ensures StripLeadingComments(t) == t
  {
    assert !IsWhitespace(t[0]) && TrimStart(IsWhitespace, t) == t;
    hide IsWhitespace, TrimStart, Find;
    assert !Opens(t, '-', '-') && !Opens(t, '/', '*');
  }

  /** Such a comment's text can be read as the statement. */
  lemma {:induction false} SlashBodyChangesClass()
    ensures NoBlockEnd("/drop ")
    ensures ClassifySql("/*" + "/drop " + "*/" + "select") == SqlOperation.Admin
    ensures ClassifySql("select") == Read
  {
    hide ClassifySql, CodeText;
    DropFirst();
    SelectReads();
  }

  lemma SelectReads()
    ensures ClassifySql("select") == Read
  {
    KeywordLetters("select");
    hide ClassifyKeyword, ClassifySql;
    WordAlone("select");
  }

  lemma WordAlone(word: string)
    requires word != "" && Lower(word) == word && ClassifyKeyword(word).Some?
    requires forall i :: 0 <= i < |word| ==> IsTokenChar(word[i])
    ensures ClassifySql(word) == ClassifyKeyword(word).value
  {
    hide ClassifyKeyword, StripLeadingComments, FirstKeywordFrom, Lower;
    StripTokenStart(word);
    assert word + "" == word;
    LeadingWord(word, "");
  }

  lemma DropFirst()
    ensures ClassifySql("/*" + "/drop " + "*/" + "select") == SqlOperation.Admin
  {
    hide ClassifyKeyword, StripLeadingComments, FirstKeywordFrom;
    var rest := "drop" + " */select";
    assert "/*" + "/drop " + "*/" + "select" == "/*/" + rest;
    KeywordLetters("drop");
    SlashBodyEndsAtOnce(rest);
    assert rest[0] == 'd';
    StripTokenStart(rest);
    LeadingWord("drop", " */select");
  }

  lemma KeywordLetters(k: string)
    requires k == "create" || k == "drop" || k == "select"
    ensures Lower(k) == k && forall i :: 0 <= i < |k| ==> IsTokenChar(k[i])
    ensures ClassifyKeyword(k) == Some(if k == "select" then Read else SqlOperation.Admin)
  {
    assert "drop" !in ["select", "values", "explain"] && "create" !in ["select", "values", "explain"];
    assert "drop" !in ["insert", "update", "delete", "replace", "upsert"];
    assert "create" !in ["insert", "update", "delete", "replace", "upsert"];
  }

  lemma {:induction false} TokenCharsStayOutside(word: string, rest: string, k: nat)
    requires k <= |word| && forall i :: 0 <= i < |word| ==> IsTokenChar(word[i])
    ensures Outside(word + rest, k)
    decreases k
  {
    if k == 0 {
    } else {
      TokenCharsStayOutside(word, rest, k - 1);
      assert (word + rest)[k - 1] == word[k - 1];
    }
  }

  /** A text that starts with a lower-case keyword and a plain character has that keyword. */
  lemma LeadingWord(word: string, rest: string)
    requires word != "" && Lower(word) == word && ClassifyKeyword(word).Some?
    requires forall i :: 0 <= i < |word| ==> IsTokenChar(word[i])
    requires rest != "" ==> !IsTokenChar(rest[0]) && !IsDelimiter(rest[0])
    ensures FirstKeywordFrom(word + rest, 0) == Some(word)
  {
    var t := word + rest;
    forall k | 0 <= k < |word| ensures IsTokenChar(t[k]) && Outside(t, k) {
      TokenCharsStayOutside(word, rest, k);
    }
    assert t[0..|word|] == word;
    assert IsWord(t, 0, |word|);
    FirstKeywordIs(t, 0, 0, |word|);
  }
}

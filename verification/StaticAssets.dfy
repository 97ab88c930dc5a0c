/** The asset tags router.rs adds to a page, and the escaping of their attributes. */
module StaticAssets {
  import opened Wrappers
  import opened Text

  // ---- Escaping ----------------------------------------------------------------------------------

  /** Every `c` replaced by `by`. */
  function Replace(s: string, c: char, replacement: string): string {
    if s == "" then "" else (if s[0] == c then replacement else [s[0]]) + Replace(s[1..], c, replacement)
  }

  /** Four replacements, one after the other. */
  function HtmlEscapeAttr(input: string): string {
    Replace(Replace(Replace(Replace(input, '&', "&amp;"), '"', "&quot;"), '<', "&lt;"), '>', "&gt;")
  }

  /** The reference of one character. */
  function Escaped(c: char): string {
    if c == '&' then "&amp;"
    else if c == '"' then "&quot;"
    else if c == '<' then "&lt;"
    else if c == '>' then "&gt;"
    else [c]
  }

  /** One substitution, character by character. */
  function EscapeEach(s: string): string {
    if s == "" then "" else Escaped(s[0]) + EscapeEach(s[1..])
  }

  /** The character that a text starts with and how long its reference is. */
  function FirstReference(s: string): (r: (char, nat))
    requires s != ""
    ensures 0 < r.1 <= |s|
  {
    if StartsWith(s, "&amp;") then ('&', 5)
    else if StartsWith(s, "&quot;") then ('"', 6)
    else if StartsWith(s, "&lt;") then ('<', 4)
    else if StartsWith(s, "&gt;") then ('>', 4)
    else (s[0], 1)
  }

  function Unescape(s: string): string
    decreases |s|
  {
    if s == "" then "" else
      var (c, n) := FirstReference(s);
      [c] + Unescape(s[n..])
  }

  lemma {:induction false} ReplaceConcat(a: string, b: string, c: char, replacement: string)
    ensures Replace(a + b, c, replacement) == Replace(a, c, replacement) + Replace(b, c, replacement)
  {
    if a == "" {
      assert a + b == b;
    } else {
      assert (a + b)[1..] == a[1..] + b;
      ReplaceConcat(a[1..], b, c, replacement);
    }
  }

  lemma {:induction false} ReplaceAbsent(s: string, c: char, replacement: string)
    requires c !in s
    ensures Replace(s, c, replacement) == s
  {
    if s == "" {
    } else {
      ReplaceAbsent(s[1..], c, replacement);
      assert s == [s[0]] + s[1..];
    }
  }

  lemma ReplaceOne(d: char, c: char, replacement: string)
    ensures Replace([d], c, replacement) == if d == c then replacement else [d]
  {
    assert [d][1..] == "";
  }

  lemma EscapeConcat(a: string, b: string)
    ensures HtmlEscapeAttr(a + b) == HtmlEscapeAttr(a) + HtmlEscapeAttr(b)
  {
    var (a1, b1) := (Replace(a, '&', "&amp;"), Replace(b, '&', "&amp;"));
    var (a2, b2) := (Replace(a1, '"', "&quot;"), Replace(b1, '"', "&quot;"));
    var (a3, b3) := (Replace(a2, '<', "&lt;"), Replace(b2, '<', "&lt;"));
    ReplaceConcat(a, b, '&', "&amp;");
    ReplaceConcat(a1, b1, '"', "&quot;");
    ReplaceConcat(a2, b2, '<', "&lt;");
    ReplaceConcat(a3, b3, '>', "&gt;");
  }

  /** No later replacement touches the reference an earlier one wrote. */
  lemma EscapeOne(c: char)
    ensures HtmlEscapeAttr([c]) == Escaped(c)
  {
    var s1 := if c == '&' then "&amp;" else [c];
    var s2 := if c == '"' then "&quot;" else s1;
    var s3 := if c == '<' then "&lt;" else s2;
    hide Replace;
    assert Replace([c], '&', "&amp;") == s1 by { ReplaceOne(c, '&', "&amp;"); }
    assert Replace(s1, '"', "&quot;") == s2 by {
      if c == '&' { ReplaceAbsent(s1, '"', "&quot;"); } else { ReplaceOne(c, '"', "&quot;"); }
    }
    assert Replace(s2, '<', "&lt;") == s3 by {
      if c == '&' || c == '"' { ReplaceAbsent(s2, '<', "&lt;"); } else { ReplaceOne(c, '<', "&lt;"); }
    }
    assert Replace(s3, '>', "&gt;") == Escaped(c) by {
      if c == '&' || c == '"' || c == '<' { ReplaceAbsent(s3, '>', "&gt;"); } else { ReplaceOne(c, '>', "&gt;"); }
    }
  }

  /** The four replacements in sequence are one substitution of each character. */
  lemma {:induction false} EscapesEachCharacter(s: string)
    ensures HtmlEscapeAttr(s) == EscapeEach(s)
  {
    if s == "" {
    } else {
      assert s == [s[0]] + s[1..];
      EscapeConcat([s[0]], s[1..]);
      EscapeOne(s[0]);
      EscapesEachCharacter(s[1..]);
    }
  }

  lemma StartsWithItself(a: string, b: string)
    ensures StartsWith(a + b, a)
  {
    assert (a + b)[0..|a|] == a;
  }

  lemma DiffersAt(s: string, pattern: string, i: nat)
    requires i < |s| && i < |pattern| && s[i] != pattern[i]
    ensures !StartsWith(s, pattern)
  {
    assert |pattern| <= |s| ==> s[0..|pattern|][i] == s[i];
  }

  lemma FirstReferenceOfEscaped(c: char, rest: string)
    ensures FirstReference(Escaped(c) + rest) == (c, |Escaped(c)|)
  {
    var s := Escaped(c) + rest;
    hide StartsWith;
    StartsWithItself(Escaped(c), rest);
    if c == '"' {
      DiffersAt(s, "&amp;", 1);
    } else if c == '<' {
      DiffersAt(s, "&amp;", 1);
      DiffersAt(s, "&quot;", 1);
    } else if c == '>' {
      DiffersAt(s, "&amp;", 1);
      DiffersAt(s, "&quot;", 1);
      DiffersAt(s, "&lt;", 1);
    } else if c != '&' {
      DiffersAt(s, "&amp;", 0);
      DiffersAt(s, "&quot;", 0);
      DiffersAt(s, "&lt;", 0);
      DiffersAt(s, "&gt;", 0);
    }
  }

  lemma {:induction false} UnescapeEach(s: string)
    ensures Unescape(EscapeEach(s)) == s
  {
    if s == "" {
    } else {
      FirstReferenceOfEscaped(s[0], EscapeEach(s[1..]));
      hide FirstReference, Escaped;
      assert (Escaped(s[0]) + EscapeEach(s[1..]))[|Escaped(s[0])|..] == EscapeEach(s[1..]);
      UnescapeEach(s[1..]);
      assert s == [s[0]] + s[1..];
    }
  }

  /** Unescaping inverts the escaping of every text. */
  lemma UnescapeInverts(s: string)
    ensures Unescape(HtmlEscapeAttr(s)) == s
  {
    EscapesEachCharacter(s);
    UnescapeEach(s);
  }

  /** An escaped text cannot end its attribute or its tag. */
  lemma {:induction false} EscapedIsInert(s: string)
    ensures '"' !in EscapeEach(s) && '<' !in EscapeEach(s) && '>' !in EscapeEach(s)
  {
    if s == "" {
    } else {
      EscapedIsInert(s[1..]);
    }
  }

  // ---- The tags ----------------------------------------------------------------------------------

  datatype PageResolvedAssets = PageResolvedAssets(css: seq<string>, js: seq<string>)

  function CssTag(url: string): string {
    "<link rel=\"stylesheet\" href=\"" + HtmlEscapeAttr(url)
    + "\" data-admin-asset-css=\"" + HtmlEscapeAttr(url) + "\">"
  }

  const JS_SOURCE := "<script src=\""
  const JS_ASSET := "\" data-admin-asset-js=\""
  const JS_END := "\" data-admin-asset-loaded=\"true\"></script>"

  function JsTag(url: string): string {
    JS_SOURCE + HtmlEscapeAttr(url) + JS_ASSET + HtmlEscapeAttr(url) + JS_END
  }

  function CssTags(css: seq<string>): string {
    if css == [] then "" else CssTags(css[..|css| - 1]) + CssTag(css[|css| - 1])
  }

  function JsTags(js: seq<string>): string {
    if js == [] then "" else JsTags(js[..|js| - 1]) + JsTag(js[|js| - 1])
  }

  const BODY_END := "</body>"

  /** Where the tags go: before the first "</body>", or at the end. */
  function InsertionPoint(html: string): (i: nat)
    ensures i <= |html|
  {
    match Find(html, BODY_END, 0)
    case Some(i) => i
    case None => |html|
  }

  lemma InsertionIsFirst(html: string)
    ensures var i := InsertionPoint(html);
      && (Occurs(html, "</body>", i) || (i == |html| && forall j: nat :: !Occurs(html, "</body>", j)))
      && forall j: nat :: j < i ==> !Occurs(html, "</body>", j)
  {
    assert BODY_END == "</body>";
    hide Occurs;
  }

  /** The page with the tags inserted, every character of it kept. */
  method AppendAssetsToHtmlResponse(html: string, assets: PageResolvedAssets) returns (r: string)
    ensures var i := InsertionPoint(html);
            r == html[..i] + (CssTags(assets.css) + JsTags(assets.js)) + html[i..]
    ensures Occurs(html, "</body>", InsertionPoint(html))
            || (InsertionPoint(html) == |html| && forall j: nat :: !Occurs(html, "</body>", j))
    ensures forall j: nat :: j < InsertionPoint(html) ==> !Occurs(html, "</body>", j)
  {
    InsertionIsFirst(html);
    hide CssTag, JsTag, Find, Occurs;
    if assets.js == [] && assets.css == [] {
      assert html == html[..InsertionPoint(html)] + "" + html[InsertionPoint(html)..];
      return html;
    }
    var tags := "";
    for k := 0 to |assets.css|
      invariant tags == CssTags(assets.css[..k])
    {
      assert assets.css[..k + 1][..k] == assets.css[..k];
      tags := tags + CssTag(assets.css[k]);
    }
    assert assets.css[..|assets.css|] == assets.css;
    for k := 0 to |assets.js|
      invariant tags == CssTags(assets.css) + JsTags(assets.js[..k])
    {
      assert assets.js[..k + 1][..k] == assets.js[..k];
      tags := tags + JsTag(assets.js[k]);
    }
    assert assets.js[..|assets.js|] == assets.js;
    match Find(html, BODY_END, 0) {
      case Some(i) =>
        EndsAt(html, i);
        return html[..i] + (tags + BODY_END) + html[i + |BODY_END|..];
      case None =>
        assert html[..|html|] == html && html[|html|..] == "";
        return html + tags;
    }
  }

  lemma EndsAt(html: string, i: nat)
    requires Occurs(html, BODY_END, i)
    ensures i + |BODY_END| <= |html|
    ensures html[i..] == BODY_END + html[i + |BODY_END|..]
  {
    assert html[i..] == html[i..i + |BODY_END|] + html[i + |BODY_END|..];
  }

  // ---- Reading the tags back -----------------------------------------------------------------------

  /** Every second piece, when another one follows it. */
  function Odd(pieces: seq<string>): seq<string> {
    if |pieces| <= 2 then [] else [pieces[1]] + Odd(pieces[2..])
  }

  /** The texts from one quote to the next. */
  function QuotedValues(s: string): seq<string> {
    Odd(Split(s, '"'))
  }

  /** What a reader takes the attribute values to be. */
  function AttributeValues(s: string): seq<string> {
    UnescapeAll(QuotedValues(s))
  }

  function UnescapeAll(raw: seq<string>): seq<string> {
    if raw == [] then [] else [Unescape(raw[0])] + UnescapeAll(raw[1..])
  }

  /** The style sheets' tags show, in order, the relation and the URL twice. */
  function CssValues(css: seq<string>): seq<string> {
    if css == [] then []
    else CssValues(css[..|css| - 1]) + ["stylesheet", css[|css| - 1], css[|css| - 1]]
  }

  /** The scripts' tags show, in order, the URL twice and the loaded flag. */
  function JsValues(js: seq<string>): seq<string> {
    if js == [] then []
    else JsValues(js[..|js| - 1]) + [js[|js| - 1], js[|js| - 1], "true"]
  }

  lemma {:induction false} SplitSkips(pre: string, rest: string, c: char)
    requires c !in pre
    ensures Split(pre + rest, c) == [pre + Split(rest, c)[0]] + Split(rest, c)[1..]
  {
    if pre == "" {
      assert pre + rest == rest && pre + Split(rest, c)[0] == Split(rest, c)[0];
    } else {
      assert (pre + rest)[1..] == pre[1..] + rest;
      SplitSkips(pre[1..], rest, c);
      var (sub, tail) := (Split(pre[1..] + rest, c), Split(rest, c));
      assert sub[0] == pre[1..] + tail[0] && sub[1..] == tail[1..];
      assert [pre[0]] + sub[0] == pre + tail[0];
    }
  }

  /** Text without quotes adds no value. */
  lemma NoValue(pre: string, rest: string)
    requires '"' !in pre
    ensures AttributeValues(pre + rest) == AttributeValues(rest)
  {
    SplitSkips(pre, rest, '"');
    var (a, b) := (Split(pre + rest, '"'), Split(rest, '"'));
    hide Split;
    assert |b| > 2 ==> a[1] == b[1] && a[2..] == b[2..];
  }

  lemma SplitTwice(pre: string, value: string, rest: string, c: char)
    requires c !in pre && c !in value
    ensures Split(pre + [c] + (value + [c] + rest), c) == [pre, value] + Split(rest, c)
  {
    SplitAt(pre, value + [c] + rest, c);
    SplitAt(value, rest, c);
    SplitPlain(pre, c);
    SplitPlain(value, c);
    hide Split;
    assert [pre] + ([value] + Split(rest, c)) == [pre, value] + Split(rest, c);
  }

  /** `pre`, then a quoted value, then the rest. */
  function Quoting(pre: string, value: string, rest: string): string {
    pre + ['"'] + (value + ['"'] + rest)
  }

  lemma FirstValue(pre: string, value: string, rest: string)
    requires '"' !in pre && '"' !in value
    ensures AttributeValues(Quoting(pre, value, rest)) == [Unescape(value)] + AttributeValues(rest)
  {
    SplitTwice(pre, value, rest, '"');
    hide Split, Unescape;
    var pieces := [pre, value] + Split(rest, '"');
    assert pieces[2..] == Split(rest, '"');
    assert |pieces| > 2 && pieces[1] == value;
    assert Odd(pieces) == [value] + Odd(Split(rest, '"'));
    hide Odd;
  }

  /** A tag with three quoted values. */
  lemma ThreeValues(p: seq<string>, v: seq<string>, rest: string)
    requires |p| == |v| == 3 && forall i :: 0 <= i < 3 ==> '"' !in p[i] && '"' !in v[i]
    ensures AttributeValues(Quoting(p[0], v[0], Quoting(p[1], v[1], Quoting(p[2], v[2], rest))))
         == [Unescape(v[0]), Unescape(v[1]), Unescape(v[2])] + AttributeValues(rest)
  {
    hide AttributeValues, Quoting, Unescape;
    FirstValue(p[2], v[2], rest);
    FirstValue(p[1], v[1], Quoting(p[2], v[2], rest));
    FirstValue(p[0], v[0], Quoting(p[1], v[1], Quoting(p[2], v[2], rest)));
  }

  lemma EscapedValue(url: string)
    ensures '"' !in HtmlEscapeAttr(url) && Unescape(HtmlEscapeAttr(url)) == url
  {
    EscapesEachCharacter(url);
    EscapedIsInert(url);
    UnescapeInverts(url);
  }

  lemma RegroupCss(p0: string, w: string, p1: string, v: string, p2: string, end: string, rest: string)
    ensures var q := ['"'];
      (p0 + q + w + q + p1 + q) + v + (q + p2 + q) + v + (q + end) + rest
      == Quoting(p0, w, Quoting(p1, v, Quoting(p2, v, end + rest)))
  {
  }

  lemma CssTagQuotes(value: string, rest: string)
    ensures "<link rel=\"stylesheet\" href=\"" + value + "\" data-admin-asset-css=\"" + value + "\">" + rest
         == Quoting("<link rel=", "stylesheet",
              Quoting(" href=", value, Quoting(" data-admin-asset-css=", value, ">" + rest)))
  {
    var q := ['"'];
    assert "<link rel=\"stylesheet\" href=\"" == "<link rel=" + q + "stylesheet" + q + " href=" + q;
    assert "\" data-admin-asset-css=\"" == q + " data-admin-asset-css=" + q;
    assert "\">" == q + ">";
    RegroupCss("<link rel=", "stylesheet", " href=", value, " data-admin-asset-css=", ">", rest);
  }

  lemma CssTagShows(url: string, rest: string)
    ensures AttributeValues(CssTag(url) + rest) == ["stylesheet", url, url] + AttributeValues(rest)
  {
    var value := HtmlEscapeAttr(url);
    EscapedValue(url);
    hide AttributeValues, HtmlEscapeAttr, Quoting, Unescape;
    CssTagQuotes(value, rest);
    NoValue(">", rest);
    Plain("stylesheet");
    ThreeValues(["<link rel=", " href=", " data-admin-asset-css="], ["stylesheet", value, value], ">" + rest);
  }

  lemma RegroupJs(p0: string, v: string, p1: string, p2: string, w: string, end: string, rest: string)
    ensures var q := ['"'];
      (p0 + q) + v + (q + p1 + q) + v + (q + p2 + q + w + q + end) + rest
      == Quoting(p0, v, Quoting(p1, v, Quoting(p2, w, end + rest)))
  {
  }

  lemma JsLiterals()
    ensures var q := ['"'];
      && JS_SOURCE == "<script src=" + q
      && JS_ASSET == q + " data-admin-asset-js=" + q
      && JS_END == q + " data-admin-asset-loaded=" + q + "true" + q + "></script>"
  {
  }

  lemma JsTagQuotes(value: string, rest: string)
    ensures JS_SOURCE + value + JS_ASSET + value + JS_END + rest
         == Quoting("<script src=", value, Quoting(" data-admin-asset-js=", value,
              Quoting(" data-admin-asset-loaded=", "true", "></script>" + rest)))
  {
    JsLiterals();
    RegroupJs("<script src=", value, " data-admin-asset-js=", " data-admin-asset-loaded=", "true", "></script>", rest);
  }

  lemma JsTagShows(url: string, rest: string)
    ensures AttributeValues(JsTag(url) + rest) == [url, url, "true"] + AttributeValues(rest)
  {
    var value := HtmlEscapeAttr(url);
    EscapedValue(url);
    hide AttributeValues, HtmlEscapeAttr, Quoting, Unescape;
    JsTagQuotes(value, rest);
    NoValue("></script>", rest);
    Plain("true");
    ThreeValues(["<script src=", " data-admin-asset-js=", " data-admin-asset-loaded="], [value, value, "true"],
      "></script>" + rest);
  }

  lemma {:induction false} Plain(s: string)
    requires '&' !in s
    ensures Unescape(s) == s
  {
    if s == "" {
    } else {
      DiffersAt(s, "&amp;", 0);
      DiffersAt(s, "&quot;", 0);
      DiffersAt(s, "&lt;", 0);
      DiffersAt(s, "&gt;", 0);
      hide StartsWith;
      Plain(s[1..]);
      assert s == [s[0]] + s[1..];
    }
  }

  lemma {:induction false} CssTagsShow(css: seq<string>, rest: string)
    ensures AttributeValues(CssTags(css) + rest) == CssValues(css) + AttributeValues(rest)
    decreases |css|
  {
    hide AttributeValues, CssTag;
    if css == [] {
      assert CssTags(css) + rest == rest;
    } else {
      var (before, last) := (css[..|css| - 1], css[|css| - 1]);
      assert CssTags(css) + rest == CssTags(before) + (CssTag(last) + rest);
      CssTagsShow(before, CssTag(last) + rest);
      CssTagShows(last, rest);
    }
  }

  lemma {:induction false} JsTagsShow(js: seq<string>, rest: string)
    ensures AttributeValues(JsTags(js) + rest) == JsValues(js) + AttributeValues(rest)
    decreases |js|
  {
    hide AttributeValues, JsTag;
    if js == [] {
      assert JsTags(js) + rest == rest;
    } else {
      var (before, last) := (js[..|js| - 1], js[|js| - 1]);
      assert JsTags(js) + rest == JsTags(before) + (JsTag(last) + rest);
      JsTagsShow(before, JsTag(last) + rest);
      JsTagShows(last, rest);
    }
  }

  /** Whatever the URLs contain, a reader of the tags gets exactly them back, style sheets first. */
  lemma TagsShowTheirUrls(assets: PageResolvedAssets)
    ensures AttributeValues(CssTags(assets.css) + JsTags(assets.js)) == CssValues(assets.css) + JsValues(assets.js)
  {
    CssTagsShow(assets.css, JsTags(assets.js));
    JsTagsShow(assets.js, "");
    assert JsTags(assets.js) + "" == JsTags(assets.js);
    assert Split("", '"') == [""];
    hide CssTags, JsTags, CssValues, JsValues;
  }
}

/** Policy keys of auth/policy.rs: surface.resource.action. */
module PolicyKeys {
  import opened Wrappers
  import opened Text

  datatype PolicyKey = PolicyKey(key: string, surface: string, resource: string, action: string)

  datatype KeyError = BadShape | BadSegment | EmptyField

  predicate IsSegmentChar(c: char) {
    'a' <= c <= 'z' || '0' <= c <= '9' || c == '_' || c == '-'
  }

  predicate IsValidSegment(s: string) {
    s != "" && forall i :: 0 <= i < |s| ==> IsSegmentChar(s[i])
  }

  function Dotted(surface: string, resource: string, action: string): string {
    surface + "." + resource + "." + action
  }

  function Parse(raw: string): Result<PolicyKey, KeyError> {
    var segments := Split(Lower(Trim(IsWhitespace, raw)), '.');
    if |segments| != 3 then Err(BadShape)
    else if !IsValidSegment(segments[0]) || !IsValidSegment(segments[1]) || !IsValidSegment(segments[2]) then
      Err(BadSegment)
    else
      Ok(PolicyKey(Dotted(segments[0], segments[1], segments[2]), segments[0], segments[1], segments[2]))
  }

  lemma SplitDotted(surface: string, resource: string, action: string)
    requires '.' !in surface && '.' !in resource && '.' !in action
    ensures Split(Dotted(surface, resource, action), '.') == [surface, resource, action]
  {
    assert Dotted(surface, resource, action) == surface + ['.'] + (resource + ['.'] + action);
    SplitAt(surface, resource + ['.'] + action, '.');
    SplitAt(resource, action, '.');
    SplitPlain(surface, '.');
    SplitPlain(resource, '.');
    SplitPlain(action, '.');
  }

  lemma {:induction false} SplitOfThree(s: string)
    requires |Split(s, '.')| == 3
    ensures s == Dotted(Split(s, '.')[0], Split(s, '.')[1], Split(s, '.')[2])
  {
    JoinSplit(s, '.');
    var r := Split(s, '.');
    assert r[1..][1..] == [r[2]] && Join([r[2]], '.') == r[2];
    assert Join(r[1..], '.') == r[1] + ['.'] + Join(r[1..][1..], '.');
    assert Join(r, '.') == r[0] + ['.'] + Join(r[1..], '.');
  }

  /** One or more lower-case letters, digits, underscores and dashes. */
  ghost predicate IsSegmentText(s: string) {
    s != "" && forall i :: 0 <= i < |s| ==> 'a' <= s[i] <= 'z' || '0' <= s[i] <= '9' || s[i] == '_' || s[i] == '-'
  }

  /** A key is accepted exactly when its trimmed lower-case text is three segments joined by dots,
      and it is stored as that text. */
  lemma {:induction false} ParseAccepts(raw: string, v: PolicyKey)
    ensures Parse(raw) == Ok(v) <==>
      && IsSegmentText(v.surface) && IsSegmentText(v.resource) && IsSegmentText(v.action)
      && v.key == v.surface + "." + v.resource + "." + v.action
      && Lower(Trim(IsWhitespace, raw)) == v.key
  {
    var text := Lower(Trim(IsWhitespace, raw));
    if Parse(raw) == Ok(v) {
      SplitOfThree(text);
    }
    if IsValidSegment(v.surface) && IsValidSegment(v.resource) && IsValidSegment(v.action) {
      SplitDotted(v.surface, v.resource, v.action);
    }
  }

  lemma SegmentCharsAreStable(s: string)
    requires forall i :: 0 <= i < |s| ==> IsSegmentChar(s[i]) || s[i] == '.'
    ensures Lower(s) == s && Trim(IsWhitespace, s) == s
  {
    assert forall i :: 0 <= i < |s| ==> !IsWhitespace(s[i]);
    TrimKeeps(IsWhitespace, s);
  }

  lemma KeyIsStable(v: PolicyKey)
    requires IsValidSegment(v.surface) && IsValidSegment(v.resource) && IsValidSegment(v.action)
    requires v.key == Dotted(v.surface, v.resource, v.action)
    ensures Lower(v.key) == v.key && Trim(IsWhitespace, v.key) == v.key
  {
    hide Lower, Trim, IsSegmentChar;
    SegmentCharsAreStable(v.key);
  }

  /** Parsing a parsed key again gives the same key, so it cannot fail. */
  lemma {:induction false} ParseOfParsed(raw: string)
    requires Parse(raw).Ok?
    ensures Parse(Parse(raw).value.key) == Parse(raw)
  {
    var v := Parse(raw).value;
    ParseAccepts(raw, v);
    KeyIsStable(v);
    hide Parse, Trim, Lower, IsValidSegment, Dotted;
    ParseAccepts(v.key, v);
  }
}

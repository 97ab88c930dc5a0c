/** The configured prefix of static URLs: render.rs normalises it, router.rs matches paths with it. */
module StaticPrefix {
  import opened Text

  const STATIC := "/static"
  const ADMIN := "/admin"

  /** "/admin" itself or a path below it. */
  predicate IsAdminPath(path: string) {
    path == ADMIN || StartsWith(path, ADMIN + "/")
  }

  function Rooted(text: string): string {
    if StartsWith(text, "/") then text else "/" + text
  }

  function NormalizeStaticUrlPrefix(raw: string): string {
    var trimmed := Trim(IsWhitespace, raw);
    if trimmed == "" then STATIC
    else
      Accepted(if |Rooted(trimmed)| > 1 then TrimEnd(IsSlash, Rooted(trimmed)) else Rooted(trimmed))
  }

  /** The prefix itself unless it is the root or would take the admin pages. */
  function Accepted(prefix: string): string {
    if prefix == "/" then STATIC
    else if IsAdminPath(prefix) then STATIC
    else prefix
  }

  /** `path` is `prefix` or lies below it. */
  predicate MatchesStaticPrefix(path: string, prefix: string) {
    path == prefix || (StartsWith(path, prefix) && StartsWith(path[|prefix|..], "/"))
  }

  /** What the configuration promises: a rooted prefix without a trailing slash that takes no admin path. */
  ghost predicate Servable(prefix: string) {
    && prefix != "" && prefix[0] == '/' && prefix[|prefix| - 1] != '/'
    && forall path :: IsAdminPath(path) ==> !MatchesStaticPrefix(path, prefix)
  }

  /** Two slashes or more and nothing else. */
  predicate OnlySlashes(text: string) {
    |text| > 1 && forall i :: 0 <= i < |text| ==> text[i] == '/'
  }

  lemma AdminStart(path: string)
    requires IsAdminPath(path)
    ensures |path| >= |ADMIN| && path[..|ADMIN|] == ADMIN
    ensures |path| > |ADMIN| ==> path[|ADMIN|] == '/'
  {
    if path != ADMIN {
      var start := path[..|ADMIN| + 1];
      assert start == ADMIN + "/";
      assert start[..|ADMIN|] == path[..|ADMIN|] && start[|ADMIN|] == path[|ADMIN|];
    }
  }

  lemma AdminFrom(path: string)
    requires |path| >= |ADMIN| && path[..|ADMIN|] == ADMIN
    requires |path| > |ADMIN| ==> path[|ADMIN|] == '/'
    ensures IsAdminPath(path)
  {
    if |path| == |ADMIN| {
      assert path == path[..|ADMIN|];
    } else {
      assert path[..|ADMIN| + 1] == path[..|ADMIN|] + [path[|ADMIN|]];
    }
  }

  /** A prefix that takes an admin path is empty or an admin path itself. */
  lemma MatchedPrefix(path: string, prefix: string)
    requires IsAdminPath(path) && MatchesStaticPrefix(path, prefix) && prefix != ""
    ensures IsAdminPath(prefix)
  {
    if path != prefix {
      AdminStart(path);
      assert prefix == path[..|prefix|];
      assert path[|prefix|..][..1][0] == path[|prefix|] == '/';
      forall i | 1 <= i < |ADMIN| ensures path[i] != '/' {
        assert path[..|ADMIN|][i] == ADMIN[i];
      }
      assert |prefix| >= |ADMIN|;
      assert prefix[..|ADMIN|] == path[..|ADMIN|];
      AdminFrom(prefix);
    }
  }

  lemma ServableWhenRooted(prefix: string)
    requires prefix != "" && prefix[0] == '/' && prefix[|prefix| - 1] != '/' && !IsAdminPath(prefix)
    ensures Servable(prefix)
  {
    forall path | IsAdminPath(path) ensures !MatchesStaticPrefix(path, prefix) {
      if MatchesStaticPrefix(path, prefix) { MatchedPrefix(path, prefix); }
    }
  }

  lemma StaticIsServable()
    ensures Servable(STATIC)
  {
    assert STATIC[1] != ADMIN[1];
    assert !IsAdminPath(STATIC) by { assert |STATIC| == |ADMIN| + 1 && STATIC[..|ADMIN| + 1] == STATIC != ADMIN + "/"; }
    ServableWhenRooted(STATIC);
  }

  lemma RootedStart(trimmed: string)
    requires trimmed != ""
    ensures Rooted(trimmed)[0] == '/'
    ensures trimmed[0] == '/' ==> Rooted(trimmed) == trimmed
    ensures trimmed[0] != '/' ==> Rooted(trimmed) == "/" + trimmed
  {
    OccursOne(trimmed, '/', 0);
  }

  lemma SlashesVanish(trimmed: string)
    requires OnlySlashes(trimmed)
    ensures Rooted(trimmed) == trimmed && TrimEnd(IsSlash, trimmed) == ""
  {
    RootedStart(trimmed);
    var prefix := TrimEnd(IsSlash, trimmed);
    assert forall i :: 0 <= i < |prefix| ==> IsSlash(prefix[i]);
  }

  lemma OthersStay(trimmed: string)
    requires trimmed != "" && !OnlySlashes(trimmed) && |Rooted(trimmed)| > 1
    ensures var prefix := TrimEnd(IsSlash, Rooted(trimmed));
      prefix != "" && prefix[0] == '/' && prefix[|prefix| - 1] != '/'
  {
    RootedStart(trimmed);
    var rooted := Rooted(trimmed);
    var prefix := TrimEnd(IsSlash, rooted);
    assert exists i :: 0 <= i < |rooted| && rooted[i] != '/' by {
      if trimmed[0] != '/' {
        assert rooted[1] == trimmed[0];
      } else {
        var i :| 0 <= i < |trimmed| && trimmed[i] != '/';
        assert rooted[i] != '/';
      }
    }
    assert prefix == rooted[..|prefix|];
  }

  lemma AcceptedIsRooted(prefix: string)
    requires prefix != "" && prefix[0] == '/' && (|prefix| > 1 ==> prefix[|prefix| - 1] != '/')
    ensures IsSound(Accepted(prefix))
  {
    assert |prefix| == 1 ==> prefix == "/";
    hide IsAdminPath;
  }

  /** "/static", or rooted, without a trailing slash and outside the admin pages. */
  ghost predicate IsSound(prefix: string) {
    prefix == STATIC || (prefix != "" && prefix[0] == '/' && prefix[|prefix| - 1] != '/' && !IsAdminPath(prefix))
  }

  lemma OthersAreRooted(raw: string)
    requires var trimmed := Trim(IsWhitespace, raw); trimmed != "" && !OnlySlashes(trimmed)
    ensures IsSound(NormalizeStaticUrlPrefix(raw))
  {
    var trimmed := Trim(IsWhitespace, raw);
    RootedStart(trimmed);
    hide Trim, TrimEnd, IsAdminPath, OnlySlashes, Rooted, Accepted, IsWhitespace, IsSlash, IsSound;
    if |Rooted(trimmed)| > 1 {
      OthersStay(trimmed);
      AcceptedIsRooted(TrimEnd(IsSlash, Rooted(trimmed)));
    } else {
      AcceptedIsRooted(Rooted(trimmed));
    }
  }

  /** The normalised prefix is servable unless the configured one is a run of two slashes or more. */
  lemma NormalizedIsServable(raw: string)
    ensures Servable(NormalizeStaticUrlPrefix(raw)) <==> !OnlySlashes(Trim(IsWhitespace, raw))
  {
    var trimmed := Trim(IsWhitespace, raw);
    var prefix := NormalizeStaticUrlPrefix(raw);
    assert !Servable("");
    StaticIsServable();
    if OnlySlashes(trimmed) {
      SlashesTakeEveryPath(raw, "/");
    } else if trimmed != "" {
      hide IsAdminPath, Servable;
      OthersAreRooted(raw);
      if prefix != STATIC { ServableWhenRooted(prefix); }
    } else {
      assert prefix == STATIC;
    }
  }

  /** In the remaining case the prefix is empty and every admin path is taken for a static file. */
  lemma SlashesTakeEveryPath(raw: string, path: string)
    requires OnlySlashes(Trim(IsWhitespace, raw)) && StartsWith(path, "/")
    ensures NormalizeStaticUrlPrefix(raw) == "" && MatchesStaticPrefix(path, NormalizeStaticUrlPrefix(raw))
  {
  }

  /** Two slashes, for example, take the admin page. */
  lemma TwoSlashesTakeAdmin()
    ensures NormalizeStaticUrlPrefix("//") == "" && MatchesStaticPrefix(ADMIN, NormalizeStaticUrlPrefix("//"))
  {
    hide IsWhitespace, Trim, NormalizeStaticUrlPrefix, MatchesStaticPrefix, OnlySlashes, StartsWith;
    AdminIsRooted();
    TwoSlashesStay();
    SlashesTakeEveryPath("//", ADMIN);
  }

  lemma TwoSlashesStay()
    ensures OnlySlashes(Trim(IsWhitespace, "//"))
  {
    hide Trim, IsWhitespace;
    SlashesStay("//");
  }

  lemma SlashesStay(raw: string)
    requires OnlySlashes(raw)
    ensures Trim(IsWhitespace, raw) == raw
  {
    assert !IsWhitespace('/');
    TrimKeeps(IsWhitespace, raw);
  }

  lemma AdminIsRooted()
    ensures StartsWith(ADMIN, "/")
  {
    OccursOne(ADMIN, '/', 0);
  }

  // ---- The prefix in plain terms ------------------------------------------------------------------------

  ghost predicate IsAdminText(path: string) {
    path == "/admin" || (|path| >= 7 && path[..7] == "/admin/")
  }

  lemma AdminPathIsAdminText(path: string)
    ensures IsAdminPath(path) <==> IsAdminText(path)
  {
    assert ADMIN + "/" == "/admin/";
  }

  /** A path is taken for a static file exactly when it is the prefix or goes on behind it with a slash. */
  lemma MatchesBelow(path: string, prefix: string)
    ensures MatchesStaticPrefix(path, prefix) <==>
      path == prefix || (|path| > |prefix| && path[..|prefix|] == prefix && path[|prefix|] == '/')
  {
    if |path| >= |prefix| { OccursOne(path[|prefix|..], '/', 0); }
  }

  /** An ordinary setting keeps its text: trimmed, rooted and without the slashes at its end; blank and
      root settings and those that would take the admin pages become "/static". */
  ghost predicate IsNormalized(text: string, core: string, prefix: string) {
    if text == "" || text == "/" then prefix == "/static"
    else
      && (exists post :: AllSlashes(post) && core + post == if text[0] == '/' then text else "/" + text)
      && (core != "" ==> core[|core| - 1] != '/')
      && prefix == if IsAdminText(core) then "/static" else core
  }

  lemma {:induction false} NormalizedText(raw: string, text: string)
    requires Stripped(IsWhitespace, raw, text)
    ensures exists core :: IsNormalized(text, core, NormalizeStaticUrlPrefix(raw))
  {
    StrippedIsTrim(IsWhitespace, raw, text);
    hide Trim, Stripped, IsWhitespace;
    if text != "" {
      RootedStart(text);
      if |Rooted(text)| > 1 {
        NormalizedCore(raw, text);
      } else {
        assert Rooted(text) == "/" && text == "/";
        assert IsNormalized(text, "", NormalizeStaticUrlPrefix(raw));
      }
    } else {
      assert IsNormalized(text, "", NormalizeStaticUrlPrefix(raw));
    }
  }

  lemma NormalizedCore(raw: string, text: string)
    requires text == Trim(IsWhitespace, raw) && text != "" && |Rooted(text)| > 1
    requires Rooted(text) == if text[0] == '/' then text else "/" + text
    ensures IsNormalized(text, TrimEnd(IsSlash, Rooted(text)), NormalizeStaticUrlPrefix(raw))
  {
    hide Trim, IsWhitespace, IsAdminPath, IsAdminText;
    var core := TrimEnd(IsSlash, Rooted(text));
    var post := Rooted(text)[|core|..];
    assert core + post == Rooted(text);
    assert AllSlashes(post) by { SlashesAreSlashes(post); }
    AdminPathIsAdminText(core);
    assert core != "/";
  }
}

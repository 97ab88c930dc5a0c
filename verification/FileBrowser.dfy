/** The file browser service of fs/mod.rs: disjoint roots, path resolution, listing, renaming. */
module FileBrowser {
  import opened Wrappers
  import opened Text
  import opened FileTree
  import opened FileSystem
  import opened FilePaths

  datatype Capabilities = Capabilities(
    canList: bool, canViewText: bool, canEditText: bool, canCreateText: bool, canCreateDir: bool,
    canRename: bool, canDelete: bool, canUpload: bool, canDownload: bool)

  datatype RootConfig = RootConfig(id: string, title: string, path: string, capabilities: Capabilities)

  datatype FsRoot = FsRoot(id: string, title: string, path: Path, capabilities: Capabilities)

  datatype FsEntry = FsEntry(name: string, path: string, isDir: bool)

  // ---- Construction --------------------------------------------------------------------------

  /** The text handed to canonicalize for a configured root. */
  function ResolvedText(base: string, path: string): string {
    if path != "" && path[0] == '/' then path else base + "/" + path
  }

  ghost predicate DistinctRootIds(configs: seq<RootConfig>) {
    forall i, j :: 0 <= i < j < |configs| ==> configs[i].id != configs[j].id
  }

  ghost predicate AllCanonical(configs: seq<RootConfig>, base: string, canonicalize: string -> Result<Path, FsError>) {
    forall i :: 0 <= i < |configs| ==> canonicalize(ResolvedText(base, configs[i].path)).Ok?
  }

  predicate Overlap(a: Path, b: Path) {
    Under(a, b) || Under(b, a)
  }

  function RootFor(c: RootConfig, path: Path): FsRoot {
    var title := Trim(IsWhitespace, c.title);
    FsRoot(c.id, if title == "" then c.id else title, path, c.capabilities)
  }

  /** The root carries its configuration, with the id for a blank title, and lies where the configured
      path leads, taken from the base unless it is absolute. */
  ghost predicate IsRootOf(root: FsRoot, c: RootConfig, base: string, canonicalize: string -> Result<Path, FsError>) {
    && root.id == c.id && root.capabilities == c.capabilities
    && (Trim(IsWhitespace, c.title) == "" ==> root.title == c.id)
    && (Trim(IsWhitespace, c.title) != "" ==> root.title == Trim(IsWhitespace, c.title))
    && if c.path != "" && c.path[0] == '/' then canonicalize(c.path) == Ok(root.path)
       else canonicalize(base + "/" + c.path) == Ok(root.path)
  }

  lemma RootForIsRoot(c: RootConfig, base: string, canonicalize: string -> Result<Path, FsError>, path: Path)
    ensures canonicalize(ResolvedText(base, c.path)) == Ok(path) ==> IsRootOf(RootFor(c, path), c, base, canonicalize)
  {
  }

  /** No two configured roots have canonical paths one of which lies below the other. */
  ghost predicate DisjointRoots(configs: seq<RootConfig>, base: string, canonicalize: string -> Result<Path, FsError>)
    requires AllCanonical(configs, base, canonicalize)
  {
    forall i, j :: 0 <= i < j < |configs| ==>
      !Overlap(canonicalize(ResolvedText(base, configs[i].path)).value,
               canonicalize(ResolvedText(base, configs[j].path)).value)
  }

  /** One root per configuration at its canonical path, if ids are distinct and all paths exist. */
  method CanonicalRoots(configs: seq<RootConfig>, base: string, canonicalize: string -> Result<Path, FsError>)
      returns (r: Result<map<string, FsRoot>, FsError>, canonical: seq<Path>)
    ensures r.Ok? <==> DistinctRootIds(configs) && AllCanonical(configs, base, canonicalize)
    ensures r.Ok? ==> |canonical| == |configs|
    ensures r.Ok? ==>
              forall k :: 0 <= k < |configs| ==> canonicalize(ResolvedText(base, configs[k].path)) == Ok(canonical[k])
    ensures r.Ok? ==> r.value.Keys == set k | 0 <= k < |configs| :: configs[k].id
    ensures r.Ok? ==> forall k :: 0 <= k < |configs| ==> r.value[configs[k].id] == RootFor(configs[k], canonical[k])
  {
    hide RootFor, ResolvedText;
    var roots: map<string, FsRoot> := map[];
    canonical := [];
    var i := 0;
    while i < |configs|
      invariant 0 <= i <= |configs| && |canonical| == i
      invariant forall j, k :: 0 <= j < k < i ==> configs[j].id != configs[k].id
      invariant forall k :: 0 <= k < i ==> canonicalize(ResolvedText(base, configs[k].path)) == Ok(canonical[k])
      invariant roots.Keys == set k | 0 <= k < i :: configs[k].id
      invariant forall k :: 0 <= k < i ==> roots[configs[k].id] == RootFor(configs[k], canonical[k])
    {
      var c := configs[i];
      if c.id in roots { return Err(InvalidPath), []; }
      var path := canonicalize(ResolvedText(base, c.path));
      if path.Err? { return Err(path.error), []; }
      canonical := canonical + [path.value];
      roots := roots[c.id := RootFor(c, path.value)];
      i := i + 1;
    }
    r := Ok(roots);
  }

  method AnyOverlap(canonical: seq<Path>) returns (found: bool)
    ensures found <==> exists a, b :: 0 <= a < b < |canonical| && Overlap(canonical[a], canonical[b])
  {
    var left := 0;
    while left < |canonical|
      invariant 0 <= left <= |canonical|
      invariant forall a, b :: 0 <= a < left && a < b < |canonical| ==> !Overlap(canonical[a], canonical[b])
    {
      var right := left + 1;
      while right < |canonical|
        invariant left < right <= |canonical|
        invariant forall b :: left < b < right ==> !Overlap(canonical[left], canonical[b])
      {
        if Overlap(canonical[left], canonical[right]) { return true; }
        right := right + 1;
      }
      left := left + 1;
    }
    found := false;
  }

  /** Succeeds exactly when ids are distinct, every path canonicalises and no two roots overlap;
      then there is one root per configuration, at its canonical path. */
  method FromManifestWithRootBase(configs: seq<RootConfig>, base: string, canonicalize: string -> Result<Path, FsError>)
      returns (r: Result<map<string, FsRoot>, FsError>)
    ensures r.Ok? <==> DistinctRootIds(configs) && AllCanonical(configs, base, canonicalize)
                       && DisjointRoots(configs, base, canonicalize)
    ensures r.Ok? ==> r.value.Keys == set k | 0 <= k < |configs| :: configs[k].id
    ensures r.Ok? ==> forall i :: 0 <= i < |configs| ==>
              && canonicalize(ResolvedText(base, configs[i].path)).Ok?
              && r.value[configs[i].id] == RootFor(configs[i], canonicalize(ResolvedText(base, configs[i].path)).value)
    ensures r.Ok? ==>
              forall i :: 0 <= i < |configs| ==>
                configs[i].id in r.value && IsRootOf(r.value[configs[i].id], configs[i], base, canonicalize)
  {
    forall c: RootConfig, path {
      RootForIsRoot(c, base, canonicalize, path);
    }
    hide IsRootOf;
    hide RootFor, ResolvedText, Overlap, DistinctRootIds;
    var roots, canonical := CanonicalRoots(configs, base, canonicalize);
    if roots.Err? { return roots; }
    var overlap := AnyOverlap(canonical);
    r := if overlap then Err(InvalidPath) else roots;
  }

  /** Paths under non-overlapping roots are never equal, and never one below the other. */
  lemma {:induction false} DisjointRootsNeverMeet(a: Path, b: Path, x: Path, y: Path)
    requires !Overlap(a, b)
    ensures a + x != b + y && !Overlap(a + x, b + y)
  {
    if Overlap(a + x, b + y) {
      var p := if |a + x| >= |b + y| then a + x else b + y;
      assert Under(p, a + x) && Under(p, b + y);
      assert p[..|a|] == p[..|a + x|][..|a|] && p[..|b|] == p[..|b + y|][..|b|];
      Comparable(p, a, b);
    }
    assert a + x == b + y ==> Overlap(a + x, b + y);
  }

  // ---- The service ---------------------------------------------------------------------------

  /** The first `count` prefixes of `segments` below `base` exist and, if links are denied, are
      not links. */
  ghost predicate Reachable(n: Tree, base: Path, segments: seq<string>, count: nat, denySymlink: bool)
    requires count <= |segments|
  {
    forall k :: 0 < k <= count ==>
      base + segments[..k] in n && (denySymlink ==> !n[base + segments[..k]].Link?)
  }

  /** The path below `base` that the text spells, when every prefix of it can be reached. */
  ghost predicate Leads(n: Tree, base: Path, raw: string, noDots: bool, denySymlink: bool, allowRoot: bool,
                        path: Path) {
    exists segments ::
      && Spells(raw, noDots, Ok(segments)) && path == base + segments
      && (segments == [] ==> allowRoot) && Reachable(n, base, segments, |segments|, denySymlink)
  }

  /** The path below `base` that the text spells, when its directory can be reached. */
  ghost predicate LeadsToNew(n: Tree, base: Path, raw: string, noDots: bool, denySymlink: bool, path: Path) {
    exists segments ::
      && Spells(raw, noDots, Ok(segments)) && path == base + segments
      && segments != [] && Reachable(n, base, segments, |segments| - 1, denySymlink)
  }

  lemma LeadsByParsing(n: Tree, base: Path, raw: string, noDots: bool, denySymlink: bool, allowRoot: bool, path: Path)
    ensures Leads(n, base, raw, noDots, denySymlink, allowRoot, path) <==>
      && ParseSegments(raw, noDots).Ok?
      && var segments := ParseSegments(raw, noDots).value;
         && path == base + segments
         && (segments == [] ==> allowRoot) && Reachable(n, base, segments, |segments|, denySymlink)
  {
    ParseIsSpelling(raw, noDots, ParseSegments(raw, noDots));
    forall segments | Spells(raw, noDots, Ok(segments)) ensures ParseSegments(raw, noDots) == Ok(segments) {
      ParseIsSpelling(raw, noDots, Ok(segments));
    }
    hide ParseSegments, Spells, Reachable;
  }

  lemma LeadsToNewByParsing(n: Tree, base: Path, raw: string, noDots: bool, denySymlink: bool, path: Path)
    ensures LeadsToNew(n, base, raw, noDots, denySymlink, path) <==>
      && ParseSegments(raw, noDots).Ok?
      && var segments := ParseSegments(raw, noDots).value;
         && path == base + segments
         && segments != [] && Reachable(n, base, segments, |segments| - 1, denySymlink)
  {
    ParseIsSpelling(raw, noDots, ParseSegments(raw, noDots));
    forall segments | Spells(raw, noDots, Ok(segments)) ensures ParseSegments(raw, noDots) == Ok(segments) {
      ParseIsSpelling(raw, noDots, Ok(segments));
    }
    hide ParseSegments, Spells, Reachable;
  }

  class Service {
    const disk: Disk
    const roots: map<string, FsRoot>
    const noDots: bool
    const denySymlink: bool

    constructor (disk: Disk, roots: map<string, FsRoot>, noDots: bool, denySymlink: bool)
      ensures this.disk == disk && this.roots == roots && this.noDots == noDots && this.denySymlink == denySymlink
    {
      this.disk, this.roots, this.noDots, this.denySymlink := disk, roots, noDots, denySymlink;
    }

    /** Follows plain segments down from `base`; every prefix must exist and, when links are
        denied, must not be a link. */
    method ResolveSegmentsExisting(base: Path, segments: seq<string>) returns (r: Result<Path, FsError>)
      requires forall i :: 0 <= i < |segments| ==> EntryName(segments[i])
      modifies disk`clock
      ensures r.Ok? ==> r.value == base + segments && Reachable(disk.nodes, base, segments, |segments|, denySymlink)
      ensures NeverFaults(disk.kernel) ==> (r.Ok? <==> Reachable(disk.nodes, base, segments, |segments|, denySymlink))
    {
      var current := base;
      var i := 0;
      while i < |segments|
        invariant 0 <= i <= |segments| && current == base + segments[..i]
        invariant Reachable(disk.nodes, base, segments, i, denySymlink)
      {
        PushName(current, segments[i]);
        current := Push(current, segments[i]);
        assert current == base + segments[..i + 1];
        var node := disk.Stat(current);
        if node.Err? { return Err(node.error); }
        if denySymlink && node.value.Link? { return Err(ForbiddenSymlink); }
        i := i + 1;
      }
      assert segments[..i] == segments;
      r := Ok(current);
    }

    method ResolveExisting(root: FsRoot, raw: string, allowRoot: bool) returns (r: Result<Path, FsError>)
      modifies disk`clock
      ensures r.Ok? ==> ParseSegments(raw, noDots).Ok? && Resolves(disk.nodes, root, raw, allowRoot)
                        && r.value == root.path + ParseSegments(raw, noDots).value
      ensures NeverFaults(disk.kernel) ==>
                (r.Ok? <==> ParseSegments(raw, noDots).Ok? && Resolves(disk.nodes, root, raw, allowRoot))
      ensures r.Ok? ==> Leads(disk.nodes, root.path, raw, noDots, denySymlink, allowRoot, r.value)
    {
      ResolvedLeads(disk.nodes, root, raw, allowRoot);
      hide Leads, Reachable, Spells;
      var parsed := ParseRelSegments(raw, noDots);
      if parsed.Err? { return Err(parsed.error); }
      AcceptedSegmentsAreNames(raw, noDots);
      hide ParseSegments;
      if parsed.value == [] {
        assert root.path + [] == root.path;
        return if allowRoot then Ok(root.path) else Err(InvalidPath);
      }
      r := ResolveSegmentsExisting(root.path, parsed.value);
    }

    /** What resolving an accepted path to something existing demands. */
    ghost predicate Resolves(n: Tree, root: FsRoot, raw: string, allowRoot: bool)
      requires ParseSegments(raw, noDots).Ok?
    {
      var segments := ParseSegments(raw, noDots).value;
      (segments == [] ==> allowRoot) && Reachable(n, root.path, segments, |segments|, denySymlink)
    }

    /** What resolving an accepted path for creation demands: its directory, not the leaf. */
    ghost predicate Creatable(n: Tree, root: FsRoot, raw: string) {
      && ParseSegments(raw, noDots).Ok?
      && var segments := ParseSegments(raw, noDots).value;
         segments != [] && Reachable(n, root.path, segments, |segments| - 1, denySymlink)
    }

    /** A text resolves exactly when it leads somewhere, and then to that path. */
    lemma ResolvesIsLeads(n: Tree, root: FsRoot, raw: string, allowRoot: bool)
      ensures ParseSegments(raw, noDots).Ok? && Resolves(n, root, raw, allowRoot) ==>
                Leads(n, root.path, raw, noDots, denySymlink, allowRoot, root.path + ParseSegments(raw, noDots).value)
      ensures !(ParseSegments(raw, noDots).Ok? && Resolves(n, root, raw, allowRoot)) ==>
                forall path :: !Leads(n, root.path, raw, noDots, denySymlink, allowRoot, path)
    {
      forall path {
        LeadsByParsing(n, root.path, raw, noDots, denySymlink, allowRoot, path);
      }
      hide Leads, ParseSegments, Reachable;
    }

    /** A text may be created exactly when it leads to a place in a directory. */
    lemma CreatableIsLeadsToNew(n: Tree, root: FsRoot, raw: string)
      ensures Creatable(n, root, raw) ==>
                LeadsToNew(n, root.path, raw, noDots, denySymlink, root.path + ParseSegments(raw, noDots).value)
      ensures !Creatable(n, root, raw) ==>
                forall path :: !LeadsToNew(n, root.path, raw, noDots, denySymlink, path)
    {
      forall path {
        LeadsToNewByParsing(n, root.path, raw, noDots, denySymlink, path);
      }
      hide LeadsToNew, ParseSegments, Reachable;
    }

    lemma ResolvedLeads(n: Tree, root: FsRoot, raw: string, allowRoot: bool)
      ensures ParseSegments(raw, noDots).Ok? && Resolves(n, root, raw, allowRoot) ==>
                Leads(n, root.path, raw, noDots, denySymlink, allowRoot, root.path + ParseSegments(raw, noDots).value)
    {
      ResolvesIsLeads(n, root, raw, allowRoot);
    }

    lemma CreatableParses(n: Tree, root: FsRoot, raw: string)
      ensures Creatable(n, root, raw) ==> ParseSegments(raw, noDots).Ok?
    {
      hide ParseSegments, Reachable;
    }

    lemma CreatableBySegments(n: Tree, root: FsRoot, raw: string, segments: seq<string>)
      requires ParseSegments(raw, noDots) == Ok(segments)
      ensures segments == [] ==> !Creatable(n, root, raw)
      ensures segments != [] ==>
                var parents := segments[..|segments| - 1];
                Creatable(n, root, raw) <==> Reachable(n, root.path, parents, |parents|, denySymlink)
    {
      hide ParseSegments;
      if segments != [] { SamePrefixes(n, root.path, segments, denySymlink); }
      hide Reachable;
    }

    method ResolveForCreate(root: FsRoot, raw: string) returns (r: Result<Path, FsError>)
      modifies disk`clock
      ensures r.Ok? ==> Creatable(disk.nodes, root, raw) && r.value == root.path + ParseSegments(raw, noDots).value
      ensures NeverFaults(disk.kernel) ==> (r.Ok? <==> Creatable(disk.nodes, root, raw))
    {
      hide ParseSegments, Reachable, Push, Spells, Creatable, Collect;
      CreatableParses(disk.nodes, root, raw);
      var parsed := ParseRelSegments(raw, noDots);
      if parsed.Err? { return Err(parsed.error); }
      AcceptedSegmentsAreNames(raw, noDots);
      CreatableBySegments(disk.nodes, root, raw, parsed.value);
      var segments := parsed.value;
      if segments == [] { return Err(InvalidPath); }
      var parents, leaf := segments[..|segments| - 1], segments[|segments| - 1];
      if leaf == "" { return Err(InvalidPath); }
      JoinLast(root.path, segments);
      hide EntryName;
      var parent := ResolveParents(root.path, parents);
      if parent.Err? { return parent; }
      PushName(parent.value, leaf);
      r := Ok(Push(parent.value, leaf));
    }

    /** The directory of a leaf: the root itself, or what the segments above the leaf resolve to. */
    method ResolveParents(base: Path, parents: seq<string>) returns (r: Result<Path, FsError>)
      requires forall i :: 0 <= i < |parents| ==> EntryName(parents[i])
      modifies disk`clock
      ensures r.Ok? ==> r.value == base + parents && Reachable(disk.nodes, base, parents, |parents|, denySymlink)
      ensures NeverFaults(disk.kernel) ==> (r.Ok? <==> Reachable(disk.nodes, base, parents, |parents|, denySymlink))
    {
      if parents == [] {
        assert base + [] == base;
        return Ok(base);
      }
      hide Reachable, EntryName;
      r := ResolveSegmentsExisting(base, parents);
    }

    /** The path that an accepted spelling stands for under a root. */
    ghost function Addressed(rootId: string, raw: string): Path
      requires rootId in roots && ParseSegments(raw, noDots).Ok?
    {
      roots[rootId].path + ParseSegments(raw, noDots).value
    }

    /** The spelling stands for an existing directory that may be listed. */
    ghost predicate Listable(n: Tree, rootId: string, raw: string) {
      && rootId in roots && roots[rootId].capabilities.canList && ParseSegments(raw, noDots).Ok?
      && Resolves(n, roots[rootId], raw, true)
      && Lookup(n, Addressed(rootId, raw)) == Some(Dir)
    }

    /** The entries of a directory: exactly its visible children, each under the path that names
        it relative to the root. */
    method List(rootId: string, raw: string) returns (r: Result<seq<FsEntry>, FsError>)
      requires ValidKernel(disk.kernel)
      modifies disk`clock
      ensures r.Ok? ==> Listable(disk.nodes, rootId, raw)
                        && Leads(disk.nodes, roots[rootId].path, raw, noDots, denySymlink, true, Addressed(rootId, raw))
      ensures r.Ok? ==> forall e :: e in r.value <==> IsEntry(disk.nodes, Addressed(rootId, raw), raw, e)
      ensures r.Ok? ==> forall i, j :: 0 <= i < j < |r.value| ==> r.value[i].name != r.value[j].name
      ensures NeverFaults(disk.kernel) ==> (r.Ok? <==> Listable(disk.nodes, rootId, raw))
    {
      hide ParseSegments, Resolves, Reachable, ValidKernel, NeverFaults, Children, ChildRel, Leads;
      if rootId !in roots { return Err(RootNotFound); }
      var root := roots[rootId];
      if !root.capabilities.canList { return Err(PermissionDenied); }
      var target := ResolveExisting(root, raw, true);
      if target.Err? { return Err(target.error); }
      var dir := target.value;
      var listed := disk.ReadDir(dir);
      if listed.Err? { return Err(listed.error); }
      forall name ensures name in listed.value <==> dir + [name] in disk.nodes {
        ChildrenAre(disk.nodes, dir, name);
      }
      r := ListEntries(dir, raw, listed.value);
    }

    method ListEntries(dir: Path, raw: string, names: seq<string>) returns (r: Result<seq<FsEntry>, FsError>)
      requires forall i, j :: 0 <= i < j < |names| ==> names[i] != names[j]
      modifies disk`clock
      ensures r.Ok? ==> forall e :: e in r.value <==> e.name in names && IsEntry(disk.nodes, dir, raw, e)
      ensures r.Ok? ==> forall i, j :: 0 <= i < j < |r.value| ==> r.value[i].name != r.value[j].name
      ensures NeverFaults(disk.kernel) && (forall name :: name in names ==> dir + [name] in disk.nodes) ==> r.Ok?
    {
      hide ChildRel;
      var entries: seq<FsEntry> := [];
      var i := 0;
      while i < |names|
        invariant 0 <= i <= |names|
        invariant forall e :: e in entries <==> e.name in names[..i] && IsEntry(disk.nodes, dir, raw, e)
        invariant forall k :: 0 <= k < |entries| ==> entries[k].name in names[..i]
        invariant forall k, l :: 0 <= k < l < |entries| ==> entries[k].name != entries[l].name
      {
        var fault := disk.Begin();
        if fault.Some? { return Err(fault.value); }
        var name := names[i];
        assert names[..i + 1] == names[..i] + [name];
        if !(noDots && IsHidden(name)) {
          var node := disk.Stat(dir + [name]);
          if node.Err? { return Err(node.error); }
          if !(denySymlink && node.value.Link?) {
            entries := entries + [FsEntry(name, ChildRel(raw, name), node.value.Dir?)];
          }
        }
        i := i + 1;
      }
      assert names[..i] == names;
      r := Ok(entries);
    }

    /** `e` describes a visible child of `dir`. */
    ghost predicate IsEntry(n: Tree, dir: Path, raw: string, e: FsEntry) {
      && dir + [e.name] in n
      && (noDots && e.name != "" ==> e.name[0] != '.')
      && (denySymlink ==> !n[dir + [e.name]].Link?)
      && e.path == ChildRel(raw, e.name)
      && e.isDir == n[dir + [e.name]].Dir?
    }

    /** The source exists, the target is free in an existing directory and not inside the source. */
    ghost predicate Renamable(n: Tree, rootId: string, fromRaw: string, toRaw: string) {
      && rootId in roots && roots[rootId].capabilities.canRename
      && ParseSegments(fromRaw, noDots).Ok? && Resolves(n, roots[rootId], fromRaw, false)
      && Creatable(n, roots[rootId], toRaw)
      && var from := Addressed(rootId, fromRaw);
         var to := Addressed(rootId, toRaw);
         && from in n && to !in n && Lookup(n, Parent'(to)) == Some(Dir)
         && (n[from].Dir? ==> !Under(to, from))
    }

    /** A failed rename that changed something: a directory split between the two places, or a file
        that has both names. */
    ghost predicate RenameStopped(n: Tree, m: Tree, from: Path, to: Path)
      requires from in n
    {
      if n[from].Dir? then IsPartlyMoved(n, m, from, to) else m == n[to := n[from]]
    }

    /** Renames a file or a directory inside one root, never replacing anything. */
    method Rename(rootId: string, fromRaw: string, toRaw: string) returns (r: Result<(), FsError>)
      requires ValidKernel(disk.kernel) && TreeOk(disk.nodes)
      modifies disk
      ensures TreeOk(disk.nodes)
      ensures r.Ok? ==> Renamable(old(disk.nodes), rootId, fromRaw, toRaw)
                        && IsMoved(old(disk.nodes), disk.nodes, Addressed(rootId, fromRaw), Addressed(rootId, toRaw))
      ensures r.Err? && disk.nodes != old(disk.nodes) ==>
                Renamable(old(disk.nodes), rootId, fromRaw, toRaw)
                && RenameStopped(old(disk.nodes), disk.nodes, Addressed(rootId, fromRaw), Addressed(rootId, toRaw))
      ensures NeverFaults(disk.kernel) ==> (r.Ok? <==> Renamable(old(disk.nodes), rootId, fromRaw, toRaw))
    {
      hide ParseSegments, Resolves, Creatable, Reachable, IsMoved, IsPartlyMoved, TreeOk, ValidKernel, NeverFaults;
      if rootId !in roots { return Err(RootNotFound); }
      var root := roots[rootId];
      if !root.capabilities.canRename { return Err(PermissionDenied); }
      var source := ResolveExisting(root, fromRaw, false);
      if source.Err? { return Err(source.error); }
      var target := ResolveForCreate(root, toRaw);
      if target.Err? { return Err(target.error); }
      var from, to := source.value, target.value;
      var node := disk.Stat(from);
      if node.Err? { return Err(node.error); }
      if node.value.Dir? {
        if Under(to, from) { return Err(InvalidPath); }
        r := disk.RenameDirectoryNoOverwrite(from, to);
      } else {
        ghost var n := disk.nodes;
        r := disk.HardLink(from, to);
        if r.Err? { return; }
        ghost var linked := disk.nodes;
        r := disk.RemoveFile(from);
        if r.Ok? {
          assert disk.nodes == n[to := n[from]] - {from};
          LeafMoved(n, disk.nodes, from, to);
        }
      }
    }
  }

  lemma JoinLast(base: Path, segments: seq<string>)
    requires segments != []
    ensures base + segments[..|segments| - 1] + [segments[|segments| - 1]] == base + segments
    ensures segments[..|segments| - 1] == [] ==> base + segments[..|segments| - 1] == base
  {
  }

  lemma SamePrefixes(n: Tree, base: Path, segments: seq<string>, denySymlink: bool)
    requires segments != []
    ensures Reachable(n, base, segments[..|segments| - 1], |segments| - 1, denySymlink)
            <==> Reachable(n, base, segments, |segments| - 1, denySymlink)
    ensures |segments| == 1 ==> Reachable(n, base, segments, 0, denySymlink)
  {
    var parents := segments[..|segments| - 1];
    assert forall k :: 0 < k <= |parents| ==> base + parents[..k] == base + segments[..k];
  }

  /** Two paths resolved under different roots of one accepted configuration never meet. */
  lemma {:induction false} ResolvedPathsNeverMeet(configs: seq<RootConfig>, base: string,
                                                  canonicalize: string -> Result<Path, FsError>,
                                                  i: nat, j: nat, rawI: string, rawJ: string, noDots: bool)
    requires AllCanonical(configs, base, canonicalize) && DisjointRoots(configs, base, canonicalize)
    requires i < |configs| && j < |configs| && i != j
    requires ParseSegments(rawI, noDots).Ok? && ParseSegments(rawJ, noDots).Ok?
    ensures var a := canonicalize(ResolvedText(base, configs[i].path)).value + ParseSegments(rawI, noDots).value;
      var b := canonicalize(ResolvedText(base, configs[j].path)).value + ParseSegments(rawJ, noDots).value;
      a != b && !Under(a, b) && !Under(b, a)
  {
    var a := canonicalize(ResolvedText(base, configs[i].path)).value;
    var b := canonicalize(ResolvedText(base, configs[j].path)).value;
    assert !Overlap(a, b);
    DisjointRootsNeverMeet(a, b, ParseSegments(rawI, noDots).value, ParseSegments(rawJ, noDots).value);
  }

  /** The path `List` reports for an entry resolves, under the same root, to that very entry,
      exactly when the entry's name survives trimming; and then the entry is found. */
  lemma {:induction false} ListedEntryResolves(s: Service, n: Tree, root: FsRoot, raw: string, e: FsEntry)
    requires ParseSegments(raw, s.noDots).Ok? && s.Resolves(n, root, raw, true)
    requires s.IsEntry(n, root.path + ParseSegments(raw, s.noDots).value, raw, e) && EntryName(e.name)
    ensures var segments := ParseSegments(raw, s.noDots).value + [e.name];
      && (ParseSegments(e.path, s.noDots) == Ok(segments) <==> KeepsSpelling(raw, e.name))
      && (KeepsSpelling(raw, e.name) ==> s.Resolves(n, root, e.path, false))
  {
    hide ParseSegments, ChildRel, KeepsSpelling, EntryName, Reachable;
    var above := ParseSegments(raw, s.noDots).value;
    ListedPathResolvesBack(raw, e.name, s.noDots, above);
    ReachableChild(n, root.path, above, e.name, s.denySymlink);
    assert root.path + (above + [e.name]) == root.path + above + [e.name];
  }

  lemma ReachableChild(n: Tree, base: Path, above: seq<string>, name: string, denySymlink: bool)
    requires Reachable(n, base, above, |above|, denySymlink)
    requires base + above + [name] in n && (denySymlink ==> !n[base + above + [name]].Link?)
    ensures Reachable(n, base, above + [name], |above| + 1, denySymlink)
  {
    var segments := above + [name];
    forall k | 0 < k <= |segments|
      ensures base + segments[..k] in n && (denySymlink ==> !n[base + segments[..k]].Link?)
    {
      if k == |segments| {
        assert base + segments[..k] == base + above + [name];
      } else {
        assert segments[..k] == above[..k];
      }
    }
  }
}

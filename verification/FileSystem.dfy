/** The file system primitives, and the recursive no-overwrite directory rename of fs/mod.rs. */
module FileSystem {
  import opened Wrappers
  import opened FileTree

  datatype FsError =
    | InvalidPath
    | RootNotFound
    | PermissionDenied
    | ForbiddenHidden
    | ForbiddenSymlink
    | NotFound
    | Conflict
    | NotEmptyDir
    | IoError

  /** What the model does not decide: which steps fail, with which error, and the order in which
      a directory is read. */
  datatype Kernel = Kernel(fault: nat -> Option<FsError>, order: set<string> -> seq<string>)

  ghost predicate ValidKernel(k: Kernel) {
    forall s: set<string> ::
      && (forall x :: x in k.order(s) <==> x in s)
      && (forall i, j :: 0 <= i < j < |k.order(s)| ==> k.order(s)[i] != k.order(s)[j])
  }

  ghost predicate NeverFaults(k: Kernel) {
    forall i: nat :: k.fault(i) == None
  }

  lemma SmallerSubtree(n: Tree, m: Tree, from: Path, to: Path, done: set<string>, name: string)
    requires NextEntry(n, m, from, to, done, name)
    ensures |Subtree(m, from + [name])| < |Subtree(n, from)|
  {
    var below := Subtree(m, from + [name]);
    forall p | p in below ensures p in Subtree(n, from) && p != from {
      SameUnder(p, from, name);
      Incomparable(n, from, to, p);
      assert Lookup(m, p) == EntriesAt(n, from, to, done, p);
    }
    Subset(below, Subtree(n, from), from);
  }

  lemma Subset(a: set<Path>, b: set<Path>, x: Path)
    requires a <= b && x in b && x !in a
    ensures |a| < |b|
  {
    assert a <= b - {x};
    Smaller(a, b - {x});
  }

  lemma {:induction false} Smaller(a: set<Path>, b: set<Path>)
    requires a <= b
    ensures |a| <= |b|
    decreases |a|
  {
    if a != {} {
      var x :| x in a;
      Smaller(a - {x}, b - {x});
    }
  }

  class Disk {
    var nodes: Tree
    var clock: nat
    const kernel: Kernel

    constructor (kernel: Kernel)
      ensures this.kernel == kernel && nodes == map[[] := Dir] && TreeOk(nodes)
    {
      this.kernel := kernel;
      nodes := map[[] := Dir];
      clock := 0;
    }

    /** Starts a system call; a fault ends it without effect. */
    method Begin() returns (fault: Option<FsError>)
      modifies this`clock
      ensures NeverFaults(kernel) ==> fault == None
    {
      fault := kernel.fault(clock);
      clock := clock + 1;
    }

    method CreateDir(p: Path) returns (r: Result<(), FsError>)
      requires TreeOk(nodes)
      modifies this
      ensures TreeOk(nodes)
      ensures r.Ok? ==> p !in old(nodes) && Lookup(old(nodes), Parent'(p)) == Some(Dir) && nodes == old(nodes)[p := Dir]
      ensures r.Err? ==> nodes == old(nodes)
      ensures NeverFaults(kernel) ==>
                (r.Ok? <==> p !in old(nodes) && Lookup(old(nodes), Parent'(p)) == Some(Dir))
    {
      var fault := Begin();
      if fault.Some? { return Err(fault.value); }
      if p in nodes { return Err(Conflict); }
      if Parent'(p) !in nodes { return Err(NotFound); }
      if !nodes[Parent'(p)].Dir? { return Err(IoError); }
      nodes := nodes[p := Dir];
      r := Ok(());
    }

    /** The entry names of a directory, each once, in an unspecified order. */
    method ReadDir(p: Path) returns (r: Result<seq<string>, FsError>)
      requires ValidKernel(kernel)
      modifies this`clock
      ensures r.Ok? ==> p in nodes && nodes[p].Dir? && (forall x :: x in r.value <==> x in Children(nodes, p))
      ensures r.Ok? ==> forall i, j :: 0 <= i < j < |r.value| ==> r.value[i] != r.value[j]
      ensures NeverFaults(kernel) ==> (r.Ok? <==> Lookup(nodes, p) == Some(Dir))
    {
      var fault := Begin();
      if fault.Some? { return Err(fault.value); }
      if p !in nodes { return Err(NotFound); }
      if !nodes[p].Dir? { return Err(IoError); }
      r := Ok(kernel.order(Children(nodes, p)));
    }

    /** The node at a path itself, without following a link. */
    method Stat(p: Path) returns (r: Result<Node, FsError>)
      modifies this`clock
      ensures r.Ok? ==> Lookup(nodes, p) == Some(r.value)
      ensures NeverFaults(kernel) ==> (r.Ok? <==> p in nodes)
    {
      var fault := Begin();
      if fault.Some? { return Err(fault.value); }
      if p !in nodes { return Err(NotFound); }
      r := Ok(nodes[p]);
    }

    /** rename(2) for a file or link; it would replace a file at the target. */
    method RenameFile(from: Path, to: Path) returns (r: Result<(), FsError>)
      requires TreeOk(nodes) && from in nodes && !nodes[from].Dir?
      modifies this
      ensures TreeOk(nodes)
      ensures r.Ok? ==> (to !in old(nodes) || !old(nodes)[to].Dir?)
      ensures r.Ok? && from != to ==> nodes == old(nodes)[to := old(nodes)[from]] - {from}
      ensures r.Err? || from == to ==> nodes == old(nodes)
      ensures NeverFaults(kernel) ==>
                (r.Ok? <==> Lookup(old(nodes), Parent'(to)) == Some(Dir) && Lookup(old(nodes), to) != Some(Dir))
    {
      var fault := Begin();
      if fault.Some? { return Err(fault.value); }
      if Parent'(to) !in nodes { return Err(NotFound); }
      if !nodes[Parent'(to)].Dir? || (to in nodes && nodes[to].Dir?) { return Err(IoError); }
      if from != to {
        nodes := nodes[to := nodes[from]] - {from};
      }
      r := Ok(());
    }

    /** link(2): a second name for a file; never replaces anything. */
    method HardLink(from: Path, to: Path) returns (r: Result<(), FsError>)
      requires TreeOk(nodes)
      modifies this
      ensures TreeOk(nodes)
      ensures r.Ok? ==> from in old(nodes) && !old(nodes)[from].Dir? && to !in old(nodes)
                        && Lookup(old(nodes), Parent'(to)) == Some(Dir)
                        && nodes == old(nodes)[to := old(nodes)[from]]
      ensures r.Err? ==> nodes == old(nodes)
      ensures NeverFaults(kernel) ==>
                (r.Ok? <==> from in old(nodes) && !old(nodes)[from].Dir? && to !in old(nodes)
                            && Lookup(old(nodes), Parent'(to)) == Some(Dir))
    {
      var fault := Begin();
      if fault.Some? { return Err(fault.value); }
      if from !in nodes || Parent'(to) !in nodes { return Err(NotFound); }
      if to in nodes { return Err(Conflict); }
      if nodes[from].Dir? { return Err(PermissionDenied); }
      if !nodes[Parent'(to)].Dir? { return Err(IoError); }
      nodes := nodes[to := nodes[from]];
      r := Ok(());
    }

    method RemoveFile(p: Path) returns (r: Result<(), FsError>)
      requires TreeOk(nodes)
      modifies this
      ensures TreeOk(nodes)
      ensures r.Ok? ==> p in old(nodes) && !old(nodes)[p].Dir? && nodes == old(nodes) - {p}
      ensures r.Err? ==> nodes == old(nodes)
      ensures NeverFaults(kernel) ==> (r.Ok? <==> p in old(nodes) && !old(nodes)[p].Dir?)
    {
      var fault := Begin();
      if fault.Some? { return Err(fault.value); }
      if p !in nodes { return Err(NotFound); }
      if nodes[p].Dir? { return Err(IoError); }
      nodes := nodes - {p};
      r := Ok(());
    }

    method RemoveDir(p: Path) returns (r: Result<(), FsError>)
      requires TreeOk(nodes) && |p| > 0
      modifies this
      ensures TreeOk(nodes)
      ensures r.Ok? ==> nodes == old(nodes) - {p} && Children(old(nodes), p) == {}
      ensures r.Err? ==> nodes == old(nodes)
      ensures NeverFaults(kernel) ==>
                (r.Ok? <==> Lookup(old(nodes), p) == Some(Dir) && Children(old(nodes), p) == {})
    {
      var fault := Begin();
      if fault.Some? { return Err(fault.value); }
      if p !in nodes { return Err(NotFound); }
      if !nodes[p].Dir? { return Err(IoError); }
      if Children(nodes, p) != {} { return Err(NotEmptyDir); }
      EmptyDirIsLeaf(nodes, p);
      nodes := nodes - {p};
      r := Ok(());
    }

    /** Moves the directory `from` with everything below it to the free path `to`.

        On success the subtree is exactly at the target and nothing else changed. On failure
        either nothing happened, or every file of the subtree is in exactly one of the two
        places, at the same relative path and with the same content. Without faults the move
        succeeds exactly when the target is free and its parent is a directory. */
    method RenameDirectoryNoOverwrite(from: Path, to: Path) returns (r: Result<(), FsError>)
      requires ValidKernel(kernel) && TreeOk(nodes)
      requires from in nodes && nodes[from].Dir? && !Under(to, from)
      modifies this
      ensures TreeOk(nodes)
      ensures r.Ok? ==> IsMoved(old(nodes), nodes, from, to)
      ensures r.Err? ==> nodes == old(nodes) || IsPartlyMoved(old(nodes), nodes, from, to)
      ensures r.Ok? || nodes != old(nodes) ==> to !in old(nodes) && Lookup(old(nodes), Parent'(to)) == Some(Dir)
      ensures NeverFaults(kernel) ==>
                (r.Ok? <==> to !in old(nodes) && Lookup(old(nodes), Parent'(to)) == Some(Dir))
      decreases |Subtree(nodes, from)|, 1
    {
      hide IsMoved, IsPartlyMoved, EntriesMoved, Subtree;
      ghost var n := nodes;
      r := CreateDir(to);
      if r.Err? { return; }
      MoveBegins(n, from, to);
      var listed := ReadDir(from);
      if listed.Err? { return Err(listed.error); }
      var names := listed.value;
      hide TreeOk, Children;
      ghost var done: set<string> := {};
      var i := 0;
      while i < |names|
        invariant 0 <= i <= |names|
        invariant TreeOk(nodes) && CanMove(n, from, to) && EntriesMoved(n, nodes, from, to, done)
        invariant done == set j | 0 <= j < i :: names[j]
      {
        r := MoveEntry(n, done, from, to, names[i]);
        if r.Err? { return; }
        done := done + {names[i]};
        i := i + 1;
      }
      assert done == Children(n, from);
      MoveEnds(n, nodes, from, to);
      EntriesArePartlyMoved(n, nodes, from, to, done);
      r := RemoveDir(from);
    }

    /** The body of the loop: moves one entry of `from`; `n` is the tree before the whole move. */
    method MoveEntry(ghost n: Tree, ghost done: set<string>, from: Path, to: Path, name: string)
        returns (r: Result<(), FsError>)
      requires ValidKernel(kernel) && TreeOk(nodes)
      requires NextEntry(n, nodes, from, to, done, name)
      modifies this
      ensures TreeOk(nodes)
      ensures r.Ok? ==> EntriesMoved(n, nodes, from, to, done + {name})
      ensures r.Err? ==> IsPartlyMoved(n, nodes, from, to)
      ensures NeverFaults(kernel) ==> r.Ok?
      decreases |Subtree(n, from)|, 0
    {
      hide IsMoved, IsPartlyMoved, EntriesMoved, TreeOk, Children;
      ghost var m := nodes;
      NextEntryStays(n, m, from, to, done, name);
      EntriesArePartlyMoved(n, m, from, to, done);
      var fault := Begin();
      if fault.Some? { return Err(fault.value); }
      var source, target := from + [name], to + [name];
      assert Parent'(target) == to;
      var kind := Stat(source);
      if kind.Err? { return Err(kind.error); }
      if kind.value.Dir? {
        SmallerSubtree(n, m, from, to, done, name);
        r := RenameDirectoryNoOverwrite(source, target);
      } else {
        r := RenameFile(source, target);
        if r.Ok? { LeafMoved(m, nodes, source, target); }
      }
      if r.Ok? {
        EntryMoved(n, m, nodes, from, to, done, name);
      } else if nodes != m {
        EntryPartlyMoved(n, m, nodes, from, to, done, name);
      }
    }
  }

  /** After the target directory is created, the move is under way with no entry moved. */
  lemma MoveBegins(n: Tree, from: Path, to: Path)
    requires CanMove(n, from, to)
    ensures |from| > 0
    ensures EntriesMoved(n, n[to := Dir], from, to, {}) && IsPartlyMoved(n, n[to := Dir], from, to)
    ensures Children(n[to := Dir], from) == Children(n, from)
    ensures Lookup(n[to := Dir], from) == Some(Dir)
  {
    assert |from| == 0 ==> Under(to, from);
    MoveStarts(n, from, to);
    EntriesArePartlyMoved(n, n[to := Dir], from, to, {});
    Incomparable(n, from, to, from);
    Incomparable(n, from, to, to);
    forall name ensures name in Children(n[to := Dir], from) <==> name in Children(n, from) {
      ChildrenAre(n, from, name);
      ChildrenAre(n[to := Dir], from, name);
      SameUnder(from + [name], from, name);
    }
  }

  /** Renaming a file or link moves its one-node subtree. */
  lemma LeafMoved(m: Tree, m2: Tree, from: Path, to: Path)
    requires TreeOk(m) && from in m && !m[from].Dir? && to !in m && m2 == m[to := m[from]] - {from}
    ensures IsMoved(m, m2, from, to)
  {
    forall p ensures Lookup(m2, p) == MovedAt(m, from, to, p) {
      if Under(p, from) { NothingBelowLeaf(m, from, p); }
      if Under(p, to) {
        NothingUnderFree(m, to, p);
        var q := from + p[|to|..];
        assert q[..|from|] == from;
        NothingBelowLeaf(m, from, q);
        assert p != to ==> q != from && q !in m;
        assert p == to ==> q == from;
      }
      if Under(from, to) { NothingUnderFree(m, to, from); }
    }
  }

  lemma NothingBelowLeaf(m: Tree, leaf: Path, p: Path)
    requires TreeOk(m) && leaf in m && !m[leaf].Dir? && Under(p, leaf)
    ensures p == leaf || p !in m
  {
    if p in m {
      AncestorsExist(m, p, |leaf|);
    }
  }

  function Parent'(p: Path): Path {
    if p == [] then [] else Parent(p)
  }

  lemma EmptyDirIsLeaf(n: Tree, p: Path)
    requires Children(n, p) == {}
    ensures forall q :: q in n && |q| > 0 ==> Parent(q) != p
  {
    forall q | q in n && |q| > 0 ensures Parent(q) != p {
      ChildrenAre(n, p, q[|q| - 1]);
      assert q == Parent(q) + [q[|q| - 1]];
    }
  }
}

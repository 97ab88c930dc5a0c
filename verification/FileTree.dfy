/** A file system as a map from absolute paths to nodes, and what moving a subtree means.

    Symbolic links are leaves: nothing below a link is addressed. */
module FileTree {
  import opened Wrappers

  type Path = seq<string>

  datatype Node = Dir | File(content: string) | Link(target: string)

  type Tree = map<Path, Node>

  ghost function Lookup(n: Tree, p: Path): Option<Node> {
    if p in n then Some(n[p]) else None
  }

  /** `p` is `base` or lies below it. */
  predicate Under(p: Path, base: Path) {
    |base| <= |p| && p[..|base|] == base
  }

  function Parent(p: Path): Path
    requires |p| > 0
  {
    p[..|p| - 1]
  }

  /** Everything except the root directory lies directly in a directory. */
  ghost predicate TreeOk(n: Tree) {
    && [] in n && n[[]].Dir?
    && forall p :: p in n && |p| > 0 ==> Parent(p) in n && n[Parent(p)].Dir?
  }

  lemma {:induction false} AncestorsExist(n: Tree, p: Path, k: nat)
    requires TreeOk(n) && p in n && k <= |p|
    ensures p[..k] in n && (k < |p| ==> n[p[..k]].Dir?)
    decreases |p| - k
  {
    if k == |p| {
      assert p[..k] == p;
    } else {
      AncestorsExist(n, p, k + 1);
      assert Parent(p[..k + 1]) == p[..k];
    }
  }

  function Children(n: Tree, p: Path): set<string> {
    set q | q in n && |q| == |p| + 1 && q[..|p|] == p :: q[|p|]
  }

  lemma ChildrenAre(n: Tree, p: Path, name: string)
    ensures name in Children(n, p) <==> p + [name] in n
  {
    if p + [name] in n {
      assert (p + [name])[|p|] == name;
    }
    if name in Children(n, p) {
      var q :| q in n && |q| == |p| + 1 && q[..|p|] == p && q[|p|] == name;
      assert q == p + [name];
    }
  }

  ghost function Subtree(n: Tree, base: Path): set<Path> {
    set p | p in n && Under(p, base)
  }

  /** The subtree at `from` is now exactly at `to`; nothing else changed. */
  ghost predicate IsMoved(n: Tree, m: Tree, from: Path, to: Path) {
    forall p :: Lookup(m, p) == MovedAt(n, from, to, p)
  }

  ghost function MovedAt(n: Tree, from: Path, to: Path, p: Path): Option<Node> {
    if Under(p, to) then Lookup(n, from + p[|to|..])
    else if Under(p, from) then None
    else Lookup(n, p)
  }

  /** Where a node of the source subtree may be found after a move that stopped half-way: a file
      or link in exactly one place, unchanged; a directory in at least one. `s` is the node
      before the move, `a` and `b` are what is now at its source and target paths. */
  ghost predicate SplitOk(s: Option<Node>, a: Option<Node>, b: Option<Node>) {
    match s
    case None => a == None && b == None
    case Some(Dir) => (a == s && (b == s || b == None)) || (a == None && b == s)
    case Some(_) => (a == s && b == None) || (a == None && b == s)
  }

  ghost predicate IsPartlyMoved(n: Tree, m: Tree, from: Path, to: Path) {
    && (forall p :: !Under(p, from) && !Under(p, to) ==> Lookup(m, p) == Lookup(n, p))
    && (forall rel: Path :: SplitOk(Lookup(n, from + rel), Lookup(m, from + rel), Lookup(m, to + rel)))
  }

  /** The state of the loop: the entries named in `done` are moved, the others are untouched. */
  ghost predicate EntriesMoved(n: Tree, m: Tree, from: Path, to: Path, done: set<string>) {
    forall p :: Lookup(m, p) == EntriesAt(n, from, to, done, p)
  }

  ghost function EntriesAt(n: Tree, from: Path, to: Path, done: set<string>, p: Path): Option<Node> {
    if p == to then Some(Dir)
    else if Under(p, to) then (if p[|to|] in done then Lookup(n, from + p[|to|..]) else None)
    else if Under(p, from) && |p| > |from| && p[|from|] in done then None
    else Lookup(n, p)
  }

  /** The target of a move is free, and neither path lies below the other. */
  ghost predicate CanMove(n: Tree, from: Path, to: Path) {
    && TreeOk(n)
    && from in n && n[from].Dir?
    && !Under(to, from)
    && to !in n && |to| > 0
  }

  lemma NothingUnderFree(n: Tree, to: Path, p: Path)
    requires TreeOk(n) && to !in n && Under(p, to)
    ensures p !in n
  {
    if p in n {
      AncestorsExist(n, p, |to|);
    }
  }

  lemma Comparable(p: Path, a: Path, b: Path)
    requires Under(p, a) && Under(p, b)
    ensures Under(a, b) || Under(b, a)
  {
    assert |a| <= |b| ==> b[..|a|] == p[..|a|];
    assert |b| <= |a| ==> a[..|b|] == p[..|b|];
  }

  lemma Incomparable(n: Tree, from: Path, to: Path, p: Path)
    requires CanMove(n, from, to)
    ensures !(Under(p, from) && Under(p, to))
  {
    if Under(p, from) && Under(p, to) {
      Comparable(p, from, to);
      NothingUnderFree(n, to, from);
    }
  }

  lemma MoveStarts(n: Tree, from: Path, to: Path)
    requires CanMove(n, from, to)
    ensures EntriesMoved(n, n[to := Dir], from, to, {})
  {
    forall p | Under(p, to) ensures p !in n { NothingUnderFree(n, to, p); }
  }

  lemma BelowIsBelowAnEntry(n: Tree, from: Path, p: Path)
    requires TreeOk(n) && p in n && Under(p, from) && |p| > |from|
    ensures p[|from|] in Children(n, from)
  {
    AncestorsExist(n, p, |from| + 1);
    assert p[..|from| + 1] == from + [p[|from|]];
    ChildrenAre(n, from, p[|from|]);
  }

  lemma MoveEndsAt(n: Tree, m: Tree, from: Path, to: Path, p: Path)
    requires CanMove(n, from, to) && EntriesMoved(n, m, from, to, Children(n, from))
    ensures Lookup(m - {from}, p) == MovedAt(n, from, to, p)
  {
    hide TreeOk, Children;
    assert Lookup(m, p) == EntriesAt(n, from, to, Children(n, from), p);
    Incomparable(n, from, to, p);
    if Under(p, to) {
      var q := from + p[|to|..];
      if p == to {
        assert q == from;
      } else if q in n {
        BelowIsBelowAnEntry(n, from, q);
      }
    } else if Under(p, from) && p in n {
      if |p| > |from| {
        BelowIsBelowAnEntry(n, from, p);
      } else {
        assert p == from;
      }
    }
  }

  lemma MoveEnds(n: Tree, m: Tree, from: Path, to: Path)
    requires CanMove(n, from, to) && EntriesMoved(n, m, from, to, Children(n, from))
    ensures IsMoved(n, m - {from}, from, to)
    ensures Children(m, from) == {} && Lookup(m, from) == Some(Dir)
  {
    assert Lookup(m, from) == Some(Dir) by {
      Incomparable(n, from, to, from);
      assert Lookup(m, from) == EntriesAt(n, from, to, Children(n, from), from);
    }
    forall p ensures Lookup(m - {from}, p) == MovedAt(n, from, to, p) {
      MoveEndsAt(n, m, from, to, p);
    }
    forall name ensures name !in Children(m, from) {
      var q := from + [name];
      ChildrenAre(m, from, name);
      ChildrenAre(n, from, name);
      Incomparable(n, from, to, q);
      assert Lookup(m, q) == EntriesAt(n, from, to, Children(n, from), q);
    }
  }

  // ---- One entry of the loop -----------------------------------------------------------------

  /** `name` is an entry of `from` that the loop has not reached. */
  ghost predicate NextEntry(n: Tree, m: Tree, from: Path, to: Path, done: set<string>, name: string) {
    && CanMove(n, from, to) && EntriesMoved(n, m, from, to, done)
    && name in Children(n, from) && name !in done
  }

  lemma NextEntryStays(n: Tree, m: Tree, from: Path, to: Path, done: set<string>, name: string)
    requires NextEntry(n, m, from, to, done, name)
    ensures from + [name] in n && from + [name] in m && m[from + [name]] == n[from + [name]]
    ensures to + [name] !in m && to in m && m[to].Dir? && from in m && m[from].Dir?
    ensures !Under(to + [name], from + [name])
  {
    ChildrenAre(n, from, name);
    var p := from + [name];
    Incomparable(n, from, to, p);
    Incomparable(n, from, to, from);
    assert Lookup(m, p) == Lookup(n, p);
    assert Lookup(m, from) == Lookup(n, from);
    assert Lookup(m, to) == Some(Dir);
    assert Lookup(m, to + [name]) == None;
    SameUnder(to + [name], from, name);
    assert |from| <= |to| ==> to[..|from|] == (to + [name])[..|from|];
    assert |from| > |to| ==> |from| == |to + [name]| || !Under(to + [name], from);
  }

  lemma SameUnder(p: Path, base: Path, name: string)
    ensures Under(p, base + [name]) <==> Under(p, base) && |p| > |base| && p[|base|] == name
  {
    if Under(p, base + [name]) {
      assert p[|base|] == p[..|base| + 1][|base|];
      assert p[..|base|] == p[..|base| + 1][..|base|];
    }
    if Under(p, base) && |p| > |base| && p[|base|] == name {
      assert p[..|base| + 1] == p[..|base|] + [p[|base|]];
    }
  }

  lemma EntryMovedAt(n: Tree, m: Tree, m2: Tree, from: Path, to: Path, done: set<string>, name: string, p: Path)
    requires NextEntry(n, m, from, to, done, name)
    requires IsMoved(m, m2, from + [name], to + [name])
    ensures Lookup(m2, p) == EntriesAt(n, from, to, done + {name}, p)
  {
    hide TreeOk, Children, CanMove;
    assert Lookup(m2, p) == MovedAt(m, from + [name], to + [name], p);
    SameUnder(p, to, name);
    SameUnder(p, from, name);
    Incomparable(n, from, to, p);
    if Under(p, to + [name]) {
      MovedEntryAt(n, m, from, to, done, name, p);
    } else if !Under(p, from + [name]) {
      assert Lookup(m, p) == EntriesAt(n, from, to, done, p);
    }
  }

  lemma MovedEntryAt(n: Tree, m: Tree, from: Path, to: Path, done: set<string>, name: string, p: Path)
    requires NextEntry(n, m, from, to, done, name)
    requires Under(p, to + [name])
    ensures Lookup(m, from + [name] + p[|to| + 1..]) == EntriesAt(n, from, to, done + {name}, p)
  {
    var q := from + [name] + p[|to| + 1..];
    hide TreeOk, Children, CanMove, EntriesMoved;
    SameUnder(p, to, name);
    assert q == from + p[|to|..] && p != to;
    WaitingEntryAt(n, m, from, to, done, name, p[|to| + 1..]);
  }

  lemma WaitingEntryAt(n: Tree, m: Tree, from: Path, to: Path, done: set<string>, name: string, rest: Path)
    requires NextEntry(n, m, from, to, done, name)
    ensures Lookup(m, from + [name] + rest) == Lookup(n, from + [name] + rest)
  {
    var q := from + [name] + rest;
    assert Lookup(m, q) == EntriesAt(n, from, to, done, q);
    hide TreeOk, Children, CanMove, EntriesMoved;
    Incomparable(n, from, to, q);
    assert Under(q, from) && q[|from|] == name;
    assert Under(to, to);
  }

  /** Moving the entry's own subtree is one step of the loop. */
  lemma EntryMoved(n: Tree, m: Tree, m2: Tree, from: Path, to: Path, done: set<string>, name: string)
    requires NextEntry(n, m, from, to, done, name)
    requires IsMoved(m, m2, from + [name], to + [name])
    ensures EntriesMoved(n, m2, from, to, done + {name})
  {
    forall p ensures Lookup(m2, p) == EntriesAt(n, from, to, done + {name}, p) {
      EntryMovedAt(n, m, m2, from, to, done, name, p);
    }
  }

  lemma EntriesArePartlyMoved(n: Tree, m: Tree, from: Path, to: Path, done: set<string>)
    requires CanMove(n, from, to) && EntriesMoved(n, m, from, to, done)
    ensures IsPartlyMoved(n, m, from, to)
  {
    forall rel: Path ensures SplitOk(Lookup(n, from + rel), Lookup(m, from + rel), Lookup(m, to + rel)) {
      Incomparable(n, from, to, from + rel);
      Incomparable(n, from, to, to + rel);
      assert rel == [] ==> from + rel == from && to + rel == to;
      assert (to + rel)[|to|..] == rel;
    }
  }

  lemma EntryPartlyMovedAt(n: Tree, m: Tree, m2: Tree, from: Path, to: Path, done: set<string>, name: string, rel: Path)
    requires NextEntry(n, m, from, to, done, name)
    requires IsPartlyMoved(n, m, from, to)
    requires IsPartlyMoved(m, m2, from + [name], to + [name])
    ensures SplitOk(Lookup(n, from + rel), Lookup(m2, from + rel), Lookup(m2, to + rel))
  {
    hide TreeOk, Children, SplitOk;
    var p, q := from + rel, to + rel;
    SameUnder(p, from, name);
    SameUnder(q, to, name);
    SameUnder(p, to, name);
    SameUnder(q, from, name);
    Incomparable(n, from, to, p);
    Incomparable(n, from, to, q);
    if rel != [] && rel[0] == name {
      var rest := rel[1..];
      assert p == from + [name] + rest && q == to + [name] + rest;
      assert Lookup(m, p) == EntriesAt(n, from, to, done, p) == Lookup(n, p);
    } else {
      assert !Under(p, from + [name]) && !Under(q, to + [name]);
    }
  }

  lemma EntryPartlyMoved(n: Tree, m: Tree, m2: Tree, from: Path, to: Path, done: set<string>, name: string)
    requires NextEntry(n, m, from, to, done, name)
    requires IsPartlyMoved(m, m2, from + [name], to + [name])
    ensures IsPartlyMoved(n, m2, from, to)
  {
    EntriesArePartlyMoved(n, m, from, to, done);
    forall p | !Under(p, from) && !Under(p, to) ensures Lookup(m2, p) == Lookup(n, p) {
      SameUnder(p, from, name);
      SameUnder(p, to, name);
    }
    forall rel: Path ensures SplitOk(Lookup(n, from + rel), Lookup(m2, from + rel), Lookup(m2, to + rel)) {
      EntryPartlyMovedAt(n, m, m2, from, to, done, name, rel);
    }
  }
}

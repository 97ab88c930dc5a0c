/** Consequences of a directory move: files are conserved, and moving back undoes it. */
module FileMoveProofs {
  import opened Wrappers
  import opened FileTree

  /** Moving the subtree back restores the original tree exactly. */
  lemma {:induction false} MoveBackRestores(n: Tree, m: Tree, k: Tree, from: Path, to: Path)
    requires CanMove(n, from, to)
    requires IsMoved(n, m, from, to) && IsMoved(m, k, to, from)
    ensures k == n
  {
    forall p ensures Lookup(k, p) == Lookup(n, p) {
      Incomparable(n, from, to, p);
      assert Lookup(k, p) == MovedAt(m, to, from, p);
      assert Lookup(m, p) == MovedAt(n, from, to, p);
      if Under(p, from) {
        var q := to + p[|from|..];
        assert q[..|to|] == to && q[|to|..] == p[|from|..];
        assert Lookup(m, q) == MovedAt(n, from, to, q);
        assert from + p[|from|..] == p;
      } else if Under(p, to) {
        NothingUnderFree(n, to, p);
      }
    }
    SameLookups(k, n);
  }

  lemma SameLookups(k: Tree, n: Tree)
    requires forall p :: Lookup(k, p) == Lookup(n, p)
    ensures k == n
  {
    assert forall p :: Lookup(k, p).Some? <==> p in k;
    assert forall p :: Lookup(n, p).Some? <==> p in n;
    forall p ensures p in k <==> p in n { assert Lookup(k, p) == Lookup(n, p); }
    forall p | p in k ensures k[p] == n[p] { assert Lookup(k, p) == Lookup(n, p); }
  }

  // ---- Conservation ----------------------------------------------------------------------

  /** The paths of all files and links. */
  ghost function Leaves(n: Tree): set<Path> {
    set p | p in n && !n[p].Dir?
  }

  /** Where a leaf of the tree before the move is found afterwards. */
  ghost function NewPath(m: Tree, from: Path, to: Path, p: Path): Path {
    if Under(p, from) && p !in m then to + p[|from|..] else p
  }

  lemma LeafFound(n: Tree, m: Tree, from: Path, to: Path, p: Path)
    requires CanMove(n, from, to) && IsPartlyMoved(n, m, from, to) && p in Leaves(n)
    ensures var q := NewPath(m, from, to, p); q in m && m[q] == n[p]
  {
    Incomparable(n, from, to, p);
    if Under(p, from) {
      var rel := p[|from|..];
      assert p == from + rel;
      assert SplitOk(Lookup(n, p), Lookup(m, p), Lookup(m, to + rel));
    } else {
      if Under(p, to) { NothingUnderFree(n, to, p); }
      assert Lookup(m, p) == Lookup(n, p);
    }
  }

  lemma LeafComesFrom(n: Tree, m: Tree, from: Path, to: Path, q: Path) returns (p: Path)
    requires CanMove(n, from, to) && IsPartlyMoved(n, m, from, to) && q in Leaves(m)
    ensures p in Leaves(n) && NewPath(m, from, to, p) == q
  {
    Incomparable(n, from, to, q);
    if Under(q, to) {
      var rel := q[|to|..];
      p := from + rel;
      assert q == to + rel && p[|from|..] == rel && p[..|from|] == from;
      assert SplitOk(Lookup(n, p), Lookup(m, p), Lookup(m, q));
    } else {
      p := q;
      if Under(q, from) {
        var rel := q[|from|..];
        assert q == from + rel;
        assert SplitOk(Lookup(n, q), Lookup(m, q), Lookup(m, to + rel));
      } else {
        assert Lookup(m, q) == Lookup(n, q);
      }
    }
  }

  lemma NewPathInjective(n: Tree, m: Tree, from: Path, to: Path, p: Path, q: Path)
    requires CanMove(n, from, to) && IsPartlyMoved(n, m, from, to)
    requires p in Leaves(n) && q in Leaves(n) && NewPath(m, from, to, p) == NewPath(m, from, to, q)
    ensures p == q
  {
    NothingUnderFreeAll(n, to);
    hide CanMove, IsPartlyMoved;
    var a, b := p[if Under(p, from) then |from| else 0..], q[if Under(q, from) then |from| else 0..];
    assert Under(p, from) ==> p == from + a && Under(to + a, to);
    assert Under(q, from) ==> q == from + b && Under(to + b, to);
    assert (to + a)[|to|..] == a && (to + b)[|to|..] == b;
  }

  lemma NothingUnderFreeAll(n: Tree, to: Path)
    requires TreeOk(n) && to !in n
    ensures forall p :: p in n ==> !Under(p, to)
  {
    forall p | Under(p, to) ensures p !in n { NothingUnderFree(n, to, p); }
  }

  lemma {:induction false} ImageSize(s: set<Path>, t: set<Path>, f: Path -> Path)
    requires forall x :: x in s ==> f(x) in t
    requires forall x, y :: x in s && y in s && f(x) == f(y) ==> x == y
    requires forall y :: y in t ==> exists x :: x in s && f(x) == y
    ensures |s| == |t|
    decreases |s|
  {
    if s == {} {
      assert t == {};
    } else {
      var x :| x in s;
      ImageSize(s - {x}, t - {f(x)}, f);
    }
  }

  /** However a directory move ends, no file or link is lost, duplicated or invented, and each
      keeps its content. */
  lemma {:induction false} FilesConserved(n: Tree, m: Tree, from: Path, to: Path)
    requires CanMove(n, from, to) && IsPartlyMoved(n, m, from, to)
    ensures |Leaves(m)| == |Leaves(n)|
    ensures forall p :: p in Leaves(n) ==>
              var q := NewPath(m, from, to, p); q in Leaves(m) && m[q] == n[p]
  {
    forall p | p in Leaves(n) ensures NewPath(m, from, to, p) in Leaves(m) && m[NewPath(m, from, to, p)] == n[p] {
      LeafFound(n, m, from, to, p);
    }
    forall p, q | p in Leaves(n) && q in Leaves(n) && NewPath(m, from, to, p) == NewPath(m, from, to, q)
        ensures p == q {
      NewPathInjective(n, m, from, to, p, q);
    }
    forall q | q in Leaves(m) ensures exists p :: p in Leaves(n) && NewPath(m, from, to, p) == q {
      var p := LeafComesFrom(n, m, from, to, q);
    }
    ImageSize(Leaves(n), Leaves(m), p => NewPath(m, from, to, p));
  }

  /** A completed move is a partial move in which nothing is left behind. */
  lemma {:induction false} MovedIsPartlyMoved(n: Tree, m: Tree, from: Path, to: Path)
    requires CanMove(n, from, to) && IsMoved(n, m, from, to)
    ensures IsPartlyMoved(n, m, from, to)
    ensures forall p :: Under(p, from) ==> p !in m
  {
    forall p | Under(p, from) ensures p !in m {
      Incomparable(n, from, to, p);
      assert Lookup(m, p) == MovedAt(n, from, to, p);
    }
    forall p | !Under(p, from) && !Under(p, to) ensures Lookup(m, p) == Lookup(n, p) {
      assert Lookup(m, p) == MovedAt(n, from, to, p);
    }
    forall rel: Path ensures SplitOk(Lookup(n, from + rel), Lookup(m, from + rel), Lookup(m, to + rel)) {
      assert (from + rel)[..|from|] == from && (to + rel)[..|to|] == to && (to + rel)[|to|..] == rel;
      assert Lookup(m, to + rel) == MovedAt(n, from, to, to + rel);
    }
  }
}

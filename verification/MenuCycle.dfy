/** Cycles of the active-parent relation, and why a round that places nothing proves one. */
module MenuCycle {
  import opened MenuModel

  predicate HasActiveParent(a: Registration, active: set<string>) {
    a.spec.parent.Some? && a.spec.parent.value in active
  }

  ghost predicate AllParentsActive(cs: seq<Registration>) {
    forall a :: a in cs ==> a.spec.parent.None? || HasActiveParent(a, Ids(cs))
  }

  /** The contribution registered under an id. */
  ghost function Registered(cs: seq<Registration>, id: string): (a: Registration)
    requires id in Ids(cs)
    ensures a in cs && a.spec.id == id
  {
    var a :| a in cs && a.spec.id == id;
    a
  }

  lemma RegisteredIs(cs: seq<Registration>, a: Registration)
    requires DistinctIds(cs) && a in cs
    ensures a.spec.id in Ids(cs) && Registered(cs, a.spec.id) == a
  {
  }

  /** The parent of every contribution whose parent is itself active. */
  ghost function ActiveParents(cs: seq<Registration>): map<string, string> {
    map id | id in Ids(cs) && HasActiveParent(Registered(cs, id), Ids(cs)) ::
      Registered(cs, id).spec.parent.value
  }

  ghost function Next(p: seq<string>, i: nat): string
    requires i < |p|
  {
    if i + 1 < |p| then p[i + 1] else p[0]
  }

  ghost predicate IsCycle(up: map<string, string>, p: seq<string>) {
    |p| > 0 && forall i :: 0 <= i < |p| ==> p[i] in up && up[p[i]] == Next(p, i)
  }

  ghost predicate HasCycle(up: map<string, string>) {
    exists p :: IsCycle(up, p)
  }

  // ---- A parents-first order excludes cycles ---------------------------------------------

  /** `rank` says when each id was placed; a parent is always placed before its children. */
  ghost predicate ParentsFirst(up: map<string, string>, rank: map<string, nat>) {
    forall x :: x in rank && x in up ==> up[x] in rank && rank[up[x]] < rank[x]
  }

  lemma {:induction false} CycleDescends(up: map<string, string>, rank: map<string, nat>, p: seq<string>, i: nat)
    requires ParentsFirst(up, rank) && up.Keys <= rank.Keys
    requires IsCycle(up, p) && i < |p|
    ensures p[0] in rank && p[i] in rank && rank[p[i]] + i <= rank[p[0]]
    decreases i
  {
    if i == 0 {
    } else {
      CycleDescends(up, rank, p, i - 1);
      assert up[p[i - 1]] == Next(p, i - 1) == p[i];
    }
  }

  /** If every id with an active parent can be placed after that parent, there is no cycle. */
  lemma {:induction false} RankExcludesCycle(up: map<string, string>, rank: map<string, nat>)
    requires ParentsFirst(up, rank) && up.Keys <= rank.Keys
    ensures !HasCycle(up)
  {
    forall p | IsCycle(up, p) ensures false {
      CycleDescends(up, rank, p, |p| - 1);
    }
  }

  // ---- A closed set of stuck ids contains a cycle ------------------------------------------

  ghost function Walk(up: map<string, string>, x: string, n: nat): string
    requires Closed(up, x)
    ensures Closed(up, Walk(up, x, n))
    decreases n
  {
    if n == 0 then x else up[Walk(up, x, n - 1)]
  }

  /** `up` never leaves its own domain. */
  ghost predicate Closed(up: map<string, string>, x: string) {
    x in up && forall y :: y in up ==> up[y] in up
  }

  lemma {:induction false} Pigeonhole(s: seq<string>, holes: set<string>)
    requires (forall x :: x in s ==> x in holes) && |s| > |holes|
    ensures exists i, j :: 0 <= i < j < |s| && s[i] == s[j]
    decreases |s|
  {
    var last := s[|s| - 1];
    var front := s[..|s| - 1];
    if last in front {
      var i :| 0 <= i < |front| && front[i] == last;
      assert s[i] == s[|s| - 1];
    } else {
      Pigeonhole(front, holes - {last});
      var i, j :| 0 <= i < j < |front| && front[i] == front[j];
      assert s[i] == s[j];
    }
  }

  lemma {:induction false} ClosedHasCycle(up: map<string, string>, x: string)
    requires Closed(up, x)
    ensures HasCycle(up)
  {
    var walk := seq(|up.Keys| + 1, n requires n >= 0 => Walk(up, x, n));
    assert forall y :: y in walk ==> y in up.Keys;
    Pigeonhole(walk, up.Keys);
    var i, j :| 0 <= i < j < |walk| && walk[i] == walk[j];
    var p := walk[i..j];
    forall k | 0 <= k < |p| ensures p[k] in up && up[p[k]] == Next(p, k) {
      assert p[k] == walk[i + k] && walk[i + k + 1] == up[walk[i + k]];
    }
    assert IsCycle(up, p);
  }

  /** A cycle of part of the relation is a cycle of all of it. */
  lemma CycleInLarger(part: map<string, string>, up: map<string, string>)
    requires HasCycle(part)
    requires forall x :: x in part ==> x in up && up[x] == part[x]
    ensures HasCycle(up)
  {
    var p :| IsCycle(part, p);
    assert IsCycle(up, p);
  }

  /** Every contribution of `stuck` has its parent in `stuck` too. */
  ghost predicate AllWait(stuck: seq<Registration>) {
    forall a {:trigger HasActiveParent(a, Ids(stuck))} :: a in stuck ==> HasActiveParent(a, Ids(stuck))
  }

  lemma {:induction false} StuckIsClosed(stuck: seq<Registration>, x: string)
    requires AllWait(stuck) && x in Ids(stuck)
    ensures Closed(ActiveParents(stuck), x)
  {
    assert HasActiveParent(Registered(stuck, x), Ids(stuck));
    forall y | y in ActiveParents(stuck) ensures ActiveParents(stuck)[y] in ActiveParents(stuck) {
      var z := Registered(stuck, y).spec.parent.value;
      assert HasActiveParent(Registered(stuck, z), Ids(stuck));
    }
  }

  /** Contributions that all wait for one another prove a cycle. */
  lemma {:induction false} StuckProvesCycle(cs: seq<Registration>, stuck: seq<Registration>)
    requires DistinctIds(cs) && stuck != [] && AllWait(stuck)
    requires forall a :: a in stuck ==> a in cs
    ensures HasCycle(ActiveParents(cs))
  {
    var x := stuck[0].spec.id;
    StuckIsClosed(stuck, x);
    PartOfRelation(cs, stuck);
    hide ActiveParents, Closed, HasCycle, DistinctIds, AllWait;
    ClosedHasCycle(ActiveParents(stuck), x);
    CycleInLarger(ActiveParents(stuck), ActiveParents(cs));
  }

  lemma PartOfRelation(cs: seq<Registration>, part: seq<Registration>)
    requires DistinctIds(cs) && forall a :: a in part ==> a in cs
    ensures forall x :: x in ActiveParents(part) ==>
              x in ActiveParents(cs) && ActiveParents(cs)[x] == ActiveParents(part)[x]
  {
    assert Ids(part) <= Ids(cs);
    forall x | x in ActiveParents(part)
      ensures x in ActiveParents(cs) && ActiveParents(cs)[x] == ActiveParents(part)[x]
    {
      RegisteredIs(cs, Registered(part, x));
      hide DistinctIds;
    }
  }
}

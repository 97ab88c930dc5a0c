/** When a run can be foreseen to succeed: no two contributions contend for one row. */
module MenuContest {
  import opened Wrappers
  import opened MenuModel
  import opened MenuCycle
  import opened MenuProofs
  import opened MenuSweep
  import opened MenuTheorems
  import opened MenuStability

  // ---- What can be read off before the run --------------------------------------------------------

  /** A row with parent `above` may come to lie where a contribution with parent `parent` looks. */
  ghost predicate MayHold(t: Tables, cs: seq<Registration>, parent: Option<string>, above: Option<nat>) {
    match parent
    case None => above.None?
    case Some(p) =>
      && above.Some?
      && if p in t.mapped then t.mapped[p].item == above.value
         else above.value in t.items && p in Ids(cs) && Claims(Registered(cs, p), t.items[above.value])
  }

  /** The contribution would look at this row first, and the row is taken already. */
  ghost predicate Blocks(t: Tables, cs: seq<Registration>, a: Registration, id: nat)
    requires id in t.items
  {
    && Claims(a, t.items[id])
    && if Routed(a.spec) then FirstWithRoute(t.items, t.items[id].route, id)
       else MayHold(t, cs, a.spec.parent, t.items[id].parent)
  }

  ghost predicate Blocked(t: Tables, cs: seq<Registration>, a: Registration)
    requires forall c :: c in t.mapped ==> t.mapped[c].item in t.items
  {
    exists c :: c in t.mapped && Blocks(t, cs, a, t.mapped[c].item)
  }

  /** Both contributions would be content with one row: the row made for `b`, or an old one. */
  ghost predicate Contend(t: Tables, a: Registration, b: Registration) {
    && (!Routed(a.spec) ==> a.spec.parent == b.spec.parent)
    && (|| Claims(a, NewItem(b.spec, None))
        || exists id :: id in t.items && Claims(a, t.items[id]) && Claims(b, t.items[id]))
  }

  /** No unmapped contribution finds its row taken, by the mapping or by another unmapped one. */
  ghost predicate Uncontested(t: Tables, cs: seq<Registration>)
    requires forall c :: c in t.mapped ==> t.mapped[c].item in t.items
  {
    forall a :: a in cs && a.spec.id !in t.mapped ==>
      && !Blocked(t, cs, a)
      && forall b :: b in cs && b.spec.id !in t.mapped && b.spec.id != a.spec.id ==> !Contend(t, a, b)
  }

  // ---- An adoptable row is never taken -----------------------------------------------------------

  lemma AdoptableIsClaimed(row: MenuItem, a: Registration, parent: Option<nat>)
    requires Adoptable(row, a.spec, parent)
    ensures Claims(a, row) && (!Routed(a.spec) ==> row.parent == parent)
  {
  }

  /** A row mapped before the run is as it was. */
  lemma OldMappedRow(t0: Tables, t: Tables, cs: seq<Registration>, projected: map<string, nat>, c: string)
    requires TablesOk(t0) && TablesOk(t) && PlacedSoFar(t0, t, cs, projected) && c in t0.mapped
    ensures var id := t0.mapped[c].item;
      && c in t.mapped && t.mapped[c].item == id
      && id in t0.items && id in t.items && t.items[id] == t0.items[id]
  {
    hide FreshRows;
    var id := t0.mapped[c].item;
    assert t.mapped[c] == t0.mapped[c];
    assert !NewlyMapped(t0, t, id);
  }

  /** The row of a contribution first mapped in this run, if it is an old one, was claimed by it. */
  lemma FreshRowWasClaimed(t0: Tables, t: Tables, cs: seq<Registration>, projected: map<string, nat>, b: Registration)
    requires OldRowsKept(t0, t) && FreshRow(t0, t, cs, projected, b) && projected[b.spec.id] in t0.items
    ensures Claims(b, t0.items[projected[b.spec.id]])
  {
  }

  lemma NotTakenBefore(t0: Tables, t: Tables, cs: seq<Registration>, projected: map<string, nat>, a: Registration,
                       parent: Option<nat>, c: string)
    requires TablesOk(t0) && TablesOk(t) && PlacedSoFar(t0, t, cs, projected)
    requires ParentFits(cs, projected, a, parent) && (a.spec.parent.None? || HasActiveParent(a, Ids(cs)))
    requires c in t0.mapped && c in t.mapped && t.mapped[c].item in t.items
    requires Adoptable(t.items[t.mapped[c].item], a.spec, parent)
    requires Routed(a.spec) ==> FirstWithRoute(t.items, t.items[t.mapped[c].item].route, t.mapped[c].item)
    ensures Blocked(t0, cs, a)
  {
    OldMappedRow(t0, t, cs, projected, c);
    var id := t0.mapped[c].item;
    AdoptableIsClaimed(t.items[id], a, parent);
    if !Routed(a.spec) && a.spec.parent.Some? {
      ParentMayHold(t0, t, cs, projected, a, id);
    }
    hide TablesOk, FreshRows, MappingsKept, Adoptable;
    assert Blocks(t0, cs, a, id);
  }

  lemma ParentMayHold(t0: Tables, t: Tables, cs: seq<Registration>, projected: map<string, nat>, a: Registration,
                      id: nat)
    requires TablesOk(t0) && PlacedSoFar(t0, t, cs, projected)
    requires HasActiveParent(a, Ids(cs)) && a.spec.parent.value in projected
    requires id in t0.items && t0.items[id].parent == Some(projected[a.spec.parent.value])
    ensures MayHold(t0, cs, a.spec.parent, t0.items[id].parent)
  {
    var p := a.spec.parent.value;
    assert t0.items[id].parent.value in t0.items;
    if p in t0.mapped {
      assert t.mapped[p] == t0.mapped[p];
    } else {
      assert FreshRow(t0, t, cs, projected, Registered(cs, p));
      FreshRowWasClaimed(t0, t, cs, projected, Registered(cs, p));
    }
  }

  lemma NotTakenByFresh(t0: Tables, t: Tables, cs: seq<Registration>, projected: map<string, nat>, a: Registration,
                        parent: Option<nat>, b: Registration)
    requires TablesOk(t) && PlacedSoFar(t0, t, cs, projected)
    requires ParentFits(cs, projected, a, parent) && (a.spec.parent.None? || HasActiveParent(a, Ids(cs)))
    requires b.spec.parent.None? || HasActiveParent(b, Ids(cs))
    requires FreshRow(t0, t, cs, projected, b)
    requires Adoptable(t.items[projected[b.spec.id]], a.spec, parent)
    ensures Contend(t0, a, b)
  {
    var id := projected[b.spec.id];
    AdoptableIsClaimed(t.items[id], a, parent);
    if !Routed(a.spec) { SameParent(t, projected, cs, a, b, parent, t.items[id].parent); }
    if id in t0.items { FreshRowWasClaimed(t0, t, cs, projected, b); }
    hide TablesOk, FreshRows, MappingsKept, Adoptable;
  }

  lemma SameParent(t: Tables, projected: map<string, nat>, cs: seq<Registration>, a: Registration, b: Registration,
                   parent: Option<nat>, above: Option<nat>)
    requires TablesOk(t) && (forall c :: c in projected ==> c in t.mapped && t.mapped[c].item == projected[c])
    requires a.spec.parent.None? || HasActiveParent(a, Ids(cs))
    requires b.spec.parent.None? || HasActiveParent(b, Ids(cs))
    requires ParentFits(cs, projected, a, parent) && ParentFits(cs, projected, b, above) && above == parent
    ensures a.spec.parent == b.spec.parent
  {
  }

  // ---- No placement fails --------------------------------------------------------------------------

  /** Everything that lets a run be foreseen: no step fails, every parent is active, no row is contested. */
  ghost predicate Foreseen(e: Engine, t: Tables, cs: seq<Registration>) {
    && NeverFails(e) && TablesOk(t) && DistinctIds(cs) && AllParentsActive(cs) && Uncontested(t, cs)
  }

  lemma AdoptableIsFree(e: Engine, t0: Tables, t: Tables, cs: seq<Registration>, projected: map<string, nat>,
                        a: Registration, parent: Option<nat>, id: nat)
    requires Foreseen(e, t0, cs) && TablesOk(t) && PlacedSoFar(t0, t, cs, projected)
    requires a in cs && a.spec.id !in projected && a.spec.id !in t.mapped && ParentFits(cs, projected, a, parent)
    requires id in t.items && Adoptable(t.items[id], a.spec, parent)
    requires forall other :: other in t.items && Adoptable(t.items[other], a.spec, parent) ==> id <= other
    ensures !ItemTaken(t.mapped, id)
  {
    assert Routed(a.spec) ==> FirstWithRoute(t.items, t.items[id].route, id);
    forall c | c in t.mapped && t.mapped[c].item == id ensures false {
      if c in t0.mapped {
        NotTakenBefore(t0, t, cs, projected, a, parent, c);
      } else {
        var b := Registered(cs, c);
        assert FreshRow(t0, t, cs, projected, b);
        NotTakenByFresh(t0, t, cs, projected, a, parent, b);
      }
    }
  }

  lemma UpsertSucceeds(e: Engine, t0: Tables, t: Tables, cs: seq<Registration>, projected: map<string, nat>,
                       a: Registration, parent: Option<nat>)
    requires Foreseen(e, t0, cs) && TablesOk(t) && PlacedSoFar(t0, t, cs, projected)
    requires a in cs && a.spec.id !in projected && ParentFits(cs, projected, a, parent)
    requires ReferenceOk(t.items, parent)
    ensures Upsert(e, t, a, parent).result.Ok?
  {
    LegacyRowIsFirst(t.items, a.spec, parent);
    var row := LegacyRow(t.items, a.spec, parent);
    if a.spec.id !in t.mapped && row.Some? {
      AdoptableIsFree(e, t0, t, cs, projected, a, parent, row.value);
    }
    hide PlacedSoFar, Uncontested, LegacyRow, Adoptable, TablesOk;
    FreeRowIsMapped(e, t, a, parent);
  }

  lemma FreeRowIsMapped(e: Engine, t: Tables, a: Registration, parent: Option<nat>)
    requires NeverFails(e) && TablesOk(t) && ReferenceOk(t.items, parent)
    requires var row := LegacyRow(t.items, a.spec, parent);
      a.spec.id !in t.mapped && row.Some? ==> row.value in t.items && !ItemTaken(t.mapped, row.value)
    ensures Upsert(e, t, a, parent).result.Ok?
  {
    hide LegacyRow;
    assert !ItemTaken(t.mapped, t.lastId + 1);
  }

  lemma PlaceSucceeds(e: Engine, t0: Tables, t: Tables, cs: seq<Registration>, projected: map<string, nat>,
                      rank: map<string, nat>, a: Registration)
    requires Foreseen(e, t0, cs) && RunInv(t0, t, cs, projected, rank)
    requires a in cs && a.spec.id !in projected
    ensures Place(e, t, Ids(cs), projected, a).result.Ok?
  {
    ProjectedRowsExist(t0, t, cs, projected, rank);
    assert a.spec.parent.None? || HasActiveParent(a, Ids(cs));
    hide PlacedSoFar, Uncontested, TablesOk, RankOk, SystemParentsOnly, Upsert, DistinctIds, NeverFails;
    match a.spec.parent
    case None => UpsertSucceeds(e, t0, t, cs, projected, a, None);
    case Some(p) =>
      if p in projected { UpsertSucceeds(e, t0, t, cs, projected, a, Some(projected[p])); }
  }

  lemma {:induction false} RoundSucceeds(e: Engine, t0: Tables, t: Tables, cs: seq<Registration>, w: Worklist,
                                         todo: seq<Registration>, rank: map<string, nat>)
    requires Foreseen(e, t0, cs)
    requires RunInv(t0, t, cs, w.projected, rank) && Remaining(cs, w.projected, w.deferred + todo)
    ensures Round(e, t, Ids(cs), w, todo).result.Ok?
    decreases |todo|
  {
    hide RunInv, Remaining, Place, Foreseen;
    if todo == [] {
    } else {
      var s := Place(e, t, Ids(cs), w.projected, todo[0]);
      FirstRemaining(cs, w.projected, w.deferred, todo);
      PlaceSucceeds(e, t0, t, cs, w.projected, rank, todo[0]);
      match s.result
      case Ok(Deferred) =>
        PlaceDefers(e, t0, t, cs, w.projected, rank, todo[0]);
        assert w.deferred + [todo[0]] + todo[1..] == w.deferred + todo;
        RoundSucceeds(e, t0, s.after, cs, w.(deferred := w.deferred + [todo[0]]), todo[1..], rank);
      case Ok(Placed(item)) =>
        RemainingAfterPlacing(cs, w.projected, item, w.deferred, todo);
        ForeseenIds(e, t0, cs);
        PlaceKeepsRunInv(e, t0, t, cs, w.projected, rank, todo[0]);
        RoundSucceeds(e, t0, s.after, cs, w.(projected := w.projected[todo[0].spec.id := item]), todo[1..],
                      rank[todo[0].spec.id := |rank|]);
    }
  }

  lemma ForeseenIds(e: Engine, t: Tables, cs: seq<Registration>)
    requires Foreseen(e, t, cs)
    ensures DistinctIds(cs)
  {
  }

  lemma PlaceDefers(e: Engine, t0: Tables, t: Tables, cs: seq<Registration>, projected: map<string, nat>,
                    rank: map<string, nat>, a: Registration)
    requires RunInv(t0, t, cs, projected, rank) && Place(e, t, Ids(cs), projected, a).result == Ok(Deferred)
    ensures Place(e, t, Ids(cs), projected, a).after == t
  {
    var _ := PlaceEffect(e, t, cs, projected, a);
  }

  /** The worklist can only stop because a round placed nothing. */
  lemma {:induction false} OnlyCyclesStop(e: Engine, t0: Tables, t: Tables, cs: seq<Registration>,
                                          projected: map<string, nat>, pending: seq<Registration>,
                                          rank: map<string, nat>)
    requires Foreseen(e, t0, cs)
    requires RunInv(t0, t, cs, projected, rank) && Remaining(cs, projected, pending)
    ensures var r := Rounds(e, t, Ids(cs), projected, pending).result; r.Err? ==> r.error.UnresolvedParent?
    decreases |pending|
  {
    hide RunInv, Remaining, Round, Foreseen;
    if pending == [] {
    } else {
      var w := Worklist(projected, []);
      assert [] + pending == pending;
      RoundSucceeds(e, t0, t, cs, w, pending, rank);
      ForeseenIds(e, t0, cs);
      var s := Round(e, t, Ids(cs), w, pending);
      var rank' := RoundKeepsRunInv(e, t0, t, cs, w, pending, rank);
      if |s.result.value.deferred| < |pending| {
        OnlyCyclesStop(e, t0, s.after, cs, s.result.value.projected, s.result.value.deferred, rank');
      }
    }
  }

  // ---- The outcome from the inputs -----------------------------------------------------------------

  /** When no step fails, every parent is active and no row is contested, the run succeeds exactly
      when the active-parent relation is acyclic, and reports an unresolved parent exactly when it
      is not. */
  lemma {:induction false} SucceedsExactlyWhenAcyclic(e: Engine, t: Tables, cs: seq<Registration>)
    requires ValidEngine(e) && NeverFails(e) && TablesOk(t) && DistinctIds(cs)
    requires AllParentsActive(cs) && Uncontested(t, cs)
    ensures Project(e, t, cs).result.Ok? <==> !HasCycle(ActiveParents(cs))
    ensures Project(e, t, cs).result == Err(UnresolvedParent) <==> HasCycle(ActiveParents(cs))
  {
    NothingPlacedYet(t, cs);
    OnlyCyclesStop(e, t, t, cs, map[], cs, map[]);
    hide TablesOk, Uncontested, WorklistDone, RankOk, SystemParentsOnly, Rounds, SweepAll;
    var _ := WorklistOutcome(e, t, cs);
    var placed := Rounds(e, t, Ids(cs), map[], cs);
    if placed.result.Ok? {
      SweepAllEffect(e, t, placed.after, cs, placed.result.value);
    }
    CyclesDecide(e, t, cs);
  }

  // ---- The condition is exact for contributions with routes ---------------------------------------

  /** After a worklist that succeeded, a routed contribution it mapped did not find its row taken. */
  lemma SuccessNotBlocked(t: Tables, u: Tables, cs: seq<Registration>, projected: map<string, nat>, a: Registration,
                          c: string)
    requires WorklistDone(t, u, cs, projected) && DistinctIds(cs)
    requires a in cs && a.spec.id !in t.mapped && Routed(a.spec) && c in t.mapped
    ensures t.mapped[c].item in t.items && !Blocks(t, cs, a, t.mapped[c].item)
  {
    RegisteredIs(cs, a);
    assert FreshRow(t, u, cs, projected, a);
    OldMappedRow(t, u, cs, projected, c);
    var (item, id) := (projected[a.spec.id], t.mapped[c].item);
    assert u.mapped[a.spec.id].item == item && u.mapped[c].item == id && item != id;
  }

  /** Nor did it contend with another one. */
  lemma SuccessNotContended(t: Tables, u: Tables, cs: seq<Registration>, projected: map<string, nat>, a: Registration,
                            b: Registration)
    requires WorklistDone(t, u, cs, projected) && DistinctIds(cs)
    requires a in cs && a.spec.id !in t.mapped && Routed(a.spec)
    requires b in cs && b.spec.id !in t.mapped && Routed(b.spec) && b.spec.id != a.spec.id
    ensures !Contend(t, a, b)
  {
    RegisteredIs(cs, a);
    RegisteredIs(cs, b);
    assert FreshRow(t, u, cs, projected, a) && FreshRow(t, u, cs, projected, b);
    assert u.mapped[a.spec.id].item != u.mapped[b.spec.id].item;
  }

  /** When no step fails, every parent is active and every contribution has a route, the run succeeds
      exactly when the active-parent relation is acyclic and no row is contested. */
  lemma {:induction false} RoutedRunSucceedsExactlyWhen(e: Engine, t: Tables, cs: seq<Registration>)
    requires ValidEngine(e) && NeverFails(e) && TablesOk(t) && DistinctIds(cs)
    requires AllParentsActive(cs) && forall a :: a in cs ==> Routed(a.spec)
    ensures Project(e, t, cs).result.Ok? <==> !HasCycle(ActiveParents(cs)) && Uncontested(t, cs)
  {
    if Uncontested(t, cs) {
      SucceedsExactlyWhenAcyclic(e, t, cs);
    } else if Project(e, t, cs).result.Ok? {
      hide WorklistDone, RankOk, SystemParentsOnly, Rounds, SweepAll, DistinctIds, AllParentsActive, Contend, Blocks;
      var _ := WorklistOutcome(e, t, cs);
      var placed := Rounds(e, t, Ids(cs), map[], cs);
      forall a, c | a in cs && a.spec.id !in t.mapped && c in t.mapped ensures !Blocks(t, cs, a, t.mapped[c].item) {
        SuccessNotBlocked(t, placed.after, cs, placed.result.value, a, c);
      }
      forall a, b | a in cs && a.spec.id !in t.mapped && b in cs && b.spec.id !in t.mapped && b.spec.id != a.spec.id
        ensures !Contend(t, a, b)
      {
        SuccessNotContended(t, placed.after, cs, placed.result.value, a, b);
      }
      assert false;
    }
  }

  // ---- A contested row stops a run without any cycle ------------------------------------------------

  const PAGE := Registration(Contribution("new.menu", "Page", None, 0, None, Some("/x")), "new")

  /** The page's row, still mapped to a contribution that is no longer active. */
  const TAKEN := Tables(
    map[1 := MenuItem("Page", None, 0, None, Some("/x"), false)], map["old.menu" := Mapping("old", 1)], 1, 0)

  lemma TakenRowIsFound(e: Engine, t: Tables)
    requires NeverFails(e) && t.items == TAKEN.items && t.mapped == TAKEN.mapped
    ensures var s := Adopt(e, t, PAGE, None);
      s.result == Err(UniqueViolated) && s.after.items == t.items && s.after.mapped == t.mapped
          && s.after.lastId == t.lastId
  {
    LegacyRowIsFirst(t.items, PAGE.spec, None);
    assert 1 in t.items && Adoptable(t.items[1], PAGE.spec, None);
    assert LegacyRow(t.items, PAGE.spec, None) == Some(1);
    assert t.mapped["old.menu"].item == 1;
    hide LegacyRow;
    assert t.items[1 := t.items[1].(parent := None)] == t.items;
  }

  /** Stale mappings are swept only after the worklist, so the run that should take the page over
      fails and leaves the rows as they were, and so does every later one. */
  lemma {:induction false} StaleMappingBlocks(e: Engine, t: Tables)
    requires ValidEngine(e) && NeverFails(e) && SameRows(t, TAKEN)
    ensures TablesOk(t) && DistinctIds([PAGE]) && AllParentsActive([PAGE])
    ensures "old.menu" !in Ids([PAGE]) && !HasCycle(ActiveParents([PAGE]))
    ensures Project(e, t, [PAGE]).result == Err(UniqueViolated)
    ensures SameRows(Project(e, t, [PAGE]).after, TAKEN)
  {
    assert PAGE in [PAGE];
    assert Ids([PAGE]) == {"new.menu"};
    NoParentsNoCycle([PAGE]);
    PageIsNotPlaced(e, t, Ids([PAGE]));
    hide Place, HasCycle, ActiveParents, AllParentsActive;
    assert Round(e, t, Ids([PAGE]), Worklist(map[], []), [PAGE]).result == Err(UniqueViolated);
  }

  lemma NoParentsNoCycle(cs: seq<Registration>)
    requires forall a :: a in cs ==> a.spec.parent.None?
    ensures !HasCycle(ActiveParents(cs)) && AllParentsActive(cs)
  {
    assert ActiveParents(cs) == map[];
    assert forall p :: IsCycle(ActiveParents(cs), p) ==> p[0] in ActiveParents(cs);
  }

  lemma PageIsNotPlaced(e: Engine, t: Tables, active: set<string>)
    requires NeverFails(e) && SameRows(t, TAKEN)
    ensures var s := Place(e, t, active, map[], PAGE);
      s.result == Err(UniqueViolated) && SameRows(s.after, TAKEN)
  {
    TakenRowIsFound(e, Tick(Tick(t)));
    hide Adopt;
  }
}

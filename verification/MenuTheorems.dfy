/** The promises of the runtime menu projection. */
module MenuTheorems {
  import opened Wrappers
  import opened MenuModel
  import opened MenuCycle
  import opened MenuProofs
  import opened MenuSweep

  ghost function ItemsOf(mapped: map<string, Mapping>): map<string, nat> {
    map c | c in mapped :: mapped[c].item
  }

  /** Contributions mapped before the run that are no longer active. */
  ghost function Stale(t: Tables, cs: seq<Registration>): set<string> {
    t.mapped.Keys - Ids(cs)
  }

  ghost predicate IsIn(id: Option<nat>, ids: set<nat>) {
    id.Some? && id.value in ids
  }

  /** What a successful projection of `cs` turns `t` into. */
  ghost predicate Projected(t: Tables, u: Tables, cs: seq<Registration>) {
    var gone := MappedItems(t.mapped, Stale(t, cs));
    // The mapping is exactly the active ids, injective into existing rows; old entries stay.
    && TablesOk(u)
    && u.mapped.Keys == Ids(cs)
    && (forall c :: c in t.mapped && c in Ids(cs) ==> u.mapped[c] == t.mapped[c])
    // Exactly the rows of stale contributions disappear; every added row is mapped.
    && (forall id :: id in t.items ==> (id in u.items <==> id !in gone))
    && (forall id :: id in u.items && id !in t.items ==> NewlyMapped(t, u, id))
    // A surviving row changes only in its parent: because its parent was stale, or because a
    // contribution first mapped in this run adopted it.
    && (forall id :: id in t.items && id in u.items ==>
          && u.items[id] == t.items[id].(parent := u.items[id].parent)
          && (|| NewlyMapped(t, u, id)
              || u.items[id].parent == (if IsIn(t.items[id].parent, gone) then None else t.items[id].parent)))
    // A contribution first mapped in this run has the row it asks for, under the row of its
    // active parent.
    && FreshRows(t, u, cs, ItemsOf(u.mapped))
    // Without an active parent it lies under the System row, or at the top if that row was stale.
    && LegacyRowsSwept(t, u, cs, gone)
  }

  ghost predicate LegacyRowsSwept(t: Tables, u: Tables, cs: seq<Registration>, gone: set<nat>)
    requires u.mapped.Keys == Ids(cs)
  {
    forall c :: c in u.mapped && c !in t.mapped && HasInactiveParent(Registered(cs, c), Ids(cs)) ==>
      u.mapped[c].item in u.items && StillUnderSystem(t, u, gone, u.items[u.mapped[c].item].parent)
  }

  ghost predicate StillUnderSystem(t: Tables, u: Tables, gone: set<nat>, parent: Option<nat>) {
    || UnderSystem(u.items, parent)
    || (parent.None? && exists id :: id in gone && id in t.items && t.items[id].caption == "System")
  }

  /** Tables after the worklist and before the sweep. */
  ghost predicate WorklistDone(t: Tables, u: Tables, cs: seq<Registration>, projected: map<string, nat>) {
    TablesOk(t) && TablesOk(u) && PlacedSoFar(t, u, cs, projected) && projected.Keys == Ids(cs)
  }

  lemma SweptMapping(t: Tables, u: Tables, v: Tables, cs: seq<Registration>, projected: map<string, nat>)
    requires WorklistDone(t, u, cs, projected) && SameRows(v, Swept(u, Stale(t, cs)))
    ensures v.mapped.Keys == Ids(cs) && ItemsOf(v.mapped) == projected
    ensures forall c :: c in Ids(cs) ==> v.mapped[c] == u.mapped[c]
    ensures v.items == RemoveItems(u.items, MappedItems(t.mapped, Stale(t, cs)))
  {
    hide TablesOk, FreshRows, OldRowsKept;
    assert MappedItems(u.mapped, Stale(t, cs)) == MappedItems(t.mapped, Stale(t, cs));
    assert v.mapped.Keys == Ids(cs);
  }

  lemma ActiveRowsSurvive(t: Tables, u: Tables, cs: seq<Registration>, projected: map<string, nat>)
    requires WorklistDone(t, u, cs, projected)
    ensures forall c :: c in projected ==>
              projected[c] in u.items && projected[c] !in MappedItems(t.mapped, Stale(t, cs))
  {
    hide FreshRows, OldRowsKept;
  }

  lemma OrphanedFreshRow(t: Tables, u: Tables, v: Tables, cs: seq<Registration>, projected: map<string, nat>,
                         gone: set<nat>, a: Registration)
    requires FreshRow(t, u, cs, projected, a)
    requires forall c :: c in projected ==> projected[c] in u.items && projected[c] !in gone
    requires v.items == RemoveItems(u.items, gone)
    requires a.spec.id in v.mapped && v.mapped[a.spec.id] == u.mapped[a.spec.id]
    ensures FreshRow(t, v, cs, projected, a)
  {
  }

  lemma {:induction false} SweptFreshRows(t: Tables, u: Tables, v: Tables, cs: seq<Registration>,
                                          projected: map<string, nat>)
    requires WorklistDone(t, u, cs, projected) && SameRows(v, Swept(u, Stale(t, cs)))
    ensures v.mapped.Keys == Ids(cs) && FreshRows(t, v, cs, ItemsOf(v.mapped))
  {
    hide FreshRow, TablesOk, OldRowsKept, SameRows, Swept;
    SweptMapping(t, u, v, cs, projected);
    ActiveRowsSurvive(t, u, cs, projected);
    forall c | c in projected && c !in t.mapped ensures FreshRow(t, v, cs, projected, Registered(cs, c)) {
      OrphanedFreshRow(t, u, v, cs, projected, MappedItems(t.mapped, Stale(t, cs)), Registered(cs, c));
    }
  }

  lemma SweptRows(t: Tables, u: Tables, v: Tables, cs: seq<Registration>, projected: map<string, nat>)
    requires WorklistDone(t, u, cs, projected) && SameRows(v, Swept(u, Stale(t, cs)))
    ensures var gone := MappedItems(t.mapped, Stale(t, cs));
      && (forall id :: id in t.items ==> (id in v.items <==> id !in gone))
      && (forall id :: id in v.items && id !in t.items ==> NewlyMapped(t, v, id))
      && (forall id :: id in t.items && id in v.items ==>
            && v.items[id] == t.items[id].(parent := v.items[id].parent)
            && (|| NewlyMapped(t, v, id)
                || v.items[id].parent == (if IsIn(t.items[id].parent, gone) then None else t.items[id].parent)))
  {
    SweptMapping(t, u, v, cs, projected);
    SweptMappedRows(t, u, v, cs, projected);
    hide TablesOk, FreshRows, LegacyRows, MappingsKept, SameRows, Swept, OldRowsKept, NewlyMapped, RemoveItems;
    KeptThroughSweep(t, u, v, MappedItems(t.mapped, Stale(t, cs)));
  }

  lemma KeptThroughSweep(t: Tables, u: Tables, v: Tables, gone: set<nat>)
    requires OldRowsKept(t, u) && v.items == RemoveItems(u.items, gone)
    requires forall id :: NewlyMapped(t, u, id) ==> NewlyMapped(t, v, id)
    ensures forall id :: id in t.items ==> (id in v.items <==> id !in gone)
    ensures forall id :: id in v.items && id !in t.items ==> NewlyMapped(t, v, id)
    ensures forall id :: id in t.items && id in v.items ==>
              && v.items[id] == t.items[id].(parent := v.items[id].parent)
              && (|| NewlyMapped(t, v, id)
                  || v.items[id].parent == (if IsIn(t.items[id].parent, gone) then None else t.items[id].parent))
  {
    hide NewlyMapped;
  }

  lemma SweptMappedRows(t: Tables, u: Tables, v: Tables, cs: seq<Registration>, projected: map<string, nat>)
    requires WorklistDone(t, u, cs, projected) && SameRows(v, Swept(u, Stale(t, cs)))
    ensures forall id :: NewlyMapped(t, u, id) ==> NewlyMapped(t, v, id)
  {
    SweptMapping(t, u, v, cs, projected);
    hide TablesOk, FreshRows, LegacyRows, OldRowsKept, SameRows, Swept;
    forall id | NewlyMapped(t, u, id) ensures NewlyMapped(t, v, id) {
      var c :| c in u.mapped && c !in t.mapped && u.mapped[c].item == id;
      assert c in projected;
    }
  }

  /** The rows under the System entry after the sweep. */
  lemma SweptLegacyRows(t: Tables, u: Tables, v: Tables, cs: seq<Registration>, projected: map<string, nat>, c: string)
    requires WorklistDone(t, u, cs, projected) && SameRows(v, Swept(u, Stale(t, cs))) && TablesOk(v)
    requires c in v.mapped && c in Ids(cs) && c !in t.mapped && HasInactiveParent(Registered(cs, c), Ids(cs))
    ensures v.mapped[c].item in v.items
    ensures StillUnderSystem(t, v, MappedItems(t.mapped, Stale(t, cs)), v.items[v.mapped[c].item].parent)
  {
    SweptMapping(t, u, v, cs, projected);
    ActiveRowsSurvive(t, u, cs, projected);
    assert c in projected && v.mapped[c].item == projected[c];
    assert UnderSystem(u.items, u.items[projected[c]].parent);
    hide LegacyRows, MappingsKept, FreshRows, SameRows, Swept;
    SweptParent(t, u, v, MappedItems(t.mapped, Stale(t, cs)), projected[c]);
  }

  lemma SweptParent(t: Tables, u: Tables, v: Tables, gone: set<nat>, item: nat)
    requires TablesOk(t) && OldRowsKept(t, u) && v.items == RemoveItems(u.items, gone)
    requires gone <= t.items.Keys && item in u.items && item !in gone && UnderSystem(u.items, u.items[item].parent)
    ensures item in v.items && StillUnderSystem(t, v, gone, v.items[item].parent)
  {
    var p := u.items[item].parent.value;
    hide TablesOk;
    if p in gone {
      assert p in t.items && t.items[p].caption == "System";
    } else {
      assert p in v.items && v.items[p].caption == "System";
    }
  }

  lemma NothingPlacedYet(t: Tables, cs: seq<Registration>)
    requires TablesOk(t) && DistinctIds(cs)
    ensures RunInv(t, t, cs, map[], map[]) && Remaining(cs, map[], cs)
  {
    assert PlacedSoFar(t, t, cs, map[]) by { hide TablesOk, DistinctIds; }
    hide TablesOk, DistinctIds, PlacedSoFar, ActiveParents;
    assert Remaining(cs, map[], cs);
  }

  lemma {:induction false} WorklistOutcome(e: Engine, t: Tables, cs: seq<Registration>) returns (rank: map<string, nat>)
    requires TablesOk(t) && DistinctIds(cs)
    ensures var s := Rounds(e, t, Ids(cs), map[], cs);
      && (s.result.Ok? ==>
           && WorklistDone(t, s.after, cs, s.result.value)
           && RankOk(cs, s.result.value, rank)
           && s.result.value.Keys == Ids(cs)
           && SystemParentsOnly(cs, Ids(cs)))
      && (s.result.Err? ==> ErrorExplained(e, cs, s.after, s.result.error))
  {
    NothingPlacedYet(t, cs);
    hide PlacedSoFar, TablesOk, RankOk, SystemParentsOnly, Remaining, DistinctIds;
    rank := RoundsOutcome(e, t, t, cs, map[], cs, map[]);
  }

  lemma {:induction false} SweepAllEffect(e: Engine, t: Tables, u: Tables, cs: seq<Registration>,
                                          projected: map<string, nat>)
    requires ValidEngine(e) && WorklistDone(t, u, cs, projected)
    ensures var s := SweepAll(e, u, Ids(cs));
      && (s.result.Ok? ==> SameRows(s.after, Swept(u, Stale(t, cs))))
      && (s.result.Err? ==> s.result.error.StorageFailed? && exists n: nat :: e.fails(n))
  {
    hide FreshRows, OldRowsKept, Sweep;
    var names := e.scan(u.mapped.Keys);
    assert Enumerates(names, u.mapped.Keys);
    ScannedStaleRows(names, u.mapped, Ids(cs));
    assert u.mapped.Keys - Ids(cs) == Stale(t, cs);
    SweepEffect(e, Tick(u), Ids(cs), ScanRows(names, u.mapped));
  }

  lemma ScannedStaleRows(names: seq<string>, mapped: map<string, Mapping>, active: set<string>)
    requires Enumerates(names, mapped.Keys)
    ensures StaleRows(ScanRows(names, mapped), active) == mapped.Keys - active
  {
    var rows := ScanRows(names, mapped);
    forall c | c in mapped.Keys - active ensures c in StaleRows(rows, active) {
      var i :| 0 <= i < |names| && names[i] == c;
      assert rows[i] in rows;
    }
  }

  lemma {:induction false} SweptIsProjected(t: Tables, u: Tables, v: Tables, cs: seq<Registration>,
                                            projected: map<string, nat>)
    requires WorklistDone(t, u, cs, projected) && SameRows(v, Swept(u, Stale(t, cs))) && TablesOk(v)
    ensures Projected(t, v, cs)
  {
    hide TablesOk, FreshRows, OldRowsKept, LegacyRows, SameRows, Swept, RemoveItems, StillUnderSystem;
    SweptMapping(t, u, v, cs, projected);
    SweptFreshRows(t, u, v, cs, projected);
    SweptRows(t, u, v, cs, projected);
    forall c | c in v.mapped && c !in t.mapped && HasInactiveParent(Registered(cs, c), Ids(cs))
      ensures v.mapped[c].item in v.items
              && StillUnderSystem(t, v, MappedItems(t.mapped, Stale(t, cs)), v.items[v.mapped[c].item].parent)
    {
      SweptLegacyRows(t, u, v, cs, projected, c);
    }
  }

  lemma RankedIsAcyclic(cs: seq<Registration>, projected: map<string, nat>, rank: map<string, nat>)
    requires RankOk(cs, projected, rank) && projected.Keys == Ids(cs)
    ensures !HasCycle(ActiveParents(cs))
  {
    RankExcludesCycle(ActiveParents(cs), rank);
  }

  /** All that a successful projection promises: the mapping's ids are exactly the active ones,
      no row outside the stale contributions is lost, and first-mapped contributions sit under
      the rows of their active parents, whatever was adopted or deleted afterwards. */
  lemma {:induction false} SuccessfulProjection(e: Engine, t: Tables, cs: seq<Registration>)
    requires ValidEngine(e) && TablesOk(t) && DistinctIds(cs)
    requires Project(e, t, cs).result.Ok?
    ensures Projected(t, Project(e, t, cs).after, cs)
    ensures !HasCycle(ActiveParents(cs))
    ensures SystemParentsOnly(cs, Ids(cs))
  {
    hide TablesOk, Projected, WorklistDone, Swept, RankOk, SameRows, SystemParentsOnly;
    var rank := WorklistOutcome(e, t, cs);
    var placed := Rounds(e, t, Ids(cs), map[], cs);
    RankedIsAcyclic(cs, placed.result.value, rank);
    SweepAllEffect(e, t, placed.after, cs, placed.result.value);
    ProjectKeepsTablesOk(e, t, cs);
    SweptIsProjected(t, placed.after, Project(e, t, cs).after, cs, placed.result.value);
  }
}

/** For contributions without a route the order of the list can decide whether a run succeeds. */
module MenuOrder {
  import opened Wrappers
  import opened MenuModel
  import opened MenuCycle
  import opened MenuProofs
  import opened MenuStability
  import opened MenuContest

  const ROUTED := Registration(Contribution("a", "A", None, 0, None, Some("/r")), "o")

  const LABELLED := Registration(Contribution("b", "X", None, 0, None, None), "o")

  /** An unmapped row with the route of one contribution and the label of the other, not at the top. */
  const LEGACY := Tables(
    map[1 := MenuItem("X", None, 0, Some(2), Some("/r"), false), 2 := MenuItem("Top", None, 0, None, None, false)],
    map[], 2, 0)

  // ---- Placing one contribution at the top ---------------------------------------------------------

  /** The placement adopts the free row, or reports that it is taken. */
  lemma PlaceAdopts(e: Engine, t: Tables, active: set<string>, projected: map<string, nat>, a: Registration, id: nat)
    requires NeverFails(e) && a.spec.parent == None && a.spec.id !in t.mapped
    requires id in t.items && Adoptable(t.items[id], a.spec, None)
    requires forall other :: other in t.items && Adoptable(t.items[other], a.spec, None) ==> id <= other
    ensures var s := Place(e, t, active, projected, a);
      if ItemTaken(t.mapped, id) then s.result == Err(UniqueViolated)
      else
        && s.result == Ok(Placed(id))
        && s.after.items == t.items[id := t.items[id].(parent := None)]
        && s.after.mapped == t.mapped[a.spec.id := Mapping(a.owner, id)]
  {
    LegacyRowIsFirst(t.items, a.spec, None);
    assert LegacyRow(t.items, a.spec, None) == Some(id);
    hide LegacyRow, Adoptable, ItemTaken;
  }

  lemma PlaceInserts(e: Engine, t: Tables, active: set<string>, projected: map<string, nat>, a: Registration)
    requires NeverFails(e) && TablesOk(t) && a.spec.parent == None && a.spec.id !in t.mapped
    requires forall id :: id in t.items ==> !Adoptable(t.items[id], a.spec, None)
    ensures var s := Place(e, t, active, projected, a);
      && s.result == Ok(Placed(t.lastId + 1))
      && s.after.items == t.items[t.lastId + 1 := NewItem(a.spec, None)]
      && s.after.mapped == t.mapped[a.spec.id := Mapping(a.owner, t.lastId + 1)]
  {
    LegacyRowIsFirst(t.items, a.spec, None);
    assert LegacyRow(t.items, a.spec, None) == None;
    assert !ItemTaken(t.mapped, t.lastId + 1);
    hide LegacyRow, Adoptable, ItemTaken;
  }

  // ---- Two contributions in either order ------------------------------------------------------------

  /** A round over two contributions, when the first is placed. */
  lemma TwoPlacements(e: Engine, t: Tables, active: set<string>, a: Registration, b: Registration, first: nat)
    requires Place(e, t, active, map[], a).result == Ok(Placed(first))
    ensures var next := Place(e, Place(e, t, active, map[], a).after, active, map[a.spec.id := first], b);
      var round := Round(e, t, active, Worklist(map[], []), [a, b]);
      && (next.result.Err? ==> round.result == Err(next.result.error))
      && (next.result.Ok? && next.result.value.Placed? ==>
            round == Step(next.after, Ok(Worklist(map[a.spec.id := first][b.spec.id := next.result.value.item], []))))
  {
    hide Place;
    var s := Place(e, t, active, map[], a);
    var w := Worklist(map[][a.spec.id := first], []);
    assert map[][a.spec.id := first] == map[a.spec.id := first];
    assert [a, b][1..] == [b] && [b][1..] == [];
    assert Round(e, t, active, Worklist(map[], []), [a, b]) == Round(e, s.after, active, w, [b]);
  }

  lemma LabelledFirst(e: Engine) returns (u: Tables)
    requires ValidEngine(e) && NeverFails(e)
    ensures var active := Ids([LABELLED, ROUTED]);
      Rounds(e, LEGACY, active, map[], [LABELLED, ROUTED]) == Step(u, Ok(map["b" := 3, "a" := 1]))
    ensures u.mapped.Keys == {"a", "b"}
  {
    var active := Ids([LABELLED, ROUTED]);
    PlaceInserts(e, LEGACY, active, map[], LABELLED);
    var t := Place(e, LEGACY, active, map[], LABELLED).after;
    PlaceAdopts(e, t, active, map["b" := 3], ROUTED, 1);
    u := Place(e, t, active, map["b" := 3], ROUTED).after;
    TwoPlacements(e, LEGACY, active, LABELLED, ROUTED, 3);
    hide Place, Round;
    assert map["b" := 3]["a" := 1] == map["b" := 3, "a" := 1];
  }

  /** The routed contribution, placed first, moves the row to the top, where the labelled one then looks
      for it; placed second, it leaves the labelled one its own row. So no condition on the set of
      contributions decides how the run ends. */
  lemma {:induction false} OrderDecides(e: Engine)
    requires ValidEngine(e) && NeverFails(e)
    ensures TablesOk(LEGACY) && DistinctIds([ROUTED, LABELLED]) && DistinctIds([LABELLED, ROUTED])
    ensures Project(e, LEGACY, [LABELLED, ROUTED]).result.Ok?
    ensures Project(e, LEGACY, [ROUTED, LABELLED]).result == Err(UniqueViolated)
  {
    LabelledRunSucceeds(e);
    RoutedRunFails(e);
    hide Project;
  }

  lemma LabelledRunSucceeds(e: Engine)
    requires ValidEngine(e) && NeverFails(e)
    ensures Project(e, LEGACY, [LABELLED, ROUTED]).result.Ok?
  {
    var cs := [LABELLED, ROUTED];
    assert LABELLED in cs && ROUTED in cs;
    assert ROUTED.spec.id in Ids(cs) && LABELLED.spec.id in Ids(cs);
    var u := LabelledFirst(e);
    assert Enumerates(e.scan(u.mapped.Keys), u.mapped.Keys);
    hide Rounds, Sweep, Enumerates, ValidEngine;
    NothingStale(e, u, Ids(cs));
  }

  lemma NothingStale(e: Engine, u: Tables, active: set<string>)
    requires NeverFails(e) && Enumerates(e.scan(u.mapped.Keys), u.mapped.Keys) && u.mapped.Keys <= active
    ensures SweepAll(e, u, active).result.Ok?
  {
    var names := e.scan(u.mapped.Keys);
    var rows := ScanRows(names, u.mapped);
    forall r | r in rows ensures r.contribution in active {
      var i :| 0 <= i < |rows| && rows[i] == r;
      assert names[i] in u.mapped.Keys;
    }
    SettledSweep(e, Tick(u), active, rows);
    hide Sweep;
  }

  lemma RoutedRunFails(e: Engine)
    requires ValidEngine(e) && NeverFails(e)
    ensures Project(e, LEGACY, [ROUTED, LABELLED]).result == Err(UniqueViolated)
  {
    var active := Ids([ROUTED, LABELLED]);
    PlaceAdopts(e, LEGACY, active, map[], ROUTED, 1);
    var t := Place(e, LEGACY, active, map[], ROUTED).after;
    assert t.mapped["a"].item == 1;
    PlaceAdopts(e, t, active, map["a" := 1], LABELLED, 1);
    TwoPlacements(e, LEGACY, active, ROUTED, LABELLED, 1);
    hide Place, Round;
  }
}

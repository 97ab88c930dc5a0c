/** Failed runs, and running the projection again on its own result. */
module MenuStability {
  import opened Wrappers
  import opened MenuModel
  import opened MenuCycle
  import opened MenuProofs
  import opened MenuSweep
  import opened MenuTheorems

  /** Every error has the cause it names; in particular an unresolved parent proves a cycle, and
      the parent foreign key is never violated. */
  lemma {:induction false} FailureExplained(e: Engine, t: Tables, cs: seq<Registration>)
    requires ValidEngine(e) && TablesOk(t) && DistinctIds(cs)
    ensures var s := Project(e, t, cs);
      s.result.Err? ==> ErrorExplained(e, cs, s.after, s.result.error)
  {
    hide TablesOk, WorklistDone, RankOk, SystemParentsOnly, SameRows, Swept;
    var _ := WorklistOutcome(e, t, cs);
    var placed := Rounds(e, t, Ids(cs), map[], cs);
    if placed.result.Ok? {
      SweepAllEffect(e, t, placed.after, cs, placed.result.value);
    }
  }

  /** When no lookup or database step gets in the way, cycles alone decide how the run ends. */
  lemma {:induction false} CyclesDecide(e: Engine, t: Tables, cs: seq<Registration>)
    requires ValidEngine(e) && TablesOk(t) && DistinctIds(cs)
    requires var r := Project(e, t, cs).result; r.Err? ==> r.error.UnresolvedParent?
    ensures Project(e, t, cs).result.Ok? <==> !HasCycle(ActiveParents(cs))
    ensures Project(e, t, cs).result == Err(UnresolvedParent) <==> HasCycle(ActiveParents(cs))
  {
    FailureExplained(e, t, cs);
    if Project(e, t, cs).result.Ok? {
      SuccessfulProjection(e, t, cs);
    }
  }

  // ---- Running again -------------------------------------------------------------------------

  lemma {:induction false} SettledRound(e: Engine, t: Tables, active: set<string>, w: Worklist, todo: seq<Registration>)
    requires forall a :: a in todo ==> a.spec.id in t.mapped
    ensures var s := Round(e, t, active, w, todo);
      && SameRows(t, s.after)
      && (s.result.Ok? ==> forall a :: a in s.result.value.deferred ==> a in w.deferred || a in todo)
    decreases |todo|
  {
    if todo == [] {
    } else {
      var s := Place(e, t, active, w.projected, todo[0]);
      SettledPlace(e, t, active, w.projected, todo[0]);
      match s.result
      case Err(_) =>
      case Ok(Deferred) => SettledRound(e, s.after, active, w.(deferred := w.deferred + [todo[0]]), todo[1..]);
      case Ok(Placed(item)) =>
        SettledRound(e, s.after, active, w.(projected := w.projected[todo[0].spec.id := item]), todo[1..]);
    }
  }

  lemma SettledPlace(e: Engine, t: Tables, active: set<string>, projected: map<string, nat>, a: Registration)
    requires a.spec.id in t.mapped
    ensures SameRows(t, Place(e, t, active, projected, a).after)
  {
  }

  lemma {:induction false} SettledRounds(e: Engine, t: Tables, active: set<string>, projected: map<string, nat>,
                                         pending: seq<Registration>)
    requires forall a :: a in pending ==> a.spec.id in t.mapped
    ensures SameRows(t, Rounds(e, t, active, projected, pending).after)
    decreases |pending|
  {
    if pending == [] {
    } else {
      var s := Round(e, t, active, Worklist(projected, []), pending);
      SettledRound(e, t, active, Worklist(projected, []), pending);
      if s.result.Ok? && |s.result.value.deferred| < |pending| {
        SettledRounds(e, s.after, active, s.result.value.projected, s.result.value.deferred);
      }
    }
  }

  lemma {:induction false} SettledSweep(e: Engine, t: Tables, active: set<string>, rows: seq<MappedRow>)
    requires forall r :: r in rows ==> r.contribution in active
    ensures Sweep(e, t, active, rows) == Step(t, Ok(()))
    decreases |rows|
  {
    if rows == [] {
    } else {
      SettledSweep(e, t, active, rows[1..]);
    }
  }

  /** Once exactly the active contributions are mapped, a run writes nothing, however it ends. */
  lemma {:induction false} SettledProjection(e: Engine, t: Tables, cs: seq<Registration>)
    requires ValidEngine(e) && t.mapped.Keys == Ids(cs)
    ensures SameRows(t, Project(e, t, cs).after)
  {
    forall a | a in cs ensures a.spec.id in t.mapped {
      assert a.spec.id in Ids(cs);
    }
    SettledRounds(e, t, Ids(cs), map[], cs);
    var u := Rounds(e, t, Ids(cs), map[], cs).after;
    assert Enumerates(e.scan(u.mapped.Keys), u.mapped.Keys);
    SettledSweep(e, Tick(u), Ids(cs), ScanRows(e.scan(u.mapped.Keys), u.mapped));
  }

  /** A round that succeeds on unchanged tables found the legacy System row if it needed it. */
  lemma {:induction false} SettledRoundNeedsSystem(e: Engine, t: Tables, active: set<string>, w: Worklist,
                                                   todo: seq<Registration>)
    requires forall a :: a in todo ==> a.spec.id in t.mapped
    requires Round(e, t, active, w, todo).result.Ok?
    requires w.projected.Keys <= active && (forall a :: a in todo ==> a.spec.id in active)
    ensures (exists a :: a in todo && a.spec.parent.Some? && a.spec.parent.value !in active)
        ==> HasSystemRow(t.items)
    decreases |todo|
  {
    if todo == [] {
    } else {
      var s := Place(e, t, active, w.projected, todo[0]);
      SettledPlace(e, t, active, w.projected, todo[0]);
      match s.result
      case Ok(Deferred) =>
        SettledRoundNeedsSystem(e, s.after, active, w.(deferred := w.deferred + [todo[0]]), todo[1..]);
      case Ok(Placed(item)) =>
        SettledRoundNeedsSystem(e, s.after, active, w.(projected := w.projected[todo[0].spec.id := item]), todo[1..]);
    }
  }

  /** Running again on the result of a successful run writes nothing. It succeeds again exactly
      when no contribution hangs under an inactive parent, or the legacy System row survived. */
  lemma {:induction false} Reprojection(e0: Engine, e: Engine, t: Tables, cs: seq<Registration>)
    requires ValidEngine(e0) && ValidEngine(e) && NeverFails(e)
    requires TablesOk(t) && DistinctIds(cs)
    requires Project(e0, t, cs).result.Ok?
    ensures var u := Project(e0, t, cs).after;
      && SameRows(u, Project(e, u, cs).after)
      && (Project(e, u, cs).result.Ok? <==> AllParentsActive(cs) || HasSystemRow(u.items))
  {
    hide TablesOk, FreshRows;
    var u := Project(e0, t, cs).after;
    SuccessfulProjection(e0, t, cs);
    SettledProjection(e, u, cs);
    FailureExplained(e, u, cs);
    var again := Project(e, u, cs);
    forall a | a in cs ensures a.spec.id in u.mapped && a.spec.id in Ids(cs) {
      assert a.spec.id in Ids(cs);
    }
    if again.result.Ok? && cs != [] {
      SettledRoundNeedsSystem(e, u, Ids(cs), Worklist(map[], []), cs);
    }
    if again.result.Err? && again.result.error.UnknownParent? {
      var a :| a in cs && a.spec.id == again.result.error.id && a.spec.parent == Some(again.result.error.parent);
      RegisteredIs(cs, a);
    }
  }

  // ---- The condition is needed -----------------------------------------------------------------

  const NOTES := Registration(Contribution("notes.menu", "Notes", None, 0, Some(SYSTEM_ID), None), "notes")

  /** A System row mapped to a contribution that is no longer active. */
  const BEFORE := Tables(
    map[1 := MenuItem("System", None, 0, None, None, false)], map[SYSTEM_ID := Mapping("host", 1)], 1, 0)

  lemma FirstRunPlaces(e: Engine) returns (u: Tables)
    requires NeverFails(e)
    ensures Place(e, BEFORE, {"notes.menu"}, map[], NOTES) == Step(u, Ok(Placed(2)))
    ensures u.items == BEFORE.items[2 := NewItem(NOTES.spec, Some(1))]
    ensures u.mapped == BEFORE.mapped["notes.menu" := Mapping("notes", 2)]
  {
    var t := BEFORE;
    assert IsSystemRoot(t.items[1]);
    assert FindLegacyParent(e, t, SYSTEM_ID) == Step(Tick(t), Ok(Some(1)));
    assert LegacyRow(t.items, NOTES.spec, Some(1)) == None;
    u := Place(e, t, {"notes.menu"}, map[], NOTES).after;
  }

  lemma FirstRunWorklist(e: Engine) returns (u: Tables)
    requires NeverFails(e)
    ensures Ids([NOTES]) == {"notes.menu"}
    ensures Rounds(e, BEFORE, Ids([NOTES]), map[], [NOTES]) == Step(u, Ok(map["notes.menu" := 2]))
    ensures u.items == BEFORE.items[2 := NewItem(NOTES.spec, Some(1))]
    ensures u.mapped == BEFORE.mapped["notes.menu" := Mapping("notes", 2)]
  {
    var cs := [NOTES];
    assert NOTES in cs;
    assert Ids(cs) == {"notes.menu"};
    u := FirstRunPlaces(e);
    hide Place;
    var projected := map["notes.menu" := 2];
    var w := Worklist(map[], []);
    assert Round(e, u, Ids(cs), w.(projected := projected), []) == Step(u, Ok(Worklist(projected, [])));
    assert Round(e, BEFORE, Ids(cs), w, cs) == Step(u, Ok(Worklist(projected, [])));
    assert Rounds(e, u, Ids(cs), projected, []) == Step(u, Ok(projected));
  }

  lemma FirstRunSweeps(e: Engine, u: Tables)
    requires ValidEngine(e) && NeverFails(e) && Ids([NOTES]) == {"notes.menu"}
    requires WorklistDone(BEFORE, u, [NOTES], map["notes.menu" := 2])
    requires u.items == BEFORE.items[2 := NewItem(NOTES.spec, Some(1))]
    ensures var s := SweepAll(e, u, Ids([NOTES]));
      s.result.Ok? && s.after.items.Keys == {2} && s.after.items[2].caption == "Notes"
  {
    hide WorklistDone, SweepAll, Stale, RemoveItems, Ids;
    SweepAllEffect(e, BEFORE, u, [NOTES], map["notes.menu" := 2]);
    var v := SweepAll(e, u, Ids([NOTES])).after;
    SweptMapping(BEFORE, u, v, [NOTES], map["notes.menu" := 2]);
    SystemIsStale();
    SystemIsRemoved(u.items);
  }

  lemma SystemIsStale()
    requires Ids([NOTES]) == {"notes.menu"}
    ensures MappedItems(BEFORE.mapped, Stale(BEFORE, [NOTES])) == {1}
  {
    assert SYSTEM_ID in Stale(BEFORE, [NOTES]);
  }

  lemma SystemIsRemoved(items: map<nat, MenuItem>)
    requires items == BEFORE.items[2 := NewItem(NOTES.spec, Some(1))]
    ensures var left := RemoveItems(items, {1}); left.Keys == {2} && left[2].caption == "Notes"
  {
  }

  lemma FirstRunSucceeds(e: Engine)
    requires ValidEngine(e) && NeverFails(e)
    ensures TablesOk(BEFORE)
    ensures var s := Project(e, BEFORE, [NOTES]);
      s.result.Ok? && s.after.items.Keys == {2} && s.after.items[2].caption == "Notes"
  {
    hide Rounds, Sweep, WorklistDone, RankOk, SystemParentsOnly;
    var u := FirstRunWorklist(e);
    assert TablesOk(BEFORE);
    var _ := WorklistOutcome(e, BEFORE, [NOTES]);
    FirstRunSweeps(e, u);
  }

  /** Without the condition the promise fails: here the first run deletes the System row its own
      contribution sits under, because that row was mapped to an inactive contribution. */
  lemma {:induction false} ReprojectionCanFail(e: Engine)
    requires ValidEngine(e) && NeverFails(e)
    ensures TablesOk(BEFORE) && DistinctIds([NOTES])
    ensures Project(e, BEFORE, [NOTES]).result.Ok?
    ensures Project(e, Project(e, BEFORE, [NOTES]).after, [NOTES]).result.Err?
  {
    FirstRunSucceeds(e);
    Reprojection(e, e, BEFORE, [NOTES]);
    assert NOTES in [NOTES] && !HasActiveParent(NOTES, Ids([NOTES]));
  }
}

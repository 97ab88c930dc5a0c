/** The projection as routes/menu.rs runs it: statement by statement on two mutable tables. */
module MenuStore {
  import opened Wrappers
  import opened MenuModel
  import MenuProofs
  import MenuTheorems

  class Store {
    var items: map<nat, MenuItem>
    var mapped: map<string, Mapping>
    var lastId: nat
    var clock: nat
    const engine: Engine

    constructor (engine: Engine)
      ensures this.engine == engine && Now() == Tables(map[], map[], 0, 0)
    {
      this.engine := engine;
      items, mapped, lastId, clock := map[], map[], 0, 0;
    }

    ghost function Now(): Tables
      reads this
    {
      Tables(items, mapped, lastId, clock)
    }

    /** Starts a statement; it takes effect only if the engine lets it. */
    method Begin() returns (failed: bool)
      modifies this`clock
      ensures failed == engine.fails(old(clock)) && clock == old(clock) + 1
    {
      failed := engine.fails(clock);
      clock := clock + 1;
    }

    method SetParent(id: nat, parent: Option<nat>) returns (r: Result<(), MenuError>)
      requires id in items
      modifies this
      ensures Step(Now(), r) == MenuModel.SetParent(engine, old(Now()), id, parent)
    {
      var failed := Begin();
      if failed { return Err(StorageFailed); }
      if !ReferenceOk(items, parent) { return Err(ForeignKeyViolated); }
      items := items[id := items[id].(parent := parent)];
      r := Ok(());
    }

    method InsertItem(item: MenuItem) returns (r: Result<nat, MenuError>)
      modifies this
      ensures Step(Now(), r) == MenuModel.InsertItem(engine, old(Now()), item)
    {
      var failed := Begin();
      if failed { return Err(StorageFailed); }
      if !ReferenceOk(items, item.parent) { return Err(ForeignKeyViolated); }
      lastId := lastId + 1;
      items := items[lastId := item];
      r := Ok(lastId);
    }

    method RecordMapping(c: string, row: Mapping) returns (r: Result<nat, MenuError>)
      modifies this
      ensures Step(Now(), r) == MenuModel.RecordMapping(engine, old(Now()), c, row)
    {
      var failed := Begin();
      if failed { return Err(StorageFailed); }
      if c in mapped || ItemTaken(mapped, row.item) { return Err(UniqueViolated); }
      mapped := mapped[c := row];
      r := Ok(row.item);
    }

    method DeleteMapping(c: string) returns (r: Result<(), MenuError>)
      modifies this
      ensures Step(Now(), r) == MenuModel.DeleteMapping(engine, old(Now()), c)
    {
      var failed := Begin();
      if failed { return Err(StorageFailed); }
      mapped := mapped - {c};
      r := Ok(());
    }

    method DeleteItem(id: nat) returns (r: Result<(), MenuError>)
      modifies this
      ensures Step(Now(), r) == MenuModel.DeleteItem(engine, old(Now()), id)
    {
      var failed := Begin();
      if failed { return Err(StorageFailed); }
      items := RemoveItems(items, {id});
      mapped := map c | c in mapped && mapped[c].item != id :: mapped[c];
      r := Ok(());
    }

    method FindLegacyParentId(id: string) returns (r: Result<Option<nat>, MenuError>)
      modifies this
      ensures Step(Now(), r) == FindLegacyParent(engine, old(Now()), id)
    {
      if id != SYSTEM_ID { return Ok(None); }
      var failed := Begin();
      if failed { return Err(StorageFailed); }
      r := Ok(SystemRoot(items));
    }

    method UpsertRuntimeMenuItem(a: Registration, parent: Option<nat>) returns (r: Result<nat, MenuError>)
      modifies this
      ensures Step(Now(), r) == Upsert(engine, old(Now()), a, parent)
    {
      var failed := Begin();
      if failed { return Err(StorageFailed); }
      if a.spec.id in mapped { return Ok(mapped[a.spec.id].item); }
      failed := Begin();
      if failed { return Err(StorageFailed); }
      var legacy := LegacyRow(items, a.spec, parent);
      var item;
      if legacy.Some? {
        item := legacy.value;
        var aligned := SetParent(item, parent);
        if aligned.Err? { return Err(aligned.error); }
      } else {
        var inserted := InsertItem(NewItem(a.spec, parent));
        if inserted.Err? { return inserted; }
        item := inserted.value;
      }
      r := RecordMapping(a.spec.id, Mapping(a.owner, item));
    }

    /** Places one contribution under its parent, or reports that it has to wait. */
    method PlaceContribution(active: set<string>, projected: map<string, nat>, a: Registration)
        returns (r: Result<Placement, MenuError>)
      modifies this
      ensures Step(Now(), r) == Place(engine, old(Now()), active, projected, a)
    {
      var parent: Option<nat> := None;
      if a.spec.parent.Some? {
        var p := a.spec.parent.value;
        if p in projected {
          parent := Some(projected[p]);
        } else if p in active {
          return Ok(Deferred);
        } else {
          var found := FindLegacyParentId(p);
          if found.Err? { return Err(found.error); }
          if found.value.None? { return Err(UnknownParent(a.spec.id, p)); }
          parent := found.value;
        }
      }
      var upserted := UpsertRuntimeMenuItem(a, parent);
      r := if upserted.Ok? then Ok(Placed(upserted.value)) else Err(upserted.error);
    }

    /** Every round places something or the run stops, so the pending list gets shorter. */
    method PlaceAll(active: set<string>, cs: seq<Registration>) returns (r: Result<map<string, nat>, MenuError>)
      modifies this
      ensures Step(Now(), r) == Rounds(engine, old(Now()), active, map[], cs)
    {
      var projected: map<string, nat> := map[];
      var pending := cs;
      while pending != []
        invariant Rounds(engine, old(Now()), active, map[], cs) == Rounds(engine, Now(), active, projected, pending)
        decreases |pending|
      {
        var progress := false;
        var deferred := [];
        ghost var round := Round(engine, Now(), active, Worklist(projected, []), pending);
        var i := 0;
        while i < |pending|
          invariant 0 <= i <= |pending| && |deferred| <= i
          invariant progress <==> |deferred| < i
          invariant round == Round(engine, Now(), active, Worklist(projected, deferred), pending[i..])
        {
          assert pending[i..][0] == pending[i] && pending[i..][1..] == pending[i + 1..];
          var placed := PlaceContribution(active, projected, pending[i]);
          if placed.Err? { return Err(placed.error); }
          match placed.value {
            case Deferred => deferred := deferred + [pending[i]];
            case Placed(item) =>
              projected := projected[pending[i].spec.id := item];
              progress := true;
          }
          i := i + 1;
        }
        if !progress { return Err(UnresolvedParent); }
        pending := deferred;
      }
      r := Ok(projected);
    }

    method RemoveStale(active: set<string>) returns (r: Result<(), MenuError>)
      requires ValidEngine(engine)
      modifies this
      ensures Step(Now(), r) == SweepAll(engine, old(Now()), active)
    {
      assert Enumerates(engine.scan(mapped.Keys), mapped.Keys);
      var failed := Begin();
      if failed { return Err(StorageFailed); }
      var rows := ScanRows(engine.scan(mapped.Keys), mapped);
      ghost var sweep := Sweep(engine, Now(), active, rows);
      var i := 0;
      while i < |rows|
        invariant 0 <= i <= |rows|
        invariant sweep == Sweep(engine, Now(), active, rows[i..])
      {
        assert rows[i..][0] == rows[i] && rows[i..][1..] == rows[i + 1..];
        if rows[i].contribution !in active {
          r := DeleteMapping(rows[i].contribution);
          if r.Err? { return; }
          r := DeleteItem(rows[i].item);
          if r.Err? { return; }
        }
        i := i + 1;
      }
      r := Ok(());
    }

    method ProjectRuntimeMenuContributions(cs: seq<Registration>) returns (r: Result<(), MenuError>)
      requires ValidEngine(engine)
      modifies this
      ensures Step(Now(), r) == Project(engine, old(Now()), cs)
      ensures MenuProofs.TablesOk(old(Now())) ==> MenuProofs.TablesOk(Now())
      ensures MenuProofs.TablesOk(old(Now())) && DistinctIds(cs) && r.Ok? ==>
                MenuTheorems.Projected(old(Now()), Now(), cs)
    {
      ghost var before := Now();
      var active := Ids(cs);
      var placed := PlaceAll(active, cs);
      if placed.Err? {
        r := Err(placed.error);
      } else {
        r := RemoveStale(active);
      }
      assert Step(Now(), r) == Project(engine, before, cs);
      if MenuProofs.TablesOk(before) {
        MenuProofs.ProjectKeepsTablesOk(engine, before, cs);
        if DistinctIds(cs) && r.Ok? { MenuTheorems.SuccessfulProjection(engine, before, cs); }
      }
    }
  }
}

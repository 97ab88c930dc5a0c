/** What the runtime menu projection guarantees, for every engine, table contents and input. */
module MenuProofs {
  import opened Wrappers
  import opened MenuModel
  import opened MenuCycle

  /** The two tables' own constraints: mapped rows exist and are mapped once, parents exist,
      and the id counter is ahead of every row. */
  ghost predicate TablesOk(t: Tables) {
    && (forall c :: c in t.mapped ==> t.mapped[c].item in t.items)
    && (forall c, d :: c in t.mapped && d in t.mapped && c != d ==> t.mapped[c].item != t.mapped[d].item)
    && (forall id :: id in t.items && t.items[id].parent.Some? ==> t.items[id].parent.value in t.items)
    && (forall id :: id in t.items ==> id <= t.lastId)
  }

  ghost predicate SameRows(t: Tables, u: Tables) {
    t.items == u.items && t.mapped == u.mapped && t.lastId == u.lastId
  }

  // ---- The tables' constraints survive every run -------------------------------------------

  lemma SetParentKeepsTablesOk(e: Engine, t: Tables, id: nat, parent: Option<nat>)
    requires TablesOk(t) && id in t.items
    ensures TablesOk(SetParent(e, t, id, parent).after)
  {
  }

  lemma InsertItemKeepsTablesOk(e: Engine, t: Tables, item: MenuItem)
    requires TablesOk(t)
    ensures TablesOk(InsertItem(e, t, item).after)
  {
  }

  lemma RecordMappingKeepsTablesOk(e: Engine, t: Tables, c: string, row: Mapping)
    requires TablesOk(t) && row.item in t.items
    ensures TablesOk(RecordMapping(e, t, c, row).after)
  {
  }

  lemma AdoptKeepsTablesOk(e: Engine, t: Tables, a: Registration, parent: Option<nat>)
    requires TablesOk(t)
    ensures TablesOk(Adopt(e, t, a, parent).after)
  {
    match LegacyRow(t.items, a.spec, parent)
    case Some(row) =>
      var aligned := SetParent(e, t, row, parent);
      SetParentKeepsTablesOk(e, t, row, parent);
      if aligned.result.Ok? {
        RecordMappingKeepsTablesOk(e, aligned.after, a.spec.id, Mapping(a.owner, row));
      }
    case None =>
      var inserted := InsertItem(e, t, NewItem(a.spec, parent));
      InsertItemKeepsTablesOk(e, t, NewItem(a.spec, parent));
      if inserted.result.Ok? {
        RecordMappingKeepsTablesOk(e, inserted.after, a.spec.id, Mapping(a.owner, inserted.result.value));
      }
  }

  lemma UpsertKeepsTablesOk(e: Engine, t: Tables, a: Registration, parent: Option<nat>)
    requires TablesOk(t)
    ensures TablesOk(Upsert(e, t, a, parent).after)
  {
    AdoptKeepsTablesOk(e, Tick(Tick(t)), a, parent);
  }

  lemma PlaceKeepsTablesOk(e: Engine, t: Tables, active: set<string>, projected: map<string, nat>, a: Registration)
    requires TablesOk(t)
    ensures TablesOk(Place(e, t, active, projected, a).after)
  {
    match a.spec.parent
    case None => UpsertKeepsTablesOk(e, t, a, None);
    case Some(p) =>
      if p in projected {
        UpsertKeepsTablesOk(e, t, a, Some(projected[p]));
      } else if p !in active {
        var found := FindLegacyParent(e, t, p);
        if found.result.Ok? && found.result.value.Some? {
          UpsertKeepsTablesOk(e, found.after, a, found.result.value);
        }
      }
  }

  lemma {:induction false} RoundKeepsTablesOk(e: Engine, t: Tables, active: set<string>, w: Worklist,
                                              todo: seq<Registration>)
    requires TablesOk(t)
    ensures TablesOk(Round(e, t, active, w, todo).after)
    decreases |todo|
  {
    if todo == [] {
    } else {
      PlaceKeepsTablesOk(e, t, active, w.projected, todo[0]);
      var s := Place(e, t, active, w.projected, todo[0]);
      match s.result
      case Err(_) =>
      case Ok(Deferred) => RoundKeepsTablesOk(e, s.after, active, w.(deferred := w.deferred + [todo[0]]), todo[1..]);
      case Ok(Placed(item)) =>
        RoundKeepsTablesOk(e, s.after, active, w.(projected := w.projected[todo[0].spec.id := item]), todo[1..]);
    }
  }

  lemma {:induction false} RoundsKeepsTablesOk(e: Engine, t: Tables, active: set<string>,
                                               projected: map<string, nat>, pending: seq<Registration>)
    requires TablesOk(t)
    ensures TablesOk(Rounds(e, t, active, projected, pending).after)
    decreases |pending|
  {
    if pending == [] {
    } else {
      RoundKeepsTablesOk(e, t, active, Worklist(projected, []), pending);
      var s := Round(e, t, active, Worklist(projected, []), pending);
      if s.result.Ok? && |s.result.value.deferred| < |pending| {
        RoundsKeepsTablesOk(e, s.after, active, s.result.value.projected, s.result.value.deferred);
      }
    }
  }

  lemma {:induction false} SweepKeepsTablesOk(e: Engine, t: Tables, active: set<string>, rows: seq<MappedRow>)
    requires TablesOk(t)
    ensures TablesOk(Sweep(e, t, active, rows).after)
    decreases |rows|
  {
    if rows == [] {
    } else {
      if rows[0].contribution in active {
        SweepKeepsTablesOk(e, t, active, rows[1..]);
      } else {
        var unmapped := DeleteMapping(e, t, rows[0].contribution);
        if unmapped.result.Ok? {
          var deleted := DeleteItem(e, unmapped.after, rows[0].item);
          assert TablesOk(deleted.after);
          if deleted.result.Ok? {
            SweepKeepsTablesOk(e, deleted.after, active, rows[1..]);
          }
        }
      }
    }
  }

  /** However a run ends, both tables still meet their constraints. */
  lemma {:induction false} ProjectKeepsTablesOk(e: Engine, t: Tables, cs: seq<Registration>)
    requires ValidEngine(e) && TablesOk(t)
    ensures TablesOk(Project(e, t, cs).after)
  {
    RoundsKeepsTablesOk(e, t, Ids(cs), map[], cs);
    var placed := Rounds(e, t, Ids(cs), map[], cs);
    if placed.result.Ok? {
      var u := placed.after;
      SweepKeepsTablesOk(e, Tick(u), Ids(cs), ScanRows(e.scan(u.mapped.Keys), u.mapped));
    }
  }

  // ---- One upsert -----------------------------------------------------------------------

  /** The contribution has a route: its own, or the one reserved for the host's System entry. */
  ghost predicate Routed(c: Contribution) {
    c.route.Some? || c.id == "host-admin.system"
  }

  ghost predicate HasRouteOf(route: Option<string>, c: Contribution) {
    && (c.route.Some? ==> route == c.route)
    && (c.route.None? && c.id == "host-admin.system" ==> route == Some("/admin/system"))
  }

  /** A row the contribution may adopt: one with its route, or, if it has none, one with its label
      under its parent. */
  ghost predicate Fits(row: MenuItem, c: Contribution, parent: Option<nat>) {
    if Routed(c) then HasRouteOf(row.route, c) else row.caption == c.caption && row.parent == parent
  }

  /** A row made for the contribution carries its label, icon, position and route and is visible. */
  ghost predicate IsNewRow(row: MenuItem, c: Contribution) {
    && row.caption == c.caption && row.icon == c.icon && row.position == c.position && !row.hidden
    && if Routed(c) then HasRouteOf(row.route, c) else row.route.None?
  }

  /** The effect of a successful upsert: nothing for a mapped contribution; otherwise one row, the
      first adoptable one or, if there is none, a new one, gets the given parent and becomes mapped. */
  ghost predicate Upserted(t: Tables, u: Tables, a: Registration, parent: Option<nat>, item: nat) {
    if a.spec.id in t.mapped then
      SameRows(t, u) && item == t.mapped[a.spec.id].item
    else
      && !ItemTaken(t.mapped, item)
      && u.mapped == t.mapped[a.spec.id := Mapping(a.owner, item)]
      && ReferenceOk(t.items, parent)
      && if item in t.items then
           && u.lastId == t.lastId
           && Fits(t.items[item], a.spec, parent)
           && (forall id :: id in t.items && Fits(t.items[id], a.spec, parent) ==> item <= id)
           && u.items == t.items[item := t.items[item].(parent := parent)]
         else
           && (forall id :: id in t.items ==> !Fits(t.items[id], a.spec, parent))
           && item == u.lastId == t.lastId + 1 && item in u.items
           && u.items == t.items[item := u.items[item]]
           && IsNewRow(u.items[item], a.spec) && u.items[item].parent == parent
  }

  lemma UpsertEffect(e: Engine, t: Tables, a: Registration, parent: Option<nat>)
    requires TablesOk(t)
    ensures var s := Upsert(e, t, a, parent);
      s.result.Ok? ==> Upserted(t, s.after, a, parent, s.result.value)
  {
    LegacyRowIsFirst(t.items, a.spec, parent);
    forall row: MenuItem ensures Fits(row, a.spec, parent) <==> Adoptable(row, a.spec, parent) {
      FitsIsAdoptable(row, a.spec, parent);
    }
    NewItemIsNewRow(a.spec, parent);
    hide LegacyRow, Adoptable, Fits, NewItem, IsNewRow;
  }

  lemma FitsIsAdoptable(row: MenuItem, c: Contribution, parent: Option<nat>)
    ensures Fits(row, c, parent) <==> Adoptable(row, c, parent)
  {
  }

  lemma NewItemIsNewRow(c: Contribution, parent: Option<nat>)
    ensures IsNewRow(NewItem(c, parent), c) && NewItem(c, parent).parent == parent
  {
  }

  lemma LegacyRowIsFirst(items: map<nat, MenuItem>, c: Contribution, parent: Option<nat>)
    ensures var row := LegacyRow(items, c, parent);
      && (row.Some? ==> row.value in items && Adoptable(items[row.value], c, parent))
      && forall id :: id in items && Adoptable(items[id], c, parent) ==> row.Some? && row.value <= id
  {
    var adoptable := set id | id in items && Adoptable(items[id], c, parent);
    assert LegacyRow(items, c, parent) == LeastId(adoptable);
    forall id | id in items && Adoptable(items[id], c, parent) ensures id in adoptable {}
  }

  // ---- The worklist invariant --------------------------------------------------------------

  /** The row of a contribution first mapped in this run. */
  ghost predicate FreshRow(t0: Tables, t: Tables, cs: seq<Registration>, projected: map<string, nat>, a: Registration) {
    && a.spec.id in projected && projected[a.spec.id] in t.items && a.spec.id in t.mapped
    && var item := projected[a.spec.id];
    var row := t.items[item];
    && t.mapped[a.spec.id].owner == a.owner
    && (if Routed(a.spec) then HasRouteOf(row.route, a.spec) else row.caption == a.spec.caption)
    && (a.spec.parent.None? ==> row.parent.None?)
    && (HasActiveParent(a, Ids(cs))
        ==> a.spec.parent.value in projected && row.parent == Some(projected[a.spec.parent.value]))
    && (item !in t0.items ==> IsNewRow(row, a.spec))
    && (Routed(a.spec) ==> FirstWithRoute(t.items, row.route, item))
  }

  /** No row before `item` has the route. */
  ghost predicate FirstWithRoute(items: map<nat, MenuItem>, route: Option<string>, item: nat) {
    forall id :: id in items && items[id].route == route ==> item <= id
  }

  /** Everything the worklist has established after placing `projected`, starting from `t0`. */
  ghost predicate PlacedSoFar(t0: Tables, t: Tables, cs: seq<Registration>, projected: map<string, nat>) {
    && MappingsKept(t0, t, projected)
    && projected.Keys <= Ids(cs)
    && FreshRows(t0, t, cs, projected)
    && OldRowsKept(t0, t)
    && LegacyRows(t0, t, cs, projected)
  }

  /** The contribution asks for a parent that is not active. */
  ghost predicate HasInactiveParent(a: Registration, active: set<string>) {
    a.spec.parent.Some? && a.spec.parent.value !in active
  }

  ghost predicate UnderSystem(items: map<nat, MenuItem>, parent: Option<nat>) {
    parent.Some? && parent.value in items && items[parent.value].caption == "System"
  }

  /** Rows first mapped in this run whose contribution asks for an inactive parent, which can only be
      the host's System entry, lie under a row labelled System. */
  ghost predicate LegacyRows(t0: Tables, t: Tables, cs: seq<Registration>, projected: map<string, nat>)
    requires projected.Keys <= Ids(cs)
  {
    forall c :: c in projected && c !in t0.mapped && HasInactiveParent(Registered(cs, c), Ids(cs)) ==>
      && projected[c] in t.items
      && UnderSystem(t.items, t.items[projected[c]].parent)
  }

  /** The parent handed to the upsert for a contribution with an inactive parent. */
  ghost predicate LegacyFits(items: map<nat, MenuItem>, cs: seq<Registration>, a: Registration, parent: Option<nat>) {
    HasInactiveParent(a, Ids(cs)) ==> a.spec.parent == Some("host-admin.system") && UnderSystem(items, parent)
  }

  /** The mapping only grows, by the contributions placed so far. */
  ghost predicate MappingsKept(t0: Tables, t: Tables, projected: map<string, nat>) {
    && t.mapped.Keys == t0.mapped.Keys + projected.Keys
    && (forall c :: c in t0.mapped ==> t.mapped[c] == t0.mapped[c])
    && (forall c :: c in projected ==> t.mapped[c].item == projected[c])
  }

  ghost predicate FreshRows(t0: Tables, t: Tables, cs: seq<Registration>, projected: map<string, nat>)
    requires projected.Keys <= Ids(cs)
  {
    forall c :: c in projected && c !in t0.mapped ==> FreshRow(t0, t, cs, projected, Registered(cs, c))
  }

  /** No row is lost, ids only grow, and a row changes only in its parent, and only when it was
      adopted in this run. Every row added in this run is mapped. */
  ghost predicate OldRowsKept(t0: Tables, t: Tables) {
    && t0.lastId <= t.lastId
    && (forall id :: id in t0.items ==> id in t.items && t.items[id] == t0.items[id].(parent := t.items[id].parent))
    && (forall id :: id in t0.items && t.items[id].parent != t0.items[id].parent ==> NewlyMapped(t0, t, id))
    && (forall id :: id in t.items && id !in t0.items ==> id > t0.lastId && NewlyMapped(t0, t, id))
  }

  ghost predicate NewlyMapped(t0: Tables, t: Tables, id: nat) {
    exists c :: c in t.mapped && c !in t0.mapped && t.mapped[c].item == id
  }

  /** The parent handed to the upsert is the one the contribution asks for. */
  ghost predicate ParentFits(cs: seq<Registration>, projected: map<string, nat>, a: Registration, parent: Option<nat>) {
    && (a.spec.parent.None? ==> parent.None?)
    && (HasActiveParent(a, Ids(cs))
        ==> a.spec.parent.value in projected && parent == Some(projected[a.spec.parent.value]))
  }

  lemma UpsertKeepsOldRows(t0: Tables, t: Tables, u: Tables, a: Registration, parent: Option<nat>, item: nat)
    requires TablesOk(t0) && TablesOk(t) && OldRowsKept(t0, t)
    requires Upserted(t, u, a, parent, item)
    requires a.spec.id !in t.mapped ==> a.spec.id !in t0.mapped
    ensures OldRowsKept(t0, u)
  {
    if a.spec.id !in t.mapped {
      NewlyMappedStays(t0, t, u, a, item);
      UpsertedRows(t, u, a, parent, item);
      hide Upserted, TablesOk;
      KeptThrough(t0, t, u, item);
    }
  }

  /** One more row touched keeps what was kept, when that row counts as mapped in the run. */
  lemma KeptThrough(t0: Tables, t: Tables, u: Tables, item: nat)
    requires OldRowsKept(t0, t) && t.lastId <= u.lastId
    requires NewlyMapped(t0, u, item) && forall id :: NewlyMapped(t0, t, id) ==> NewlyMapped(t0, u, id)
    requires forall id :: id in t.items ==>
               && id in u.items && u.items[id] == t.items[id].(parent := u.items[id].parent)
               && (id != item ==> u.items[id] == t.items[id])
    requires forall id :: id in u.items && id !in t.items ==> id == item == t.lastId + 1
    ensures OldRowsKept(t0, u)
  {
    hide NewlyMapped;
    forall id | id in t0.items ensures id in u.items && u.items[id] == t0.items[id].(parent := u.items[id].parent) {
      assert id in t.items;
    }
    forall id | id in t0.items && u.items[id].parent != t0.items[id].parent ensures NewlyMapped(t0, u, id) {
      assert id != item ==> u.items[id] == t.items[id];
    }
  }

  /** An upsert touches one row, in its parent only unless it is new. */
  lemma UpsertedRows(t: Tables, u: Tables, a: Registration, parent: Option<nat>, item: nat)
    requires Upserted(t, u, a, parent, item)
    ensures t.lastId <= u.lastId
    ensures forall id :: id in t.items ==>
              && id in u.items && u.items[id] == t.items[id].(parent := u.items[id].parent)
              && (id != item ==> u.items[id] == t.items[id])
    ensures forall id :: id in u.items && id !in t.items ==> id == item == t.lastId + 1
  {
    hide Fits, IsNewRow;
  }

  lemma NewlyMappedStays(t0: Tables, t: Tables, u: Tables, a: Registration, item: nat)
    requires a.spec.id !in t.mapped && a.spec.id !in t0.mapped
    requires u.mapped == t.mapped[a.spec.id := Mapping(a.owner, item)]
    ensures NewlyMapped(t0, u, item) && forall id :: NewlyMapped(t0, t, id) ==> NewlyMapped(t0, u, id)
  {
    assert u.mapped[a.spec.id].item == item;
    forall id | NewlyMapped(t0, t, id) ensures NewlyMapped(t0, u, id) {
      var c :| c in t.mapped && c !in t0.mapped && t.mapped[c].item == id;
      assert u.mapped[c].item == id;
    }
  }

  lemma UpsertKeepsFreshRow(t0: Tables, t: Tables, u: Tables, cs: seq<Registration>, projected: map<string, nat>,
                            a: Registration, parent: Option<nat>, item: nat, b: Registration)
    requires TablesOk(t) && FreshRow(t0, t, cs, projected, b)
    requires b.spec.id in projected && t.mapped[b.spec.id].item == projected[b.spec.id]
    requires Upserted(t, u, a, parent, item) && a.spec.id !in projected
    ensures FreshRow(t0, u, cs, projected[a.spec.id := item], b)
  {
  }

  lemma UpsertMakesFreshRow(t0: Tables, t: Tables, u: Tables, cs: seq<Registration>, projected: map<string, nat>,
                            a: Registration, parent: Option<nat>, item: nat)
    requires Upserted(t, u, a, parent, item) && a.spec.id !in projected && a.spec.id !in t.mapped
    requires ParentFits(cs, projected, a, parent)
    requires OldRowsKept(t0, t)
    ensures FreshRow(t0, u, cs, projected[a.spec.id := item], a)
  {
  }

  lemma UpsertKeepsMappings(t0: Tables, t: Tables, u: Tables, projected: map<string, nat>,
                            a: Registration, parent: Option<nat>, item: nat)
    requires MappingsKept(t0, t, projected) && Upserted(t, u, a, parent, item)
    ensures MappingsKept(t0, u, projected[a.spec.id := item])
  {
  }

  lemma {:induction false} UpsertKeepsFreshRows(t0: Tables, t: Tables, u: Tables, cs: seq<Registration>,
                                                projected: map<string, nat>,
                                                a: Registration, parent: Option<nat>, item: nat)
    requires DistinctIds(cs) && a in cs && a.spec.id !in projected && projected.Keys <= Ids(cs)
    requires TablesOk(t) && MappingsKept(t0, t, projected) && FreshRows(t0, t, cs, projected) && OldRowsKept(t0, t)
    requires Upserted(t, u, a, parent, item) && ParentFits(cs, projected, a, parent)
    ensures FreshRows(t0, u, cs, projected[a.spec.id := item])
  {
    var wider := projected[a.spec.id := item];
    RegisteredIs(cs, a);
    forall c | c in wider && c !in t0.mapped ensures FreshRow(t0, u, cs, wider, Registered(cs, c)) {
      if c == a.spec.id {
        UpsertMakesFreshRow(t0, t, u, cs, projected, a, parent, item);
      } else {
        UpsertKeepsFreshRow(t0, t, u, cs, projected, a, parent, item, Registered(cs, c));
      }
    }
  }

  lemma {:induction false} UpsertKeepsLegacyRows(t0: Tables, t: Tables, u: Tables, cs: seq<Registration>,
                                                 projected: map<string, nat>,
                                                 a: Registration, parent: Option<nat>, item: nat)
    requires DistinctIds(cs) && a in cs && a.spec.id !in projected && projected.Keys <= Ids(cs)
    requires MappingsKept(t0, t, projected) && LegacyRows(t0, t, cs, projected)
    requires Upserted(t, u, a, parent, item) && LegacyFits(t.items, cs, a, parent)
    requires TablesOk(t)
    ensures LegacyRows(t0, u, cs, projected[a.spec.id := item])
  {
    var wider := projected[a.spec.id := item];
    RegisteredIs(cs, a);
    hide FreshRows, DistinctIds, Fits, IsNewRow;
    forall c | c in wider && c !in t0.mapped && HasInactiveParent(Registered(cs, c), Ids(cs))
      ensures wider[c] in u.items && UnderSystem(u.items, u.items[wider[c]].parent)
    {
      if c == a.spec.id {
        CaptionsStay(t, u, a, parent, item, parent);
      } else {
        assert t.mapped[c].item == projected[c];
        CaptionsStay(t, u, a, parent, item, t.items[projected[c]].parent);
      }
    }
  }

  lemma CaptionsStay(t: Tables, u: Tables, a: Registration, parent: Option<nat>, item: nat, above: Option<nat>)
    requires TablesOk(t) && Upserted(t, u, a, parent, item) && UnderSystem(t.items, above)
    ensures UnderSystem(u.items, above)
  {
    hide Fits, IsNewRow;
  }

  lemma {:induction false} UpsertKeepsPlaced(t0: Tables, t: Tables, u: Tables, cs: seq<Registration>,
                                             projected: map<string, nat>,
                                             a: Registration, parent: Option<nat>, item: nat)
    requires DistinctIds(cs) && a in cs && a.spec.id !in projected
    requires TablesOk(t0) && TablesOk(t) && PlacedSoFar(t0, t, cs, projected)
    requires Upserted(t, u, a, parent, item) && ParentFits(cs, projected, a, parent)
    requires LegacyFits(t.items, cs, a, parent)
    ensures PlacedSoFar(t0, u, cs, projected[a.spec.id := item])
  {
    UpsertKeepsOldRows(t0, t, u, a, parent, item);
    UpsertKeepsMappings(t0, t, u, projected, a, parent, item);
    UpsertKeepsFreshRows(t0, t, u, cs, projected, a, parent, item);
    UpsertKeepsLegacyRows(t0, t, u, cs, projected, a, parent, item);
    hide TablesOk, MappingsKept, FreshRows, OldRowsKept, LegacyRows, Upserted, DistinctIds;
  }

  // ---- Errors ------------------------------------------------------------------------------

  /** The row carries the route of the contribution, or, without a route, its label. */
  ghost predicate Claims(a: Registration, row: MenuItem) {
    if Routed(a.spec) then HasRouteOf(row.route, a.spec) else row.caption == a.spec.caption
  }

  /** A top-level row labelled System. */
  ghost predicate HasSystemRow(items: map<nat, MenuItem>) {
    exists id :: id in items && items[id].caption == "System" && items[id].parent.None?
  }

  /** Why a run that stops in tables `t` stopped. */
  ghost predicate ErrorExplained(e: Engine, cs: seq<Registration>, t: Tables, error: MenuError) {
    match error
    case StorageFailed => exists n: nat :: e.fails(n)
    case UniqueViolated =>
      exists a, c :: a in cs && a.spec.id !in t.mapped && c in t.mapped && t.mapped[c].item in t.items
                     && Claims(a, t.items[t.mapped[c].item])
    case ForeignKeyViolated => false
    case UnknownParent(id, p) =>
      && (exists a :: a in cs && a.spec.id == id && a.spec.parent == Some(p))
      && p !in Ids(cs)
      && (p == "host-admin.system" ==> !HasSystemRow(t.items))
    case UnresolvedParent => HasCycle(ActiveParents(cs))
  }

  lemma UpsertError(e: Engine, t: Tables, cs: seq<Registration>, a: Registration, parent: Option<nat>)
    requires TablesOk(t) && a in cs && ReferenceOk(t.items, parent)
    ensures var s := Upsert(e, t, a, parent);
      s.result.Err? ==> ErrorExplained(e, cs, s.after, s.result.error) && !s.result.error.UnresolvedParent?
  {
    var s := Upsert(e, t, a, parent);
    if s.result == Err(UniqueViolated) {
      var row := LegacyRow(t.items, a.spec, parent);
      assert forall c :: c in t.mapped ==> t.mapped[c].item != t.lastId + 1;
      assert row.Some?;
      var c :| c in t.mapped && t.mapped[c].item == row.value;
      assert Claims(a, s.after.items[s.after.mapped[c].item]);
    }
  }

  lemma LegacyLookupError(e: Engine, t: Tables, cs: seq<Registration>, a: Registration, p: string)
    requires TablesOk(t) && a in cs && a.spec.parent == Some(p) && p !in Ids(cs)
    ensures var found := FindLegacyParent(e, t, p);
      match found.result
      case Err(error) => ErrorExplained(e, cs, found.after, error) && !error.UnresolvedParent?
      case Ok(None) => ErrorExplained(e, cs, found.after, UnknownParent(a.spec.id, p))
      case Ok(Some(row)) => row in t.items && TablesOk(found.after) && found.after.items == t.items
  {
  }

  lemma PlaceError(e: Engine, t: Tables, cs: seq<Registration>, projected: map<string, nat>, a: Registration)
    requires TablesOk(t) && a in cs
    requires forall c :: c in projected ==> projected[c] in t.items
    ensures var s := Place(e, t, Ids(cs), projected, a);
      s.result.Err? ==> ErrorExplained(e, cs, s.after, s.result.error) && !s.result.error.UnresolvedParent?
  {
    hide TablesOk, ErrorExplained, Upsert;
    match a.spec.parent
    case None => UpsertError(e, t, cs, a, None);
    case Some(p) =>
      if p in projected {
        UpsertError(e, t, cs, a, Some(projected[p]));
      } else if p !in Ids(cs) {
        LegacyLookupError(e, t, cs, a, p);
        var found := FindLegacyParent(e, t, p);
        if found.result.Ok? && found.result.value.Some? {
          UpsertError(e, found.after, cs, a, found.result.value);
        }
      }
  }

  // ---- Rounds -----------------------------------------------------------------------------

  ghost predicate RankOk(cs: seq<Registration>, projected: map<string, nat>, rank: map<string, nat>) {
    && rank.Keys == projected.Keys
    && ParentsFirst(ActiveParents(cs), rank)
    && (forall c :: c in rank ==> rank[c] < |rank|)
  }

  ghost predicate SystemParentsOnly(cs: seq<Registration>, ids: set<string>)
    requires ids <= Ids(cs)
  {
    forall c :: c in ids ==>
      var p := Registered(cs, c).spec.parent;
      p.Some? && p.value !in Ids(cs) ==> p.value == "host-admin.system"
  }

  /** The invariant of the whole worklist; `rank` witnesses that parents were placed first. */
  ghost predicate RunInv(t0: Tables, t: Tables, cs: seq<Registration>, projected: map<string, nat>,
                         rank: map<string, nat>) {
    && TablesOk(t0) && TablesOk(t)
    && PlacedSoFar(t0, t, cs, projected)
    && RankOk(cs, projected, rank)
    && SystemParentsOnly(cs, projected.Keys)
  }

  /** `rest` is what is still to be placed. */
  ghost predicate Remaining(cs: seq<Registration>, projected: map<string, nat>, rest: seq<Registration>) {
    && DistinctIds(rest)
    && (forall a :: a in rest ==> a in cs && a.spec.id !in projected)
    && Ids(cs) == projected.Keys + Ids(rest)
  }

  lemma PlaceEffect(e: Engine, t: Tables, cs: seq<Registration>, projected: map<string, nat>, a: Registration)
      returns (parent: Option<nat>)
    requires TablesOk(t)
    ensures var s := Place(e, t, Ids(cs), projected, a);
      && (s.result == Ok(Deferred) ==>
           s.after == t && HasActiveParent(a, Ids(cs)) && a.spec.parent.value !in projected)
      && (s.result.Ok? && s.result.value.Placed? ==>
           && Upserted(t, s.after, a, parent, s.result.value.item)
           && ParentFits(cs, projected, a, parent)
           && (projected.Keys <= Ids(cs) ==> LegacyFits(t.items, cs, a, parent))
           && (projected.Keys <= Ids(cs) && HasInactiveParent(a, Ids(cs)) ==> HasSystemRow(t.items)))
  {
    match a.spec.parent
    case None =>
      parent := None;
      UpsertEffect(e, t, a, None);
    case Some(p) =>
      if p in projected {
        parent := Some(projected[p]);
        UpsertEffect(e, t, a, parent);
      } else if p in Ids(cs) {
        parent := None;
      } else {
        var found := FindLegacyParent(e, t, p);
        parent := if found.result.Ok? then found.result.value else None;
        UpsertEffect(e, found.after, a, parent);
      }
  }

  lemma ParentsFirstExtends(up: map<string, string>, rank: map<string, nat>, x: string)
    requires ParentsFirst(up, rank) && x !in rank && (forall c :: c in rank ==> rank[c] < |rank|)
    requires x in up ==> up[x] in rank
    ensures ParentsFirst(up, rank[x := |rank|])
    ensures var wider := rank[x := |rank|]; forall c :: c in wider ==> wider[c] < |wider|
  {
    var wider := rank[x := |rank|];
    assert wider.Keys == rank.Keys + {x};
    assert |wider| == |wider.Keys| == |rank.Keys| + 1;
  }

  lemma RankExtends(cs: seq<Registration>, projected: map<string, nat>, rank: map<string, nat>, a: Registration,
                    parent: Option<nat>, item: nat)
    requires DistinctIds(cs) && a in cs && a.spec.id !in projected
    requires RankOk(cs, projected, rank) && ParentFits(cs, projected, a, parent)
    ensures RankOk(cs, projected[a.spec.id := item], rank[a.spec.id := |rank|])
  {
    var up := ActiveParents(cs);
    assert a.spec.id in up ==> up[a.spec.id] in rank by { RegisteredIs(cs, a); }
    ParentsFirstExtends(up, rank, a.spec.id);
  }

  lemma SystemParentsExtends(cs: seq<Registration>, ids: set<string>, a: Registration)
    requires DistinctIds(cs) && a in cs && ids <= Ids(cs) && SystemParentsOnly(cs, ids)
    requires a.spec.parent.Some? && a.spec.parent.value !in Ids(cs) ==> a.spec.parent.value == "host-admin.system"
    ensures ids + {a.spec.id} <= Ids(cs) && SystemParentsOnly(cs, ids + {a.spec.id})
  {
    RegisteredIs(cs, a);
  }

  lemma UpsertKeepsRunInv(t0: Tables, t: Tables, u: Tables, cs: seq<Registration>, projected: map<string, nat>,
                          rank: map<string, nat>, a: Registration, parent: Option<nat>, item: nat)
    requires DistinctIds(cs) && a in cs && a.spec.id !in projected
    requires RunInv(t0, t, cs, projected, rank)
    requires TablesOk(u)
    requires Upserted(t, u, a, parent, item) && ParentFits(cs, projected, a, parent)
    requires LegacyFits(t.items, cs, a, parent)
    ensures RunInv(t0, u, cs, projected[a.spec.id := item], rank[a.spec.id := |rank|])
  {
    hide TablesOk, MappingsKept, FreshRows, OldRowsKept, RankOk, Upserted, ParentFits, DistinctIds;
    var wider := projected[a.spec.id := item];
    assert PlacedSoFar(t0, u, cs, wider) by {
      UpsertKeepsPlaced(t0, t, u, cs, projected, a, parent, item);
    }
    assert RankOk(cs, wider, rank[a.spec.id := |rank|]) by {
      RankExtends(cs, projected, rank, a, parent, item);
    }
    assert SystemParentsOnly(cs, wider.Keys) by {
      SystemParentsExtends(cs, projected.Keys, a);
      assert wider.Keys == projected.Keys + {a.spec.id};
    }
  }

  lemma {:induction false} PlaceKeepsRunInv(e: Engine, t0: Tables, t: Tables, cs: seq<Registration>,
                                            projected: map<string, nat>, rank: map<string, nat>, a: Registration)
    requires DistinctIds(cs) && a in cs && a.spec.id !in projected
    requires RunInv(t0, t, cs, projected, rank)
    ensures var s := Place(e, t, Ids(cs), projected, a);
      s.result.Ok? && s.result.value.Placed? ==>
        RunInv(t0, s.after, cs, projected[a.spec.id := s.result.value.item], rank[a.spec.id := |rank|])
  {
    var s := Place(e, t, Ids(cs), projected, a);
    var parent := PlaceEffect(e, t, cs, projected, a);
    if s.result.Ok? && s.result.value.Placed? {
      PlaceKeepsTablesOk(e, t, Ids(cs), projected, a);
      UpsertKeepsRunInv(t0, t, s.after, cs, projected, rank, a, parent, s.result.value.item);
    }
  }

  lemma ProjectedRowsExist(t0: Tables, t: Tables, cs: seq<Registration>, projected: map<string, nat>,
                           rank: map<string, nat>)
    requires RunInv(t0, t, cs, projected, rank)
    ensures forall c :: c in projected ==> projected[c] in t.items
  {
  }

  lemma FirstRemaining(cs: seq<Registration>, projected: map<string, nat>, deferred: seq<Registration>,
                       todo: seq<Registration>)
    requires todo != [] && Remaining(cs, projected, deferred + todo)
    ensures todo[0] in cs && todo[0].spec.id !in projected
  {
    assert (deferred + todo)[|deferred|] == todo[0];
  }

  lemma RemainingAfterPlacing(cs: seq<Registration>, projected: map<string, nat>, item: nat,
                              deferred: seq<Registration>, todo: seq<Registration>)
    requires todo != [] && Remaining(cs, projected, deferred + todo)
    ensures Remaining(cs, projected[todo[0].spec.id := item], deferred + todo[1..])
  {
    var rest := deferred + todo;
    var fewer := deferred + todo[1..];
    assert rest[|deferred|] == todo[0];
    forall i | 0 <= i < |fewer| ensures fewer[i] == rest[if i < |deferred| then i else i + 1] {
    }
    assert forall a :: a in rest <==> a == todo[0] || a in fewer;
    assert forall a :: a in fewer ==> a.spec.id != todo[0].spec.id;
  }

  lemma {:induction false} RoundKeepsRunInv(e: Engine, t0: Tables, t: Tables, cs: seq<Registration>, w: Worklist,
                                            todo: seq<Registration>, rank: map<string, nat>)
      returns (rank': map<string, nat>)
    requires DistinctIds(cs)
    requires RunInv(t0, t, cs, w.projected, rank) && Remaining(cs, w.projected, w.deferred + todo)
    ensures var s := Round(e, t, Ids(cs), w, todo);
      s.result.Ok? ==>
        && RunInv(t0, s.after, cs, s.result.value.projected, rank')
        && Remaining(cs, s.result.value.projected, s.result.value.deferred)
    ensures var s := Round(e, t, Ids(cs), w, todo);
      s.result.Err? ==> ErrorExplained(e, cs, s.after, s.result.error) && !s.result.error.UnresolvedParent?
    decreases |todo|
  {
    hide TablesOk, PlacedSoFar, RankOk, SystemParentsOnly, Remaining, DistinctIds, Place, ErrorExplained;
    rank' := rank;
    if todo == [] {
      assert w.deferred + todo == w.deferred;
    } else {
      var s := Place(e, t, Ids(cs), w.projected, todo[0]);
      FirstRemaining(cs, w.projected, w.deferred, todo);
      match s.result
      case Err(_) =>
        ProjectedRowsExist(t0, t, cs, w.projected, rank);
        PlaceError(e, t, cs, w.projected, todo[0]);
      case Ok(Deferred) =>
        var _ := PlaceEffect(e, t, cs, w.projected, todo[0]);
        assert w.deferred + [todo[0]] + todo[1..] == w.deferred + todo;
        rank' := RoundKeepsRunInv(e, t0, s.after, cs, w.(deferred := w.deferred + [todo[0]]), todo[1..], rank);
      case Ok(Placed(item)) =>
        RemainingAfterPlacing(cs, w.projected, item, w.deferred, todo);
        PlaceKeepsRunInv(e, t0, t, cs, w.projected, rank, todo[0]);
        rank' := RoundKeepsRunInv(e, t0, s.after, cs, w.(projected := w.projected[todo[0].spec.id := item]), todo[1..],
                                  rank[todo[0].spec.id := |rank|]);
    }
  }

  /** A round that defers everything changes nothing, and everything it saw waits for an active
      contribution that is not placed. */
  lemma {:induction false} StuckRound(e: Engine, t: Tables, cs: seq<Registration>, w: Worklist, todo: seq<Registration>)
    requires TablesOk(t)
    requires Round(e, t, Ids(cs), w, todo).result.Ok?
    requires |Round(e, t, Ids(cs), w, todo).result.value.deferred| == |w.deferred| + |todo|
    ensures forall a :: a in todo ==> HasActiveParent(a, Ids(cs)) && a.spec.parent.value !in w.projected
    decreases |todo|
  {
    if todo == [] {
    } else {
      var s := Place(e, t, Ids(cs), w.projected, todo[0]);
      if s.result == Ok(Deferred) {
        var _ := PlaceEffect(e, t, cs, w.projected, todo[0]);
        StuckRound(e, s.after, cs, w.(deferred := w.deferred + [todo[0]]), todo[1..]);
        assert forall a :: a in todo ==> a == todo[0] || a in todo[1..];
      }
    }
  }

  lemma {:induction false} StuckPendingWaits(cs: seq<Registration>, projected: map<string, nat>,
                                             pending: seq<Registration>)
    requires Remaining(cs, projected, pending)
    requires forall a :: a in pending ==> HasActiveParent(a, Ids(cs)) && a.spec.parent.value !in projected
    ensures AllWait(pending)
  {
    forall a | a in pending ensures HasActiveParent(a, Ids(pending)) {
      assert a.spec.parent.value in projected.Keys + Ids(pending);
    }
  }

  lemma {:induction false} RoundsOutcome(e: Engine, t0: Tables, t: Tables, cs: seq<Registration>,
                                         projected: map<string, nat>,
                                         pending: seq<Registration>, rank: map<string, nat>)
      returns (rank': map<string, nat>)
    requires DistinctIds(cs)
    requires RunInv(t0, t, cs, projected, rank) && Remaining(cs, projected, pending)
    ensures var s := Rounds(e, t, Ids(cs), projected, pending);
      && (s.result.Ok? ==> RunInv(t0, s.after, cs, s.result.value, rank') && s.result.value.Keys == Ids(cs))
      && (s.result.Err? ==> ErrorExplained(e, cs, s.after, s.result.error))
    decreases |pending|
  {
    hide TablesOk, PlacedSoFar, RankOk, SystemParentsOnly, Place, Round, ErrorExplained, HasSystemRow;
    rank' := rank;
    if pending == [] {
      assert Ids(pending) == {};
    } else {
      var w := Worklist(projected, []);
      assert [] + pending == pending;
      var s := Round(e, t, Ids(cs), w, pending);
      var rank1 := RoundKeepsRunInv(e, t0, t, cs, w, pending, rank);
      if s.result.Ok? {
        if |s.result.value.deferred| == |pending| {
          StuckRound(e, t, cs, w, pending);
          StuckIsExplained(e, cs, s.after, projected, pending);
        } else {
          rank' := RoundsOutcome(e, t0, s.after, cs, s.result.value.projected, s.result.value.deferred, rank1);
        }
      }
    }
  }

  lemma StuckIsExplained(e: Engine, cs: seq<Registration>, t: Tables, projected: map<string, nat>,
                         pending: seq<Registration>)
    requires DistinctIds(cs) && Remaining(cs, projected, pending) && pending != []
    requires forall a :: a in pending ==> HasActiveParent(a, Ids(cs)) && a.spec.parent.value !in projected
    ensures ErrorExplained(e, cs, t, UnresolvedParent)
  {
    StuckPendingWaits(cs, projected, pending);
    StuckProvesCycle(cs, pending);
  }
}

/** The runtime menu projection of routes/menu.rs, as functions over its two tables.

    `menu_items` and `runtime_menu_items` are maps. Every SQL statement is one step: it
    advances the clock, and it fails without effect when the engine says so. */
module MenuModel {
  import opened Wrappers

  datatype Contribution = Contribution(
    id: string, caption: string, icon: Option<string>, position: int,
    parent: Option<string>, route: Option<string>)

  /** A contribution together with the plugin instance that owns it. */
  datatype Registration = Registration(spec: Contribution, owner: string)

  datatype MenuItem = MenuItem(
    caption: string, icon: Option<string>, position: int,
    parent: Option<nat>, route: Option<string>, hidden: bool)

  datatype Mapping = Mapping(owner: string, item: nat)

  datatype Tables = Tables(
    items: map<nat, MenuItem>, mapped: map<string, Mapping>, lastId: nat, clock: nat)

  datatype MenuError =
    | StorageFailed
    | UniqueViolated
    | ForeignKeyViolated
    | UnknownParent(id: string, parent: string)
    | UnresolvedParent

  /** What the model does not decide: which steps fail, and in which order a table scan
      without ORDER BY returns its rows. */
  datatype Engine = Engine(fails: nat -> bool, scan: set<string> -> seq<string>)

  datatype Step<+T> = Step(after: Tables, result: Result<T, MenuError>)

  ghost predicate Enumerates(names: seq<string>, s: set<string>) {
    && (forall i, j :: 0 <= i < j < |names| ==> names[i] != names[j])
    && (forall x :: x in names <==> x in s)
  }

  ghost predicate ValidEngine(e: Engine) {
    forall s: set<string> :: Enumerates(e.scan(s), s)
  }

  ghost predicate NeverFails(e: Engine) {
    forall n: nat :: !e.fails(n)
  }

  function Tick(t: Tables): Tables {
    t.(clock := t.clock + 1)
  }

  // ---- Lookups -------------------------------------------------------------------------

  lemma {:induction false} LeastExists(s: set<nat>) returns (m: nat)
    requires s != {}
    ensures m in s && forall x :: x in s ==> m <= x
  {
    var y :| y in s;
    m := y;
    if s != {y} {
      var rest := LeastExists(s - {y});
      m := if rest <= y then rest else y;
      assert forall x :: x in s ==> x == y || x in s - {y};
    }
  }

  /** ORDER BY id LIMIT 1. */
  function LeastId(s: set<nat>): (r: Option<nat>)
    ensures r.None? <==> s == {}
    ensures r.Some? ==> r.value in s && forall x :: x in s ==> r.value <= x
  {
    if s == {} then None
    else
      assert exists m :: m in s && forall x :: x in s ==> m <= x by { var _ := LeastExists(s); }
      var m :| m in s && forall x :: x in s ==> m <= x;
      Some(m)
  }

  const SYSTEM_ID := "host-admin.system"

  predicate IsSystemRoot(item: MenuItem) {
    item.caption == "System" && item.parent == None
  }

  function SystemRoot(items: map<nat, MenuItem>): (r: Option<nat>)
    ensures r.None? ==> forall id :: id in items ==> !IsSystemRoot(items[id])
    ensures r.Some? ==> r.value in items && IsSystemRoot(items[r.value])
    ensures r.Some? ==> forall id :: id in items && IsSystemRoot(items[id]) ==> r.value <= id
  {
    var s := set id | id in items && IsSystemRoot(items[id]);
    assert forall id :: id in items && IsSystemRoot(items[id]) ==> id in s;
    LeastId(s)
  }

  function EffectiveRoute(c: Contribution): Option<string> {
    if c.route.Some? then c.route
    else if c.id == SYSTEM_ID then Some("/admin/system")
    else None
  }

  /** The row an unmapped contribution adopts: same route, or, without a route, same label
      under the same parent. */
  predicate Adoptable(row: MenuItem, c: Contribution, parent: Option<nat>) {
    match EffectiveRoute(c)
    case Some(route) => row.route == Some(route)
    case None => row.caption == c.caption && row.parent == parent
  }

  function LegacyRow(items: map<nat, MenuItem>, c: Contribution, parent: Option<nat>): Option<nat> {
    LeastId(set id | id in items && Adoptable(items[id], c, parent))
  }

  // ---- Statements ----------------------------------------------------------------------

  predicate ReferenceOk(items: map<nat, MenuItem>, parent: Option<nat>) {
    parent.Some? ==> parent.value in items
  }

  function SetParent(e: Engine, t: Tables, id: nat, parent: Option<nat>): Step<()>
    requires id in t.items
  {
    if e.fails(t.clock) then Step(Tick(t), Err(StorageFailed))
    else if !ReferenceOk(t.items, parent) then Step(Tick(t), Err(ForeignKeyViolated))
    else Step(Tick(t.(items := t.items[id := t.items[id].(parent := parent)])), Ok(()))
  }

  function NewItem(c: Contribution, parent: Option<nat>): MenuItem {
    MenuItem(c.caption, c.icon, c.position, parent, EffectiveRoute(c), false)
  }

  function InsertItem(e: Engine, t: Tables, item: MenuItem): Step<nat> {
    if e.fails(t.clock) then Step(Tick(t), Err(StorageFailed))
    else if !ReferenceOk(t.items, item.parent) then Step(Tick(t), Err(ForeignKeyViolated))
    else
      var id := t.lastId + 1;
      Step(Tick(t.(items := t.items[id := item], lastId := id)), Ok(id))
  }

  predicate ItemTaken(mapped: map<string, Mapping>, id: nat) {
    exists c :: c in mapped && mapped[c].item == id
  }

  function RecordMapping(e: Engine, t: Tables, c: string, row: Mapping): Step<nat> {
    if e.fails(t.clock) then Step(Tick(t), Err(StorageFailed))
    else if c in t.mapped || ItemTaken(t.mapped, row.item) then Step(Tick(t), Err(UniqueViolated))
    else Step(Tick(t.(mapped := t.mapped[c := row])), Ok(row.item))
  }

  function DeleteMapping(e: Engine, t: Tables, c: string): Step<()> {
    if e.fails(t.clock) then Step(Tick(t), Err(StorageFailed))
    else Step(Tick(t.(mapped := t.mapped - {c})), Ok(()))
  }

  /** Deletes a row; children lose their parent and mappings of the row go with it. */
  function DeleteItem(e: Engine, t: Tables, id: nat): Step<()> {
    if e.fails(t.clock) then Step(Tick(t), Err(StorageFailed))
    else Step(
      Tick(t.(items := RemoveItems(t.items, {id}),
              mapped := map c | c in t.mapped && t.mapped[c].item != id :: t.mapped[c])),
      Ok(()))
  }

  function RemoveItems(items: map<nat, MenuItem>, gone: set<nat>): map<nat, MenuItem> {
    map id | id in items && id !in gone :: Orphaned(items[id], gone)
  }

  function Orphaned(item: MenuItem, gone: set<nat>): MenuItem {
    if item.parent.Some? && item.parent.value in gone then item.(parent := None) else item
  }

  // ---- One contribution ----------------------------------------------------------------

  function FindLegacyParent(e: Engine, t: Tables, id: string): Step<Option<nat>> {
    if id != SYSTEM_ID then Step(t, Ok(None))
    else if e.fails(t.clock) then Step(Tick(t), Err(StorageFailed))
    else Step(Tick(t), Ok(SystemRoot(t.items)))
  }

  function Adopt(e: Engine, t: Tables, a: Registration, parent: Option<nat>): Step<nat> {
    match LegacyRow(t.items, a.spec, parent)
    case Some(row) =>
      var aligned := SetParent(e, t, row, parent);
      if aligned.result.Err? then Step(aligned.after, Err(aligned.result.error))
      else RecordMapping(e, aligned.after, a.spec.id, Mapping(a.owner, row))
    case None =>
      var inserted := InsertItem(e, t, NewItem(a.spec, parent));
      if inserted.result.Err? then inserted
      else RecordMapping(e, inserted.after, a.spec.id, Mapping(a.owner, inserted.result.value))
  }

  function Upsert(e: Engine, t: Tables, a: Registration, parent: Option<nat>): Step<nat> {
    if e.fails(t.clock) then Step(Tick(t), Err(StorageFailed))
    else if a.spec.id in t.mapped then Step(Tick(t), Ok(t.mapped[a.spec.id].item))
    else if e.fails(t.clock + 1) then Step(Tick(Tick(t)), Err(StorageFailed))
    else Adopt(e, Tick(Tick(t)), a, parent)
  }

  function Ids(cs: seq<Registration>): set<string> {
    set a | a in cs :: a.spec.id
  }

  ghost predicate DistinctIds(cs: seq<Registration>) {
    forall i, j :: 0 <= i < j < |cs| ==> cs[i].spec.id != cs[j].spec.id
  }

  datatype Placement = Deferred | Placed(item: nat)

  /** The body of the inner loop: place one contribution, or put it off to the next round. */
  function Place(e: Engine, t: Tables, active: set<string>, projected: map<string, nat>,
                 a: Registration): Step<Placement>
  {
    match a.spec.parent
    case None => AsPlacement(Upsert(e, t, a, None))
    case Some(p) =>
      if p in projected then AsPlacement(Upsert(e, t, a, Some(projected[p])))
      else if p in active then Step(t, Ok(Deferred))
      else
        var found := FindLegacyParent(e, t, p);
        match found.result
        case Err(error) => Step(found.after, Err(error))
        case Ok(None) => Step(found.after, Err(UnknownParent(a.spec.id, p)))
        case Ok(Some(row)) => AsPlacement(Upsert(e, found.after, a, Some(row)))
  }

  function AsPlacement(s: Step<nat>): Step<Placement> {
    match s.result
    case Ok(id) => Step(s.after, Ok(Placed(id)))
    case Err(error) => Step(s.after, Err(error))
  }

  // ---- The worklist --------------------------------------------------------------------

  datatype Worklist = Worklist(projected: map<string, nat>, deferred: seq<Registration>)

  /** One pass over `todo`. */
  function Round(e: Engine, t: Tables, active: set<string>, w: Worklist, todo: seq<Registration>):
    (s: Step<Worklist>)
    ensures s.result.Ok? ==> |w.deferred| <= |s.result.value.deferred| <= |w.deferred| + |todo|
    decreases |todo|
  {
    if todo == [] then Step(t, Ok(w))
    else
      var s := Place(e, t, active, w.projected, todo[0]);
      match s.result
      case Err(error) => Step(s.after, Err(error))
      case Ok(Deferred) =>
        Round(e, s.after, active, w.(deferred := w.deferred + [todo[0]]), todo[1..])
      case Ok(Placed(item)) =>
        Round(e, s.after, active, w.(projected := w.projected[todo[0].spec.id := item]), todo[1..])
  }

  /** Rounds until nothing is pending, or until a round places nothing. */
  function Rounds(e: Engine, t: Tables, active: set<string>, projected: map<string, nat>,
                  pending: seq<Registration>): Step<map<string, nat>>
    decreases |pending|
  {
    if pending == [] then Step(t, Ok(projected))
    else
      var s := Round(e, t, active, Worklist(projected, []), pending);
      match s.result
      case Err(error) => Step(s.after, Err(error))
      case Ok(w) =>
        if |w.deferred| == |pending| then Step(s.after, Err(UnresolvedParent))
        else Rounds(e, s.after, active, w.projected, w.deferred)
  }

  datatype MappedRow = MappedRow(contribution: string, item: nat)

  /** Deletes every scanned row whose contribution is no longer active. */
  function Sweep(e: Engine, t: Tables, active: set<string>, rows: seq<MappedRow>): Step<()>
    decreases |rows|
  {
    if rows == [] then Step(t, Ok(()))
    else if rows[0].contribution in active then Sweep(e, t, active, rows[1..])
    else
      var unmapped := DeleteMapping(e, t, rows[0].contribution);
      if unmapped.result.Err? then unmapped
      else
        var deleted := DeleteItem(e, unmapped.after, rows[0].item);
        if deleted.result.Err? then deleted
        else Sweep(e, deleted.after, active, rows[1..])
  }

  function ScanRows(names: seq<string>, mapped: map<string, Mapping>): (rows: seq<MappedRow>)
    requires forall x :: x in names ==> x in mapped
  {
    seq(|names|, i requires 0 <= i < |names| => MappedRow(names[i], mapped[names[i]].item))
  }

  function SweepAll(e: Engine, t: Tables, active: set<string>): Step<()>
    requires Enumerates(e.scan(t.mapped.Keys), t.mapped.Keys)
  {
    if e.fails(t.clock) then Step(Tick(t), Err(StorageFailed))
    else Sweep(e, Tick(t), active, ScanRows(e.scan(t.mapped.Keys), t.mapped))
  }

  function Project(e: Engine, t: Tables, cs: seq<Registration>): Step<()>
    requires ValidEngine(e)
  {
    var placed := Rounds(e, t, Ids(cs), map[], cs);
    match placed.result
    case Err(error) => Step(placed.after, Err(error))
    case Ok(_) => SweepAll(e, placed.after, Ids(cs))
  }
}

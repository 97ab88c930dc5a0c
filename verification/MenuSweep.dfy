/** The sweep of stale mappings, in closed form. */
module MenuSweep {
  import opened Wrappers
  import opened MenuModel
  import opened MenuCycle
  import opened MenuProofs

  // ---- The sweep ---------------------------------------------------------------------------

  ghost function MappedItems(mapped: map<string, Mapping>, cs: set<string>): set<nat> {
    set c | c in cs && c in mapped :: mapped[c].item
  }

  /** The tables after every contribution of `stale` and its row are gone. */
  ghost function Swept(t: Tables, stale: set<string>): Tables {
    t.(items := RemoveItems(t.items, MappedItems(t.mapped, stale)), mapped := t.mapped - stale)
  }

  ghost predicate ScanOf(rows: seq<MappedRow>, mapped: map<string, Mapping>) {
    && (forall i :: 0 <= i < |rows| ==>
          rows[i].contribution in mapped && mapped[rows[i].contribution].item == rows[i].item)
    && (forall i, j :: 0 <= i < j < |rows| ==> rows[i].contribution != rows[j].contribution)
  }

  ghost function StaleRows(rows: seq<MappedRow>, active: set<string>): set<string> {
    set r | r in rows && r.contribution !in active :: r.contribution
  }

  lemma RemoveItemsTwice(items: map<nat, MenuItem>, first: set<nat>, second: set<nat>)
    ensures RemoveItems(RemoveItems(items, first), second) == RemoveItems(items, first + second)
  {
  }

  lemma DeleteOneMapped(e: Engine, t: Tables, c: string)
    requires TablesOk(t) && c in t.mapped
    ensures var unmapped := DeleteMapping(e, t, c);
      unmapped.result.Ok? ==>
        var deleted := DeleteItem(e, unmapped.after, t.mapped[c].item);
        deleted.result.Ok? ==> SameRows(deleted.after, Swept(t, {c}))
  {
    assert MappedItems(t.mapped, {c}) == {t.mapped[c].item};
  }

  lemma SweptTwice(t: Tables, u: Tables, c: string, rest: set<string>)
    requires c in t.mapped && c !in rest && SameRows(u, Swept(t, {c}))
    ensures SameRows(Swept(u, rest), Swept(t, {c} + rest))
  {
    var first := MappedItems(t.mapped, {c});
    var second := MappedItems(u.mapped, rest);
    assert first + second == MappedItems(t.mapped, {c} + rest);
    RemoveItemsTwice(t.items, first, second);
    assert t.mapped - {c} - rest == t.mapped - ({c} + rest);
  }

  lemma StaleRowsStep(rows: seq<MappedRow>, active: set<string>)
    requires rows != []
    ensures StaleRows(rows, active) ==
      if rows[0].contribution in active then StaleRows(rows[1..], active)
      else {rows[0].contribution} + StaleRows(rows[1..], active)
  {
    assert forall r :: r in rows <==> r == rows[0] || r in rows[1..];
  }

  lemma {:induction false} SweepEffect(e: Engine, t: Tables, active: set<string>, rows: seq<MappedRow>)
    requires TablesOk(t) && ScanOf(rows, t.mapped)
    ensures var s := Sweep(e, t, active, rows);
      && (s.result.Ok? ==> SameRows(s.after, Swept(t, StaleRows(rows, active))))
      && (s.result.Err? ==> s.result.error.StorageFailed? && exists n: nat :: e.fails(n))
    decreases |rows|
  {
    hide SameRows, Swept, TablesOk, StaleRows;
    var s := Sweep(e, t, active, rows);
    if rows == [] {
      SweptNothing(t);
      assert StaleRows(rows, active) == {} by { NoStaleRows(active); }
    } else if rows[0].contribution in active {
      SweepEffect(e, t, active, rows[1..]);
      StaleRowsStep(rows, active);
    } else {
      var unmapped := DeleteMapping(e, t, rows[0].contribution);
      if unmapped.result.Ok? {
        var deleted := DeleteItem(e, unmapped.after, rows[0].item);
        if deleted.result.Ok? {
          DeleteOneMapped(e, t, rows[0].contribution);
          SweptScan(t, deleted.after, rows);
          SweepEffect(e, deleted.after, active, rows[1..]);
          StaleRowsStep(rows, active);
          SweptRest(t, deleted.after, rows, active);
          if s.result.Ok? {
            SameRowsTransitive(s.after, Swept(deleted.after, StaleRows(rows[1..], active)),
                               Swept(t, StaleRows(rows, active)));
          }
        }
      }
    }
  }

  lemma NoStaleRows(active: set<string>)
    ensures StaleRows([], active) == {}
  {
  }

  lemma SweptRest(t: Tables, u: Tables, rows: seq<MappedRow>, active: set<string>)
    requires rows != [] && rows[0].contribution !in active && ScanOf(rows, t.mapped)
    requires SameRows(u, Swept(t, {rows[0].contribution}))
    ensures SameRows(Swept(u, StaleRows(rows[1..], active)), Swept(t, StaleRows(rows, active)))
  {
    var c := rows[0].contribution;
    assert c !in StaleRows(rows[1..], active);
    StaleRowsStep(rows, active);
    SweptTwice(t, u, c, StaleRows(rows[1..], active));
  }

  lemma SweptNothing(t: Tables)
    ensures SameRows(t, Swept(t, {}))
  {
  }

  lemma SameRowsTransitive(t: Tables, u: Tables, v: Tables)
    requires SameRows(t, u) && SameRows(u, v)
    ensures SameRows(t, v)
  {
  }

  lemma SweptScan(t: Tables, u: Tables, rows: seq<MappedRow>)
    requires TablesOk(t) && rows != [] && ScanOf(rows, t.mapped) && SameRows(u, Swept(t, {rows[0].contribution}))
    ensures TablesOk(u) && ScanOf(rows[1..], u.mapped)
  {
  }
}

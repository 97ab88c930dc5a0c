/** Replacing a role's permissions (auth/rbac.rs) and the caller's de-duplication (routes/roles.rs). */
module Rbac {
  import opened Wrappers

  datatype Tables = Tables(
    roles: map<int, string>, permissions: map<int, string>, policyKeys: map<int, string>,
    rolePermissions: set<(int, int)>, rolePolicyKeys: set<(int, int)>)

  datatype RbacError = RoleNotFound | PermissionNotFound(id: int) | StorageFailed | UniqueViolated

  /** The policy key that stands for a permission. */
  function AdminKey(slug: string): string {
    "admin." + slug
  }

  /** The key `k` belongs to one of the given permissions. */
  predicate DerivedFrom(t: Tables, k: int, ids: set<int>) {
    k in t.policyKeys && exists p :: p in ids && p in t.permissions && t.policyKeys[k] == AdminKey(t.permissions[p])
  }

  predicate Derived(t: Tables, k: int) {
    DerivedFrom(t, k, t.permissions.Keys)
  }

  function SetOf(ids: seq<int>): set<int> {
    set i | i in ids
  }

  /** The tables after the role's permissions are exactly `ids`. */
  function Replaced(t: Tables, role: int, ids: set<int>): Tables {
    t.(rolePermissions := (set x | x in t.rolePermissions && x.0 != role) + (set p | p in ids :: (role, p)),
       rolePolicyKeys := WithoutDerived(t, role) + RequestedKeys(t, role, ids))
  }

  function WithoutDerived(t: Tables, role: int): set<(int, int)> {
    set x | x in t.rolePolicyKeys && !(x.0 == role && Derived(t, x.1))
  }

  function RequestedKeys(t: Tables, role: int, ids: set<int>): set<(int, int)> {
    set k | k in t.policyKeys && DerivedFrom(t, k, ids) :: (role, k)
  }

  /** What a role holds. */
  function PermissionsOf(t: Tables, role: int): set<int> {
    set x | x in t.rolePermissions && x.0 == role :: x.1
  }

  function PolicyKeysOf(t: Tables, role: int): set<int> {
    set x | x in t.rolePolicyKeys && x.0 == role :: x.1
  }

  /** The policy key is named "admin." and the slug of one of the permissions. */
  ghost predicate StandsFor(t: Tables, k: int, ids: set<int>) {
    k in t.policyKeys && exists p :: p in ids && p in t.permissions && t.policyKeys[k] == "admin." + t.permissions[p]
  }

  /** The role ends up with exactly the requested permissions, keeps exactly its underived keys
      beside the keys of the requested permissions, and no other role is touched. */
  lemma {:induction false} ReplacedHolds(t: Tables, role: int, ids: set<int>)
    ensures var u := Replaced(t, role, ids);
      && PermissionsOf(u, role) == ids
      && (forall k :: k in PolicyKeysOf(u, role) <==>
            (k in PolicyKeysOf(t, role) && !StandsFor(t, k, t.permissions.Keys)) || StandsFor(t, k, ids))
      && (forall other :: other != role ==>
            PermissionsOf(u, other) == PermissionsOf(t, other) && PolicyKeysOf(u, other) == PolicyKeysOf(t, other))
  {
    var u := Replaced(t, role, ids);
    forall p ensures p in PermissionsOf(u, role) <==> p in ids {
      assert p in ids ==> (role, p) in u.rolePermissions;
    }
    forall k ensures k in PolicyKeysOf(u, role)
        <==> (k in PolicyKeysOf(t, role) && !Derived(t, k)) || DerivedFrom(t, k, ids) {
      assert k in PolicyKeysOf(t, role) ==> (role, k) in t.rolePolicyKeys;
      assert DerivedFrom(t, k, ids) ==> (role, k) in u.rolePolicyKeys;
    }
    forall other | other != role
      ensures PermissionsOf(u, other) == PermissionsOf(t, other) && PolicyKeysOf(u, other) == PolicyKeysOf(t, other)
    {
      forall p ensures p in PermissionsOf(u, other) <==> p in PermissionsOf(t, other) {
        assert p in PermissionsOf(t, other) ==> (other, p) in t.rolePermissions;
      }
      forall k ensures k in PolicyKeysOf(u, other) <==> k in PolicyKeysOf(t, other) {
        assert k in PolicyKeysOf(t, other) ==> (other, k) in t.rolePolicyKeys;
      }
    }
  }

  /** Only the last replacement of a role counts; in particular a repeat is a no-op. */
  lemma LastReplacementWins(t: Tables, role: int, first: set<int>, last: set<int>)
    ensures Replaced(Replaced(t, role, first), role, last) == Replaced(t, role, last)
  {
  }

  /** Replacements of different roles do not interfere. */
  lemma ReplacementsCommute(t: Tables, a: int, idsA: set<int>, b: int, idsB: set<int>)
    requires a != b
    ensures Replaced(Replaced(t, a, idsA), b, idsB) == Replaced(Replaced(t, b, idsB), a, idsA)
  {
  }

  ghost predicate Distinct(ids: seq<int>) {
    forall i, j :: 0 <= i < j < |ids| ==> ids[i] != ids[j]
  }

  /** The position of the first id that repeats an earlier one, or the length. */
  ghost function FirstRepeat(ids: seq<int>): (n: nat)
    ensures n <= |ids| && Distinct(ids[..n])
    ensures n < |ids| ==> ids[n] in ids[..n]
  {
    if ids == [] then 0
    else
      var front := ids[..|ids| - 1];
      var n := FirstRepeat(front);
      assert ids[..n] == front[..n] && front[..|front|] == front;
      if n < |front| || ids[|ids| - 1] in front then n
      else
        assert ids[..|ids|] == front + [ids[|ids| - 1]];
        |ids|
  }

  lemma RepeatIsFirst(ids: seq<int>, i: nat)
    requires i <= |ids| && Distinct(ids[..i]) && (i < |ids| ==> ids[i] in ids[..i])
    ensures FirstRepeat(ids) == i
  {
    var n := FirstRepeat(ids);
    if n < i { NoRepeatBelow(ids, n, i); }
    if i < n { NoRepeatBelow(ids, i, n); }
  }

  lemma NoRepeatBelow(ids: seq<int>, k: nat, n: nat)
    requires k < n <= |ids| && Distinct(ids[..n])
    ensures ids[k] !in ids[..k]
  {
    assert forall j :: 0 <= j < k ==> ids[..k][j] == ids[..n][j] != ids[..n][k];
  }

  lemma DistinctHasNoRepeat(ids: seq<int>)
    ensures Distinct(ids) <==> FirstRepeat(ids) == |ids|
  {
    assert ids[..|ids|] == ids;
    if Distinct(ids) { RepeatIsFirst(ids, |ids|); }
  }

  /** The tables when only the role's permissions have been replaced. */
  function PermissionsReplaced(t: Tables, role: int, ids: set<int>): Tables {
    t.(rolePermissions := Replaced(t, role, ids).rolePermissions)
  }

  /** Where a run can stop: before any change; while it inserts, with some of the requested
      permissions and the old policy keys; or, with all of them, after the derived keys are gone. */
  ghost predicate PartlyReplaced(t: Tables, u: Tables, role: int, ids: seq<int>) {
    || u == t
    || (exists n :: 0 <= n <= FirstRepeat(ids) && u == PermissionsReplaced(t, role, SetOf(ids[..n])))
    || (Distinct(ids)
        && u == PermissionsReplaced(t, role, SetOf(ids)).(rolePolicyKeys := WithoutDerived(t, role)))
  }

  /** What a run without storage failures leaves: nothing changed if the role or a permission does
      not exist, the whole replacement if no id repeats, and otherwise the permissions before the
      first repeat beside the old policy keys. */
  ghost function FaultFree(t: Tables, role: int, ids: seq<int>): Tables {
    if role !in t.roles || !(SetOf(ids) <= t.permissions.Keys) then t
    else if Distinct(ids) then Replaced(t, role, SetOf(ids))
    else PermissionsReplaced(t, role, SetOf(ids[..FirstRepeat(ids)]))
  }

  /** A repeated id leaves the tables alone exactly when the ids before it are what the role had. */
  lemma {:induction false} RepeatKeepsTables(t: Tables, role: int, ids: seq<int>)
    requires role in t.roles && SetOf(ids) <= t.permissions.Keys && !Distinct(ids)
    ensures FaultFree(t, role, ids) == t <==> PermissionsOf(t, role) == SetOf(ids[..FirstRepeat(ids)])
  {
    var kept := SetOf(ids[..FirstRepeat(ids)]);
    var u := FaultFree(t, role, ids);
    ReplacedHolds(t, role, kept);
    assert PermissionsOf(u, role) == PermissionsOf(Replaced(t, role, kept), role) == kept;
    if PermissionsOf(t, role) == kept {
      forall x ensures x in u.rolePermissions <==> x in t.rolePermissions {
        assert x in t.rolePermissions && x.0 == role ==> x.1 in PermissionsOf(t, role);
        assert x.0 == role && x.1 in PermissionsOf(t, role) ==> (role, x.1) in t.rolePermissions;
      }
    }
  }

  /** The last two statements complete the replacement: the join runs over the role's new
      permissions, which are the requested ones. */
  lemma RebuildsKeys(t: Tables, role: int, ids: set<int>)
    ensures var u := PermissionsReplaced(t, role, ids);
      var v := u.(rolePolicyKeys := WithoutDerived(u, role));
      && WithoutDerived(u, role) == WithoutDerived(t, role)
      && v.(rolePolicyKeys := v.rolePolicyKeys + RequestedKeys(v, role, PermissionsOf(v, role)))
          == Replaced(t, role, ids)
  {
    var u := PermissionsReplaced(t, role, ids);
    var v := u.(rolePolicyKeys := WithoutDerived(u, role));
    assert forall k :: Derived(u, k) <==> Derived(t, k);
    ReplacedHolds(t, role, ids);
    assert PermissionsOf(v, role) == PermissionsOf(Replaced(t, role, ids), role) == ids;
    assert RequestedKeys(v, role, ids) == RequestedKeys(t, role, ids);
  }

  /** The first `i` permissions are in; the next one is refused exactly when it repeats one of them. */
  lemma InsertedSoFar(t: Tables, role: int, ids: seq<int>, i: nat)
    requires i < |ids| && Distinct(ids[..i])
    ensures var u := PermissionsReplaced(t, role, SetOf(ids[..i]));
      && ((role, ids[i]) in u.rolePermissions <==> ids[i] in ids[..i])
      && u.(rolePermissions := u.rolePermissions + {(role, ids[i])})
         == PermissionsReplaced(t, role, SetOf(ids[..i + 1]))
    ensures ids[i] !in ids[..i] ==> Distinct(ids[..i + 1])
  {
    assert ids[..i + 1] == ids[..i] + [ids[i]];
    assert SetOf(ids[..i + 1]) == SetOf(ids[..i]) + {ids[i]};
    assert ids[i] in ids[..i] <==> ids[i] in SetOf(ids[..i]);
    hide SetOf, Replaced;
    HoldsAfter(t, role, SetOf(ids[..i]));
    HoldsAfter(t, role, SetOf(ids[..i + 1]));
    assert ((role, ids[i])).0 == role && ((role, ids[i])).1 == ids[i];
    var (u, v) := (PermissionsReplaced(t, role, SetOf(ids[..i])), PermissionsReplaced(t, role, SetOf(ids[..i + 1])));
    assert u.rolePermissions + {(role, ids[i])} == v.rolePermissions;
  }

  lemma HoldsAfter(t: Tables, role: int, ids: set<int>)
    ensures forall x :: x in PermissionsReplaced(t, role, ids).rolePermissions
              <==> (x in t.rolePermissions && x.0 != role) || (x.0 == role && x.1 in ids)
  {
    var u := PermissionsReplaced(t, role, ids);
    forall p | p in ids ensures (role, p) in u.rolePermissions {
      assert (role, p) in (set q | q in ids :: (role, q));
    }
    forall x: (int, int) | x.0 == role && x.1 in ids ensures x in u.rolePermissions {
      assert x == (role, x.1);
    }
  }

  class RbacStore {
    var tables: Tables
    var clock: nat
    const fails: nat -> bool

    constructor (tables: Tables, fails: nat -> bool)
      ensures this.tables == tables && this.fails == fails
    {
      this.tables, this.fails, clock := tables, fails, 0;
    }

    method Begin() returns (failed: bool)
      modifies this`clock
      ensures (forall n: nat :: !fails(n)) ==> !failed
    {
      failed := fails(clock);
      clock := clock + 1;
    }

    method AllPermissionsExist(ids: seq<int>) returns (r: Result<(), RbacError>)
      modifies this`clock
      ensures r.Ok? ==> SetOf(ids) <= tables.permissions.Keys
      ensures (forall n: nat :: !fails(n)) ==> (r.Ok? <==> SetOf(ids) <= tables.permissions.Keys)
    {
      var i := 0;
      while i < |ids|
        invariant 0 <= i <= |ids| && forall j :: 0 <= j < i ==> ids[j] in tables.permissions
      {
        var failed := Begin();
        if failed { return Err(StorageFailed); }
        if ids[i] !in tables.permissions {
          assert ids[i] in SetOf(ids);
          return Err(PermissionNotFound(ids[i]));
        }
        i := i + 1;
      }
      r := Ok(());
    }

    /** Inserts the pairs one by one; the primary key refuses a pair that is already there. */
    method InsertPermissions(ghost before: Tables, role: int, ids: seq<int>) returns (r: Result<(), RbacError>)
      requires tables == PermissionsReplaced(before, role, {})
      modifies this
      ensures exists n :: 0 <= n <= FirstRepeat(ids) && tables == PermissionsReplaced(before, role, SetOf(ids[..n]))
      ensures r.Ok? ==> Distinct(ids) && tables == PermissionsReplaced(before, role, SetOf(ids))
      ensures (forall n: nat :: !fails(n)) ==>
                && (r.Ok? <==> Distinct(ids))
                && tables == PermissionsReplaced(before, role, SetOf(ids[..FirstRepeat(ids)]))
    {
      var i := 0;
      assert SetOf(ids[..0]) == {};
      while i < |ids|
        invariant 0 <= i <= FirstRepeat(ids) && Distinct(ids[..i])
        invariant tables == PermissionsReplaced(before, role, SetOf(ids[..i]))
      {
        var failed := Begin();
        if failed { return Err(StorageFailed); }
        if (role, ids[i]) in tables.rolePermissions {
          InsertedSoFar(before, role, ids, i);
          RepeatIsFirst(ids, i);
          DistinctHasNoRepeat(ids);
          return Err(UniqueViolated);
        }
        InsertedSoFar(before, role, ids, i);
        tables := tables.(rolePermissions := tables.rolePermissions + {(role, ids[i])});
        i := i + 1;
      }
      assert ids[..i] == ids;
      r := Ok(());
    }

    /** Not a transaction: on failure the role may be left half replaced, other roles never. */
    method ReplaceRolePermissions(role: int, ids: seq<int>) returns (r: Result<(), RbacError>)
      modifies this
      ensures r.Ok? ==> tables == Replaced(old(tables), role, SetOf(ids))
      ensures r.Err? ==> PartlyReplaced(old(tables), tables, role, ids)
      ensures (forall n: nat :: !fails(n)) ==>
                && (r.Ok? <==> role in old(tables).roles && SetOf(ids) <= old(tables).permissions.Keys && Distinct(ids))
                && tables == FaultFree(old(tables), role, ids)
    {
      ghost var before := tables;
      var failed := Begin();
      if failed { return Err(StorageFailed); }
      if role !in tables.roles { return Err(RoleNotFound); }
      r := AllPermissionsExist(ids);
      if r.Err? { return; }
      failed := Begin();
      if failed { return Err(StorageFailed); }
      tables := tables.(rolePermissions := set x | x in tables.rolePermissions && x.0 != role);
      r := InsertPermissions(before, role, ids);
      if r.Err? { return; }
      DistinctHasNoRepeat(ids);
      assert ids[..|ids|] == ids;
      RebuildsKeys(before, role, SetOf(ids));
      hide Replaced, WithoutDerived, RequestedKeys, PermissionsOf, SetOf, Distinct;
      failed := Begin();
      if failed { return Err(StorageFailed); }
      tables := tables.(rolePolicyKeys := WithoutDerived(tables, role));
      failed := Begin();
      if failed { return Err(StorageFailed); }
      var requested := RequestedKeys(tables, role, PermissionsOf(tables, role));
      tables := tables.(rolePolicyKeys := tables.rolePolicyKeys + requested);
    }

    /** The admin form: de-duplicate, then replace. Repeated checkboxes can no longer collide. */
    method UpdateRolePermissions(role: int, form: seq<int>) returns (r: Result<(), RbacError>)
      modifies this
      ensures r.Ok? ==> tables == Replaced(old(tables), role, SetOf(form))
      ensures r.Err? ==> exists ids :: IsDeduplicated(form, ids) && PartlyReplaced(old(tables), tables, role, ids)
      ensures (forall n: nat :: !fails(n)) ==>
                && (r.Ok? <==> role in old(tables).roles && SetOf(form) <= old(tables).permissions.Keys)
                && (r.Err? ==> tables == old(tables))
    {
      var ids := Deduplicate(form);
      assert forall x :: x in ids <==> x in form;
      assert SetOf(ids) == SetOf(form);
      r := ReplaceRolePermissions(role, ids);
    }
  }

  /** An editor may publish, and holds the policy key of that permission. */
  const EDITORS := Tables(
    map[1 := "editor"], map[10 := "publish", 20 := "archive"], map[100 := "admin.publish", 200 := "admin.archive"],
    {(1, 10)}, {(1, 100)})

  /** A half-replaced role: asked twice for the same permission, the run ends with an error, and the
      role holds the new permission but still the policy key of the old one. */
  method RepeatedPermission() returns (r: Result<(), RbacError>, after: Tables)
    ensures r.Err? && PermissionsOf(after, 1) == {20} && PolicyKeysOf(after, 1) == {100}
    ensures PermissionsOf(EDITORS, 1) == {10} && PolicyKeysOf(EDITORS, 1) == {100}
  {
    var store := new RbacStore(EDITORS, n => false);
    r := store.ReplaceRolePermissions(1, [20, 20]);
    after := store.tables;
    assert [20, 20][..1] == [20];
    RepeatIsFirst([20, 20], 1);
    DistinctHasNoRepeat([20, 20]);
    ReplacedHolds(EDITORS, 1, {20});
    assert SetOf([20]) == {20} && SetOf([20, 20]) == {20};
    EditorHolds();
    assert PermissionsOf(after, 1) == PermissionsOf(Replaced(EDITORS, 1, {20}), 1);
  }

  lemma EditorHolds()
    ensures PermissionsOf(EDITORS, 1) == {10} && PolicyKeysOf(EDITORS, 1) == {100}
  {
    assert (1, 10) in EDITORS.rolePermissions && (1, 100) in EDITORS.rolePolicyKeys;
  }

  // ---- De-duplication ----------------------------------------------------------------------------

  ghost function FirstIndex(ids: seq<int>, x: int): (i: nat)
    requires x in ids
    ensures i < |ids| && ids[i] == x && forall m :: 0 <= m < i ==> ids[m] != x
  {
    if ids[0] == x then 0 else 1 + FirstIndex(ids[1..], x)
  }

  /** `r` lists every id of the form once, in the order of first occurrence. */
  ghost predicate IsDeduplicated(form: seq<int>, r: seq<int>) {
    && Distinct(r)
    && (forall x :: x in r <==> x in form)
    && (forall i, j :: 0 <= i < j < |r| ==> FirstIndex(form, r[i]) < FirstIndex(form, r[j]))
  }

  method Deduplicate(form: seq<int>) returns (r: seq<int>)
    ensures IsDeduplicated(form, r)
  {
    r := [];
    var i := 0;
    while i < |form|
      invariant 0 <= i <= |form|
      invariant Distinct(r) && forall x :: x in r <==> x in form[..i]
      invariant forall j :: 0 <= j < |r| ==> r[j] in form && FirstIndex(form, r[j]) < i
      invariant forall j, k :: 0 <= j < k < |r| ==> FirstIndex(form, r[j]) < FirstIndex(form, r[k])
    {
      assert form[..i + 1] == form[..i] + [form[i]];
      var id := form[i];
      if id !in r {
        assert id !in form[..i];
        FirstIndexHere(form, i);
        r := r + [id];
      }
      i := i + 1;
    }
    assert form[..i] == form;
  }

  lemma FirstIndexHere(form: seq<int>, i: nat)
    requires i < |form| && form[i] !in form[..i]
    ensures FirstIndex(form, form[i]) == i
  {
    assert forall m :: 0 <= m < i ==> form[m] in form[..i];
  }

  lemma {:induction false} SamePrefix(form: seq<int>, r: seq<int>, s: seq<int>, k: nat)
    requires IsDeduplicated(form, r) && IsDeduplicated(form, s) && k <= |r| && k <= |s|
    ensures r[..k] == s[..k]
  {
    if k == 0 {
    } else {
      SamePrefix(form, r, s, k - 1);
      SameNext(form, r, s, k - 1);
      assert r[..k] == r[..k - 1] + [r[k - 1]] && s[..k] == s[..k - 1] + [s[k - 1]];
    }
  }

  lemma SameNext(form: seq<int>, r: seq<int>, s: seq<int>, k: nat)
    requires IsDeduplicated(form, r) && IsDeduplicated(form, s) && k < |r| && k < |s| && r[..k] == s[..k]
    ensures r[k] == s[k]
  {
    assert r[k] in r && s[k] in s;
    var i :| 0 <= i < |s| && s[i] == r[k];
    var j :| 0 <= j < |r| && r[j] == s[k];
    assert forall m :: 0 <= m < k ==> r[m] == r[..k][m] == s[..k][m] == s[m];
  }

  lemma {:induction false} DistinctSize(s: seq<int>)
    requires Distinct(s)
    ensures |SetOf(s)| == |s|
  {
    if s == [] {
    } else {
      var last := |s| - 1;
      DistinctSize(s[..last]);
      assert forall x :: x in s <==> x == s[last] || x in s[..last];
      assert SetOf(s) == SetOf(s[..last]) + {s[last]};
    }
  }

  /** These properties leave no choice: there is one such list for every form. */
  lemma {:induction false} DeduplicatedIsUnique(form: seq<int>, r: seq<int>, s: seq<int>)
    requires IsDeduplicated(form, r) && IsDeduplicated(form, s)
    ensures r == s
  {
    DistinctSize(r);
    DistinctSize(s);
    assert forall x :: x in r <==> x in s;
    assert SetOf(r) == SetOf(s);
    SamePrefix(form, r, s, |r|);
    assert r[..|r|] == r && s[..|s|] == s;
  }
}

/** A plugin's replaced bindings, seen through the policy decisions. */
module PolicyDecisions {
  import opened Wrappers
  import opened Text
  import opened PathPatterns
  import opened PolicyTables
  import opened Authorizer

  /** The tables of the store as the snapshot reads them. */
  function Reading(keys: Table<KeyRow>, bindings: Table<BindingRow>, roles: map<nat, string>,
                   roleKeys: set<(nat, nat)>): Tables
  {
    Tables(keys.rows, bindings.rows, roles, roleKeys)
  }

  /** `keys` and `bindings` are what a successful replacement makes of `keys0` and `before`. */
  ghost predicate IsReplacement(keys0: Table<KeyRow>, before: Table<BindingRow>, keys: Table<KeyRow>,
                                bindings: Table<BindingRow>, owner: string, requests: seq<PluginBinding>) {
    StoreOk(keys0, before) && KeysEnsured(keys0, keys, requests)
        && BindingsReplaced(before, bindings, keys, owner, requests)
  }

  /** Every grant names an existing key: the foreign key of the grants' table. */
  ghost predicate GrantsReferToKeys(keys: Table<KeyRow>, roleKeys: set<(nat, nat)>) {
    forall r, k :: (r, k) in roleKeys ==> k in keys.rows
  }

  /** The row is not one of the plugin's. */
  ghost predicate Foreign(row: BindingRow, owner: string) {
    row.ownerType != "plugin" || row.ownerId != owner
  }

  // ---- Grants -------------------------------------------------------------------------------------

  /** A replacement grants nothing and takes nothing away; a key it inserts is granted to nobody. */
  lemma {:induction false} GrantsKept(keys0: Table<KeyRow>, before: Table<BindingRow>, keys: Table<KeyRow>,
                                      bindings: Table<BindingRow>, requests: seq<PluginBinding>,
                                      roles: map<nat, string>, roleKeys: set<(nat, nat)>, role: string, key: string)
    requires KeysEnsured(keys0, keys, requests) && GrantsReferToKeys(keys0, roleKeys)
    ensures Granted(Reading(keys, bindings, roles, roleKeys), role, key)
            <==> Granted(Reading(keys0, before, roles, roleKeys), role, key)
    ensures !HasKey(keys0, key) ==> !Granted(Reading(keys, bindings, roles, roleKeys), role, key)
  {
    var t0, t := Reading(keys0, before, roles, roleKeys), Reading(keys, bindings, roles, roleKeys);
    if r, k :| (r, k) in t.roleKeys && r in t.roles && t.roles[r] == role && k in t.keys && t.keys[k].key == key {
      assert (r, k) in t0.roleKeys && k in t0.keys && t0.keys[k].key == key;
      assert HasKey(keys0, key);
    }
    if r, k :| (r, k) in t0.roleKeys && r in t0.roles && t0.roles[r] == role && k in t0.keys && t0.keys[k].key == key {
      assert (r, k) in t.roleKeys && k in t.keys && t.keys[k].key == key;
    }
  }

  // ---- Rows ---------------------------------------------------------------------------------------

  /** A surviving row is joined with the key it had. */
  lemma KeptRow(keys0: Table<KeyRow>, before: Table<BindingRow>, keys: Table<KeyRow>, bindings: Table<BindingRow>,
                owner: string, requests: seq<PluginBinding>, id: nat)
    requires IsReplacement(keys0, before, keys, bindings, owner, requests)
    requires id in before.rows && Foreign(before.rows[id], owner)
    ensures id in bindings.rows && bindings.rows[id] == before.rows[id] && id <= before.lastId
    ensures var k := before.rows[id].keyId; k in keys0.rows && k in keys.rows && keys.rows[k] == keys0.rows[k]
  {
  }

  /** A requested row, by its position. */
  lemma RequestedRow(keys0: Table<KeyRow>, before: Table<BindingRow>, keys: Table<KeyRow>, bindings: Table<BindingRow>,
                     owner: string, requests: seq<PluginBinding>, i: nat)
    requires IsReplacement(keys0, before, keys, bindings, owner, requests) && i < |requests|
    ensures var id := before.lastId + 1 + i;
      id in bindings.rows && StoredAs(bindings.rows[id], requests[i], keys, owner)
  {
    hide StoreOk, KeysEnsured, StoredAs;
    assert before.lastId + 1 + i in bindings.rows;
  }

  /** There are no other rows. */
  lemma RowOrigin(keys0: Table<KeyRow>, before: Table<BindingRow>, keys: Table<KeyRow>, bindings: Table<BindingRow>,
                  owner: string, requests: seq<PluginBinding>, id: nat)
    requires IsReplacement(keys0, before, keys, bindings, owner, requests) && id in bindings.rows
    ensures (id in before.rows && Foreign(before.rows[id], owner)) || before.lastId < id <= before.lastId + |requests|
  {
    hide StoreOk, KeysEnsured, StoredAs;
  }

  // ---- Routes -------------------------------------------------------------------------------------

  /** The requested route covers the request and its key is granted to the role. */
  ghost predicate RequestAllows(t: Tables, b: PluginBinding, role: string, surface: string, httpMethod: string,
                                path: string) {
    && b.Http? && b.surface == surface && SameButForCase(b.httpMethod, httpMethod) && Covers(b.pattern, path)
    && Granted(t, role, b.key)
  }

  lemma KeptRowAllows(keys0: Table<KeyRow>, before: Table<BindingRow>, keys: Table<KeyRow>, bindings: Table<BindingRow>,
                      owner: string, requests: seq<PluginBinding>, roles: map<nat, string>, roleKeys: set<(nat, nat)>,
                      id: nat, role: string, surface: string, httpMethod: string, path: string)
    requires IsReplacement(keys0, before, keys, bindings, owner, requests) && GrantsReferToKeys(keys0, roleKeys)
    requires id in before.rows && Foreign(before.rows[id], owner)
    ensures RowAllows(Reading(keys, bindings, roles, roleKeys), id, role, surface, httpMethod, path)
            <==> RowAllows(Reading(keys0, before, roles, roleKeys), id, role, surface, httpMethod, path)
  {
    KeptRow(keys0, before, keys, bindings, owner, requests, id);
    GrantsKept(keys0, before, keys, bindings, requests, roles, roleKeys, role, keys0.rows[before.rows[id].keyId].key);
    hide IsReplacement, GrantsReferToKeys, Covers, SameButForCase, Granted;
  }

  lemma RequestedRowAllows(keys0: Table<KeyRow>, before: Table<BindingRow>, keys: Table<KeyRow>,
                           bindings: Table<BindingRow>,
                           owner: string, requests: seq<PluginBinding>, t: Tables, i: nat,
                           role: string, surface: string, httpMethod: string, path: string)
    requires IsReplacement(keys0, before, keys, bindings, owner, requests) && i < |requests|
    requires t.keys == keys.rows && t.bindings == bindings.rows
    ensures RowAllows(t, before.lastId + 1 + i, role, surface, httpMethod, path)
            <==> RequestAllows(t, requests[i], role, surface, httpMethod, path)
  {
    RequestedRow(keys0, before, keys, bindings, owner, requests, i);
    hide IsReplacement, Covers, SameButForCase, Granted;
  }

  lemma RoutesByOrigin(
      keys0: Table<KeyRow>, before: Table<BindingRow>, keys: Table<KeyRow>, bindings: Table<BindingRow>,
      owner: string, requests: seq<PluginBinding>, roles: map<nat, string>, roleKeys: set<(nat, nat)>,
      role: string, surface: string, httpMethod: string, path: string)
    requires IsReplacement(keys0, before, keys, bindings, owner, requests) && GrantsReferToKeys(keys0, roleKeys)
    ensures var t0, t := Reading(keys0, before, roles, roleKeys), Reading(keys, bindings, roles, roleKeys);
      HttpRule(t, role, surface, httpMethod, path) <==>
        || (exists id: nat :: id in before.rows && Foreign(before.rows[id], owner)
                              && RowAllows(t0, id, role, surface, httpMethod, path))
        || (exists i: nat :: i < |requests| && RequestAllows(t0, requests[i], role, surface, httpMethod, path))
  {
    var t0, t := Reading(keys0, before, roles, roleKeys), Reading(keys, bindings, roles, roleKeys);
    hide IsReplacement, GrantsReferToKeys, RowAllows, RequestAllows, Foreign;
    forall i: nat | i < |requests|
      ensures RowAllows(t, before.lastId + 1 + i, role, surface, httpMethod, path)
              <==> RequestAllows(t0, requests[i], role, surface, httpMethod, path)
    {
      RequestedRowAllows(keys0, before, keys, bindings, owner, requests, t, i, role, surface, httpMethod, path);
      SameRequestAllows(keys0, before, keys, bindings, owner, requests, roles, roleKeys, requests[i],
                        role, surface, httpMethod, path);
    }
    forall id: nat | id in before.rows && Foreign(before.rows[id], owner)
      ensures RowAllows(t, id, role, surface, httpMethod, path) <==> RowAllows(t0, id, role, surface, httpMethod, path)
    {
      KeptRowAllows(keys0, before, keys, bindings, owner, requests, roles, roleKeys, id,
                    role, surface, httpMethod, path);
    }
    if HttpRule(t, role, surface, httpMethod, path) {
      var id: nat :| RowAllows(t, id, role, surface, httpMethod, path);
      AllowingRowExists(t, id, role, surface, httpMethod, path);
      RowOrigin(keys0, before, keys, bindings, owner, requests, id);
      if !(id in before.rows && Foreign(before.rows[id], owner)) {
        var i := id - before.lastId - 1;
        assert RequestAllows(t0, requests[i], role, surface, httpMethod, path);
      }
    }
  }

  /** After a replacement a request is allowed exactly when a surviving row of another owner allowed it
      before, or a requested route covers it with a key granted to the role. */
  lemma {:induction false} RoutesAfterReplacement(
      keys0: Table<KeyRow>, before: Table<BindingRow>, keys: Table<KeyRow>, bindings: Table<BindingRow>,
      owner: string, requests: seq<PluginBinding>, roles: map<nat, string>, roleKeys: set<(nat, nat)>,
      role: string, surface: string, httpMethod: string, path: string)
    requires IsReplacement(keys0, before, keys, bindings, owner, requests) && GrantsReferToKeys(keys0, roleKeys)
    ensures var t0, t := Reading(keys0, before, roles, roleKeys), Reading(keys, bindings, roles, roleKeys);
      HttpRule(t, role, surface, httpMethod, path) <==>
        || (exists id: nat ::
              && id in before.rows && (before.rows[id].ownerType != "plugin" || before.rows[id].ownerId != owner)
              && RowAllows(t0, id, role, surface, httpMethod, path))
        || (exists i: nat :: i < |requests| && RequestAllows(t0, requests[i], role, surface, httpMethod, path))
  {
    RoutesByOrigin(keys0, before, keys, bindings, owner, requests, roles, roleKeys, role, surface, httpMethod, path);
    hide IsReplacement, GrantsReferToKeys, RowAllows, RequestAllows, HttpRule;
  }

  lemma AllowingRowExists(t: Tables, id: nat, role: string, surface: string, httpMethod: string, path: string)
    requires RowAllows(t, id, role, surface, httpMethod, path)
    ensures id in t.bindings
  {
  }

  lemma SameRequestAllows(keys0: Table<KeyRow>, before: Table<BindingRow>, keys: Table<KeyRow>,
                          bindings: Table<BindingRow>,
                          owner: string, requests: seq<PluginBinding>, roles: map<nat, string>,
                          roleKeys: set<(nat, nat)>,
                          b: PluginBinding, role: string, surface: string, httpMethod: string, path: string)
    requires IsReplacement(keys0, before, keys, bindings, owner, requests) && GrantsReferToKeys(keys0, roleKeys)
    ensures RequestAllows(Reading(keys, bindings, roles, roleKeys), b, role, surface, httpMethod, path)
            <==> RequestAllows(Reading(keys0, before, roles, roleKeys), b, role, surface, httpMethod, path)
  {
    GrantsKept(keys0, before, keys, bindings, requests, roles, roleKeys, role, b.key);
    hide IsReplacement, GrantsReferToKeys, Covers, SameButForCase, Granted;
  }

  // ---- Commands -----------------------------------------------------------------------------------

  predicate Binds(b: PluginBinding, surface: string, command: string) {
    surface == "cli" && b.Cli? && b.command == command
  }

  /** Where the request that binds the command last stands. */
  ghost predicate LastRequest(requests: seq<PluginBinding>, surface: string, command: string, i: nat) {
    i < |requests| && Binds(requests[i], surface, command)
    && forall j :: i < j < |requests| ==> !Binds(requests[j], surface, command)
  }

  /** The row of another owner that bound the command last. */
  ghost predicate LastKept(t0: Tables, owner: string, surface: string, command: string, id: nat) {
    && BindsCommand(t0, id, surface, command)
    && (t0.bindings[id].ownerType != "plugin" || t0.bindings[id].ownerId != owner)
    && forall other: nat
         | BindsCommand(t0, other, surface, command)
           && (t0.bindings[other].ownerType != "plugin" || t0.bindings[other].ownerId != owner)
         :: other <= id
  }

  lemma {:induction false} LastRequestExists(requests: seq<PluginBinding>, surface: string, command: string, n: nat)
      returns (i: nat)
    requires n < |requests| && Binds(requests[n], surface, command)
    ensures LastRequest(requests, surface, command, i)
    decreases |requests| - n
  {
    if m :| n < m < |requests| && Binds(requests[m], surface, command) {
      i := LastRequestExists(requests, surface, command, m);
    } else {
      i := n;
    }
  }

  lemma RequestedRowBinds(keys0: Table<KeyRow>, before: Table<BindingRow>, keys: Table<KeyRow>,
                          bindings: Table<BindingRow>,
                          owner: string, requests: seq<PluginBinding>, t: Tables, i: nat, surface: string,
                          command: string)
    requires IsReplacement(keys0, before, keys, bindings, owner, requests) && i < |requests|
    requires t.keys == keys.rows && t.bindings == bindings.rows
    ensures var id := before.lastId + 1 + i;
      && (BindsCommand(t, id, surface, command) <==> Binds(requests[i], surface, command))
      && (BindsCommand(t, id, surface, command) ==> KeyOf(t, id) == requests[i].key)
  {
    RequestedRow(keys0, before, keys, bindings, owner, requests, i);
    hide IsReplacement;
  }

  lemma KeptRowBinds(keys0: Table<KeyRow>, before: Table<BindingRow>, keys: Table<KeyRow>, bindings: Table<BindingRow>,
                     owner: string, requests: seq<PluginBinding>, t0: Tables, t: Tables, id: nat,
                     surface: string, command: string)
    requires IsReplacement(keys0, before, keys, bindings, owner, requests)
    requires t0.keys == keys0.rows && t0.bindings == before.rows && t.keys == keys.rows && t.bindings == bindings.rows
    requires id in before.rows && Foreign(before.rows[id], owner)
    ensures id <= before.lastId
    ensures BindsCommand(t, id, surface, command) <==> BindsCommand(t0, id, surface, command)
    ensures BindsCommand(t, id, surface, command) ==> KeyOf(t, id) == KeyOf(t0, id)
  {
    KeptRow(keys0, before, keys, bindings, owner, requests, id);
    hide IsReplacement;
  }

  /** Every row that binds the command after the replacement is a surviving or a requested one. */
  lemma BindingOrigin(keys0: Table<KeyRow>, before: Table<BindingRow>, keys: Table<KeyRow>, bindings: Table<BindingRow>,
                      owner: string, requests: seq<PluginBinding>, t0: Tables, t: Tables, id: nat,
                      surface: string, command: string)
    requires IsReplacement(keys0, before, keys, bindings, owner, requests)
    requires t0.keys == keys0.rows && t0.bindings == before.rows && t.keys == keys.rows && t.bindings == bindings.rows
    ensures BindsCommand(t, id, surface, command) <==>
      || (id in before.rows && Foreign(before.rows[id], owner) && BindsCommand(t0, id, surface, command))
      || (before.lastId < id <= before.lastId + |requests| && Binds(requests[id - before.lastId - 1], surface, command))
    ensures id in before.rows ==> id <= before.lastId
  {
    hide IsReplacement, Binds, Foreign, BindsCommand, KeyOf;
    OldIds(keys0, before, keys, bindings, owner, requests, id);
    BindingRowExists(t, id, surface, command);
    if id in bindings.rows { RowOrigin(keys0, before, keys, bindings, owner, requests, id); }
    if id in before.rows && Foreign(before.rows[id], owner) {
      KeptRowBinds(keys0, before, keys, bindings, owner, requests, t0, t, id, surface, command);
    }
    if before.lastId < id <= before.lastId + |requests| {
      RequestedRowBinds(keys0, before, keys, bindings, owner, requests, t, id - before.lastId - 1, surface, command);
    }
  }

  lemma OldIds(keys0: Table<KeyRow>, before: Table<BindingRow>, keys: Table<KeyRow>, bindings: Table<BindingRow>,
               owner: string, requests: seq<PluginBinding>, id: nat)
    requires IsReplacement(keys0, before, keys, bindings, owner, requests)
    ensures id in before.rows ==> id <= before.lastId
  {
  }

  lemma BindingRowExists(t: Tables, id: nat, surface: string, command: string)
    ensures BindsCommand(t, id, surface, command) ==> id in t.bindings
  {
  }

  lemma RuleOfLast(t: Tables, role: string, surface: string, command: string, id: nat)
    requires BindsCommand(t, id, surface, command)
    requires forall other: nat :: BindsCommand(t, other, surface, command) ==> other <= id
    ensures CommandRule(t, role, surface, command) <==> Granted(t, role, KeyOf(t, id))
  {
    hide Granted;
  }

  /** The requested binding that comes last decides the command for every role, whatever other owners
      had bound before. */
  lemma {:induction false} RequestedCommandDecides(
      keys0: Table<KeyRow>, before: Table<BindingRow>, keys: Table<KeyRow>, bindings: Table<BindingRow>,
      owner: string, requests: seq<PluginBinding>, roles: map<nat, string>, roleKeys: set<(nat, nat)>,
      role: string, surface: string, command: string, i: nat)
    requires IsReplacement(keys0, before, keys, bindings, owner, requests)
    requires LastRequest(requests, surface, command, i)
    ensures var t := Reading(keys, bindings, roles, roleKeys);
      CommandRule(t, role, surface, command) <==> Granted(t, role, requests[i].key)
  {
    hide IsReplacement, Binds, Granted, Foreign;
    var t0, t := Reading(keys0, before, roles, roleKeys), Reading(keys, bindings, roles, roleKeys);
    var id := before.lastId + 1 + i;
    RequestedRowBinds(keys0, before, keys, bindings, owner, requests, t, i, surface, command);
    forall other: nat | BindsCommand(t, other, surface, command) ensures other <= id {
      BindingOrigin(keys0, before, keys, bindings, owner, requests, t0, t, other, surface, command);
    }
    hide BindsCommand, KeyOf;
    RuleOfLast(t, role, surface, command, id);
  }

  /** A command the plugin does not request is decided by the surviving row that bound it last. */
  lemma {:induction false} OtherCommandDecides(
      keys0: Table<KeyRow>, before: Table<BindingRow>, keys: Table<KeyRow>, bindings: Table<BindingRow>,
      owner: string, requests: seq<PluginBinding>, roles: map<nat, string>, roleKeys: set<(nat, nat)>,
      role: string, surface: string, command: string)
    requires IsReplacement(keys0, before, keys, bindings, owner, requests) && GrantsReferToKeys(keys0, roleKeys)
    requires forall i: nat :: i < |requests| ==> !Binds(requests[i], surface, command)
    ensures var t0, t := Reading(keys0, before, roles, roleKeys), Reading(keys, bindings, roles, roleKeys);
      CommandRule(t, role, surface, command)
      <==> exists id :: LastKept(t0, owner, surface, command, id) && Granted(t0, role, KeyOf(t0, id))
  {
    var t0, t := Reading(keys0, before, roles, roleKeys), Reading(keys, bindings, roles, roleKeys);
    forall id: nat ensures BindsCommand(t, id, surface, command)
        <==> BindsCommand(t0, id, surface, command) && Foreign(t0.bindings[id], owner)
    {
      BindingOrigin(keys0, before, keys, bindings, owner, requests, t0, t, id, surface, command);
    }
    forall id: nat | BindsCommand(t, id, surface, command)
      ensures KeyOf(t, id) == KeyOf(t0, id) && (Granted(t, role, KeyOf(t, id)) <==> Granted(t0, role, KeyOf(t0, id)))
    {
      KeptRowBinds(keys0, before, keys, bindings, owner, requests, t0, t, id, surface, command);
      GrantsKept(keys0, before, keys, bindings, requests, roles, roleKeys, role, KeyOf(t0, id));
    }
    hide IsReplacement, GrantsReferToKeys, Granted, Foreign, Binds, BindsCommand, KeyOf;
    SameLast(t0, t, owner, role, surface, command);
  }

  /** Two tables in which the same rows bind a command, with the same grants, decide it alike. */
  lemma SameLast(t0: Tables, t: Tables, owner: string, role: string, surface: string, command: string)
    requires forall id: nat :: BindsCommand(t, id, surface, command)
                               <==> BindsCommand(t0, id, surface, command) && Foreign(t0.bindings[id], owner)
    requires forall id: nat :: BindsCommand(t, id, surface, command) ==>
               BindsCommand(t0, id, surface, command)
               && (Granted(t, role, KeyOf(t, id)) <==> Granted(t0, role, KeyOf(t0, id)))
    ensures CommandRule(t, role, surface, command)
            <==> exists id :: LastKept(t0, owner, surface, command, id) && Granted(t0, role, KeyOf(t0, id))
  {
    hide Granted;
    forall id: nat | BindsCommand(t, id, surface, command)
      ensures LastKept(t0, owner, surface, command, id)
              <==> forall other: nat :: BindsCommand(t, other, surface, command) ==> other <= id
    {
    }
  }

  /** After a replacement a command is allowed exactly when the plugin's last request for it, or, if there
      is none, the last surviving row for it, has a key granted to the role. */
  lemma {:induction false} CommandsAfterReplacement(
      keys0: Table<KeyRow>, before: Table<BindingRow>, keys: Table<KeyRow>, bindings: Table<BindingRow>,
      owner: string, requests: seq<PluginBinding>, roles: map<nat, string>, roleKeys: set<(nat, nat)>,
      role: string, surface: string, command: string)
    requires IsReplacement(keys0, before, keys, bindings, owner, requests) && GrantsReferToKeys(keys0, roleKeys)
    ensures var t0, t := Reading(keys0, before, roles, roleKeys), Reading(keys, bindings, roles, roleKeys);
      CommandRule(t, role, surface, command) <==>
        if exists i: nat :: LastRequest(requests, surface, command, i) then
          exists i: nat :: LastRequest(requests, surface, command, i) && Granted(t0, role, requests[i].key)
        else
          exists id :: LastKept(t0, owner, surface, command, id) && Granted(t0, role, KeyOf(t0, id))
  {
    hide IsReplacement, CommandRule, BindsCommand, Granted, Binds, LastKept, GrantsReferToKeys;
    if i: nat :| LastRequest(requests, surface, command, i) {
      forall j: nat | LastRequest(requests, surface, command, j)
        ensures CommandRule(Reading(keys, bindings, roles, roleKeys), role, surface, command)
                <==> Granted(Reading(keys0, before, roles, roleKeys), role, requests[j].key)
      {
        RequestedCommandDecides(keys0, before, keys, bindings, owner, requests, roles, roleKeys, role, surface,
            command, j);
        ReplacementEnsuresKeys(keys0, before, keys, bindings, owner, requests);
        GrantsKept(keys0, before, keys, bindings, requests, roles, roleKeys, role, requests[j].key);
      }
    } else {
      forall n: nat | n < |requests| ensures !Binds(requests[n], surface, command) {
        if Binds(requests[n], surface, command) {
          var i := LastRequestExists(requests, surface, command, n);
        }
      }
      OtherCommandDecides(keys0, before, keys, bindings, owner, requests, roles, roleKeys, role, surface, command);
    }
  }

  lemma ReplacementEnsuresKeys(keys0: Table<KeyRow>, before: Table<BindingRow>, keys: Table<KeyRow>,
                               bindings: Table<BindingRow>, owner: string, requests: seq<PluginBinding>)
    requires IsReplacement(keys0, before, keys, bindings, owner, requests)
    ensures KeysEnsured(keys0, keys, requests)
  {
  }
}

/** The policy tables and the transactional replacement of a plugin's bindings. */
module PolicyTables {
  import opened Wrappers
  import opened Text
  import opened PolicyKeys

  datatype KeyRow = KeyRow(key: string, surface: string, resource: string, action: string, name: string)

  datatype TargetType = HttpRoute | CliCommand | OtherTarget(name: string)

  datatype BindingRow = BindingRow(
    surface: string, target: TargetType, ref: string,
    httpMethod: Option<string>, pattern: Option<string>, command: Option<string>,
    keyId: nat, ownerType: string, ownerId: string, isSystem: bool)

  /** A table with an AUTOINCREMENT id; `lastId` is the highest id ever given out. */
  datatype Table<T> = Table(rows: map<nat, T>, lastId: nat)

  /** A binding a plugin asks for. */
  datatype PluginBinding =
    | Http(surface: string, httpMethod: string, pattern: string, key: string)
    | Cli(command: string, key: string)

  // ---- Normalising -------------------------------------------------------------------------------

  function NonEmpty(raw: string): Result<string, KeyError> {
    var s := Trim(IsWhitespace, raw);
    if s == "" then Err(EmptyField) else Ok(s)
  }

  function Normalize(b: PluginBinding): Result<PluginBinding, KeyError> {
    match b
    case Http(surface, httpMethod, pattern, key) =>
      var s := NonEmpty(surface);
      var m := NonEmpty(httpMethod);
      var p := NonEmpty(pattern);
      if s.Err? then Err(s.error) else if m.Err? then Err(m.error) else if p.Err? then Err(p.error)
      else
        (match Parse(key)
         case Ok(k) => Ok(Http(Lower(s.value), Upper(m.value), p.value, k.key))
         case Err(error) => Err(error))
    case Cli(command, key) =>
      var c := NonEmpty(command);
      if c.Err? then Err(c.error)
      else
        (match Parse(key)
         case Ok(k) => Ok(Cli(c.value, k.key))
         case Err(error) => Err(error))
  }

  /** Every normalised binding carries a key that parses to itself. */
  lemma {:induction false} NormalizedKeyParses(b: PluginBinding)
    requires Normalize(b).Ok?
    ensures Parse(Normalize(b).value.key).Ok? && Parse(Normalize(b).value.key).value.key == Normalize(b).value.key
  {
    ParseOfParsed(b.key);
  }

  /** What a binding is stored as: its texts trimmed and not empty, the surface in lower and the method
      in upper case, the key as it parses. */
  ghost predicate NormalizedAs(b: PluginBinding, n: PluginBinding) {
    match b
    case Http(surface, httpMethod, pattern, key) =>
      && n.Http? && Parse(key).Ok? && n.key == Parse(key).value.key
      && Trim(IsWhitespace, surface) != "" && n.surface == Lower(Trim(IsWhitespace, surface))
      && Trim(IsWhitespace, httpMethod) != "" && n.httpMethod == Upper(Trim(IsWhitespace, httpMethod))
      && Trim(IsWhitespace, pattern) != "" && n.pattern == Trim(IsWhitespace, pattern)
    case Cli(command, key) =>
      && n.Cli? && Parse(key).Ok? && n.key == Parse(key).value.key
      && Trim(IsWhitespace, command) != "" && n.command == Trim(IsWhitespace, command)
  }

  lemma NormalizeGives(b: PluginBinding, n: PluginBinding)
    ensures Normalize(b) == Ok(n) <==> NormalizedAs(b, n)
  {
    hide Parse, Trim, Lower, Upper, IsWhitespace;
  }

  /** All requests normalise, one by one and in order, or none is stored. */
  lemma {:induction false} NormalizeAllGives(requests: seq<PluginBinding>, wanted: seq<PluginBinding>)
    ensures NormalizeAll(requests) == Ok(wanted) <==>
      |wanted| == |requests| && forall i :: 0 <= i < |requests| ==> NormalizedAs(requests[i], wanted[i])
  {
    hide Normalize, NormalizedAs;
    if requests == [] {
    } else if wanted == [] {
    } else {
      NormalizeGives(requests[0], wanted[0]);
      NormalizeAllGives(requests[1..], wanted[1..]);
      assert wanted == [wanted[0]] + wanted[1..];
    }
  }

  // ---- Table constraints ----------------------------------------------------------------------------

  const PLUGIN := "plugin"

  predicate OwnedBy(row: BindingRow, owner: string) {
    row.ownerType == PLUGIN && row.ownerId == owner
  }

  /** The row stored for a normalised binding. */
  function RowOf(b: PluginBinding, keyId: nat, owner: string): BindingRow {
    match b
    case Http(surface, httpMethod, pattern, _) =>
      BindingRow(surface, HttpRoute, pattern, Some(httpMethod), Some(pattern), None, keyId, PLUGIN, owner, false)
    case Cli(command, _) =>
      BindingRow("cli", CliCommand, command, None, None, Some(command), keyId, PLUGIN, owner, false)
  }

  function OrEmpty(s: Option<string>): string {
    if s.Some? then s.value else ""
  }

  /** The unique index over a binding's identity; NULL counts as the empty text. */
  predicate SameIdentity(a: BindingRow, b: BindingRow) {
    && a.surface == b.surface && a.target == b.target && a.ref == b.ref
    && OrEmpty(a.httpMethod) == OrEmpty(b.httpMethod) && OrEmpty(a.pattern) == OrEmpty(b.pattern)
    && OrEmpty(a.command) == OrEmpty(b.command)
    && a.keyId == b.keyId && a.ownerType == b.ownerType && a.ownerId == b.ownerId
  }

  ghost predicate IdsBounded<T>(t: Table<T>) {
    forall id :: id in t.rows ==> id <= t.lastId
  }

  ghost predicate KeysUnique(keys: Table<KeyRow>) {
    forall i, j :: i in keys.rows && j in keys.rows && keys.rows[i].key == keys.rows[j].key ==> i == j
  }

  ghost predicate StoreOk(keys: Table<KeyRow>, bindings: Table<BindingRow>) {
    && IdsBounded(keys) && KeysUnique(keys) && IdsBounded(bindings)
    && (forall id :: id in bindings.rows ==> bindings.rows[id].keyId in keys.rows)
    && (forall i, j :: i in bindings.rows && j in bindings.rows && i != j ==>
          !SameIdentity(bindings.rows[i], bindings.rows[j]))
  }

  // ---- What a replacement does -------------------------------------------------------------------------

  /** The keys only grow, by fresh rows for requested keys; every requested key is there. */
  ghost predicate KeysEnsured(before: Table<KeyRow>, after: Table<KeyRow>, requests: seq<PluginBinding>) {
    && KeysUnique(after) && IdsBounded(after) && before.lastId <= after.lastId
    && (forall id :: id in before.rows ==> id in after.rows && after.rows[id] == before.rows[id])
    && (forall id :: id in after.rows && id !in before.rows ==>
          && id > before.lastId
          && after.rows[id].key in KeysOf(requests)
          && IsFreshKeyRow(after.rows[id]))
    && (forall k :: k in KeysOf(requests) ==> HasKey(after, k))
  }

  ghost function KeysOf(requests: seq<PluginBinding>): set<string> {
    set b | b in requests :: b.key
  }

  predicate HasKey(keys: Table<KeyRow>, key: string) {
    exists id :: id in keys.rows && keys.rows[id].key == key
  }

  /** A key row as the replacement inserts it: named after its key, split as the key parses. */
  ghost predicate IsFreshKeyRow(row: KeyRow) {
    row.name == row.key && Parse(row.key) == Ok(PolicyKey(row.key, row.surface, row.resource, row.action))
  }

  /** The owner's old rows are gone, the requested bindings are there in order under consecutive
      fresh ids, and no other row changed. */
  ghost predicate BindingsReplaced(before: Table<BindingRow>, after: Table<BindingRow>, keys: Table<KeyRow>,
                                   owner: string, requests: seq<PluginBinding>) {
    && after.lastId == before.lastId + |requests|
    && (forall id :: id in after.rows <==>
          || (id in before.rows && (before.rows[id].ownerType != "plugin" || before.rows[id].ownerId != owner))
          || before.lastId < id <= before.lastId + |requests|)
    && (forall id ::
          id in before.rows && (before.rows[id].ownerType != "plugin" || before.rows[id].ownerId != owner) ==>
            after.rows[id] == before.rows[id])
    && (forall i :: 0 <= i < |requests| ==> StoredAs(after.rows[before.lastId + 1 + i], requests[i], keys, owner))
  }

  /** The row carries the request, column by column, for the plugin that owns it. */
  ghost predicate StoredAs(row: BindingRow, request: PluginBinding, keys: Table<KeyRow>, owner: string) {
    && row.keyId in keys.rows && keys.rows[row.keyId].key == request.key
    && row.ownerType == "plugin" && row.ownerId == owner && !row.isSystem
    && match request
       case Http(surface, httpMethod, pattern, _) =>
         && row.target == HttpRoute && row.surface == surface && row.ref == pattern
         && row.httpMethod == Some(httpMethod) && row.pattern == Some(pattern) && row.command.None?
       case Cli(command, _) =>
         && row.target == CliCommand && row.surface == "cli" && row.ref == command
         && row.httpMethod.None? && row.pattern.None? && row.command == Some(command)
  }

  lemma StoredRow(row: BindingRow, request: PluginBinding, keys: Table<KeyRow>, owner: string)
    ensures StoredAs(row, request, keys, owner) <==>
      row.keyId in keys.rows && keys.rows[row.keyId].key == request.key && row == RowOf(request, row.keyId, owner)
  {
  }

  ghost predicate Distinct(requests: seq<PluginBinding>) {
    forall i, j :: 0 <= i < j < |requests| ==> requests[i] != requests[j]
  }

  function NormalizeAll(requests: seq<PluginBinding>): Result<seq<PluginBinding>, KeyError> {
    if requests == [] then Ok([])
    else
      var first := Normalize(requests[0]);
      var rest := NormalizeAll(requests[1..]);
      if first.Err? then Err(first.error) else if rest.Err? then rest else Ok([first.value] + rest.value)
  }

  datatype ReplaceError = BadInput(error: KeyError) | StorageFailed | UniqueViolated

  class PolicyStore {
    var keys: Table<KeyRow>
    var bindings: Table<BindingRow>
    var clock: nat
    const fails: nat -> bool

    constructor (fails: nat -> bool)
      ensures this.fails == fails && StoreOk(keys, bindings) && keys.rows == map[] && bindings.rows == map[]
    {
      this.fails := fails;
      keys, bindings, clock := Table(map[], 0), Table(map[], 0), 0;
    }

    method Begin() returns (failed: bool)
      modifies this`clock
      ensures (forall n: nat :: !fails(n)) ==> !failed
    {
      failed := fails(clock);
      clock := clock + 1;
    }

    method DeleteOwned(owner: string) returns (ok: bool)
      modifies this`bindings, this`clock
      ensures (forall n: nat :: !fails(n)) ==> ok
      ensures ok ==> bindings == old(bindings).(rows := WithoutOwner(old(bindings).rows, owner))
      ensures !ok ==> bindings == old(bindings)
    {
      var failed := Begin();
      if failed { return false; }
      bindings := bindings.(rows := WithoutOwner(bindings.rows, owner));
      ok := true;
    }

    /** INSERT OR IGNORE: adds the key unless a row with that key exists. */
    method EnsureKey(k: PolicyKey) returns (ok: bool)
      modifies this`keys, this`clock
      ensures (forall n: nat :: !fails(n)) ==> ok
      ensures ok ==> keys == WithKey(old(keys), k)
      ensures !ok ==> keys == old(keys)
    {
      var failed := Begin();
      if failed { return false; }
      if !HasKey(keys, k.key) {
        var id := keys.lastId + 1;
        keys := Table(keys.rows[id := KeyRow(k.key, k.surface, k.resource, k.action, k.key)], id);
      }
      ok := true;
    }

    /** INSERT ... SELECT: one row for the id of the key, unless the unique index refuses it. */
    method InsertBinding(b: PluginBinding, owner: string) returns (r: Result<(), ReplaceError>, id: nat)
      requires HasKey(keys, b.key)
      modifies this`bindings, this`clock
      ensures id in keys.rows && keys.rows[id].key == b.key
      ensures r.Ok? ==>
                && !Clashes(old(bindings).rows, RowOf(b, id, owner))
                && bindings == Table(old(bindings).rows[old(bindings).lastId + 1 := RowOf(b, id, owner)],
                    old(bindings).lastId + 1)
      ensures r.Err? ==> bindings == old(bindings) && (r.error.StorageFailed? || r.error.UniqueViolated?)
      ensures r.Err? && r.error.UniqueViolated? ==> Clashes(bindings.rows, RowOf(b, id, owner))
      ensures (forall n: nat :: !fails(n)) ==> r.Ok? || r.error.UniqueViolated?
    {
      id :| id in keys.rows && keys.rows[id].key == b.key;
      var failed := Begin();
      if failed { return Err(StorageFailed), id; }
      var row := RowOf(b, id, owner);
      if Clashes(bindings.rows, row) { return Err(UniqueViolated), id; }
      bindings := Table(bindings.rows[bindings.lastId + 1 := row], bindings.lastId + 1);
      r := Ok(());
    }

    /** The statements inside the transaction, for already normalised requests. */
    method ApplyReplacement(owner: string, requests: seq<PluginBinding>) returns (r: Result<(), ReplaceError>)
      requires StoreOk(keys, bindings)
      requires forall i :: 0 <= i < |requests| ==> IsNormal(requests[i])
      modifies this
      ensures r.Ok? ==>
                && StoreOk(keys, bindings) && Distinct(requests)
                && KeysEnsured(old(keys), keys, requests)
                && BindingsReplaced(old(bindings), bindings, keys, owner, requests)
      ensures (forall n: nat :: !fails(n)) ==> (r.Ok? <==> Distinct(requests))
    {
      ghost var keys0, bindings0 := keys, bindings;
      ReplacementBegins(keys, bindings, owner);
      hide StoreOk, KeysEnsured, BindingsReplaced, HasKey, Clashes, IsNormal, WithoutOwner, WithKey;
      var ok := DeleteOwned(owner);
      if !ok { return Err(StorageFailed); }
      assert requests[..0] == [];
      var i := 0;
      while i < |requests|
        invariant 0 <= i <= |requests|
        invariant StoreOk(keys, bindings) && Distinct(requests[..i])
        invariant KeysEnsured(keys0, keys, requests[..i])
        invariant BindingsReplaced(bindings0, bindings, keys, owner, requests[..i])
      {
        r := InsertOne(keys0, bindings0, owner, requests, i);
        if r.Err? { return; }
        i := i + 1;
      }
      assert requests[..i] == requests;
      r := Ok(());
    }

    /** The body of the loop: makes sure of the key, then inserts the binding row. */
    method InsertOne(ghost keys0: Table<KeyRow>, ghost bindings0: Table<BindingRow>, owner: string,
                     requests: seq<PluginBinding>, i: nat) returns (r: Result<(), ReplaceError>)
      requires i < |requests| && IsNormal(requests[i])
      requires StoreOk(keys, bindings) && Distinct(requests[..i]) && IdsBounded(bindings0)
      requires KeysEnsured(keys0, keys, requests[..i])
      requires BindingsReplaced(bindings0, bindings, keys, owner, requests[..i])
      modifies this
      ensures r.Ok? ==>
                && StoreOk(keys, bindings) && Distinct(requests[..i + 1])
                && KeysEnsured(keys0, keys, requests[..i + 1])
                && BindingsReplaced(bindings0, bindings, keys, owner, requests[..i + 1])
      ensures r.Err? && (forall n: nat :: !fails(n)) ==> !Distinct(requests)
    {
      hide StoreOk, KeysEnsured, BindingsReplaced, HasKey, Clashes, IsNormal, WithKey, Distinct, IdsBounded, RowOf,
        Parse;
      var b := requests[i];
      NormalKeyParses(b);
      ghost var keys1, bindings1 := keys, bindings;
      EnsureKeyStep(keys0, keys, bindings, requests[..i], b);
      assert requests[..i + 1] == requests[..i] + [b];
      var ok := EnsureKey(Parse(b.key).value);
      if !ok { return Err(StorageFailed); }
      SameBindingsMoreKeys(bindings0, bindings, keys1, keys, owner, requests[..i]);
      var key;
      r, key := InsertBinding(b, owner);
      if r.Ok? {
        InsertStep(bindings0, bindings1, bindings, keys, owner, requests, i, key);
      } else if r.error.UniqueViolated? {
        ClashIsRepeat(bindings0, bindings, keys, owner, requests, i, key);
      }
    }

    /** Replaces everything the plugin owns by the requested bindings, or changes nothing.

        Without storage failures it succeeds exactly when the owner and all requests normalise
        and no two normalised requests are equal. */
    method ReplacePluginPolicyBindings(plugin: string, requests: seq<PluginBinding>)
        returns (r: Result<(), ReplaceError>)
      requires StoreOk(keys, bindings)
      modifies this
      ensures StoreOk(keys, bindings)
      ensures r.Ok? ==>
                && NonEmpty(plugin).Ok? && NormalizeAll(requests).Ok?
                && var wanted := NormalizeAll(requests).value;
                   && KeysEnsured(old(keys), keys, wanted)
                   && BindingsReplaced(old(bindings), bindings, keys, NonEmpty(plugin).value, wanted)
      ensures r.Err? ==> keys == old(keys) && bindings == old(bindings)
      ensures (forall n: nat :: !fails(n)) ==>
                (r.Ok? <==>
                  NonEmpty(plugin).Ok? && NormalizeAll(requests).Ok? && Distinct(NormalizeAll(requests).value))
    {
      var owner := NonEmpty(plugin);
      if owner.Err? { return Err(BadInput(owner.error)); }
      var normalized := NormalizeRequests(requests);
      if normalized.Err? { return Err(BadInput(normalized.error)); }
      AllNormal(requests);
      hide StoreOk, KeysEnsured, BindingsReplaced, Distinct, NormalizeAll, NonEmpty;
      var savedKeys, savedBindings := keys, bindings;
      var failed := Begin();
      if failed { return Err(StorageFailed); }
      r := ApplyReplacement(owner.value, normalized.value);
      if r.Ok? {
        failed := Begin();
        if failed { r := Err(StorageFailed); }
      }
      if r.Err? {
        keys, bindings := savedKeys, savedBindings;
      }
    }
  }

  method NormalizeRequests(requests: seq<PluginBinding>) returns (r: Result<seq<PluginBinding>, KeyError>)
    ensures r == NormalizeAll(requests)
  {
    hide Normalize;
    var normalized: seq<PluginBinding> := [];
    var i := 0;
    assert requests[0..] == requests;
    AfterNothing(NormalizeAll(requests));
    while i < |requests|
      invariant 0 <= i <= |requests|
      invariant NormalizeAll(requests) == After(normalized, NormalizeAll(requests[i..]))
    {
      assert requests[i..][0] == requests[i] && requests[i..][1..] == requests[i + 1..];
      var b := Normalize(requests[i]);
      if b.Err? { return Err(b.error); }
      AfterOne(normalized, b.value, NormalizeAll(requests[i + 1..]));
      normalized := normalized + [b.value];
      i := i + 1;
    }
    assert requests[i..] == [] && normalized + [] == normalized;
    r := Ok(normalized);
  }

  function After(done: seq<PluginBinding>, rest: Result<seq<PluginBinding>, KeyError>):
    Result<seq<PluginBinding>, KeyError>
  {
    if rest.Ok? then Ok(done + rest.value) else rest
  }

  lemma AfterNothing(rest: Result<seq<PluginBinding>, KeyError>)
    ensures After([], rest) == rest
  {
    if rest.Ok? { assert [] + rest.value == rest.value; }
  }

  lemma AfterOne(done: seq<PluginBinding>, b: PluginBinding, rest: Result<seq<PluginBinding>, KeyError>)
    ensures rest.Ok? ==> done + ([b] + rest.value) == done + [b] + rest.value
  {
  }

  /** A binding that came out of normalising. */
  ghost predicate IsNormal(b: PluginBinding) {
    exists raw :: Normalize(raw) == Ok(b)
  }

  lemma NormalKeyParses(b: PluginBinding)
    requires IsNormal(b)
    ensures Parse(b.key).Ok? && Parse(b.key).value.key == b.key
  {
    var raw :| Normalize(raw) == Ok(b);
    NormalizedKeyParses(raw);
  }

  lemma {:induction false} AllNormal(requests: seq<PluginBinding>)
    ensures var r := NormalizeAll(requests);
      r.Ok? ==> |r.value| == |requests| && forall i :: 0 <= i < |r.value| ==> IsNormal(r.value[i])
  {
    if requests == [] {
    } else {
      AllNormal(requests[1..]);
    }
  }

  // ---- Steps of the loop ---------------------------------------------------------------------------

  lemma ReplacementBegins(keys: Table<KeyRow>, bindings: Table<BindingRow>, owner: string)
    requires StoreOk(keys, bindings)
    ensures var cleared := bindings.(rows := WithoutOwner(bindings.rows, owner));
      StoreOk(keys, cleared) && KeysEnsured(keys, keys, []) && BindingsReplaced(bindings, cleared, keys, owner, [])
  {
  }

  function WithKey(keys: Table<KeyRow>, k: PolicyKey): Table<KeyRow> {
    if HasKey(keys, k.key) then keys
    else Table(keys.rows[keys.lastId + 1 := KeyRow(k.key, k.surface, k.resource, k.action, k.key)], keys.lastId + 1)
  }

  lemma WithKeyGrows(keys: Table<KeyRow>, k: PolicyKey)
    requires KeysUnique(keys) && IdsBounded(keys)
    ensures KeysUnique(WithKey(keys, k)) && IdsBounded(WithKey(keys, k)) && HasKey(WithKey(keys, k), k.key)
    ensures keys.lastId <= WithKey(keys, k).lastId
    ensures forall id :: id in keys.rows ==> id in WithKey(keys, k).rows && WithKey(keys, k).rows[id] == keys.rows[id]
    ensures forall id :: id in WithKey(keys, k).rows && id !in keys.rows ==>
              && id == keys.lastId + 1
              && WithKey(keys, k).rows[id] == KeyRow(k.key, k.surface, k.resource, k.action, k.key)
  {
    if !HasKey(keys, k.key) {
      assert WithKey(keys, k).rows[keys.lastId + 1].key == k.key;
    }
  }

  lemma HasKeyStays(keys: Table<KeyRow>, more: Table<KeyRow>, key: string)
    requires HasKey(keys, key)
    requires forall id :: id in keys.rows ==> id in more.rows && more.rows[id] == keys.rows[id]
    ensures HasKey(more, key)
  {
    var id :| id in keys.rows && keys.rows[id].key == key;
    assert more.rows[id].key == key;
  }

  lemma MoreKeysStoreOk(keys: Table<KeyRow>, more: Table<KeyRow>, bindings: Table<BindingRow>)
    requires StoreOk(keys, bindings) && KeysUnique(more) && IdsBounded(more)
    requires forall id :: id in keys.rows ==> id in more.rows
    ensures StoreOk(more, bindings)
  {
  }

  lemma MoreKeysEnsured(keys0: Table<KeyRow>, keys: Table<KeyRow>, done: seq<PluginBinding>, b: PluginBinding)
    requires KeysEnsured(keys0, keys, done)
    requires Parse(b.key).Ok? && Parse(b.key).value.key == b.key
    ensures KeysEnsured(keys0, WithKey(keys, Parse(b.key).value), done + [b])
  {
    hide Parse;
    var k := Parse(b.key).value;
    var more := WithKey(keys, k);
    WithKeyGrows(keys, k);
    KeysOfMore(done, b);
    assert IsFreshKeyRow(KeyRow(k.key, k.surface, k.resource, k.action, k.key));
    hide WithKey, KeysOf, KeysUnique, IdsBounded, IsFreshKeyRow;
    forall x | x in KeysOf(done + [b]) ensures HasKey(more, x) {
      if x in KeysOf(done) { HasKeyStays(keys, more, x); }
    }
  }

  lemma KeysOfMore(done: seq<PluginBinding>, b: PluginBinding)
    ensures KeysOf(done + [b]) == KeysOf(done) + {b.key}
  {
  }

  lemma EnsureKeyStep(keys0: Table<KeyRow>, keys: Table<KeyRow>, bindings: Table<BindingRow>,
                      done: seq<PluginBinding>, b: PluginBinding)
    requires StoreOk(keys, bindings) && KeysEnsured(keys0, keys, done)
    requires Parse(b.key).Ok? && Parse(b.key).value.key == b.key
    ensures var more := WithKey(keys, Parse(b.key).value);
      && StoreOk(more, bindings) && KeysEnsured(keys0, more, done + [b]) && HasKey(more, b.key)
      && (forall id :: id in keys.rows ==> id in more.rows && more.rows[id] == keys.rows[id])
  {
    var more := WithKey(keys, Parse(b.key).value);
    hide WithKey, KeysOf, HasKey;
    WithKeyGrows(keys, Parse(b.key).value);
    MoreKeysStoreOk(keys, more, bindings);
    MoreKeysEnsured(keys0, keys, done, b);
  }

  lemma SameBindingsMoreKeys(bindings0: Table<BindingRow>, bindings: Table<BindingRow>, keys1: Table<KeyRow>,
                             keys: Table<KeyRow>, owner: string, done: seq<PluginBinding>)
    requires BindingsReplaced(bindings0, bindings, keys1, owner, done)
    requires forall id :: id in keys1.rows ==> id in keys.rows && keys.rows[id] == keys1.rows[id]
    ensures BindingsReplaced(bindings0, bindings, keys, owner, done)
  {
  }

  /** Stored identities of normalised bindings coincide only for equal bindings. */
  lemma RowIdentity(a: PluginBinding, b: PluginBinding, keyA: nat, keyB: nat, keys: Table<KeyRow>, owner: string)
    requires keyA in keys.rows && keys.rows[keyA].key == a.key
    requires keyB in keys.rows && keys.rows[keyB].key == b.key
    requires SameIdentity(RowOf(a, keyA, owner), RowOf(b, keyB, owner))
    ensures a == b
  {
  }

  lemma OwnedRowIsNew(bindings0: Table<BindingRow>, bindings: Table<BindingRow>, keys: Table<KeyRow>,
                      owner: string, done: seq<PluginBinding>, c: nat) returns (j: int)
    requires BindingsReplaced(bindings0, bindings, keys, owner, done)
    requires c in bindings.rows && OwnedBy(bindings.rows[c], owner)
    ensures 0 <= j < |done| && c == bindings0.lastId + 1 + j && StoredAs(bindings.rows[c], done[j], keys, owner)
  {
    j := c - bindings0.lastId - 1;
  }

  lemma ClashIsRepeat(bindings0: Table<BindingRow>, bindings: Table<BindingRow>, keys: Table<KeyRow>,
                      owner: string, requests: seq<PluginBinding>, i: nat, id: nat)
    requires i < |requests| && BindingsReplaced(bindings0, bindings, keys, owner, requests[..i])
    requires id in keys.rows && keys.rows[id].key == requests[i].key
    requires Clashes(bindings.rows, RowOf(requests[i], id, owner))
    ensures !Distinct(requests)
  {
    var row := RowOf(requests[i], id, owner);
    var c :| c in bindings.rows && SameIdentity(bindings.rows[c], row);
    var j := OwnedRowIsNew(bindings0, bindings, keys, owner, requests[..i], c);
    RowIdentity(requests[j], requests[i], bindings.rows[c].keyId, id, keys, owner);
  }

  lemma {:induction false} InsertStep(bindings0: Table<BindingRow>, bindings1: Table<BindingRow>,
                                      bindings: Table<BindingRow>,
                                      keys: Table<KeyRow>, owner: string, requests: seq<PluginBinding>, i: nat, id: nat)
    requires i < |requests| && StoreOk(keys, bindings1) && Distinct(requests[..i])
    requires BindingsReplaced(bindings0, bindings1, keys, owner, requests[..i])
    requires IdsBounded(bindings0)
    requires id in keys.rows && keys.rows[id].key == requests[i].key
    requires var row := RowOf(requests[i], id, owner);
      && !Clashes(bindings1.rows, row)
      && bindings == Table(bindings1.rows[bindings1.lastId + 1 := row], bindings1.lastId + 1)
    ensures StoreOk(keys, bindings) && Distinct(requests[..i + 1])
    ensures BindingsReplaced(bindings0, bindings, keys, owner, requests[..i + 1])
  {
    InsertKeepsStoreOk(keys, bindings1, RowOf(requests[i], id, owner));
    InsertIsDistinct(bindings0, bindings1, keys, owner, requests, i, id);
    hide StoreOk, Distinct, Clashes;
    InsertReplaces(bindings0, bindings1, bindings, keys, owner, requests[..i], requests[i], id);
    assert requests[..i + 1] == requests[..i] + [requests[i]];
  }

  lemma InsertReplaces(bindings0: Table<BindingRow>, bindings1: Table<BindingRow>, bindings: Table<BindingRow>,
                       keys: Table<KeyRow>, owner: string, done: seq<PluginBinding>, b: PluginBinding, id: nat)
    requires BindingsReplaced(bindings0, bindings1, keys, owner, done)
    requires IdsBounded(bindings0)
    requires id in keys.rows && keys.rows[id].key == b.key
    requires bindings == Table(bindings1.rows[bindings1.lastId + 1 := RowOf(b, id, owner)], bindings1.lastId + 1)
    ensures BindingsReplaced(bindings0, bindings, keys, owner, done + [b])
  {
  }

  lemma InsertKeepsStoreOk(keys: Table<KeyRow>, bindings: Table<BindingRow>, row: BindingRow)
    requires StoreOk(keys, bindings) && row.keyId in keys.rows && !Clashes(bindings.rows, row)
    ensures StoreOk(keys, Table(bindings.rows[bindings.lastId + 1 := row], bindings.lastId + 1))
  {
  }

  lemma InsertIsDistinct(bindings0: Table<BindingRow>, bindings: Table<BindingRow>, keys: Table<KeyRow>,
                         owner: string, requests: seq<PluginBinding>, i: nat, id: nat)
    requires i < |requests| && KeysUnique(keys) && Distinct(requests[..i])
    requires BindingsReplaced(bindings0, bindings, keys, owner, requests[..i])
    requires id in keys.rows && keys.rows[id].key == requests[i].key
    requires !Clashes(bindings.rows, RowOf(requests[i], id, owner))
    ensures Distinct(requests[..i + 1])
  {
    forall j | 0 <= j < i ensures requests[j] != requests[i] {
      var c := bindings0.lastId + 1 + j;
      assert c in bindings.rows && StoredAs(bindings.rows[c], requests[..i][j], keys, owner);
    }
    assert forall j :: 0 <= j < i ==> requests[..i + 1][j] == requests[..i][j] == requests[j];
  }

  function WithoutOwner(rows: map<nat, BindingRow>, owner: string): map<nat, BindingRow> {
    map id | id in rows && !OwnedBy(rows[id], owner) :: rows[id]
  }

  predicate Clashes(rows: map<nat, BindingRow>, row: BindingRow) {
    exists id :: id in rows && SameIdentity(rows[id], row)
  }
}

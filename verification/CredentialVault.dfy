/**
 * The credential vault: envelope encryption with key rotation, as a refinement of a plain map from credential
 * to payload. Authenticated encryption, hashing and randomness are parameters; what is assumed of them is `CryptoOk`.
 */
module CredentialVault {
  import opened Prelude

  datatype Payload = Payload(userId: string, x: string, y: string, wallet: Option<string>)

  /** Ciphertext and authentication tag, as hex text. */
  datatype Sealed = Sealed(cipher: string, tag: string)

  datatype Crypto = Crypto(
    hash: string -> string,
    sealPayload: (string, string, Payload) -> Sealed,
    openPayload: (string, string, Sealed) -> Option<Payload>,
    sealKey: (string, string, string) -> Sealed,
    openKey: (string, string, Sealed) -> Option<string>)

  predicate NoColon(s: string) {
    forall i :: 0 <= i < |s| ==> s[i] != ':'
  }

  /** Opening undoes sealing, the lookup hash does not collide, and sealed keys are colon-free text. */
  ghost predicate CryptoOk(c: Crypto) {
    && (forall a, b :: c.hash(a) == c.hash(b) ==> a == b)
    && (forall k, iv, p :: c.openPayload(k, iv, c.sealPayload(k, iv, p)) == Some(p))
    && (forall k, iv, d :: c.openKey(k, iv, c.sealKey(k, iv, d)) == Some(d))
    && (forall k, iv, d :: NoColon(c.sealKey(k, iv, d).cipher) && NoColon(c.sealKey(k, iv, d).tag))
  }

  // ---- wrapped keys are `iv:ciphertext:tag` text ---------------------------------------------------------

  function Split(s: string): (parts: seq<string>)
    ensures |parts| > 0
  {
    if s == "" then [""]
    else
      var rest := Split(s[1..]);
      if s[0] == ':' then [""] + rest else [[s[0]] + rest[0]] + rest[1..]
  }

  lemma {:induction false} SplitText(a: string)
    requires NoColon(a)
    ensures Split(a) == [a]
  {
    if a != "" {
      SplitText(a[1..]);
      assert [a[0]] + a[1..] == a;
    }
  }

  lemma {:induction false} SplitFirst(a: string, rest: string)
    requires NoColon(a)
    ensures Split(a + ":" + rest) == [a] + Split(rest)
  {
    var s := a + ":" + rest;
    if a == "" {
      assert s[1..] == rest;
    } else {
      assert s[1..] == a[1..] + ":" + rest;
      SplitFirst(a[1..], rest);
      assert [a[0]] + a[1..] == a;
    }
  }

  function WrapDek(c: Crypto, dek: string, kek: string, iv: string): string {
    iv + ":" + c.sealKey(kek, iv, dek).cipher + ":" + c.sealKey(kek, iv, dek).tag
  }

  function UnwrapDek(c: Crypto, wrapped: string, kek: string): Option<string> {
    var parts := Split(wrapped);
    if |parts| < 3 then None else c.openKey(kek, parts[0], Sealed(parts[1], parts[2]))
  }

  lemma UnwrapUndoesWrap(c: Crypto, dek: string, kek: string, iv: string)
    requires CryptoOk(c) && NoColon(iv)
    ensures UnwrapDek(c, WrapDek(c, dek, kek, iv), kek) == Some(dek)
  {
    var s := c.sealKey(kek, iv, dek);
    assert WrapDek(c, dek, kek, iv) == iv + ":" + (s.cipher + ":" + s.tag);
    SplitFirst(iv, s.cipher + ":" + s.tag);
    SplitFirst(s.cipher, s.tag);
    SplitText(s.tag);
  }

  // ---- rows -----------------------------------------------------------------------------------------------

  /** The encryption columns of a row, always written together except for a rotation of `wrappedDek`. */
  datatype Envelope = Envelope(sealed: Sealed, iv: string, wrappedDek: string)

  datatype Row = Row(
    userId: string,
    lookupHash: Option<string>,
    credentialId: Option<string>,
    envelope: Option<Envelope>,
    kekVersion: nat,
    x: Option<string>,
    y: Option<string>)

  datatype Vault = Vault(keks: map<nat, string>, current: nat, rows: map<string, Row>)

  /** What a lookup returns: the row's id and the payload, which for a legacy row is made from its columns. */
  datatype Credential = Credential(id: string, payload: Payload)

  /** Fresh random values for one encryption. */
  datatype Random = Random(id: string, dek: string, iv: string, wrapIv: string)

  predicate Matches(c: Crypto, row: Row, cred: string) {
    row.lookupHash == Some(c.hash(cred)) || row.credentialId == Some(cred)
  }

  /** `... LIMIT 1`: some matching row. */
  ghost function Find(c: Crypto, rows: map<string, Row>, cred: string): (r: Option<string>)
    ensures r.Some? ==> r.value in rows && Matches(c, rows[r.value], cred)
    ensures r.None? ==> forall id :: id in rows ==> !Matches(c, rows[id], cred)
  {
    if exists id :: id in rows && Matches(c, rows[id], cred)
    then var id :| id in rows && Matches(c, rows[id], cred); Some(id) else None
  }

  /** The payload key of an encrypted row, if its key version is loaded and the wrapper opens. */
  function DekOf(c: Crypto, keks: map<nat, string>, row: Row): Option<string> {
    if row.envelope.None? || row.kekVersion !in keks then None
    else UnwrapDek(c, row.envelope.value.wrappedDek, keks[row.kekVersion])
  }

  /** `lookupAndDecrypt` on a found row. */
  function Decode(c: Crypto, keks: map<nat, string>, row: Row): Option<Payload> {
    if row.kekVersion == 0 || row.envelope.None? then
      if row.x.Some? && row.y.Some? && row.x.value != "" && row.y.value != ""
      then Some(Payload(row.userId, row.x.value, row.y.value, None)) else None
    else
      var dek := DekOf(c, keks, row);
      if dek.None? then None else c.openPayload(dek.value, row.envelope.value.iv, row.envelope.value.sealed)
  }

  function Found(id: string, payload: Option<Payload>): Option<Credential> {
    if payload.Some? then Some(Credential(id, payload.value)) else None
  }

  ghost function Lookup(c: Crypto, v: Vault, cred: string): Option<Credential> {
    var id := Find(c, v.rows, cred);
    if id.Some? then Found(id.value, Decode(c, v.keks, v.rows[id.value])) else None
  }

  // ---- operations -------------------------------------------------------------------------------------------

  function Encrypt(c: Crypto, v: Vault, p: Payload, r: Random): Envelope
    requires v.current in v.keks
  {
    Envelope(c.sealPayload(r.dek, r.iv, p), r.iv, WrapDek(c, r.dek, v.keks[v.current], r.wrapIv))
  }

  /** The row written for `cred`, over `old` when one was found. */
  function StoredRow(c: Crypto, v: Vault, cred: string, p: Payload, r: Random, existing: Option<Row>): Row
    requires v.current > 0 ==> v.current in v.keks
  {
    var hash := Some(c.hash(cred));
    var userId := if existing.Some? then existing.value.userId else p.userId;
    if v.current == 0 then
      if existing.Some? then existing.value.(lookupHash := hash, x := Some(p.x), y := Some(p.y))
      else Row(userId, hash, Some(cred), None, 0, Some(p.x), Some(p.y))
    else Row(userId, hash, None, Some(Encrypt(c, v, p, r)), v.current, None, None)
  }

  ghost function Store(c: Crypto, v: Vault, cred: string, p: Payload, r: Random): Vault
    requires v.current > 0 ==> v.current in v.keks
  {
    var found := Find(c, v.rows, cred);
    var id := if found.Some? then found.value else r.id;
    v.(rows := v.rows[id := StoredRow(c, v, cred, p, r, if found.Some? then Some(v.rows[found.value]) else None)])
  }

  /** Re-wraps one record's key under the current version; the flag is the method's result. */
  function Rotate(c: Crypto, v: Vault, id: string, wrapIv: string): (Vault, bool)
    requires v.current > 0 ==> v.current in v.keks
  {
    if id !in v.rows || v.rows[id].envelope.None? || v.rows[id].kekVersion >= v.current then (v, false)
    else
      var row := v.rows[id];
      var dek := DekOf(c, v.keks, row);
      if dek.None? then (v, false)
      else
        var env := row.envelope.value.(wrappedDek := WrapDek(c, dek.value, v.keks[v.current], wrapIv));
        (v.(rows := v.rows[id := row.(envelope := Some(env), kekVersion := v.current)]), true)
  }

  ghost function Migrate(c: Crypto, v: Vault, cred: string, wallet: Option<string>, r: Random): Vault
    requires v.current > 0 ==> v.current in v.keks
  {
    var found := Find(c, v.rows, cred);
    if v.current == 0 || found.None? then v
    else
      var row := v.rows[found.value];
      if row.kekVersion > 0 || row.x.None? || row.y.None? || row.x.value == "" || row.y.value == "" then v
      else
        var p := Payload(row.userId, row.x.value, row.y.value, wallet);
        v.(rows := v.rows[found.value := StoredRow(c, v, cred, p, r, Some(row))])
  }

  // ---- refinement -------------------------------------------------------------------------------------------

  /**
   * The abstract vault: for each credential its row id, the user the row belongs to, whether it is still legacy, and
   * the payload that reads back, if any does.
   */
  datatype Entry = Entry(id: string, user: string, legacy: bool, payload: Option<Payload>)

  type Abstract = map<string, Entry>

  /** The row belongs to `cred` and to no other credential. */
  ghost predicate Owns(c: Crypto, row: Row, cred: string) {
    && Matches(c, row, cred)
    && (row.lookupHash.Some? ==> row.lookupHash.value == c.hash(cred))
    && (row.credentialId.Some? ==> row.credentialId.value == cred)
  }

  /** Encrypted exactly when versioned, by a version not newer than the current one. */
  ghost predicate Versioned(v: Vault, row: Row) {
    (row.envelope.Some? <==> row.kekVersion > 0) && row.kekVersion <= v.current
  }

  ghost predicate Holds(c: Crypto, v: Vault, cred: string, e: Entry) {
    && e.id in v.rows && Owns(c, v.rows[e.id], cred) && Versioned(v, v.rows[e.id])
    && v.rows[e.id].userId == e.user
    && (v.rows[e.id].kekVersion == 0 <==> e.legacy)
    && Decode(c, v.keks, v.rows[e.id]) == e.payload
    && (e.payload.None? ==> e.legacy)
  }

  /** Credentials and row ids correspond one to one. */
  ghost predicate Indexed(ids: set<string>, m: Abstract) {
    && (forall cred :: cred in m ==> m[cred].id in ids)
    && (forall id :: id in ids ==> exists cred :: cred in m && m[cred].id == id)
    && (forall a, b :: a in m && b in m && a != b ==> m[a].id != m[b].id)
  }

  ghost predicate Refines(c: Crypto, v: Vault, m: Abstract) {
    && Usable(v)
    && (forall cred :: cred in m ==> Holds(c, v, cred, m[cred]))
    && Indexed(v.rows.Keys, m)
  }

  ghost predicate Usable(v: Vault) {
    v.current > 0 ==> v.current in v.keks
  }

  lemma OwnerOf(m: Abstract, ids: set<string>, id: string) returns (cred: string)
    requires Indexed(ids, m) && id in ids
    ensures cred in m && m[cred].id == id
  {
    cred :| cred in m && m[cred].id == id;
  }

  lemma IndexPut(m: Abstract, ids: set<string>, cred: string, e: Entry)
    requires Indexed(ids, m) && (if cred in m then m[cred].id == e.id else e.id !in ids)
    ensures Indexed(ids + {e.id}, m[cred := e])
  {
    var m' := m[cred := e];
    forall id | id in ids + {e.id} ensures exists a :: a in m' && m'[a].id == id {
      if id == e.id {
        assert m'[cred].id == id;
      } else {
        var a := OwnerOf(m, ids, id);
        assert m'[a].id == id;
      }
    }
  }

  /** A credential is found exactly when the abstract map knows it, and then as its own row. */
  lemma FindsOwnRow(c: Crypto, v: Vault, m: Abstract, cred: string)
    requires CryptoOk(c) && Refines(c, v, m)
    ensures Find(c, v.rows, cred) == if cred in m then Some(m[cred].id) else None
  {
    var found := Find(c, v.rows, cred);
    if cred in m {
      assert Holds(c, v, cred, m[cred]);
      assert Matches(c, v.rows[m[cred].id], cred);
    }
    if found.Some? {
      var owner := OwnerOf(m, v.rows.Keys, found.value);
      assert Holds(c, v, owner, m[owner]);
    }
  }

  /** Looking up a credential gives the row id and the whole payload of the abstract map. */
  lemma LookupIsAbstract(c: Crypto, v: Vault, m: Abstract, cred: string)
    requires CryptoOk(c) && Refines(c, v, m)
    ensures Lookup(c, v, cred) == if cred in m then Found(m[cred].id, m[cred].payload) else None
  {
    FindsOwnRow(c, v, m, cred);
    if cred in m { assert Holds(c, v, cred, m[cred]); }
  }

  /** Replacing one credential's row, or adding the first one, changes the map at that credential only. */
  lemma PutRefines(c: Crypto, v: Vault, m: Abstract, cred: string, e: Entry, row: Row)
    requires Refines(c, v, m) && (if cred in m then m[cred].id == e.id else e.id !in v.rows)
    requires Holds(c, v.(rows := v.rows[e.id := row]), cred, e)
    ensures Refines(c, v.(rows := v.rows[e.id := row]), m[cred := e])
  {
    var t := v.(rows := v.rows[e.id := row]);
    var m' := m[cred := e];
    forall a | a in m' ensures Holds(c, t, a, m'[a]) {
      if a != cred {
        assert Holds(c, v, a, m[a]) && m[a].id != e.id;
      }
    }
    IndexPut(m, v.rows.Keys, cred, e);
    assert t.rows.Keys == v.rows.Keys + {e.id};
  }

  lemma EncryptedDecodes(c: Crypto, v: Vault, p: Payload, r: Random, row: Row)
    requires CryptoOk(c) && v.current > 0 && v.current in v.keks && NoColon(r.wrapIv)
    requires row.kekVersion == v.current && row.envelope == Some(Encrypt(c, v, p, r))
    ensures Decode(c, v.keks, row) == Some(p)
  {
    UnwrapUndoesWrap(c, r.dek, v.keks[v.current], r.wrapIv);
  }

  /**
   * What a store makes readable. An encrypted store keeps the whole payload; a legacy one has no wallet column, leaves
   * an existing row with its user, and is not read back with an empty coordinate.
   */
  function ReadBack(current: nat, user: string, p: Payload): Option<Payload> {
    if current > 0 then Some(p)
    else if p.x == "" || p.y == "" then None
    else Some(Payload(user, p.x, p.y, None))
  }

  /** The map after a store: an existing row keeps its id and its user. */
  function Stored(m: Abstract, current: nat, cred: string, p: Payload, newId: string): Abstract {
    var id := if cred in m then m[cred].id else newId;
    var user := if cred in m then m[cred].user else p.userId;
    m[cred := Entry(id, user, current == 0, ReadBack(current, user, p))]
  }

  /** The map after a migration: a readable legacy entry is encrypted with the wallet found for its user. */
  function Migrated(m: Abstract, current: nat, cred: string, wallet: Option<string>): Abstract {
    if current == 0 || cred !in m || !m[cred].legacy || m[cred].payload.None? then m
    else m[cred := m[cred].(legacy := false, payload := Some(m[cred].payload.value.(wallet := wallet)))]
  }

  lemma StoreRefines(c: Crypto, v: Vault, m: Abstract, cred: string, p: Payload, r: Random)
    requires CryptoOk(c) && Refines(c, v, m) && NoColon(r.wrapIv) && r.id !in v.rows
    ensures Refines(c, Store(c, v, cred, p, r), Stored(m, v.current, cred, p, r.id))
  {
    FindsOwnRow(c, v, m, cred);
    var found := Find(c, v.rows, cred);
    var e := Stored(m, v.current, cred, p, r.id)[cred];
    var row := StoredRow(c, v, cred, p, r, if found.Some? then Some(v.rows[found.value]) else None);
    if cred in m { assert Holds(c, v, cred, m[cred]); }
    if v.current > 0 { EncryptedDecodes(c, v, p, r, row); }
    PutRefines(c, v, m, cred, e, row);
  }

  /** A legacy row of the refinement is readable exactly when both plaintext coordinates are there and not empty. */
  lemma LegacyRow(c: Crypto, v: Vault, m: Abstract, cred: string)
    requires Refines(c, v, m) && cred in m && m[cred].legacy
    ensures var row := v.rows[m[cred].id];
      && row.kekVersion == 0 && row.userId == m[cred].user
      && (m[cred].payload.None? <==> row.x.None? || row.y.None? || row.x.value == "" || row.y.value == "")
      && (m[cred].payload.Some? ==>
        && row.x.Some? && row.y.Some?
        && m[cred].payload.value == Payload(m[cred].user, row.x.value, row.y.value, None))
  {
    assert Holds(c, v, cred, m[cred]);
  }

  /** Encrypting a payload over a credential's row makes just that payload readable. */
  lemma ReplaceRefines(c: Crypto, v: Vault, m: Abstract, cred: string, p: Payload, r: Random, next: Row)
    requires CryptoOk(c) && Refines(c, v, m) && cred in m && v.current > 0 && NoColon(r.wrapIv)
    requires next == StoredRow(c, v, cred, p, r, Some(v.rows[m[cred].id]))
    ensures Refines(c, v.(rows := v.rows[m[cred].id := next]),
                    m[cred := Entry(m[cred].id, m[cred].user, false, Some(p))])
  {
    assert Holds(c, v, cred, m[cred]);
    EncryptedDecodes(c, v, p, r, next);
    PutRefines(c, v, m, cred, Entry(m[cred].id, m[cred].user, false, Some(p)), next);
  }

  lemma MigrateRefines(c: Crypto, v: Vault, m: Abstract, cred: string, wallet: Option<string>, r: Random)
    requires CryptoOk(c) && Refines(c, v, m) && NoColon(r.wrapIv)
    ensures Refines(c, Migrate(c, v, cred, wallet, r), Migrated(m, v.current, cred, wallet))
  {
    FindsOwnRow(c, v, m, cred);
    if cred in m {
      assert Holds(c, v, cred, m[cred]);
      if m[cred].legacy { LegacyRow(c, v, m, cred); }
      if v.current > 0 && m[cred].legacy && m[cred].payload.Some? {
        var row := v.rows[m[cred].id];
        var p := Payload(row.userId, row.x.value, row.y.value, wallet);
        ReplaceRefines(c, v, m, cred, p, r, StoredRow(c, v, cred, p, r, Some(row)));
      }
    }
  }

  /** Rotation succeeds exactly for stale encrypted rows whose key opens, and never changes what is stored. */
  lemma RotateRefines(c: Crypto, v: Vault, m: Abstract, id: string, wrapIv: string)
    requires CryptoOk(c) && Refines(c, v, m) && NoColon(wrapIv)
    ensures Refines(c, Rotate(c, v, id, wrapIv).0, m)
    ensures Rotate(c, v, id, wrapIv).1 <==>
      id in v.rows && v.rows[id].envelope.Some? && v.rows[id].kekVersion < v.current
    ensures Rotate(c, v, id, wrapIv).1 ==> Rotate(c, v, id, wrapIv).0.rows[id].kekVersion == v.current
  {
    if id in v.rows && v.rows[id].envelope.Some? && v.rows[id].kekVersion < v.current {
      var cred := OwnerOf(m, v.rows.Keys, id);
      assert Holds(c, v, cred, m[cred]);
      var row := v.rows[id];
      var dek := DekOf(c, v.keks, row).value;
      UnwrapUndoesWrap(c, dek, v.keks[v.current], wrapIv);
      var next := Rotate(c, v, id, wrapIv).0.rows[id];
      PutRefines(c, v, m, cred, m[cred], next);
      assert m[cred := m[cred]] == m;
    }
  }

  /** A restart with newer keys: the version does not go down and every key in use stays loaded. */
  ghost predicate KeepsKeys(v: Vault, keks: map<nat, string>, current: nat) {
    && v.current <= current && (current > 0 ==> current in keks)
    && forall id :: id in v.rows && v.rows[id].kekVersion > 0 ==>
      var ver := v.rows[id].kekVersion;
      ver in v.keks && ver in keks && keks[ver] == v.keks[ver]
  }

  lemma ReloadRefines(c: Crypto, v: Vault, m: Abstract, keks: map<nat, string>, current: nat)
    requires Refines(c, v, m) && KeepsKeys(v, keks, current)
    ensures Refines(c, v.(keks := keks, current := current), m)
  {
    var t := v.(keks := keks, current := current);
    forall cred | cred in m ensures Holds(c, t, cred, m[cred]) {
      assert Holds(c, v, cred, m[cred]);
    }
  }

  // ---- every sequence of operations -------------------------------------------------------------------------

  datatype Op =
    | DoStore(cred: string, p: Payload, r: Random)
    | DoMigrate(cred: string, wallet: Option<string>, r: Random)
    | DoRotate(id: string, wrapIv: string)
    | DoRotateAll(ids: seq<string>, wrapIvs: string -> string)
    | DoReload(keks: map<nat, string>, current: nat)

  /** What the callers guarantee: a fresh id, hex randomness, and keys kept across restarts. */
  ghost predicate Allowed(v: Vault, op: Op) {
    match op
    case DoStore(_, _, r) => NoColon(r.wrapIv) && r.id !in v.rows
    case DoMigrate(_, _, r) => NoColon(r.wrapIv)
    case DoRotate(_, iv) => NoColon(iv)
    case DoRotateAll(_, ivs) => forall id :: NoColon(ivs(id))
    case DoReload(keks, current) => KeepsKeys(v, keks, current)
  }

  ghost function Do(c: Crypto, v: Vault, op: Op): Vault
    requires Usable(v) && Allowed(v, op)
  {
    match op
    case DoStore(cred, p, r) => Store(c, v, cred, p, r)
    case DoMigrate(cred, wallet, r) => Migrate(c, v, cred, wallet, r)
    case DoRotate(id, iv) => Rotate(c, v, id, iv).0
    case DoRotateAll(ids, ivs) => RotateEach(c, v, ids, ivs).0
    case DoReload(keks, current) => v.(keks := keks, current := current)
  }

  /** What an operation does to the plain map: rotations and reloads nothing. */
  ghost function DoPlain(m: Abstract, current: nat, op: Op): Abstract {
    match op
    case DoStore(cred, p, r) => Stored(m, current, cred, p, r.id)
    case DoMigrate(cred, wallet, _) => Migrated(m, current, cred, wallet)
    case _ => m
  }

  /** The plain map after the same operations, the key version being `current` at the start. */
  ghost function Plain(m: Abstract, current: nat, ops: seq<Op>): Abstract
    decreases |ops|
  {
    if ops == [] then m
    else Plain(DoPlain(m, current, ops[0]), if ops[0].DoReload? then ops[0].current else current, ops[1..])
  }

  /** `ops` takes `v` to `w`, every step allowed. */
  ghost predicate Leads(c: Crypto, v: Vault, ops: seq<Op>, w: Vault)
    decreases |ops|
  {
    if ops == [] then v == w
    else Usable(v) && Allowed(v, ops[0]) && Leads(c, Do(c, v, ops[0]), ops[1..], w)
  }

  /** Whatever records are named, rotating them changes nothing readable. */
  lemma {:induction false} RotateEachKeeps(c: Crypto, v: Vault, m: Abstract, ids: seq<string>, wrapIv: string -> string)
    requires CryptoOk(c) && Refines(c, v, m) && forall id :: NoColon(wrapIv(id))
    ensures Refines(c, RotateEach(c, v, ids, wrapIv).0, m)
  {
    if ids != [] {
      var init, id := ids[..|ids| - 1], ids[|ids| - 1];
      RotateEachKeeps(c, v, m, init, wrapIv);
      RotateRefines(c, RotateEach(c, v, init, wrapIv).0, m, id, wrapIv(id));
    }
  }

  lemma DoRefines(c: Crypto, v: Vault, m: Abstract, op: Op)
    requires CryptoOk(c) && Refines(c, v, m) && Allowed(v, op)
    ensures Refines(c, Do(c, v, op), DoPlain(m, v.current, op))
    ensures Do(c, v, op).current == if op.DoReload? then op.current else v.current
  {
    match op
    case DoStore(cred, p, r) => StoreRefines(c, v, m, cred, p, r);
    case DoMigrate(cred, wallet, r) => MigrateRefines(c, v, m, cred, wallet, r);
    case DoRotate(id, iv) => RotateRefines(c, v, m, id, iv);
    case DoRotateAll(ids, ivs) => RotateEachKeeps(c, v, m, ids, ivs);
    case DoReload(keks, current) => ReloadRefines(c, v, m, keks, current);
  }

  /** After any sequence of stores, migrations, rotations and key reloads, every lookup is that of the plain map. */
  lemma {:induction false} LookupIsPlain(c: Crypto, v: Vault, m: Abstract, ops: seq<Op>, w: Vault, cred: string)
    requires CryptoOk(c) && Refines(c, v, m) && Leads(c, v, ops, w)
    ensures var plain := Plain(m, v.current, ops);
      Lookup(c, w, cred) == if cred in plain then Found(plain[cred].id, plain[cred].payload) else None
    decreases |ops|
  {
    if ops == [] {
      LookupIsAbstract(c, v, m, cred);
    } else {
      DoRefines(c, v, m, ops[0]);
      LookupIsPlain(c, Do(c, v, ops[0]), DoPlain(m, v.current, ops[0]), ops[1..], w, cred);
    }
  }

  predicate NoStoreOf(ops: seq<Op>, cred: string) {
    forall i :: 0 <= i < |ops| && ops[i].DoStore? ==> ops[i].cred != cred
  }

  predicate MigratesTo(ops: seq<Op>, cred: string, wallet: Option<string>) {
    exists i :: 0 <= i < |ops| && ops[i].DoMigrate? && ops[i].cred == cred && ops[i].wallet == wallet
  }

  /** The entry of an untouched credential: only a migration of a legacy entry changes it, and only its wallet. */
  ghost predicate SameButWallet(ops: seq<Op>, cred: string, e: Entry, e': Entry) {
    && e'.id == e.id && e'.user == e.user && (e'.payload.Some? <==> e.payload.Some?)
    && (!e.legacy ==> e' == e)
    && (e.payload.Some? ==>
      && e'.payload.value == e.payload.value.(wallet := e'.payload.value.wallet)
      && (e' == e || MigratesTo(ops, cred, e'.payload.value.wallet)))
    && (e.payload.None? ==> e' == e)
  }

  lemma {:induction false} PlainKeeps(m: Abstract, current: nat, ops: seq<Op>, cred: string)
    requires cred in m && NoStoreOf(ops, cred)
    ensures cred in Plain(m, current, ops) && SameButWallet(ops, cred, m[cred], Plain(m, current, ops)[cred])
    decreases |ops|
  {
    if ops != [] {
      var m' := DoPlain(m, current, ops[0]);
      var next := if ops[0].DoReload? then ops[0].current else current;
      forall i | 0 <= i < |ops[1..]| && ops[1..][i].DoStore? ensures ops[1..][i].cred != cred {
        assert ops[1..][i] == ops[i + 1];
      }
      PlainKeeps(m', next, ops[1..], cred);
      var e := Plain(m', next, ops[1..])[cred];
      if e.payload.Some? && MigratesTo(ops[1..], cred, e.payload.value.wallet) {
        var i :| 0 <= i < |ops[1..]| && ops[1..][i].DoMigrate? && ops[1..][i].cred == cred
          && ops[1..][i].wallet == e.payload.value.wallet;
        assert ops[i + 1] == ops[1..][i];
      }
    }
  }

  /**
   * A credential stored with a key version, and not stored again, is read back whole: the row's id, and the user, both
   * coordinates and the wallet of that store, whatever migrations, rotations, reloads and other stores follow.
   */
  lemma LookupReturnsLastStore(c: Crypto, v: Vault, m: Abstract, cred: string, p: Payload, r: Random,
                               ops: seq<Op>, w: Vault)
    requires CryptoOk(c) && Refines(c, v, m) && Allowed(v, DoStore(cred, p, r)) && v.current > 0
    requires Leads(c, Store(c, v, cred, p, r), ops, w) && NoStoreOf(ops, cred)
    ensures Lookup(c, w, cred) == Some(Credential(if cred in m then m[cred].id else r.id, p))
  {
    StoreRefines(c, v, m, cred, p, r);
    var m' := Stored(m, v.current, cred, p, r.id);
    LookupIsPlain(c, Store(c, v, cred, p, r), m', ops, w, cred);
    PlainKeeps(m', v.current, ops, cred);
  }

  /**
   * A credential stored in legacy mode, and not stored again, is read back if and only if neither coordinate is empty:
   * with the user its row had or else the stored one, the stored coordinates, and no wallet until a migration encrypts
   * it with the wallet that one found.
   */
  lemma LookupReturnsLegacyStore(c: Crypto, v: Vault, m: Abstract, cred: string, p: Payload, r: Random,
                                 ops: seq<Op>, w: Vault)
    requires CryptoOk(c) && Refines(c, v, m) && Allowed(v, DoStore(cred, p, r)) && v.current == 0
    requires Leads(c, Store(c, v, cred, p, r), ops, w) && NoStoreOf(ops, cred)
    ensures var found := Lookup(c, w, cred);
      && (found.Some? <==> p.x != "" && p.y != "")
      && (found.Some? ==>
        && found.value.id == (if cred in m then m[cred].id else r.id)
        && found.value.payload.userId == (if cred in m then v.rows[m[cred].id].userId else p.userId)
        && found.value.payload.x == p.x && found.value.payload.y == p.y
        && (found.value.payload.wallet == None || MigratesTo(ops, cred, found.value.payload.wallet)))
  {
    StoreRefines(c, v, m, cred, p, r);
    if cred in m { assert Holds(c, v, cred, m[cred]); }
    var m' := Stored(m, v.current, cred, p, r.id);
    LookupIsPlain(c, Store(c, v, cred, p, r), m', ops, w, cred);
    PlainKeeps(m', v.current, ops, cred);
  }

  /** An encrypted row is read from its envelope, whatever its plaintext columns say. */
  lemma EnvelopeDecides(c: Crypto, keks: map<nat, string>, row: Row, next: Row)
    requires row.kekVersion > 0 && row.envelope.Some?
    requires next.kekVersion == row.kekVersion && next.envelope == row.envelope
    ensures Decode(c, keks, next) == Decode(c, keks, row)
  {
  }

  /**
   * Going back to legacy mode (version zero, which loads no keys) and storing over an existing row: the new payload
   * is what a legacy store makes readable exactly when that row is not encrypted. Otherwise nothing is readable, and
   * once the keys are loaded again the old payload is.
   */
  lemma DowngradeLosesStore(c: Crypto, v: Vault, m: Abstract, cred: string, p: Payload, r: Random)
    requires CryptoOk(c) && Refines(c, v, m) && cred in m
    ensures var row := Store(c, Vault(map[], 0, v.rows), cred, p, r).rows[m[cred].id];
      if v.rows[m[cred].id].kekVersion == 0
      then Decode(c, map[], row) == Decode(c, v.keks, row) == ReadBack(0, m[cred].user, p)
      else Decode(c, map[], row) == None && Decode(c, v.keks, row) == m[cred].payload && m[cred].payload.Some?
  {
    FindsOwnRow(c, v, m, cred);
    assert Holds(c, v, cred, m[cred]);
    var legacy := Vault(map[], 0, v.rows);
    var row := v.rows[m[cred].id];
    var next := StoredRow(c, legacy, cred, p, r, Some(row));
    assert Store(c, legacy, cred, p, r).rows[m[cred].id] == next;
    if row.kekVersion > 0 { EnvelopeDecides(c, v.keks, row, next); }
  }

  // ---- rotating everything ------------------------------------------------------------------------------------

  ghost predicate Stale(v: Vault, id: string) {
    id in v.rows && v.rows[id].envelope.Some? && v.rows[id].kekVersion < v.current
  }

  /** Rotating the listed records in order; the count is the number of successes. */
  function RotateEach(c: Crypto, v: Vault, ids: seq<string>, wrapIv: string -> string): (r: (Vault, nat))
    requires v.current > 0 ==> v.current in v.keks
    ensures r.1 <= |ids| && r.0.keks == v.keks && r.0.current == v.current
  {
    if ids == [] then (v, 0)
    else
      var (w, n) := RotateEach(c, v, ids[..|ids| - 1], wrapIv);
      var id := ids[|ids| - 1];
      var (u, ok) := Rotate(c, w, id, wrapIv(id));
      (u, if ok then n + 1 else n)
  }

  /** One more turn of the rotation loop. */
  lemma RotateEachNext(c: Crypto, v: Vault, ids: seq<string>, i: nat, wrapIv: string -> string,
                       w: Vault, n: nat, u: Vault, ok: bool)
    requires Usable(v) && i < |ids| && RotateEach(c, v, ids[..i], wrapIv) == (w, n)
    requires Usable(w) && Rotate(c, w, ids[i], wrapIv(ids[i])) == (u, ok)
    ensures RotateEach(c, v, ids[..i + 1], wrapIv) == (u, if ok then n + 1 else n)
  {
    assert ids[..i + 1] == ids[..i] + [ids[i]];
    RotateEachSnoc(c, v, ids[..i], ids[i], wrapIv);
  }

  lemma RotateEachSnoc(c: Crypto, v: Vault, ids: seq<string>, id: string, wrapIv: string -> string)
    requires v.current > 0 ==> v.current in v.keks
    ensures var (w, n) := RotateEach(c, v, ids, wrapIv); var (u, ok) := Rotate(c, w, id, wrapIv(id));
      RotateEach(c, v, ids + [id], wrapIv) == (u, if ok then n + 1 else n)
  {
    assert (ids + [id])[..|ids|] == ids;
  }

  /** The rows in `ids` reached the current version, the others are untouched. */
  ghost predicate Renewed(v: Vault, w: Vault, ids: seq<string>) {
    && w.rows.Keys == v.rows.Keys && w.current == v.current
    && (forall id :: id in ids ==> id in w.rows && w.rows[id].kekVersion == v.current)
    && (forall id :: id in v.rows && id !in ids ==> w.rows[id] == v.rows[id])
  }

  lemma RenewNext(c: Crypto, v: Vault, w: Vault, ids: seq<string>, id: string, wrapIv: string)
    requires (w.current > 0 ==> w.current in w.keks) && Renewed(v, w, ids) && id !in ids
    requires Rotate(c, w, id, wrapIv).1
    ensures Renewed(v, Rotate(c, w, id, wrapIv).0, ids + [id])
  {
  }

  /** With all keys in use loaded, every stale record rotates, no other record changes, and nothing readable changes. */
  lemma {:induction false} RotateEachRefines(c: Crypto, v: Vault, m: Abstract, ids: seq<string>,
      wrapIv: string -> string)
    requires CryptoOk(c) && Refines(c, v, m) && Distinct(ids) && (forall id :: NoColon(wrapIv(id)))
    requires forall id :: id in ids ==> Stale(v, id)
    ensures var (w, n) := RotateEach(c, v, ids, wrapIv);
      n == |ids| && Refines(c, w, m) && Renewed(v, w, ids)
  {
    if ids != [] {
      var init, id := ids[..|ids| - 1], ids[|ids| - 1];
      assert ids == init + [id];
      RotateEachRefines(c, v, m, init, wrapIv);
      var w := RotateEach(c, v, init, wrapIv).0;
      assert id !in init;
      assert Stale(v, id) && w.rows[id] == v.rows[id];
      RotateRefines(c, w, m, id, wrapIv(id));
      RenewNext(c, v, w, init, id, wrapIv(id));
      RotateEachSnoc(c, v, init, id, wrapIv);
    }
  }

  /** After rotating exactly the stale records, every encrypted row is at the current version. */
  lemma RotateAllReachesCurrent(c: Crypto, v: Vault, m: Abstract, ids: seq<string>, wrapIv: string -> string)
    requires CryptoOk(c) && Refines(c, v, m) && Distinct(ids) && (forall id :: NoColon(wrapIv(id)))
    requires forall id :: id in ids <==> Stale(v, id)
    ensures var (w, n) := RotateEach(c, v, ids, wrapIv);
      && n == |ids| && Refines(c, w, m)
      && forall id :: id in w.rows && w.rows[id].envelope.Some? ==> w.rows[id].kekVersion == w.current
  {
    RotateEachRefines(c, v, m, ids, wrapIv);
    var w := RotateEach(c, v, ids, wrapIv).0;
    forall id | id in w.rows && w.rows[id].envelope.Some? ensures w.rows[id].kekVersion == w.current {
      if id !in ids {
        var cred := OwnerOf(m, v.rows.Keys, id);
        assert Holds(c, v, cred, m[cred]);
        assert !Stale(v, id);
      }
    }
  }

  // ---- the service ---------------------------------------------------------------------------------------------

  datatype KekError = BadLength(version: nat) | MissingCurrent

  predicate Given(env: map<nat, string>, v: nat) {
    v in env && env[v] != ""
  }

  /**
   * Reads the key of every version up to the current one from the environment. A vault that starts has its current
   * key; older keys may be missing, but none may be malformed.
   */
  method LoadKeks(env: map<nat, string>, current: nat) returns (r: Result<map<nat, string>, KekError>)
    ensures r.Ok? <==>
      && (forall v :: 1 <= v <= current && Given(env, v) ==> |env[v]| == 64)
      && (current > 0 ==> Given(env, current))
    ensures r.Ok? ==> r.value == map v | v in env && 1 <= v <= current && Given(env, v) :: env[v]
    ensures r.Ok? ==> forall rows :: Usable(Vault(r.value, current, rows))
    ensures r.Err? && r.error.BadLength? ==> Given(env, r.error.version) && |env[r.error.version]| != 64
    ensures r.Err? && r.error.MissingCurrent? ==> current > 0 && !Given(env, current)
  {
    var keks: map<nat, string> := map[];
    for v := 1 to current + 1
      invariant keks == map u | u in env && 1 <= u < v && Given(env, u) :: env[u]
      invariant forall u :: 1 <= u < v && Given(env, u) ==> |env[u]| == 64
      invariant 1 <= current < v ==> Given(env, current)
    {
      if v in env && env[v] != "" {
        if |env[v]| != 64 { return Err(BadLength(v)); }
        keks := keks[v := env[v]];
      } else if v == current {
        return Err(MissingCurrent);
      }
    }
    return Ok(keks);
  }

  class CredentialVaultService {
    const crypto: Crypto
    var keks: map<nat, string>
    var current: nat
    var rows: map<string, Row>

    ghost function View(): Vault
      reads this
    {
      Vault(keks, current, rows)
    }

    constructor (crypto: Crypto, keks: map<nat, string>, current: nat, rows: map<string, Row>)
      ensures this.crypto == crypto && View() == Vault(keks, current, rows)
    {
      this.crypto, this.keks, this.current, this.rows := crypto, keks, current, rows;
    }

    /** Re-wraps one record; whatever map the vault stands for, it still stands for it. */
    method RotateRecord(id: string, wrapIv: string) returns (rotated: bool)
      requires current > 0 ==> current in keks
      modifies this`rows
      ensures (View(), rotated) == Rotate(crypto, old(View()), id, wrapIv)
      ensures rotated ==> rows[id].kekVersion == current
      ensures CryptoOk(crypto) && NoColon(wrapIv) ==>
        forall m :: Refines(crypto, old(View()), m) ==>
          Refines(crypto, View(), m) && (rotated <==> old(Stale(View(), id)))
    {
      if CryptoOk(crypto) && NoColon(wrapIv) {
        forall m | Refines(crypto, View(), m) ensures Refines(crypto, Rotate(crypto, View(), id, wrapIv).0, m)
          ensures Rotate(crypto, View(), id, wrapIv).1 <==> Stale(View(), id)
        {
          RotateRefines(crypto, View(), m, id, wrapIv);
        }
      }
      if id !in rows { return false; }
      var row := rows[id];
      if row.envelope.None? || row.kekVersion >= current { return false; }
      if row.kekVersion !in keks { return false; }
      var dek := UnwrapDek(crypto, row.envelope.value.wrappedDek, keks[row.kekVersion]);
      if dek.None? { return false; }
      var wrapped := WrapDek(crypto, dek.value, keks[current], wrapIv);
      rows := rows[id := row.(envelope := Some(row.envelope.value.(wrappedDek := wrapped)), kekVersion := current)];
      return true;
    }

    /** Rotates the records the query selected; every one counts as rotated or failed. */
    method RotateAll(stale: seq<string>, wrapIv: string -> string) returns (rotated: nat, failed: nat)
      requires current > 0 ==> current in keks
      modifies this`rows
      ensures current > 0 ==> (View(), rotated) == RotateEach(crypto, old(View()), stale, wrapIv)
      ensures current > 0 ==> rotated + failed == |stale|
      ensures current == 0 ==> rotated == 0 && failed == 0 && View() == old(View())
    {
      rotated, failed := 0, 0;
      if current == 0 { return; }
      ghost var v := View();
      for i := 0 to |stale|
        invariant keks == v.keks && current == v.current
        invariant RotateEach(crypto, v, stale[..i], wrapIv) == (View(), rotated)
        invariant rotated + failed == i
      {
        ghost var w := View();
        var success := RotateRecord(stale[i], wrapIv(stale[i]));
        RotateEachNext(crypto, v, stale, i, wrapIv, w, rotated, View(), success);
        if success { rotated := rotated + 1; } else { failed := failed + 1; }
      }
      assert stale[..|stale|] == stale;
    }

    /** Some matching row, as the query with a limit of one returns it. */
    method FindByLookupOrCredentialId(cred: string) returns (r: Option<string>)
      ensures r.Some? ==> r.value in rows && Matches(crypto, rows[r.value], cred)
      ensures r.None? ==> forall id :: id in rows ==> !Matches(crypto, rows[id], cred)
    {
      var ids := set id | id in rows && Matches(crypto, rows[id], cred);
      assert forall id :: id in rows && Matches(crypto, rows[id], cred) ==> id in ids;
      if ids == {} { return None; }
      var id :| id in ids;
      return Some(id);
    }

    /** The row id, user, coordinates and wallet that the map `m` has for the credential. */
    method LookupAndDecrypt(cred: string, ghost m: Abstract) returns (r: Option<Credential>)
      requires CryptoOk(crypto) && Refines(crypto, View(), m)
      ensures r.Some? <==> cred in m && m[cred].payload.Some?
      ensures r.Some? ==> r.value.id == m[cred].id && r.value.payload == m[cred].payload.value
    {
      var id := FindByLookupOrCredentialId(cred);
      OnlyOneMatches(crypto, View(), m, cred);
      if id.None? { return None; }
      var payload := Decode(crypto, keks, rows[id.value]);
      if payload.None? { return None; }
      return Some(Credential(id.value, payload.value));
    }

    /** Encrypts a legacy row in place: it stays its user's, with the same coordinates and the wallet that was found. */
    method MigrateLegacyRecord(cred: string, wallet: Option<string>, random: Random, ghost m: Abstract)
      returns (migrated: bool)
      requires CryptoOk(crypto) && Refines(crypto, View(), m) && NoColon(random.wrapIv)
      modifies this`rows
      ensures migrated <==> current > 0 && cred in m && m[cred].legacy && m[cred].payload.Some?
      ensures migrated ==> Refines(crypto, View(),
        m[cred := m[cred].(legacy := false, payload := Some(m[cred].payload.value.(wallet := wallet)))])
      ensures migrated ==>
        && m[cred].id in rows && rows[m[cred].id].kekVersion == current
        && rows[m[cred].id].x.None? && rows[m[cred].id].y.None?
      ensures !migrated ==> rows == old(rows)
    {
      if current == 0 { return false; }
      var id := FindByLookupOrCredentialId(cred);
      OnlyOneMatches(crypto, View(), m, cred);
      if id.None? || rows[id.value].kekVersion > 0 { return false; }
      var row := rows[id.value];
      assert Holds(crypto, View(), cred, m[cred]);
      LegacyRow(crypto, View(), m, cred);
      if row.x.None? || row.y.None? || row.x.value == "" || row.y.value == "" { return false; }
      var p := Payload(row.userId, row.x.value, row.y.value, wallet);
      var next := StoredRow(crypto, Vault(keks, current, rows), cred, p, random, Some(row));
      ReplaceRefines(crypto, View(), m, cred, p, random, next);
      rows := rows[id.value := next];
      return true;
    }

    /** Stores a credential; the map changes at that credential only, and an encrypted row keeps no plaintext. */
    method StoreCredential(cred: string, p: Payload, random: Random, ghost m: Abstract)
      returns (id: string, ghost m': Abstract)
      requires CryptoOk(crypto) && Refines(crypto, View(), m)
      requires NoColon(random.wrapIv) && random.id !in rows
      modifies this`rows
      ensures m' == Stored(m, current, cred, p, random.id) && Refines(crypto, View(), m')
      ensures id == if cred in m then m[cred].id else random.id
      ensures id in rows && (current > 0 ==> rows[id].x.None? && rows[id].y.None? && rows[id].credentialId.None?)
    {
      StoreRefines(crypto, View(), m, cred, p, random);
      FindsOwnRow(crypto, View(), m, cred);
      OnlyOneMatches(crypto, View(), m, cred);
      ghost var v := View();
      var found := FindByLookupOrCredentialId(cred);
      id := if found.Some? then found.value else random.id;
      var existing := if found.Some? then Some(rows[found.value]) else None;
      var row := StoredRow(crypto, Vault(keks, current, rows), cred, p, random, existing);
      rows := rows[id := row];
      m' := Stored(m, current, cred, p, random.id);
      assert View() == Store(crypto, v, cred, p, random);
    }
  }

  lemma OnlyOneMatches(c: Crypto, v: Vault, m: Abstract, cred: string)
    requires CryptoOk(c) && Refines(c, v, m)
    ensures forall id :: id in v.rows && Matches(c, v.rows[id], cred) ==> cred in m && id == m[cred].id
    ensures cred in m ==> m[cred].id in v.rows && Matches(c, v.rows[m[cred].id], cred)
    ensures cred in m ==> Decode(c, v.keks, v.rows[m[cred].id]) == m[cred].payload
  {
    forall id | id in v.rows && Matches(c, v.rows[id], cred) ensures cred in m && id == m[cred].id {
      var owner := OwnerOf(m, v.rows.Keys, id);
      assert Holds(c, v, owner, m[owner]);
    }
    if cred in m { assert Holds(c, v, cred, m[cred]); }
  }
}

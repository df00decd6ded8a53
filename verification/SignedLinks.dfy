/**
 * Signed escalation links: building, canonical form and verification.
 *
 * The keyed hash is a parameter that yields 64 lower-case hex characters. Nothing is assumed about collisions:
 * the tampering theorem hands back a collision instead. The conversion of the expiry text to a number is a parameter
 * too, assumed only to read printed whole seconds exactly.
 */
module SignedLinks {
  import opened Prelude
  import opened Radix
  import opened KeyOrder
  import F = FormUrlEncoded

  const SIGNED_FIELDS: seq<string> := ["amount", "count", "expires", "note", "to", "token"]
  const ESCALATION_TTL_MS := 900_000

  type Fields = map<string, string>

  predicate Hex64(s: string) {
    |s| == 64 && forall i :: 0 <= i < |s| ==> '0' <= s[i] <= '9' || 'a' <= s[i] <= 'f'
  }

  ghost predicate HexMac(mac: string -> string) {
    forall m :: Hex64(mac(m))
  }

  // ---- canonical form -----------------------------------------------------------------------------------------

  /** The signed entries of a record, in the order of the first `n` signed fields. */
  function SignedPairsTo(fields: Fields, n: nat): seq<F.Pair>
    requires n <= |SIGNED_FIELDS|
  {
    if n == 0 then []
    else
      var key := SIGNED_FIELDS[n - 1];
      SignedPairsTo(fields, n - 1) + if key in fields then [F.Pair(key, fields[key])] else []
  }

  function SignedPairs(fields: Fields): seq<F.Pair> {
    SignedPairsTo(fields, |SIGNED_FIELDS|)
  }

  function Canonical(fields: Fields): string {
    F.Serialize(SignedPairs(fields))
  }

  lemma {:induction false} SignedPairsMembers(fields: Fields, n: nat, p: F.Pair)
    requires n <= |SIGNED_FIELDS|
    ensures p in SignedPairsTo(fields, n) <==>
      p.name in SIGNED_FIELDS[..n] && p.name in fields && fields[p.name] == p.value
  {
    if n > 0 {
      SignedPairsMembers(fields, n - 1, p);
      assert SIGNED_FIELDS[..n] == SIGNED_FIELDS[..n - 1] + [SIGNED_FIELDS[n - 1]];
    }
  }

  ghost predicate AgreeOn(a: Fields, b: Fields, keys: seq<string>) {
    forall k :: k in keys ==> (k in a <==> k in b) && (k in a ==> a[k] == b[k])
  }

  lemma {:induction false} AgreeSamePairs(a: Fields, b: Fields, n: nat)
    requires n <= |SIGNED_FIELDS| && AgreeOn(a, b, SIGNED_FIELDS)
    ensures SignedPairsTo(a, n) == SignedPairsTo(b, n)
  {
    if n > 0 { AgreeSamePairs(a, b, n - 1); }
  }

  /** Two records have the same canonical form exactly when they agree on every signed field. */
  lemma CanonicalInjective(a: Fields, b: Fields)
    ensures Canonical(a) == Canonical(b) <==> AgreeOn(a, b, SIGNED_FIELDS)
  {
    F.ParseInverts(SignedPairs(a));
    F.ParseInverts(SignedPairs(b));
    if AgreeOn(a, b, SIGNED_FIELDS) {
      AgreeSamePairs(a, b, |SIGNED_FIELDS|);
    }
    if Canonical(a) == Canonical(b) {
      assert SIGNED_FIELDS[..|SIGNED_FIELDS|] == SIGNED_FIELDS;
      forall k | k in SIGNED_FIELDS ensures (k in a <==> k in b) && (k in a ==> a[k] == b[k]) {
        if k in a {
          SignedPairsMembers(a, |SIGNED_FIELDS|, F.Pair(k, a[k]));
          SignedPairsMembers(b, |SIGNED_FIELDS|, F.Pair(k, a[k]));
        }
        if k in b {
          SignedPairsMembers(a, |SIGNED_FIELDS|, F.Pair(k, b[k]));
          SignedPairsMembers(b, |SIGNED_FIELDS|, F.Pair(k, b[k]));
        }
      }
    }
  }

  // ---- canonical form by sorting --------------------------------------------------------------------------------

  function Names(ps: seq<F.Pair>): seq<string> {
    seq(|ps|, i requires 0 <= i < |ps| => ps[i].name)
  }

  lemma {:induction false} FieldsInOrder(i: nat, j: nat)
    requires i < j < |SIGNED_FIELDS|
    ensures Less(SIGNED_FIELDS[i], SIGNED_FIELDS[j])
    decreases j
  {
    assert Less("amount", "count") && Less("count", "expires") && Less("expires", "note");
    assert Less("note", "to") && Less("to", "token");
    if i < j - 1 {
      FieldsInOrder(i, j - 1);
      LessTransitive(SIGNED_FIELDS[i], SIGNED_FIELDS[j - 1], SIGNED_FIELDS[j]);
    }
  }

  lemma {:induction false} SignedPairsIncreasing(fields: Fields, n: nat)
    requires n <= |SIGNED_FIELDS|
    ensures Increasing(Names(SignedPairsTo(fields, n)))
  {
    if n > 0 {
      SignedPairsIncreasing(fields, n - 1);
      var ps := SignedPairsTo(fields, n - 1);
      var key := SIGNED_FIELDS[n - 1];
      forall i | 0 <= i < |ps| ensures Less(ps[i].name, key) { EarlierName(fields, n, i); }
      if key in fields {
        NamesSnoc(ps, F.Pair(key, fields[key]));
      } else {
        assert SignedPairsTo(fields, n) == ps;
      }
    }
  }

  /** A signed entry before field `n - 1` has a smaller name. */
  lemma EarlierName(fields: Fields, n: nat, i: nat)
    requires 0 < n <= |SIGNED_FIELDS| && i < |SignedPairsTo(fields, n - 1)|
    ensures Less(SignedPairsTo(fields, n - 1)[i].name, SIGNED_FIELDS[n - 1])
  {
    var p := SignedPairsTo(fields, n - 1)[i];
    SignedPairsMembers(fields, n - 1, p);
    var j :| 0 <= j < n - 1 && SIGNED_FIELDS[j] == p.name;
    FieldsInOrder(j, n - 1);
  }

  lemma NamesSnoc(ps: seq<F.Pair>, p: F.Pair)
    requires Increasing(Names(ps)) && forall i :: 0 <= i < |ps| ==> Less(ps[i].name, p.name)
    ensures Increasing(Names(ps + [p]))
  {
    assert Names(ps + [p]) == Names(ps) + [p.name];
  }

  /** Sorted signed keys are the names of the signed pairs. */
  lemma SortedKeysAreNames(fields: Fields, signed: seq<string>)
    requires Distinct(signed) && forall k :: k in signed <==> k in fields && k in SIGNED_FIELDS
    ensures Sort(signed) == Names(SignedPairs(fields))
  {
    var ps := SignedPairs(fields);
    assert SIGNED_FIELDS[..|SIGNED_FIELDS|] == SIGNED_FIELDS;
    SortIncreasing(signed);
    SignedPairsIncreasing(fields, |SIGNED_FIELDS|);
    forall x ensures x in Sort(signed) <==> x in Names(ps) {
      SortMembers(signed, x);
      if x in signed {
        SignedPairsMembers(fields, |SIGNED_FIELDS|, F.Pair(x, fields[x]));
        var i :| 0 <= i < |ps| && ps[i] == F.Pair(x, fields[x]);
        assert Names(ps)[i] == x;
      }
      if x in Names(ps) {
        var i :| 0 <= i < |ps| && Names(ps)[i] == x;
        SignedPairsMembers(fields, |SIGNED_FIELDS|, ps[i]);
      }
    }
    IncreasingUnique(Sort(signed), Names(ps));
  }

  /**
   * Filter, sort and append over the record's keys, which come in insertion order: whatever that order is, the
   * text is the canonical form.
   */
  method Canonicalize(fields: Fields, keys: seq<string>) returns (text: string)
    requires Distinct(keys) && forall k :: k in keys <==> k in fields
    ensures text == Canonical(fields)
  {
    var signed: seq<string> := [];
    for i := 0 to |keys|
      invariant Distinct(signed) && forall k :: k in signed <==> k in keys[..i] && k in SIGNED_FIELDS
    {
      assert keys[..i + 1] == keys[..i] + [keys[i]];
      if keys[i] in SIGNED_FIELDS { signed := signed + [keys[i]]; }
    }
    assert keys[..|keys|] == keys;
    var sorted := Sort(signed);
    SortedKeysAreNames(fields, signed);
    ghost var target := SignedPairs(fields);
    var pairs: seq<F.Pair> := [];
    for i := 0 to |sorted|
      invariant pairs == target[..i]
    {
      SignedPairsMembers(fields, |SIGNED_FIELDS|, target[i]);
      assert sorted[i] == target[i].name;
      pairs := pairs + [F.Pair(sorted[i], fields[sorted[i]])];
    }
    assert target[..|target|] == target;
    text := F.Serialize(pairs);
  }

  // ---- verification ---------------------------------------------------------------------------------------------

  datatype Verdict = Valid | MissingSignature | BadSignature | Expired | Malformed

  predicate NonBlank(fields: Fields, key: string) {
    key in fields && fields[key] != ""
  }

  /** The signed fields a verifier reads from a query: present and not empty. */
  function FieldsOf(query: Fields): Fields {
    map k | k in query && k in SIGNED_FIELDS && query[k] != "" :: query[k]
  }

  /** The times a clock can show, in milliseconds: section 21.4.1.1 of ECMA-262. */
  type TimeValue = t: nat | t <= 8_640_000_000_000_000

  /** Whole seconds whose number of milliseconds is exact as a double. */
  const EXACT_SECONDS: nat := 9_007_199_254_740

  /**
   * `millis(text)` is `Number(text) * 1000` when that is finite; all that is assumed is that printed seconds are read
   * exactly.
   */
  ghost predicate MillisOk(millis: string -> Option<real>) {
    forall n: nat :: n <= EXACT_SECONDS ==> millis(Text(Digits(n, 10))) == Some((1000 * n) as real)
  }

  function Judge(mac: string -> string, millis: string -> Option<real>, query: Fields, now: int): Verdict {
    var fields := FieldsOf(query);
    if !NonBlank(query, "sig") then MissingSignature
    else if !(NonBlank(fields, "amount") && NonBlank(fields, "token") && NonBlank(fields, "expires")) then Malformed
    else if query["sig"] != mac(Canonical(fields)) then BadSignature
    else if millis(fields["expires"]).None? || now as real > millis(fields["expires"]).value then Expired
    else Valid
  }

  lemma NewField(i: nat)
    requires i < |SIGNED_FIELDS|
    ensures SIGNED_FIELDS[i] !in SIGNED_FIELDS[..i]
  {
    forall j | 0 <= j < i ensures SIGNED_FIELDS[j] != SIGNED_FIELDS[i] {
      FieldsInOrder(j, i);
      LessAsymmetric(SIGNED_FIELDS[j], SIGNED_FIELDS[i]);
    }
  }

  /** The verifier's loop over the signed fields. */
  method Verify(mac: string -> string, millis: string -> Option<real>, query: Fields, now: int) returns (v: Verdict)
    ensures v == Judge(mac, millis, query, now)
  {
    if "sig" !in query || query["sig"] == "" { return MissingSignature; }
    var fields: Fields, keys: seq<string> := map[], [];
    for i := 0 to |SIGNED_FIELDS|
      invariant fields == map k | k in query && k in SIGNED_FIELDS[..i] && query[k] != "" :: query[k]
      invariant Distinct(keys) && forall k :: k in keys <==> k in fields
    {
      var key := SIGNED_FIELDS[i];
      assert SIGNED_FIELDS[..i + 1] == SIGNED_FIELDS[..i] + [key];
      if key in query && query[key] != "" {
        NewField(i);
        DistinctAppend(keys, key);
        fields, keys := fields[key := query[key]], keys + [key];
      }
    }
    assert SIGNED_FIELDS[..|SIGNED_FIELDS|] == SIGNED_FIELDS;
    if "amount" !in fields || "token" !in fields || "expires" !in fields { return Malformed; }
    var canonical := Canonicalize(fields, keys);
    if query["sig"] != mac(canonical) { return BadSignature; }
    var expiresAt := millis(fields["expires"]);
    if expiresAt.None? || now as real > expiresAt.value { return Expired; }
    return Valid;
  }

  /** Only the signed fields and the signature matter. */
  lemma JudgeDependsOnly(mac: string -> string, millis: string -> Option<real>, a: Fields, b: Fields, now: int)
    requires AgreeOn(a, b, SIGNED_FIELDS + ["sig"])
    ensures Judge(mac, millis, a, now) == Judge(mac, millis, b, now)
  {
    assert forall k :: k in SIGNED_FIELDS ==> k in SIGNED_FIELDS + ["sig"];
    assert "sig" in SIGNED_FIELDS + ["sig"];
    assert FieldsOf(a) == FieldsOf(b);
  }

  // ---- building -------------------------------------------------------------------------------------------------

  /** A payment to approve; `amount` and `count` are the numbers' printed forms. */
  datatype Payment = Payment(
    to: Option<string>,
    token: string,
    amount: string,
    note: Option<string>,
    count: Option<string>)

  function ExpiryOf(now: nat): nat {
    (now + ESCALATION_TTL_MS) / 1000
  }

  function Given(text: Option<string>): Option<string> {
    if text == Some("") then None else text
  }

  function Put(fields: Fields, key: string, value: Option<string>): Fields {
    if value.Some? then fields[key := value.value] else fields
  }

  function Required(p: Payment, now: nat): Fields {
    map["amount" := p.amount, "expires" := Text(Digits(ExpiryOf(now), 10)), "token" := p.token]
  }

  /** The record that gets signed: optional fields are left out rather than sent empty. */
  function Signable(p: Payment, now: nat): Fields {
    Put(Put(Put(Required(p, now), "to", Given(p.to)), "note", Given(p.note)), "count", p.count)
  }

  function LinkOf(mac: string -> string, base: string, p: Payment, now: nat): string {
    var canonical := Canonical(Signable(p, now));
    base + "?" + canonical + "&sig=" + mac(canonical) + "&escalated=1"
  }

  /** `keys` lists the keys of `fields`, each once. */
  ghost predicate Lists(keys: seq<string>, fields: Fields) {
    Distinct(keys) && forall k :: k in keys <==> k in fields
  }

  /** Assigns an optional field, as a new key at the end. */
  method PutField(fields: Fields, keys: seq<string>, key: string, value: Option<string>)
    returns (fields': Fields, keys': seq<string>)
    requires Lists(keys, fields) && key !in fields
    ensures fields' == Put(fields, key, value) && Lists(keys', fields')
  {
    if value.None? { return fields, keys; }
    DistinctAppend(keys, key);
    return fields[key := value.value], keys + [key];
  }

  /** The entries of a built link. */
  function Entries(mac: string -> string, p: Payment, now: nat): seq<F.Pair> {
    SignedPairs(Signable(p, now)) + Trailer(mac(Canonical(Signable(p, now))))
  }

  /** `link.split('?')[1]` */
  function QueryPart(link: string): string {
    var i := F.IndexOf(link, '?');
    if i == |link| then "" else
      var rest := link[i + 1..];
      rest[..F.IndexOf(rest, '?')]
  }

  /** The record of a parsed list: a later entry wins. */
  function Record(ps: seq<F.Pair>): Fields {
    if ps == [] then map[] else Record(ps[..|ps| - 1])[ps[|ps| - 1].name := ps[|ps| - 1].value]
  }

  function Trailer(sig: string): seq<F.Pair> {
    [F.Pair("sig", sig), F.Pair("escalated", "1")]
  }

  lemma SignatureText(sig: string)
    requires Hex64(sig)
    ensures F.SerializePair(F.Pair("sig", sig)) == "sig" + "=" + sig
  {
    assert F.PlainText("sig");
    assert F.PlainText(sig);
    F.PlainPair("sig", sig);
  }

  lemma FlagText()
    ensures F.SerializePair(F.Pair("escalated", "1")) == "escalated" + "=" + "1"
  {
    assert F.PlainText("escalated");
    assert F.PlainText("1");
    F.PlainPair("escalated", "1");
  }

  lemma JoinTexts(sig: string)
    ensures ("sig" + "=" + sig) + "&" + ("escalated" + "=" + "1") == "sig=" + sig + "&" + "escalated=1"
  {
    assert "sig=" == "sig" + "=";
    assert "escalated=1" == "escalated" + "=" + "1";
  }

  lemma TwoTexts(a: F.Pair, b: F.Pair, s: string, t: string)
    requires F.SerializePair(a) == s && F.SerializePair(b) == t
    ensures F.Serialize([a, b]) == s + "&" + t
  {
    F.SerializeTwo(a, b);
  }

  lemma TrailerText(sig: string)
    requires Hex64(sig)
    ensures F.Serialize(Trailer(sig)) == "sig=" + sig + "&" + "escalated=1"
  {
    SignatureText(sig);
    FlagText();
    TwoTexts(F.Pair("sig", sig), F.Pair("escalated", "1"), "sig" + "=" + sig, "escalated" + "=" + "1");
    JoinTexts(sig);
  }

  lemma HasSignedPair(p: Payment, now: nat)
    ensures SignedPairs(Signable(p, now)) != []
  {
    assert SIGNED_FIELDS[..|SIGNED_FIELDS|] == SIGNED_FIELDS && SIGNED_FIELDS[0] == "amount";
    SignedPairsMembers(Signable(p, now), |SIGNED_FIELDS|, F.Pair("amount", p.amount));
  }

  lemma QueryOfText(base: string, q: string)
    requires F.Lacks(base, '?') && F.Lacks(q, '?')
    ensures QueryPart(base + ['?'] + q) == q
  {
    F.IndexAfter(base, '?', q);
    assert (base + ['?'] + q)[|base| + 1..] == q;
    F.IndexAfter(q, '?', "");
    assert q[..|q|] == q;
  }

  lemma LinkText(base: string, canonical: string, sig: string)
    ensures base + "?" + canonical + "&sig=" + sig + "&escalated=1"
         == base + ['?'] + (canonical + "&" + ("sig=" + sig + "&" + "escalated=1"))
  {
    assert "&sig=" == "&" + "sig=" && "&escalated=1" == "&" + "escalated=1" && "?" == ['?'];
  }

  /** The query of a built link is the serialized list of its entries. */
  lemma LinkQuery(mac: string -> string, base: string, p: Payment, now: nat)
    requires HexMac(mac) && F.Lacks(base, '?')
    ensures QueryPart(LinkOf(mac, base, p, now)) == F.Serialize(Entries(mac, p, now))
  {
    var pairs := SignedPairs(Signable(p, now));
    var sig := mac(F.Serialize(pairs));
    HasSignedPair(p, now);
    TrailerText(sig);
    F.SerializeAppend(pairs, Trailer(sig));
    LinkText(base, F.Serialize(pairs), sig);
    F.NoQuestionMark(pairs + Trailer(sig));
    QueryOfText(base, F.Serialize(pairs + Trailer(sig)));
  }

  // ---- round trip ------------------------------------------------------------------------------------------------

  /**
   * `ps` carries the same signed entries and signature as `qs`, in any order, with any repetition and any other
   * entries.
   */
  ghost predicate SameSigned(ps: seq<F.Pair>, qs: seq<F.Pair>) {
    forall p: F.Pair :: p.name in SIGNED_FIELDS + ["sig"] ==> (p in ps <==> p in qs)
  }

  /** When no name has two values, a record holds exactly its entries. */
  ghost predicate SingleValued(ps: seq<F.Pair>, name: string) {
    forall p, q :: p in ps && q in ps && p.name == name && q.name == name ==> p == q
  }

  lemma {:induction false} RecordHolds(ps: seq<F.Pair>, name: string)
    requires SingleValued(ps, name)
    ensures name in Record(ps) <==> exists p :: p in ps && p.name == name
    ensures name in Record(ps) ==> F.Pair(name, Record(ps)[name]) in ps
  {
    if ps != [] {
      var init, last := ps[..|ps| - 1], ps[|ps| - 1];
      assert ps == init + [last];
      RecordHolds(init, name);
    }
  }

  lemma EntriesMembers(mac: string -> string, p: Payment, now: nat, e: F.Pair)
    ensures e in Entries(mac, p, now) <==>
      || (e.name in SIGNED_FIELDS && e.name in Signable(p, now) && Signable(p, now)[e.name] == e.value)
      || e == F.Pair("sig", mac(Canonical(Signable(p, now))))
      || e == F.Pair("escalated", "1")
  {
    SignedPairsMembers(Signable(p, now), |SIGNED_FIELDS|, e);
    assert SIGNED_FIELDS[..|SIGNED_FIELDS|] == SIGNED_FIELDS;
  }

  /** An entry list with the entries of `sent` under `k`, and no others, gives a record that agrees there. */
  lemma RecordAgrees(ps: seq<F.Pair>, sent: Fields, k: string)
    requires forall e: F.Pair :: e.name == k ==> (e in ps <==> k in sent && e.value == sent[k])
    ensures (k in Record(ps) <==> k in sent) && (k in sent ==> Record(ps)[k] == sent[k])
  {
    if k in sent { assert F.Pair(k, sent[k]) in ps; }
    RecordHolds(ps, k);
  }

  lemma EntryIsSent(mac: string -> string, p: Payment, now: nat, e: F.Pair)
    requires e.name in SIGNED_FIELDS + ["sig"]
    ensures var sent := Signable(p, now)["sig" := mac(Canonical(Signable(p, now)))];
      e in Entries(mac, p, now) <==> e.name in sent && e.value == sent[e.name]
  {
    EntriesMembers(mac, p, now, e);
  }

  lemma ListAgrees(ps: seq<F.Pair>, sent: Fields, keys: seq<string>)
    requires forall e: F.Pair :: e.name in keys ==> (e in ps <==> e.name in sent && e.value == sent[e.name])
    ensures AgreeOn(Record(ps), sent, keys)
  {
    forall k | k in keys ensures (k in Record(ps) <==> k in sent) && (k in sent ==> Record(ps)[k] == sent[k]) {
      RecordAgrees(ps, sent, k);
    }
  }

  /** What the receiver's record says about the signed fields and the signature. */
  lemma ReceivedRecord(mac: string -> string, p: Payment, now: nat, ps: seq<F.Pair>)
    ensures SameSigned(ps, Entries(mac, p, now)) ==>
      AgreeOn(Record(ps), Signable(p, now)["sig" := mac(Canonical(Signable(p, now)))], SIGNED_FIELDS + ["sig"])
  {
    var sent := Signable(p, now)["sig" := mac(Canonical(Signable(p, now)))];
    var keys := SIGNED_FIELDS + ["sig"];
    if SameSigned(ps, Entries(mac, p, now)) {
      forall e: F.Pair | e.name in keys ensures e in ps <==> e.name in sent && e.value == sent[e.name] {
        EntryIsSent(mac, p, now, e);
      }
      ListAgrees(ps, sent, keys);
    }
  }

  lemma ExpiryText(now: nat)
    ensures Text(Digits(ExpiryOf(now), 10)) != ""
  {
    ParseText(Digits(ExpiryOf(now), 10), 10);
  }

  lemma ExpiryRead(millis: string -> Option<real>, now: TimeValue)
    requires MillisOk(millis)
    ensures millis(Text(Digits(ExpiryOf(now), 10))) == Some((1000 * ExpiryOf(now)) as real)
  {
    assert ExpiryOf(now) <= EXACT_SECONDS;
  }

  /** Only signed fields, none of them empty. */
  ghost predicate Readable(fields: Fields) {
    forall k :: k in fields ==> k in SIGNED_FIELDS && fields[k] != ""
  }

  lemma PutReadable(fields: Fields, i: nat, value: Option<string>)
    requires Readable(fields) && i < |SIGNED_FIELDS| && value != Some("")
    ensures Readable(Put(fields, SIGNED_FIELDS[i], value))
  {
  }

  lemma RequiredReadable(p: Payment, now: nat)
    requires p.amount != "" && p.token != ""
    ensures Readable(Required(p, now))
  {
    ExpiryText(now);
    assert SIGNED_FIELDS[0] == "amount" && SIGNED_FIELDS[2] == "expires" && SIGNED_FIELDS[5] == "token";
  }

  lemma ReadBackWhole(s: Fields, sig: string)
    requires Readable(s)
    ensures FieldsOf(s["sig" := sig]) == s
  {
    assert "sig" !in SIGNED_FIELDS;
  }

  /** A built record with a token is read back whole. */
  lemma FieldsOfSent(p: Payment, now: nat, sig: string)
    requires p.amount != "" && p.token != "" && (p.count.Some? ==> p.count.value != "")
    ensures FieldsOf(Signable(p, now)["sig" := sig]) == Signable(p, now)
  {
    RequiredReadable(p, now);
    var a := Required(p, now);
    PutReadable(a, 4, Given(p.to));
    var b := Put(a, SIGNED_FIELDS[4], Given(p.to));
    PutReadable(b, 3, Given(p.note));
    var c := Put(b, SIGNED_FIELDS[3], Given(p.note));
    PutReadable(c, 1, p.count);
    ReadBackWhole(Put(c, SIGNED_FIELDS[1], p.count), sig);
  }

  /** A record that is read back whole and signed by its own hash is judged by its expiry alone. */
  lemma JudgeHonest(mac: string -> string, millis: string -> Option<real>, s: Fields, expiry: nat, later: int)
    requires HexMac(mac)
    requires FieldsOf(s["sig" := mac(Canonical(s))]) == s
    requires NonBlank(s, "amount") && NonBlank(s, "token") && NonBlank(s, "expires")
    requires millis(s["expires"]) == Some((1000 * expiry) as real)
    ensures Judge(mac, millis, s["sig" := mac(Canonical(s))], later) == if later > expiry * 1000 then Expired else Valid
  {
    assert Hex64(mac(Canonical(s)));
  }

  lemma SentFields(p: Payment, now: nat)
    ensures var s := Signable(p, now);
      && "amount" in s && s["amount"] == p.amount
      && "token" in s && s["token"] == p.token
      && "expires" in s && s["expires"] == Text(Digits(ExpiryOf(now), 10))
  {
  }

  lemma JudgeSent(mac: string -> string, millis: string -> Option<real>, p: Payment, now: TimeValue, later: int)
    requires HexMac(mac) && MillisOk(millis) && p.amount != "" && p.token != ""
    requires p.count.Some? ==> p.count.value != ""
    ensures var s := Signable(p, now);
      Judge(mac, millis, s["sig" := mac(Canonical(s))], later)
        == if later > ExpiryOf(now) * 1000 then Expired else Valid
  {
    var s := Signable(p, now);
    ExpiryText(now);
    ExpiryRead(millis, now);
    FieldsOfSent(p, now, mac(Canonical(s)));
    SentFields(p, now);
    JudgeHonest(mac, millis, s, ExpiryOf(now), later);
  }

  lemma JudgeTokenless(mac: string -> string, millis: string -> Option<real>, p: Payment, now: nat, later: int)
    requires HexMac(mac) && p.token == ""
    ensures var s := Signable(p, now); Judge(mac, millis, s["sig" := mac(Canonical(s))], later) == Malformed
  {
    var s := Signable(p, now);
    var query := s["sig" := mac(Canonical(s))];
    assert Hex64(query["sig"]);
    assert query["token"] == "";
    assert "token" !in FieldsOf(query);
  }

  /**
   * The round trip: any query carrying a built link's signed entries verifies at exactly the times up to the
   * expiry, provided the token is not empty; without a token it is malformed.
   */
  lemma RoundTrip(mac: string -> string, millis: string -> Option<real>, p: Payment, now: TimeValue,
                  ps: seq<F.Pair>, later: int)
    requires HexMac(mac) && MillisOk(millis) && p.amount != "" && (p.count.Some? ==> p.count.value != "")
    ensures SameSigned(ps, Entries(mac, p, now)) ==>
      Judge(mac, millis, Record(F.Parse(F.Serialize(ps))), later)
        == if p.token == "" then Malformed else if later > ExpiryOf(now) * 1000 then Expired else Valid
  {
    if SameSigned(ps, Entries(mac, p, now)) {
      F.ParseInverts(ps);
      ReceivedRecord(mac, p, now, ps);
      var s := Signable(p, now);
      JudgeDependsOnly(mac, millis, Record(ps), s["sig" := mac(Canonical(s))], later);
      if p.token == "" { JudgeTokenless(mac, millis, p, now, later); } else { JudgeSent(mac, millis, p, now, later); }
    }
  }

  /** The link as sent verifies until it expires. */
  lemma BuiltLinkVerifies(mac: string -> string, millis: string -> Option<real>, base: string, p: Payment,
                          now: TimeValue, later: int)
    requires HexMac(mac) && MillisOk(millis) && p.amount != "" && p.token != ""
    requires p.count.Some? ==> p.count.value != ""
    requires F.Lacks(base, '?')
    ensures Judge(mac, millis, Record(F.Parse(QueryPart(LinkOf(mac, base, p, now)))), later) == Valid <==>
      later <= ExpiryOf(now) * 1000
  {
    LinkQuery(mac, base, p, now);
    RoundTrip(mac, millis, p, now, Entries(mac, p, now), later);
  }

  // ---- what a built link says --------------------------------------------------------------------------------------

  /** The entry is there exactly when it is wanted, with that text. */
  predicate Says(query: Fields, key: string, wanted: Option<string>) {
    if wanted.Some? then key in query && query[key] == wanted.value else key !in query
  }

  predicate Blank(text: Option<string>) {
    text.None? || text.value == ""
  }

  /** The text is a whole number of seconds, the last one not after fifteen minutes from `now`. */
  ghost predicate ExpirySays(text: string, now: nat) {
    exists seconds: nat :: text == Text(Digits(seconds, 10)) && now + 899_000 < 1000 * seconds <= now + 900_000
  }

  /** The query asks for the payment `p`: its amount, token, recipient, note and count, an expiry, and nothing else. */
  ghost predicate AsksFor(query: Fields, p: Payment, now: nat) {
    && Says(query, "amount", Some(p.amount)) && Says(query, "token", Some(p.token))
    && Says(query, "to", if Blank(p.to) then None else p.to)
    && Says(query, "note", if Blank(p.note) then None else p.note)
    && Says(query, "count", p.count)
    && "expires" in query && ExpirySays(query["expires"], now)
    && Says(query, "escalated", Some("1")) && "sig" in query
    && query.Keys <= {"amount", "token", "to", "note", "count", "expires", "escalated", "sig"}
  }

  /** The link is the base, the signed text, the hash of that text, and the flag. */
  ghost predicate Signs(mac: string -> string, base: string, link: string, sig: string) {
    exists signed :: link == base + "?" + signed + "&sig=" + mac(signed) + "&escalated=1" && sig == mac(signed)
  }

  function Sent(mac: string -> string, p: Payment, now: nat): Fields {
    Signable(p, now)["sig" := mac(Canonical(Signable(p, now)))]["escalated" := "1"]
  }

  lemma SignableKeys(p: Payment, now: nat, k: string)
    requires k in Signable(p, now)
    ensures k in SIGNED_FIELDS
  {
    assert SIGNED_FIELDS[0] == "amount" && SIGNED_FIELDS[1] == "count" && SIGNED_FIELDS[2] == "expires";
    assert SIGNED_FIELDS[3] == "note" && SIGNED_FIELDS[4] == "to" && SIGNED_FIELDS[5] == "token";
  }

  lemma OwnRecord(mac: string -> string, p: Payment, now: nat)
    ensures Record(Entries(mac, p, now)) == Sent(mac, p, now)
  {
    var ps, sent := Entries(mac, p, now), Sent(mac, p, now);
    assert "sig" !in SIGNED_FIELDS && "escalated" !in SIGNED_FIELDS;
    forall k: string ensures (k in Record(ps) <==> k in sent) && (k in sent ==> Record(ps)[k] == sent[k]) {
      if k in Signable(p, now) { SignableKeys(p, now, k); }
      forall e: F.Pair | e.name == k ensures e in ps <==> k in sent && e.value == sent[k] {
        EntriesMembers(mac, p, now, e);
      }
      RecordAgrees(ps, sent, k);
    }
  }

  lemma SentOptional(p: Payment, now: nat)
    ensures var s := Signable(p, now);
      && Says(s, "to", if Blank(p.to) then None else p.to)
      && Says(s, "note", if Blank(p.note) then None else p.note)
      && Says(s, "count", p.count)
      && s.Keys <= {"amount", "token", "to", "note", "count", "expires"}
  {
  }

  lemma SentAsks(mac: string -> string, p: Payment, now: nat)
    ensures AsksFor(Sent(mac, p, now), p, now)
  {
    SentFields(p, now);
    SentOptional(p, now);
    SentExpiry(now);
    Signed(Signable(p, now), mac(Canonical(Signable(p, now))), p, now);
  }

  lemma SentExpiry(now: nat)
    ensures ExpirySays(Text(Digits(ExpiryOf(now), 10)), now)
  {
    assert now + 899_000 < 1000 * ExpiryOf(now) <= now + 900_000;
  }

  /** Adding the signature and the flag to the signed fields. */
  lemma Signed(s: Fields, sig: string, p: Payment, now: nat)
    requires Says(s, "amount", Some(p.amount)) && Says(s, "token", Some(p.token))
    requires Says(s, "to", if Blank(p.to) then None else p.to)
    requires Says(s, "note", if Blank(p.note) then None else p.note)
    requires Says(s, "count", p.count) && "expires" in s && ExpirySays(s["expires"], now)
    requires s.Keys <= {"amount", "token", "to", "note", "count", "expires"}
    ensures AsksFor(s["sig" := sig]["escalated" := "1"], p, now)
  {
  }

  /** A built link's own query asks for just the payment it was built for, and carries the hash of its signed text. */
  lemma BuiltLinkAsks(mac: string -> string, base: string, p: Payment, now: nat)
    requires HexMac(mac) && F.Lacks(base, '?')
    ensures var link := LinkOf(mac, base, p, now); var query := Record(F.Parse(QueryPart(link)));
      AsksFor(query, p, now) && Signs(mac, base, link, query["sig"])
  {
    LinkQuery(mac, base, p, now);
    F.ParseInverts(Entries(mac, p, now));
    OwnRecord(mac, p, now);
    SentAsks(mac, p, now);
  }

  /**
   * The link of a prompt, filling the signed record field by field; `base` is the app's address and path. Its query
   * asks for just that payment.
   */
  method BuildLink(mac: string -> string, base: string, p: Payment, now: nat) returns (link: string)
    ensures link == LinkOf(mac, base, p, now)
    ensures HexMac(mac) && F.Lacks(base, '?') ==>
      var query := Record(F.Parse(QueryPart(link)));
      AsksFor(query, p, now) && Signs(mac, base, link, query["sig"])
  {
    var fields, keys := Required(p, now), ["amount", "expires", "token"];
    fields, keys := PutField(fields, keys, "to", Given(p.to));
    fields, keys := PutField(fields, keys, "note", Given(p.note));
    fields, keys := PutField(fields, keys, "count", p.count);
    var canonical := Canonicalize(fields, keys);
    link := base + "?" + canonical + "&sig=" + mac(canonical) + "&escalated=1";
    if HexMac(mac) && F.Lacks(base, '?') { BuiltLinkAsks(mac, base, p, now); }
  }

  /**
   * Tampering: a query accepted under a built link's signature has that link's signed fields, or exhibits a collision
   * of the keyed hash.
   */
  lemma AcceptedIsUntampered(mac: string -> string, millis: string -> Option<real>, p: Payment, now: nat,
                             query: Fields, later: int)
    requires Judge(mac, millis, query, later) == Valid && query["sig"] == mac(Canonical(Signable(p, now)))
    ensures
      || AgreeOn(FieldsOf(query), Signable(p, now), SIGNED_FIELDS)
      || (Canonical(FieldsOf(query)) != Canonical(Signable(p, now))
          && mac(Canonical(FieldsOf(query))) == mac(Canonical(Signable(p, now))))
  {
    CanonicalInjective(FieldsOf(query), Signable(p, now));
  }

  lemma WellFormed(query: Fields)
    requires NonBlank(query, "amount") && NonBlank(query, "token") && NonBlank(query, "expires")
    ensures var fields := FieldsOf(query);
      NonBlank(fields, "amount") && NonBlank(fields, "token") && NonBlank(fields, "expires")
  {
    assert SIGNED_FIELDS[0] == "amount" && SIGNED_FIELDS[2] == "expires" && SIGNED_FIELDS[5] == "token";
  }

  lemma WrongSignature(mac: string -> string, millis: string -> Option<real>, query: Fields, later: int)
    requires NonBlank(query, "sig")
    requires var fields := FieldsOf(query);
      NonBlank(fields, "amount") && NonBlank(fields, "token") && NonBlank(fields, "expires")
    ensures Judge(mac, millis, query, later) == BadSignature <==> query["sig"] != mac(Canonical(FieldsOf(query)))
  {
  }

  /**
   * A query with a built link's signature that differs in a signed field is refused as badly signed, unless it exhibits
   * such a collision.
   */
  lemma TamperedIsRefused(mac: string -> string, millis: string -> Option<real>, p: Payment, now: nat, query: Fields,
                          later: int)
    requires HexMac(mac) && "sig" in query && query["sig"] == mac(Canonical(Signable(p, now)))
    requires NonBlank(query, "amount") && NonBlank(query, "token") && NonBlank(query, "expires")
    requires !AgreeOn(FieldsOf(query), Signable(p, now), SIGNED_FIELDS)
    ensures
      || Judge(mac, millis, query, later) == BadSignature
      || (Canonical(FieldsOf(query)) != Canonical(Signable(p, now))
          && mac(Canonical(FieldsOf(query))) == mac(Canonical(Signable(p, now))))
  {
    CanonicalInjective(FieldsOf(query), Signable(p, now));
    WellFormed(query);
    assert Hex64(query["sig"]);
    WrongSignature(mac, millis, query, later);
  }
}

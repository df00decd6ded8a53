/**
 * Red envelopes: share arithmetic in whole cents, one claim after the other.
 *
 * A claim works on the balance derived from the claim rows, then writes a claim row and the envelope row.
 * The second write may fail after the first, which leaves the stored figures behind the claim rows.
 */
module RedEnvelopes {
  import opened Prelude

  datatype Kind = OPEN | CUSTOM

  datatype Status = ACTIVE | COMPLETED | CANCELLED

  datatype Envelope = Envelope(
    total: int,
    recipients: int,
    kind: Kind,
    random: bool,
    status: Status,
    balance: int,
    claimsLeft: int,
    claims: seq<int>)

  function Fresh(total: int, recipients: int, kind: Kind, random: bool): Envelope {
    Envelope(total, recipients, kind, random, ACTIVE, total, recipients, [])
  }

  /** `withClaimSummary`: the balance shown and used is derived from the claim rows. */
  function Derived(e: Envelope): int {
    Max(0, e.total - Sum(e.claims))
  }

  datatype Refusal = NotActive | NothingLeft | NotRecipient | ChainFailed

  /** Whether the caller may claim, whether the chain settles, and which database writes succeed. */
  datatype Attempt = Attempt(allowed: bool, settles: bool, draw: real, rowWritten: bool, envelopeWritten: bool)

  /** The equal share, rounded to cents. */
  function EqualShare(e: Envelope): int
    requires e.recipients >= 1
  {
    RoundHalfUp(e.total as real / e.recipients as real)
  }

  /** The amount of the next claim: everything for a custom or last claim, else a random or an equal share. */
  function Share(e: Envelope, draw: real): int
    requires e.recipients >= 1
  {
    var left := Derived(e);
    if e.kind == OPEN && e.claimsLeft > 1 then
      Min(if e.random then RoundHalfUp(left as real / e.claimsLeft as real * (draw + 0.5)) else EqualShare(e), left)
    else left
  }

  function Refused(e: Envelope, a: Attempt): Option<Refusal> {
    if e.status != ACTIVE then Some(NotActive)
    else if e.claimsLeft <= 0 || Derived(e) <= 0 then Some(NothingLeft)
    else if e.kind == CUSTOM && !a.allowed then Some(NotRecipient)
    else if !a.settles then Some(ChainFailed) else None
  }

  /** Both writes of a claim of `amount`. */
  function Recorded(e: Envelope, amount: int): Envelope {
    var left := Max(0, e.claimsLeft - 1);
    e.(claims := e.claims + [amount], balance := Max(0, Derived(e) - amount), claimsLeft := left,
       status := if left == 0 then COMPLETED else ACTIVE)
  }

  function AfterClaim(e: Envelope, a: Attempt): Envelope
    requires e.recipients >= 1
  {
    if Refused(e, a).Some? || !a.rowWritten then e
    else if !a.envelopeWritten then e.(claims := e.claims + [Share(e, a.draw)])
    else Recorded(e, Share(e, a.draw))
  }

  function Claims(e: Envelope, attempts: seq<Attempt>): Envelope
    requires e.recipients >= 1
    ensures Claims(e, attempts).recipients == e.recipients
  {
    if attempts == [] then e else AfterClaim(Claims(e, attempts[..|attempts| - 1]), attempts[|attempts| - 1])
  }

  // ---- conservation ---------------------------------------------------------------------------------

  predicate DrawsOk(attempts: seq<Attempt>) {
    forall i :: 0 <= i < |attempts| ==> 0.0 <= attempts[i].draw < 1.0
  }

  predicate WritesOk(attempts: seq<Attempt>) {
    forall i :: 0 <= i < |attempts| ==> attempts[i].rowWritten && attempts[i].envelopeWritten
  }

  /**
   * Claim rows never exceed the total; a completed envelope paid out exactly its total; stored figures never fall
   * below the derived ones.
   */
  ghost predicate Inv(e: Envelope) {
    && e.total > 0 && e.recipients >= 1 && e.claimsLeft >= 0 && e.status != CANCELLED
    && 0 <= Sum(e.claims) <= e.total
    && e.balance >= Derived(e)
    && (e.status == COMPLETED <==> e.claimsLeft == 0)
    && (e.status == COMPLETED ==> Sum(e.claims) == e.total && e.balance == 0)
  }

  lemma ShareBounds(e: Envelope, draw: real)
    requires e.recipients >= 1 && e.total > 0 && e.claimsLeft >= 0 && draw >= 0.0
    ensures 0 <= Share(e, draw) <= Derived(e)
    ensures e.claimsLeft <= 1 ==> Share(e, draw) == Derived(e)
  {
    var left := Derived(e);
    assert e.total as real / e.recipients as real >= 0.0;
    if e.claimsLeft > 1 {
      var avg := left as real / e.claimsLeft as real;
      assert avg >= 0.0;
      assert avg * (draw + 0.5) >= 0.0;
    }
  }

  /** An amount within the balance of a running envelope; the last claim takes it all. */
  ghost predicate Payable(e: Envelope, amount: int) {
    && Inv(e) && e.status == ACTIVE && 0 <= amount <= Derived(e)
    && (e.claimsLeft <= 1 ==> amount == Derived(e))
  }

  /** Both writes. */
  lemma RecordedKeeps(e: Envelope, amount: int)
    requires Payable(e, amount)
    ensures Inv(Recorded(e, amount)) && Recorded(e, amount).balance == Derived(Recorded(e, amount))
  {
    var t := Recorded(e, amount);
    assert t.claims == e.claims + [amount];
    SumAppend(e.claims, amount);
    assert Sum(t.claims) == Sum(e.claims) + amount;
    assert Derived(t) == Derived(e) - amount;
  }

  /** The claim row alone. */
  lemma RowKeeps(e: Envelope, amount: int)
    requires Inv(e) && e.status == ACTIVE && 0 <= amount <= Derived(e)
    ensures Inv(e.(claims := e.claims + [amount]))
  {
    var t := e.(claims := e.claims + [amount]);
    assert t.claims == e.claims + [amount];
    SumAppend(e.claims, amount);
    assert Sum(t.claims) == Sum(e.claims) + amount;
    assert Derived(t) == Derived(e) - amount;
  }

  lemma ClaimKeeps(e: Envelope, a: Attempt)
    requires Inv(e) && 0.0 <= a.draw < 1.0
    ensures Inv(AfterClaim(e, a))
    ensures e.balance == Derived(e) && a.rowWritten && a.envelopeWritten ==>
      AfterClaim(e, a).balance == Derived(AfterClaim(e, a))
  {
    if Refused(e, a).None? && a.rowWritten {
      ShareBounds(e, a.draw);
      var amount := Share(e, a.draw);
      if a.envelopeWritten { RecordedKeeps(e, amount); } else { RowKeeps(e, amount); }
    }
  }

  /** In every run the claim rows and the remainder add up, and completion means the whole total was paid. */
  lemma {:induction false} PaidWithinTotal(e: Envelope, attempts: seq<Attempt>)
    requires Inv(e) && DrawsOk(attempts)
    ensures Inv(Claims(e, attempts))
  {
    if attempts != [] {
      PaidWithinTotal(e, attempts[..|attempts| - 1]);
      ClaimKeeps(Claims(e, attempts[..|attempts| - 1]), attempts[|attempts| - 1]);
    }
  }

  /** When both writes of every claim succeed, the stored balance is the total minus the claim rows. */
  lemma {:induction false} StoredIsDerived(total: int, n: int, kind: Kind, random: bool, attempts: seq<Attempt>)
    requires total > 0 && n >= 1 && DrawsOk(attempts) && WritesOk(attempts)
    ensures var e := Claims(Fresh(total, n, kind, random), attempts);
      Inv(e) && e.total == total && e.balance == total - Sum(e.claims)
  {
    var e := Fresh(total, n, kind, random);
    PaidWithinTotal(e, attempts);
    if attempts != [] {
      StoredIsDerived(total, n, kind, random, attempts[..|attempts| - 1]);
      ClaimKeeps(Claims(e, attempts[..|attempts| - 1]), attempts[|attempts| - 1]);
    }
  }

  // ---- who is paid how much -------------------------------------------------------------------------

  /** The amount, times `n`, is `aim` up to half a cent each. */
  predicate Near(amount: int, n: real, aim: real) {
    aim - 0.5 * n <= amount as real * n <= aim + 0.5 * n
  }

  /** For two or more claims the point lies between 50% and 150% of the average, and so within what is left. */
  lemma PointWithin(left: real, n: real, factor: real, point: real)
    requires left >= 0.0 && n >= 2.0 && 0.5 <= factor < 1.5 && point * n == left * factor
    ensures 0.5 * left <= left * factor <= 1.5 * left && point <= left
  {
    if left > 0.0 {
      CompareTimes(0.5, factor, left);
      CompareTimes(factor, 1.5, left);
      CompareTimes(2.0, n, left);
    }
    assert left * factor <= left * n;
    CompareTimes(point, left, n);
  }

  lemma NearByPoint(amount: int, n: real, aim: real, point: real)
    requires n > 0.0 && point * n == aim && point - 0.5 <= amount as real <= point + 0.5
    ensures Near(amount, n, aim)
  {
    NearTimes(point, amount as real, n, aim);
  }

  /**
   * A random share of `left` among `n` claims is, up to half a cent, the point the draw aims at between 50% and 150% of
   * the average; it never exceeds what is left.
   */
  predicate LuckyShare(left: int, n: int, draw: real, amount: int) {
    var aim := left as real * (draw + 0.5);
    amount <= left && 0.5 * left as real <= aim <= 1.5 * left as real && Near(amount, n as real, aim)
  }

  lemma AimedRandom(left: int, n: int, draw: real)
    requires left >= 0 && n >= 2 && 0.0 <= draw < 1.0
    ensures LuckyShare(left, n, draw, RoundHalfUp(left as real / n as real * (draw + 0.5)))
  {
    var point := left as real / n as real * (draw + 0.5);
    QuotientTimes(left as real, n as real, draw + 0.5);
    PointWithin(left as real, n as real, draw + 0.5, point);
    NearByPoint(RoundHalfUp(point), n as real, left as real * (draw + 0.5), point);
  }

  lemma RandomShare(e: Envelope, draw: real)
    requires e.recipients >= 1 && e.kind == OPEN && e.random && e.claimsLeft > 1 && 0.0 <= draw < 1.0
    ensures LuckyShare(Derived(e), e.claimsLeft, draw, Share(e, draw))
  {
    AimedRandom(Derived(e), e.claimsLeft, draw);
    var amount := RoundHalfUp(Derived(e) as real / e.claimsLeft as real * (draw + 0.5));
    assert amount <= Derived(e);
    assert Share(e, draw) == amount;
  }

  /**
   * A claimable custom envelope refuses everybody but its recipient, and one claim of the recipient takes all that is
   * left.
   */
  lemma CustomIsForItsRecipient(e: Envelope, a: Attempt)
    requires e.recipients >= 1 && e.kind == CUSTOM && e.status == ACTIVE && e.claimsLeft > 0 && Derived(e) > 0
    ensures !a.allowed <==> Refused(e, a) == Some(NotRecipient)
    ensures !a.allowed ==> AfterClaim(e, a) == e && SettledBy(e, a) == 0
    ensures a.allowed && a.settles ==> SettledBy(e, a) == Derived(e)
    ensures a.allowed && a.settles && a.rowWritten ==>
      AfterClaim(e, a).claims == e.claims + [Derived(e)] && Derived(AfterClaim(e, a)) == 0
  {
    SumAppend(e.claims, Derived(e));
  }

  lemma {:induction false} KindKept(e: Envelope, attempts: seq<Attempt>)
    requires e.recipients >= 1
    ensures Claims(e, attempts).kind == e.kind && Claims(e, attempts).random == e.random
  {
    if attempts != [] { KindKept(e, attempts[..|attempts| - 1]); }
  }

  /**
   * In every run of a custom envelope only claims by its recipient settle anything, and each settles all that is left.
   */
  lemma CustomSettlements(total: int, n: int, random: bool, attempts: seq<Attempt>, i: nat)
    requires n >= 1 && i < |attempts|
    ensures var f := Claims(Fresh(total, n, CUSTOM, random), attempts[..i]);
      SettledBy(f, attempts[i]) != 0 ==> attempts[i].allowed && SettledBy(f, attempts[i]) == Derived(f)
  {
    KindKept(Fresh(total, n, CUSTOM, random), attempts[..i]);
  }

  // ---- what settled on chain ------------------------------------------------------------------------

  /** What a claim moves on chain; the database writes come afterwards. */
  function SettledBy(e: Envelope, a: Attempt): int
    requires e.recipients >= 1
  {
    if Refused(e, a).Some? then 0 else Share(e, a.draw)
  }

  function SettledTotal(e: Envelope, attempts: seq<Attempt>): int
    requires e.recipients >= 1
  {
    if attempts == [] then 0
    else SettledTotal(e, attempts[..|attempts| - 1])
         + SettledBy(Claims(e, attempts[..|attempts| - 1]), attempts[|attempts| - 1])
  }

  /** What settled while its claim row was not written. */
  function UnrecordedTotal(e: Envelope, attempts: seq<Attempt>): int
    requires e.recipients >= 1
  {
    if attempts == [] then 0
    else UnrecordedTotal(e, attempts[..|attempts| - 1])
         + if attempts[|attempts| - 1].rowWritten then 0
           else SettledBy(Claims(e, attempts[..|attempts| - 1]), attempts[|attempts| - 1])
  }

  /** Every settled cent is in a claim row or unrecorded. */
  lemma {:induction false} SettledAccounted(e: Envelope, attempts: seq<Attempt>)
    requires e.recipients >= 1
    ensures SettledTotal(e, attempts) + Sum(e.claims) == Sum(Claims(e, attempts).claims) + UnrecordedTotal(e, attempts)
  {
    if attempts != [] {
      var init, a := attempts[..|attempts| - 1], attempts[|attempts| - 1];
      SettledAccounted(e, init);
      var f := Claims(e, init);
      SumAppend(f.claims, Share(f, a.draw));
    }
  }

  predicate RowsWritten(attempts: seq<Attempt>) {
    forall i :: 0 <= i < |attempts| ==> attempts[i].rowWritten
  }

  /** Every claim that moved something on chain has its claim row. */
  ghost predicate SettledAreRecorded(e: Envelope, attempts: seq<Attempt>)
    requires e.recipients >= 1
  {
    forall i :: 0 <= i < |attempts| ==>
      attempts[i].rowWritten || SettledBy(Claims(e, attempts[..i]), attempts[i]) == 0
  }

  /** Nothing is unrecorded exactly when every settled claim has its row. */
  lemma {:induction false} UnrecordedSign(e: Envelope, attempts: seq<Attempt>)
    requires Inv(e) && DrawsOk(attempts)
    ensures UnrecordedTotal(e, attempts) >= 0
    ensures UnrecordedTotal(e, attempts) == 0 <==> SettledAreRecorded(e, attempts)
  {
    if attempts != [] {
      var k := |attempts| - 1;
      var init := attempts[..k];
      UnrecordedSign(e, init);
      PaidWithinTotal(e, init);
      ShareBounds(Claims(e, init), attempts[k].draw);
      forall i | 0 <= i < k ensures init[i] == attempts[i] && init[..i] == attempts[..i] {}
    }
  }

  /**
   * Settled amounts against the total. When every settled claim has its row they are the claim rows, hence within
   * the total; once nothing is left to claim, they are within the total only then.
   */
  lemma SettledWithinTotal(total: int, n: int, kind: Kind, random: bool, attempts: seq<Attempt>)
    requires total > 0 && n >= 1 && DrawsOk(attempts)
    ensures var e := Fresh(total, n, kind, random); var f := Claims(e, attempts);
      && (SettledAreRecorded(e, attempts) ==> SettledTotal(e, attempts) == Sum(f.claims) <= total)
      && (Derived(f) == 0 ==> (SettledTotal(e, attempts) <= total <==> SettledAreRecorded(e, attempts)))
  {
    var e := Fresh(total, n, kind, random);
    PaidWithinTotal(e, attempts);
    SettledAccounted(e, attempts);
    TotalKept(e, attempts);
    UnrecordedSign(e, attempts);
  }

  lemma {:induction false} TotalKept(e: Envelope, attempts: seq<Attempt>)
    requires e.recipients >= 1
    ensures Claims(e, attempts).total == e.total
  {
    if attempts != [] { TotalKept(e, attempts[..|attempts| - 1]); }
  }

  /** Further claims that write their rows leave nothing more unrecorded. */
  lemma {:induction false} RecordedAfterwards(e: Envelope, attempts: seq<Attempt>, more: seq<Attempt>)
    requires e.recipients >= 1 && RowsWritten(more)
    ensures Claims(e, attempts + more) == Claims(Claims(e, attempts), more)
    ensures UnrecordedTotal(e, attempts + more) == UnrecordedTotal(e, attempts)
  {
    if more == [] {
      assert attempts + more == attempts;
    } else {
      var all := attempts + more;
      assert all[..|all| - 1] == attempts + more[..|more| - 1];
      RecordedAfterwards(e, attempts, more[..|more| - 1]);
    }
  }

  /** A claim by an admitted caller in which nothing fails; the draw is the smallest. */
  const PLAIN := Attempt(true, true, 0.0, true, true)

  function Repeat(k: nat): seq<Attempt> {
    seq(k, _ => PLAIN)
  }

  /** As many plain claims as are left take everything. */
  lemma {:induction false} PlainClaimsDrain(e: Envelope, k: nat)
    requires Inv(e) && k <= e.claimsLeft
    ensures var f := Claims(e, Repeat(k)); Inv(f) && (Derived(f) > 0 ==> f.claimsLeft == e.claimsLeft - k)
  {
    if k > 0 {
      PlainClaimsDrain(e, k - 1);
      assert Repeat(k)[..k - 1] == Repeat(k - 1);
      var f := Claims(e, Repeat(k - 1));
      ClaimKeeps(f, PLAIN);
      if Derived(f) > 0 {
        assert AfterClaim(f, PLAIN) == Recorded(f, Share(f, 0.0));
      } else {
        assert AfterClaim(f, PLAIN) == f;
      }
    }
  }

  /** What is left can always be claimed away. */
  lemma Drained(e: Envelope) returns (more: seq<Attempt>)
    requires Inv(e)
    ensures DrawsOk(more) && RowsWritten(more) && Derived(Claims(e, more)) == 0
  {
    more := Repeat(e.claimsLeft);
    PlainClaimsDrain(e, e.claimsLeft);
  }

  /** However the claims go on, as long as their rows are written, settled amounts stay within the total. */
  ghost predicate SafeFromHere(e: Envelope, attempts: seq<Attempt>)
    requires e.recipients >= 1
  {
    forall more :: DrawsOk(more) && RowsWritten(more) ==> SettledTotal(e, attempts + more) <= e.total
  }

  /** An envelope is safe from overpayment by later claims if and only if every claim settled so far has its row. */
  lemma SafeExactly(total: int, n: int, kind: Kind, random: bool, attempts: seq<Attempt>)
    requires total > 0 && n >= 1 && DrawsOk(attempts)
    ensures var e := Fresh(total, n, kind, random); SafeFromHere(e, attempts) <==> SettledAreRecorded(e, attempts)
  {
    var e := Fresh(total, n, kind, random);
    UnrecordedSign(e, attempts);
    forall more | DrawsOk(more) && RowsWritten(more)
      ensures SettledTotal(e, attempts + more)
           == Sum(Claims(Claims(e, attempts), more).claims) + UnrecordedTotal(e, attempts)
      ensures Sum(Claims(Claims(e, attempts), more).claims) <= total
    {
      SettledAccounted(e, attempts + more);
      RecordedAfterwards(e, attempts, more);
      PaidWithinTotal(e, attempts);
      PaidWithinTotal(Claims(e, attempts), more);
      TotalKept(e, attempts + more);
    }
    PaidWithinTotal(e, attempts);
    var more := Drained(Claims(e, attempts));
    TotalKept(e, attempts);
    TotalKept(Claims(e, attempts), more);
    assert SafeFromHere(e, attempts) ==> SettledTotal(e, attempts + more) <= e.total;
  }

  /**
   * The unsafe case is real: the one claim of an open envelope settles and its row write fails, so a second claimer
   * finds the envelope untouched and the whole total settles again.
   */
  lemma UnrecordedClaimRepeats(total: int, draw: real)
    requires total > 0
    ensures var lost := Attempt(true, true, draw, false, false); var e := Fresh(total, 1, OPEN, false);
      SettledTotal(e, [lost, PLAIN]) == 2 * total && Claims(e, [lost, PLAIN]).status == COMPLETED
  {
    var lost := Attempt(true, true, draw, false, false);
    var e := Fresh(total, 1, OPEN, false);
    assert [lost, PLAIN][..1] == [lost] && [lost][..0] == [];
    assert Claims(e, [lost]) == e;
    assert SettledTotal(e, [lost]) == total;
  }

  // ---- equal split ----------------------------------------------------------------------------------

  predicate Smooth(attempts: seq<Attempt>) {
    forall i :: 0 <= i < |attempts| ==>
      attempts[i].allowed && attempts[i].settles && attempts[i].rowWritten && attempts[i].envelopeWritten
  }

  function Copies(s: int, k: nat): seq<int> {
    seq(k, _ => s)
  }

  lemma {:induction false} SumCopies(s: int, k: nat)
    ensures Sum(Copies(s, k)) == k * s
  {
    if k > 0 {
      SumCopies(s, k - 1);
      assert Copies(s, k)[..k - 1] == Copies(s, k - 1);
      assert k * s == (k - 1) * s + s;
    }
  }

  /** A running equal split: only balance, claims and counters vary. */
  predicate Splitting(e: Envelope, total: int, n: int) {
    && e.total == total && e.recipients == n && e.kind == OPEN && !e.random && e.status == ACTIVE
    && n >= 1
  }

  function Shared(e: Envelope, s: int): Envelope {
    if Derived(e) > 0 then Recorded(e, Min(s, Derived(e))) else e
  }

  lemma EqualStep(e: Envelope, a: Attempt, total: int, n: int)
    requires Splitting(e, total, n) && Smooth([a]) && e.claimsLeft > 1
    ensures AfterClaim(e, a) == Shared(e, EqualShare(Fresh(total, n, OPEN, false)))
  {
    assert [a][0] == a;
  }

  /** What `k` claims of an equal split leave: equal shares so far, or nothing left and still ACTIVE. */
  ghost predicate AfterShares(e: Envelope, total: int, n: int, s: int, k: int) {
    && Splitting(e, total, n) && 0 <= k <= n && e.claimsLeft >= n - k
    && (k * s < total ==> e.claims == Copies(s, k) && e.claimsLeft == n - k && Sum(e.claims) == k * s)
    && (k * s >= total ==> Sum(e.claims) == total)
  }

  lemma EqualAdvance(e: Envelope, total: int, n: int, s: int, k: int)
    requires total > 0 && s >= 0 && AfterShares(e, total, n, s, k) && k + 1 < n
    ensures AfterShares(Shared(e, s), total, n, s, k + 1)
  {
    var ks, next := k * s, (k + 1) * s;
    assert next == ks + s;
    if ks < total {
      SumAppend(e.claims, Min(s, total - ks));
      assert Copies(s, k) + [s] == Copies(s, k + 1);
    }
  }

  lemma {:induction false} EqualPrefix(total: int, n: int, attempts: seq<Attempt>, s: int)
    requires total > 0 && n >= 1 && |attempts| < n && Smooth(attempts)
    requires s == EqualShare(Fresh(total, n, OPEN, false)) && s >= 0
    ensures AfterShares(Claims(Fresh(total, n, OPEN, false), attempts), total, n, s, |attempts|)
  {
    var k := |attempts|;
    if k == 0 {
      assert Copies(s, 0) == [];
    } else {
      EqualPrefix(total, n, attempts[..k - 1], s);
      assert Smooth([attempts[k - 1]]);
      var e := Claims(Fresh(total, n, OPEN, false), attempts[..k - 1]);
      EqualStep(e, attempts[k - 1], total, n);
      EqualAdvance(e, total, n, s, k - 1);
    }
  }

  lemma EqualShareNear(total: int, n: int)
    requires total > 0 && n >= 1
    ensures var s := EqualShare(Fresh(total, n, OPEN, false)); var avg := total as real / n as real;
      s >= 0 && -0.5 <= s as real - avg <= 0.5 && avg * n as real == total as real
  {
  }

  lemma HalfBound(m: real, d: real, x: real)
    requires m >= 0.0 && -0.5 <= d <= 0.5 && x == m * d
    ensures -(m / 2.0) <= x <= m / 2.0
  {
    var up, down := m * (0.5 - d), m * (d + 0.5);
    assert up >= 0.0 && down >= 0.0;
    assert up == m / 2.0 - x && down == x + m / 2.0;
  }

  /** The last claim misses the exact share by at most half a cent for each earlier claim. */
  lemma LastShareBound(total: int, n: int, s: int)
    requires total > 0 && n >= 1 && s == EqualShare(Fresh(total, n, OPEN, false))
    ensures var last := total - (n - 1) * s; var avg := total as real / n as real;
      -((n - 1) as real / 2.0) <= last as real - avg <= (n - 1) as real / 2.0
  {
    EqualShareNear(total, n);
    var avg := total as real / n as real;
    Residue(total, n, s, avg);
    LastNear((n - 1) as real, s as real, avg, (total - (n - 1) * s) as real);
  }

  lemma LastNear(m: real, s: real, avg: real, last: real)
    requires m >= 0.0 && -0.5 <= s - avg <= 0.5 && last - avg == m * (avg - s)
    ensures -(m / 2.0) <= last - avg <= m / 2.0
  {
    HalfBound(m, avg - s, last - avg);
  }

  lemma {:induction false} ProductAsReal(k: nat, s: int)
    ensures (k * s) as real == k as real * s as real
  {
    if k > 0 {
      ProductAsReal(k - 1, s);
      assert k * s == (k - 1) * s + s;
      assert k as real == (k - 1) as real + 1.0;
      Distribute((k - 1) as real, 1.0, s as real);
    }
  }

  lemma Distribute(a: real, b: real, c: real)
    ensures (a + b) * c == a * c + b * c && c * (a - b) == c * a - c * b
  {
  }

  lemma Residue(total: int, n: int, s: int, avg: real)
    requires n >= 1 && avg * n as real == total as real
    ensures (total - (n - 1) * s) as real - avg == (n - 1) as real * (avg - s as real)
  {
    var m, sr := (n - 1) as real, s as real;
    ProductAsReal(n - 1, s);
    assert n as real == m + 1.0;
    Distribute(m, 1.0, avg);
    Distribute(avg, sr, m);
    assert avg * n as real == (m + 1.0) * avg;
    assert m * avg + avg == total as real;
    assert (total - (n - 1) * s) as real == total as real - m * sr;
  }

  /** The last claim takes what is left, or is refused when nothing is. */
  lemma LastClaim(e: Envelope, a: Attempt, total: int, n: int, s: int)
    requires total > 0 && s >= 0 && AfterShares(e, total, n, s, n - 1) && Smooth([a])
    ensures (n - 1) * s < total ==> AfterClaim(e, a) == Recorded(e, total - (n - 1) * s)
    ensures (n - 1) * s >= total ==> AfterClaim(e, a) == e
  {
    assert [a][0] == a;
  }

  /**
   * `n` claims complete an equal split exactly when `n - 1` rounded shares leave something; then all but the last are
   * equal.
   */
  lemma EqualSplit(total: int, n: int, attempts: seq<Attempt>)
    requires total > 0 && n >= 1 && |attempts| == n && Smooth(attempts)
    ensures var e := Claims(Fresh(total, n, OPEN, false), attempts);
      var s := EqualShare(Fresh(total, n, OPEN, false));
      && (e.status == COMPLETED <==> (n - 1) * s < total)
      && ((n - 1) * s < total ==> e.claims == Copies(s, n - 1) + [total - (n - 1) * s])
      && ((n - 1) * s >= total ==> e.status == ACTIVE && e.claimsLeft >= 1 && Sum(e.claims) == total)
  {
    var s := EqualShare(Fresh(total, n, OPEN, false));
    EqualShareNear(total, n);
    EqualPrefix(total, n, attempts[..n - 1], s);
    assert Smooth([attempts[n - 1]]);
    LastClaim(Claims(Fresh(total, n, OPEN, false), attempts[..n - 1]), attempts[n - 1], total, n, s);
  }

  lemma TwoCentsForFour()
    ensures EqualShare(Fresh(2, 4, OPEN, false)) == 1
  {
    assert 2.0 / 4.0 == 0.5;
  }

  /**
   * The exhausted case is real: two cents for four people round up to one cent each, and four claims later the
   * envelope is paid out and still ACTIVE.
   */
  lemma EarlyExhaustion(attempts: seq<Attempt>)
    requires |attempts| == 4 && Smooth(attempts)
    ensures var e := Claims(Fresh(2, 4, OPEN, false), attempts);
      e.status == ACTIVE && e.claimsLeft >= 1 && Sum(e.claims) == 2
  {
    TwoCentsForFour();
    EqualSplit(2, 4, attempts);
  }

  // ---- the stored envelope --------------------------------------------------------------------------

  class RedEnvelope {
    const total: int
    const recipients: int
    const kind: Kind
    const random: bool
    var status: Status
    var remainingBalance: int
    var remainingClaims: int
    var claims: seq<int>

    ghost function View(): Envelope
      reads this
    {
      Envelope(total, recipients, kind, random, status, remainingBalance, remainingClaims, claims)
    }

    constructor (total: int, recipients: int, kind: Kind, random: bool)
      requires total > 0 && recipients >= 1
      ensures View() == Fresh(total, recipients, kind, random)
    {
      this.total, this.recipients, this.kind, this.random := total, recipients, kind, random;
      status, remainingBalance, remainingClaims, claims := ACTIVE, total, recipients, [];
    }

    /** The share never exceeds what is left, and the last claim takes all of it. */
    method ComputeShare(derived: int, draw: real) returns (amount: int)
      requires recipients >= 1 && derived == Derived(View())
      ensures amount == Share(View(), draw)
      ensures total > 0 && remainingClaims >= 0 && draw >= 0.0 ==> 0 <= amount <= derived
      ensures remainingClaims <= 1 || kind == CUSTOM ==> amount == derived
      ensures kind == OPEN && random && remainingClaims > 1 && 0.0 <= draw < 1.0 ==>
        LuckyShare(derived, remainingClaims, draw, amount)
    {
      if kind == OPEN && random && remainingClaims > 1 && 0.0 <= draw < 1.0 { RandomShare(View(), draw); }
      if total > 0 && remainingClaims >= 0 && draw >= 0.0 { ShareBounds(View(), draw); }
      amount := derived;
      if kind == OPEN && remainingClaims > 1 {
        if random {
          var avg := derived as real / remainingClaims as real;
          amount := RoundHalfUp(avg * (draw + 0.5));
          amount := Min(amount, derived);
        } else {
          amount := RoundHalfUp(total as real / recipients as real);
          amount := Min(amount, derived);
        }
      }
    }

    /** The two database writes of a claim; for an amount within the derived balance they keep the envelope sound. */
    method Record(amount: int, a: Attempt)
      modifies this
      ensures old(Payable(View(), amount)) ==> Inv(View())
      ensures !a.rowWritten ==> View() == old(View())
      ensures a.rowWritten && !a.envelopeWritten ==> View() == old(View()).(claims := old(claims) + [amount])
      ensures a.rowWritten && a.envelopeWritten ==> View() == Recorded(old(View()), amount)
    {
      ghost var e := View();
      if Payable(e, amount) {
        RecordedKeeps(e, amount);
        RowKeeps(e, amount);
      }
      var newBalance := Max(0, Max(0, total - Sum(claims)) - amount);
      var newClaims := Max(0, remainingClaims - 1);
      if a.rowWritten {
        claims := claims + [amount];
        if a.envelopeWritten {
          remainingBalance, remainingClaims := newBalance, newClaims;
          status := if newClaims == 0 then COMPLETED else ACTIVE;
        }
      }
    }

    /**
     * A refused claim changes nothing; an accepted one moves the amount from the derived balance to a new claim row.
     */
    method ClaimEnvelope(a: Attempt) returns (r: Result<int, Refusal>)
      requires recipients >= 1
      modifies this
      ensures View() == AfterClaim(old(View()), a)
      ensures r.Err? <==> Refused(old(View()), a).Some?
      ensures r == Err(NotActive) <==> old(status) != ACTIVE
      ensures r == Err(NothingLeft) <==>
        old(status) == ACTIVE && (old(remainingClaims) <= 0 || total <= Sum(old(claims)))
      ensures r == Err(NotRecipient) ==> kind == CUSTOM && !a.allowed
      ensures r.Ok? && kind == CUSTOM ==> a.allowed && r.value == total - Sum(old(claims))
      ensures r.Ok? && kind == OPEN && random && old(remainingClaims) > 1 && 0.0 <= a.draw < 1.0 ==>
        LuckyShare(total - Sum(old(claims)), old(remainingClaims), a.draw, r.value)
      ensures r.Ok? ==> a.settles
      ensures r.Ok? ==> r.value == Share(old(View()), a.draw)
    {
      var derived := Max(0, total - Sum(claims));
      if status != ACTIVE { return Err(NotActive); }
      if remainingClaims <= 0 || derived <= 0 { return Err(NothingLeft); }
      if kind == CUSTOM && !a.allowed { return Err(NotRecipient); }
      var amount := ComputeShare(derived, a.draw);
      if !a.settles { return Err(ChainFailed); }
      Record(amount, a);
      return Ok(amount);
    }
  }
}

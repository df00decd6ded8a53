/**
 * Public envelope claims: optimistic concurrency with `remainingClaims` as the version number.
 *
 * Amounts are whole cents. A claim reads the envelope, reads its own claim row, then commits one transaction:
 * the guarded update and the insert of the claim row. The insert commits even when the guard does not match,
 * so a claimer who loses the race keeps a claim row without being paid.
 */
module PublicEnvelopes {
  import opened Prelude

  function MinR(a: real, b: real): real { if a <= b then a else b }

  function MaxR(a: real, b: real): real { if a >= b then a else b }

  /** At least 50 cents and at most the balance, rounded to cents. */
  function Clamped(balance: int, point: real): (amount: int)
    requires balance > 0
    ensures 1 <= amount <= balance
  {
    RoundHalfUp(MinR(balance as real, MaxR(50.0, point)))
  }

  /** The average times a factor between 60% and 140%. */
  function Point(balance: int, claims: int, draw: real): real
    requires claims > 0
  {
    balance as real / claims as real * (draw * 0.8 + 0.6)
  }

  /** A share of 60% to 140% of the average, at least 50 cents, at most the balance, rounded to cents. */
  function ClaimAmount(balance: int, claims: int, draw: real): (amount: int)
    requires balance > 0 && claims > 0
    ensures 1 <= amount <= balance
  {
    Clamped(balance, Point(balance, claims, draw))
  }

  /**
   * What a share is, told without dividing. The point aimed at, times the number of claims, is the balance times a
   * factor between 0.6 and 1.4. A point of at most 50 cents gives 50 cents, or the balance if that is less; one that
   * is not below the balance gives the balance; any other is met within half a cent.
   */
  predicate FairShare(balance: int, claims: int, draw: real, amount: int) {
    Meets(Aim(balance, draw), balance, claims as real, amount)
  }

  function Aim(balance: int, draw: real): real {
    balance as real * (0.6 + 0.8 * draw)
  }

  predicate Meets(aim: real, balance: int, n: real, amount: int) {
    if aim <= 50.0 * n then amount == Min(50, balance)
    else if aim >= balance as real * n then amount == balance
    else aim - 0.5 * n <= amount as real * n <= aim + 0.5 * n
  }

  /** Rounding the clamped point. */
  lemma Rounded(balance: int, point: real)
    requires balance > 0
    ensures var amount := Clamped(balance, point);
      && (point <= 50.0 ==> amount == Min(50, balance))
      && (point > 50.0 && point >= balance as real ==> amount == balance)
      && (50.0 < point < balance as real ==> point - 0.5 <= amount as real <= point + 0.5)
  {
  }

  /** From a point to its multiple. */
  lemma FairByPoint(aim: real, balance: int, n: real, amount: int, point: real)
    requires n > 0.0 && point * n == aim
    requires point <= 50.0 ==> amount == Min(50, balance)
    requires point > 50.0 && point >= balance as real ==> amount == balance
    requires 50.0 < point < balance as real ==> point - 0.5 <= amount as real <= point + 0.5
    ensures Meets(aim, balance, n, amount)
  {
    CompareTimes(point, 50.0, n);
    CompareTimes(balance as real, point, n);
    if 50.0 < point < balance as real { NearTimes(point, amount as real, n, aim); }
  }

  lemma PointIsAimed(balance: int, claims: int, draw: real)
    requires claims > 0
    ensures Point(balance, claims, draw) * claims as real == Aim(balance, draw)
  {
    QuotientTimes(balance as real, claims as real, draw * 0.8 + 0.6);
  }

  lemma ShareIsFair(balance: int, claims: int, draw: real)
    requires balance > 0 && claims > 0
    ensures FairShare(balance, claims, draw, ClaimAmount(balance, claims, draw))
  {
    var point := Point(balance, claims, draw);
    PointIsAimed(balance, claims, draw);
    Rounded(balance, point);
    FairByPoint(Aim(balance, draw), balance, claims as real, Clamped(balance, point), point);
  }

  /** A share that meets an aim between 60% and 140% of the balance. */
  lemma MeetsRange(aim: real, balance: int, n: real, amount: int)
    requires n > 0.0 && balance > 0 && Meets(aim, balance, n, amount)
    requires 0.6 * balance as real <= aim <= 1.4 * balance as real
    ensures amount == balance || 0.6 * balance as real <= amount as real * n + 0.5 * n
    ensures amount == Min(50, balance) || amount as real * n - 0.5 * n <= 1.4 * balance as real
  {
    if aim <= 50.0 * n && balance > 50 { assert amount as real == 50.0; }
    if aim > 50.0 * n && aim >= balance as real * n { assert amount == balance; }
  }

  lemma AimRange(balance: int, draw: real)
    requires balance > 0 && 0.0 <= draw < 1.0
    ensures 0.6 * balance as real <= Aim(balance, draw) <= 1.4 * balance as real
  {
    var b := balance as real;
    TimesNonNegative(draw, b);
    TimesNonNegative(1.0 - draw, b);
    assert (1.0 - draw) * b == b - draw * b;
    assert Aim(balance, draw) == 0.8 * (draw * b) + 0.6 * b;
  }

  /** A share of any draw is 60% to 140% of the average, up to half a cent and the two limits. */
  lemma ShareRange(balance: int, claims: int, draw: real, amount: int)
    requires balance > 0 && claims > 0 && 0.0 <= draw < 1.0 && FairShare(balance, claims, draw, amount)
    ensures amount == balance || 0.6 * balance as real <= amount as real * claims as real + 0.5 * claims as real
    ensures amount == Min(50, balance)
      || amount as real * claims as real - 0.5 * claims as real <= 1.4 * balance as real
  {
    AimRange(balance, draw);
    MeetsRange(Aim(balance, draw), balance, claims as real, amount);
  }

  datatype Call =
    | Idle
    | Checking(claimer: string, balance: int, claims: int)
    | Committing(claimer: string, balance: int, claims: int)

  datatype Event =
    | ReadEnvelope(p: nat, claimer: string)
    | CheckClaim(p: nat)
    | Commit(p: nat, draw: real)
    | Crash(p: nat)

  datatype Payment = Payment(claimer: string, amount: int)

  /** `paid` lists the successful responses; `rows` is the claim table. */
  datatype State = State(
    balance: int,
    claims: int,
    completed: bool,
    rows: map<string, int>,
    paid: seq<Payment>,
    calls: map<nat, Call>)

  function Created(total: int, maxClaims: int): State {
    State(total, maxClaims, false, map[], [], map[])
  }

  function CallOf(s: State, p: nat): Call {
    if p in s.calls then s.calls[p] else Idle
  }

  function Goto(s: State, p: nat, c: Call): State {
    s.(calls := s.calls[p := c])
  }

  /** The transaction: a duplicate claim row rolls everything back, a stale version still inserts the row. */
  function Transact(s: State, claimer: string, balance: int, claims: int, amount: int): State {
    if claimer in s.rows then s
    else if s.claims != claims then s.(rows := s.rows[claimer := amount])
    else s.(balance := balance - amount, claims := claims - 1, completed := claims - 1 == 0,
            rows := s.rows[claimer := amount], paid := s.paid + [Payment(claimer, amount)])
  }

  function Apply(s: State, e: Event): State {
    match e
    case ReadEnvelope(p, claimer) =>
      if CallOf(s, p).Idle? && s.claims > 0 && s.balance > 0
      then Goto(s, p, Checking(claimer, s.balance, s.claims)) else s
    case CheckClaim(p) =>
      var c := CallOf(s, p);
      if !c.Checking? then s
      else Goto(s, p, if c.claimer in s.rows then Idle else Committing(c.claimer, c.balance, c.claims))
    case Commit(p, draw) =>
      var c := CallOf(s, p);
      if c.Committing? && c.balance > 0 && c.claims > 0
      then Goto(Transact(s, c.claimer, c.balance, c.claims, ClaimAmount(c.balance, c.claims, draw)), p, Idle) else s
    case Crash(p) => Goto(s, p, Idle)
  }

  function Run(s: State, es: seq<Event>): State {
    if es == [] then s else Apply(Run(s, es[..|es| - 1]), es[|es| - 1])
  }

  function PaidTotal(paid: seq<Payment>): int {
    if paid == [] then 0 else PaidTotal(paid[..|paid| - 1]) + paid[|paid| - 1].amount
  }

  lemma PaidSnoc(paid: seq<Payment>, x: Payment)
    ensures PaidTotal(paid + [x]) == PaidTotal(paid) + x.amount
  {
    assert (paid + [x])[..|paid|] == paid;
  }

  // ---- invariant ----------------------------------------------------------------------------------

  /** A snapshot carrying the current version carries the current balance: the version never repeats. */
  ghost predicate CallInv(s: State, c: Call) {
    !c.Idle? ==>
      && c.balance > 0 && c.claims > 0 && c.claims >= s.claims
      && (c.claims == s.claims ==> c.balance == s.balance)
  }

  ghost predicate PaidInv(s: State) {
    && (forall i :: 0 <= i < |s.paid| ==> s.paid[i].amount >= 1 && s.paid[i].claimer in s.rows)
    && (forall i :: 0 <= i < |s.paid| ==> s.rows[s.paid[i].claimer] == s.paid[i].amount)
    && (forall i, j :: 0 <= i < j < |s.paid| ==> s.paid[i].claimer != s.paid[j].claimer)
  }

  ghost predicate Inv(s: State, total: int, maxClaims: int) {
    && s.balance >= 0 && s.claims >= 0
    && PaidTotal(s.paid) + s.balance == total
    && |s.paid| + s.claims == maxClaims
    && (s.completed <==> s.claims == 0)
    && PaidInv(s)
    && forall p :: p in s.calls ==> CallInv(s, s.calls[p])
  }

  /** A payment to a claimer without a row. */
  lemma PaidAppended(s: State, t: State, claimer: string, amount: int)
    requires PaidInv(s) && claimer !in s.rows && amount >= 1
    requires t.paid == s.paid + [Payment(claimer, amount)] && t.rows == s.rows[claimer := amount]
    ensures PaidInv(t)
  {
  }

  /** A claim row without a payment. */
  lemma RowAdded(s: State, t: State, claimer: string, amount: int)
    requires PaidInv(s) && claimer !in s.rows
    requires t.paid == s.paid && t.rows == s.rows[claimer := amount]
    ensures PaidInv(t)
  {
  }

  lemma TransactKeeps(s: State, c: Call, amount: int, total: int, maxClaims: int)
    requires Inv(s, total, maxClaims) && c.Committing? && CallInv(s, c) && 1 <= amount <= c.balance
    ensures var t := Transact(s, c.claimer, c.balance, c.claims, amount);
      && Inv(t, total, maxClaims)
      && s.paid <= t.paid
      && forall x :: x in s.rows ==> x in t.rows && t.rows[x] == s.rows[x]
  {
    var t := Transact(s, c.claimer, c.balance, c.claims, amount);
    if c.claimer !in s.rows {
      if s.claims == c.claims {
        PaidSnoc(s.paid, Payment(c.claimer, amount));
        PaidAppended(s, t, c.claimer, amount);
      } else {
        RowAdded(s, t, c.claimer, amount);
      }
      SnapshotsKeep(s, t);
    }
  }

  /** Snapshots survive a step that counts the version down or leaves it and the balance alone. */
  lemma SnapshotsKeep(s: State, t: State)
    requires forall p :: p in s.calls ==> CallInv(s, s.calls[p])
    requires t.calls == s.calls && (t.claims < s.claims || (t.claims == s.claims && t.balance == s.balance))
    ensures forall p :: p in t.calls ==> CallInv(t, t.calls[p])
  {
    forall p | p in t.calls ensures CallInv(t, t.calls[p]) { assert CallInv(s, s.calls[p]); }
  }

  lemma GotoKeeps(s: State, p: nat, c: Call, total: int, maxClaims: int)
    requires Inv(s, total, maxClaims) && CallInv(s, c)
    ensures Inv(Goto(s, p, c), total, maxClaims)
  {
    var t := Goto(s, p, c);
    forall q | q in t.calls ensures CallInv(t, t.calls[q]) {
      if q != p { assert CallInv(s, s.calls[q]); }
    }
  }

  lemma ApplyKeeps(s: State, e: Event, total: int, maxClaims: int)
    requires Inv(s, total, maxClaims)
    ensures Inv(Apply(s, e), total, maxClaims)
    ensures s.paid <= Apply(s, e).paid
    ensures forall c :: c in s.rows ==> c in Apply(s, e).rows && Apply(s, e).rows[c] == s.rows[c]
  {
    var c := CallOf(s, e.p);
    assert CallInv(s, c);
    if e.Commit? {
      if c.Committing? {
        var amount := ClaimAmount(c.balance, c.claims, e.draw);
        TransactKeeps(s, c, amount, total, maxClaims);
        GotoKeeps(Transact(s, c.claimer, c.balance, c.claims, amount), e.p, Idle, total, maxClaims);
      }
    } else if Apply(s, e) != s {
      GotoKeeps(s, e.p, Apply(s, e).calls[e.p], total, maxClaims);
    }
  }

  lemma {:induction false} RunKeeps(s: State, es: seq<Event>, total: int, maxClaims: int)
    requires Inv(s, total, maxClaims)
    ensures Inv(Run(s, es), total, maxClaims)
    ensures s.paid <= Run(s, es).paid
    ensures forall c :: c in s.rows ==> c in Run(s, es).rows && Run(s, es).rows[c] == s.rows[c]
  {
    if es != [] {
      RunKeeps(s, es[..|es| - 1], total, maxClaims);
      ApplyKeeps(Run(s, es[..|es| - 1]), es[|es| - 1], total, maxClaims);
    }
  }

  // ---- theorems over every interleaving ------------------------------------------------------------

  /** Successful responses and the remainder always add up, and nobody is paid twice. */
  lemma Conservation(total: int, maxClaims: int, es: seq<Event>)
    requires total > 0 && maxClaims > 0
    ensures var s := Run(Created(total, maxClaims), es);
      && PaidTotal(s.paid) + s.balance == total && s.balance >= 0
      && |s.paid| + s.claims == maxClaims && s.claims >= 0
      && (s.completed <==> |s.paid| == maxClaims)
      && (forall i, j :: 0 <= i < j < |s.paid| ==> s.paid[i].claimer != s.paid[j].claimer)
  {
    RunKeeps(Created(total, maxClaims), es, total, maxClaims);
  }

  /** The step at `i` makes the payment number `j`. */
  ghost predicate PaysAt(s0: State, es: seq<Event>, i: nat, j: nat) {
    && i < |es| && es[i].Commit? && |Run(s0, es[..i]).paid| == j
    && |Apply(Run(s0, es[..i]), es[i]).paid| == j + 1
  }

  /** A commit that pays gives the share of the balance and the claims left at that moment. */
  lemma PaysFairly(s: State, e: Event, total: int, maxClaims: int)
    requires Inv(s, total, maxClaims) && Apply(s, e).paid != s.paid
    ensures e.Commit? && s.balance > 0 && s.claims > 0
    ensures var t := Apply(s, e);
      && |t.paid| == |s.paid| + 1 && t.paid[..|s.paid|] == s.paid
      && t.paid[|s.paid|].claimer == CallOf(s, e.p).claimer
      && FairShare(s.balance, s.claims, e.draw, t.paid[|s.paid|].amount)
  {
    var c := CallOf(s, e.p);
    assert CallInv(s, c);
    ShareIsFair(c.balance, c.claims, e.draw);
  }

  /** The amount is the share, by `draw`, of what `total` has left after the payments before it. */
  ghost predicate FairAfter(total: int, n: int, before: seq<Payment>, draw: real, amount: int) {
    FairShare(total - PaidTotal(before), n - |before|, draw, amount)
  }

  /** In terms of the payments before it. */
  lemma PaysShare(s: State, e: Event, total: int, maxClaims: int)
    requires Inv(s, total, maxClaims) && Apply(s, e).paid != s.paid
    ensures e.Commit? && |Apply(s, e).paid| == |s.paid| + 1
    ensures FairAfter(total, maxClaims, s.paid, e.draw, Apply(s, e).paid[|s.paid|].amount)
  {
    PaysFairly(s, e, total, maxClaims);
  }

  /** Every payment has its step, which found the payments before it. */
  lemma {:induction false} PaidBy(total: int, n: int, es: seq<Event>, j: nat) returns (i: nat)
    requires total > 0 && n > 0 && j < |Run(Created(total, n), es).paid|
    ensures var s0 := Created(total, n); var paid := Run(s0, es).paid;
      && PaysAt(s0, es, i, j) && Run(s0, es[..i]).paid == paid[..j]
      && Apply(Run(s0, es[..i]), es[i]).paid[j] == paid[j]
  {
    var s0 := Created(total, n);
    var before, e := es[..|es| - 1], es[|es| - 1];
    var s, t := Run(s0, before), Run(s0, es);
    RunKeeps(s0, before, total, n);
    if t.paid != s.paid { PaysFairly(s, e, total, n); }
    if j < |s.paid| {
      i := PaidBy(total, n, before, j);
      assert before[..i] == es[..i];
    } else {
      i := |es| - 1;
    }
  }

  /**
   * Over every run: payment number `j` is the share, by the draw of its own commit, of what the total has left after
   * the `j` payments before it, among the claims then left.
   */
  lemma PaidShares(total: int, n: int, es: seq<Event>, j: nat) returns (i: nat)
    requires total > 0 && n > 0 && j < |Run(Created(total, n), es).paid|
    ensures var paid := Run(Created(total, n), es).paid;
      && PaysAt(Created(total, n), es, i, j)
      && FairAfter(total, n, paid[..j], es[i].draw, paid[j].amount)
  {
    i := PaidBy(total, n, es, j);
    RunKeeps(Created(total, n), es[..i], total, n);
    PaysShare(Run(Created(total, n), es[..i]), es[i], total, n);
  }

  predicate WasPaid(s: State, claimer: string) {
    exists i :: 0 <= i < |s.paid| && s.paid[i].claimer == claimer
  }

  /** A claim row without a payment, left by a lost race, shuts its claimer out for good. */
  lemma {:induction false} LoserNeverPaid(total: int, maxClaims: int, s: State, es: seq<Event>, claimer: string)
    requires Inv(s, total, maxClaims) && claimer in s.rows && !WasPaid(s, claimer)
    ensures !WasPaid(Run(s, es), claimer)
  {
    if es != [] {
      var before := es[..|es| - 1];
      LoserNeverPaid(total, maxClaims, s, before, claimer);
      RunKeeps(s, before, total, maxClaims);
      LoserStays(Run(s, before), es[|es| - 1], claimer, total, maxClaims);
    }
  }

  lemma LoserStays(s: State, e: Event, claimer: string, total: int, maxClaims: int)
    requires Inv(s, total, maxClaims) && claimer in s.rows && !WasPaid(s, claimer)
    ensures claimer in Apply(s, e).rows && !WasPaid(Apply(s, e), claimer)
  {
    ApplyKeeps(s, e, total, maxClaims);
    var t := Apply(s, e);
    forall i | 0 <= i < |t.paid| ensures t.paid[i].claimer != claimer {
      if i < |s.paid| { assert t.paid[i] == s.paid[i]; }
    }
  }

  /** A call about to commit for a claimer without a row. */
  predicate Commits(s: State, e: Event, claimer: string) {
    e.Commit? && CallOf(s, e.p).Committing? && CallOf(s, e.p).claimer == claimer && claimer !in s.rows
  }

  /** The commit's snapshot is older than the last payment, so its guarded update matches nothing. */
  predicate LosesRace(s: State, e: Event, claimer: string) {
    Commits(s, e, claimer) && CallOf(s, e.p).claims != s.claims
  }

  /**
   * A commit always writes the claim row; it pays exactly when no payment was committed since its envelope was read.
   */
  lemma PaidExactlyWhenFresh(s: State, e: Event, claimer: string, total: int, maxClaims: int)
    requires Inv(s, total, maxClaims) && Commits(s, e, claimer)
    ensures claimer in Apply(s, e).rows
    ensures WasPaid(Apply(s, e), claimer) <==> |s.paid| == maxClaims - CallOf(s, e.p).claims
    ensures LosesRace(s, e, claimer) <==> !WasPaid(Apply(s, e), claimer)
  {
    var t := Apply(s, e);
    var c := CallOf(s, e.p);
    assert CallInv(s, c);
    if c.claims == s.claims {
      assert t.paid[|s.paid|].claimer == claimer;
    } else {
      assert t.paid == s.paid;
    }
  }

  predicate NotBy(es: seq<Event>, p: nat) {
    forall i :: 0 <= i < |es| ==> es[i].p != p
  }

  /** Other calls leave a call's own snapshot alone. */
  lemma {:induction false} SnapshotKept(s: State, es: seq<Event>, p: nat)
    requires NotBy(es, p)
    ensures CallOf(Run(s, es), p) == CallOf(s, p)
  {
    if es != [] { SnapshotKept(s, es[..|es| - 1], p); }
  }

  /** A whole claim, from its read to its commit, with any run `a` and `b` of other calls in between. */
  function ClaimRun(s: State, p: nat, claimer: string, a: seq<Event>, b: seq<Event>): State {
    Run(Apply(Run(Apply(s, ReadEnvelope(p, claimer)), a), CheckClaim(p)), b)
  }

  /**
   * Over a whole claim: it commits with a row, and is paid exactly when nobody else was paid between its read and its
   * commit.
   */
  lemma PaidExactlyWhenAlone(s: State, p: nat, claimer: string, a: seq<Event>, b: seq<Event>, draw: real,
                             total: int, maxClaims: int)
    requires Inv(s, total, maxClaims) && CallOf(s, p).Idle? && s.claims > 0 && s.balance > 0
    requires NotBy(a, p) && NotBy(b, p) && claimer !in ClaimRun(s, p, claimer, a, b).rows
    ensures var t := ClaimRun(s, p, claimer, a, b);
      && s.paid <= t.paid
      && claimer in Apply(t, Commit(p, draw)).rows
      && (WasPaid(Apply(t, Commit(p, draw)), claimer) <==> t.paid == s.paid)
  {
    var s1 := Apply(s, ReadEnvelope(p, claimer));
    ApplyKeeps(s, ReadEnvelope(p, claimer), total, maxClaims);
    RunKeeps(s1, a, total, maxClaims);
    SnapshotKept(s1, a, p);
    var s2 := Run(s1, a);
    ApplyKeeps(s2, CheckClaim(p), total, maxClaims);
    var s3 := Apply(s2, CheckClaim(p));
    RunKeeps(s3, b, total, maxClaims);
    SnapshotKept(s3, b, p);
    assert claimer !in s2.rows;
    PaidExactlyWhenFresh(Run(s3, b), Commit(p, draw), claimer, total, maxClaims);
  }

  /** A row without a payment. */
  predicate Loser(s: State, claimer: string) {
    claimer in s.rows && !WasPaid(s, claimer)
  }

  /** A step makes a loser exactly when it is a commit that lost its race. */
  lemma LoserArises(s: State, e: Event, claimer: string, total: int, maxClaims: int)
    requires Inv(s, total, maxClaims) && !Loser(s, claimer)
    ensures Loser(Apply(s, e), claimer) <==> LosesRace(s, e, claimer)
  {
    var t := Apply(s, e);
    ApplyKeeps(s, e, total, maxClaims);
    if Commits(s, e, claimer) {
      PaidExactlyWhenFresh(s, e, claimer, total, maxClaims);
    } else if WasPaid(s, claimer) {
      var i :| 0 <= i < |s.paid| && s.paid[i].claimer == claimer;
      assert t.paid[i] == s.paid[i];
    }
  }

  lemma LoserStep(s: State, e: Event, claimer: string, total: int, maxClaims: int)
    requires Inv(s, total, maxClaims)
    ensures Loser(Apply(s, e), claimer) <==> Loser(s, claimer) || LosesRace(s, e, claimer)
  {
    if Loser(s, claimer) {
      LoserStays(s, e, claimer, total, maxClaims);
    } else {
      LoserArises(s, e, claimer, total, maxClaims);
    }
  }

  ghost predicate LostAt(s0: State, es: seq<Event>, i: nat, claimer: string) {
    i < |es| && LosesRace(Run(s0, es[..i]), es[i], claimer)
  }

  lemma {:induction false} LoserHasCause(s0: State, es: seq<Event>, claimer: string, total: int, maxClaims: int)
    returns (i: nat)
    requires Inv(s0, total, maxClaims) && !Loser(s0, claimer) && Loser(Run(s0, es), claimer)
    ensures LostAt(s0, es, i, claimer)
  {
    i := |es| - 1;
    var before := es[..i];
    RunKeeps(s0, before, total, maxClaims);
    LoserStep(Run(s0, before), es[i], claimer, total, maxClaims);
    if Loser(Run(s0, before), claimer) {
      i := LoserHasCause(s0, before, claimer, total, maxClaims);
      assert before[..i] == es[..i];
    }
  }

  /** A lost commit makes a loser, whatever comes after it. */
  lemma LostThenLoser(s: State, e: Event, rest: seq<Event>, claimer: string, total: int, maxClaims: int)
    requires Inv(s, total, maxClaims) && LosesRace(s, e, claimer)
    ensures Loser(Run(Apply(s, e), rest), claimer)
  {
    LoserStep(s, e, claimer, total, maxClaims);
    ApplyKeeps(s, e, total, maxClaims);
    LoserNeverPaid(total, maxClaims, Apply(s, e), rest, claimer);
    RunKeeps(Apply(s, e), rest, total, maxClaims);
  }

  /** A run goes up to event `i`, through it, and on. */
  lemma {:induction false} RunAround(s: State, es: seq<Event>, i: nat)
    requires i < |es|
    ensures Run(s, es) == Run(Apply(Run(s, es[..i]), es[i]), es[i + 1..])
  {
    var before, rest := es[..|es| - 1], es[i + 1..];
    if rest != [] {
      RunAround(s, before, i);
      assert before[..i] == es[..i] && before[i + 1..] == rest[..|rest| - 1];
    }
  }

  lemma LostStaysLost(s0: State, es: seq<Event>, i: nat, claimer: string, total: int, maxClaims: int)
    requires Inv(s0, total, maxClaims) && LostAt(s0, es, i, claimer)
    ensures Loser(Run(s0, es), claimer)
  {
    var s := Run(s0, es[..i]);
    assert Inv(s, total, maxClaims) by { RunKeeps(s0, es[..i], total, maxClaims); }
    LostThenLoser(s, es[i], es[i + 1..], claimer, total, maxClaims);
    RunAround(s0, es, i);
  }

  /** Over every run: a claim row is not a payment if and only if its commit lost a race. */
  lemma LosersExactly(total: int, n: int, es: seq<Event>, claimer: string)
    requires total > 0 && n > 0
    ensures var s0 := Created(total, n);
      Loser(Run(s0, es), claimer) <==> exists i :: LostAt(s0, es, i, claimer)
  {
    var s0 := Created(total, n);
    if Loser(Run(s0, es), claimer) {
      var i := LoserHasCause(s0, es, claimer, total, n);
    }
    if exists i :: LostAt(s0, es, i, claimer) {
      var i: nat :| LostAt(s0, es, i, claimer);
      LostStaysLost(s0, es, i, claimer, total, n);
    }
  }

  lemma RunSnoc(s: State, es: seq<Event>, e: Event)
    ensures Run(s, es + [e]) == Apply(Run(s, es), e)
  {
    assert (es + [e])[..|es|] == es;
  }

  // ---- completion ---------------------------------------------------------------------------------

  /**
   * A last share of 60% to 140% of the balance covers it: the balance is small, or the draw misses it by at most half
   * a cent.
   */
  predicate TakesAll(balance: int, draw: real) {
    balance <= 50 || balance as real * (0.4 - draw * 0.8) <= 0.5
  }

  lemma LastShareTakesAll(balance: int, draw: real)
    requires balance > 0
    ensures ClaimAmount(balance, 1, draw) == balance <==> TakesAll(balance, draw)
  {
    var b := balance as real;
    assert b / 1.0 * (draw * 0.8 + 0.6) == b - b * (0.4 - draw * 0.8);
    var x := MinR(b, MaxR(50.0, b - b * (0.4 - draw * 0.8)));
    assert ClaimAmount(balance, 1, draw) == RoundHalfUp(x);
  }

  /** The commit that pays the last claim. */
  predicate PaysLast(s: State, e: Event) {
    && e.Commit? && CallOf(s, e.p).Committing? && CallOf(s, e.p).claimer !in s.rows
    && CallOf(s, e.p).claims == s.claims == 1
  }

  /** Completion comes with the last payment, which leaves nothing exactly when it takes all. */
  lemma CompletionStep(s: State, e: Event, total: int, maxClaims: int)
    requires Inv(s, total, maxClaims)
    ensures Apply(s, e).completed <==> s.completed || PaysLast(s, e)
    ensures PaysLast(s, e) ==> (Apply(s, e).balance == 0 <==> TakesAll(s.balance, e.draw))
    ensures s.completed ==> Apply(s, e).balance == s.balance
  {
    var c := CallOf(s, e.p);
    assert CallInv(s, c);
    if PaysLast(s, e) { LastShareTakesAll(s.balance, e.draw); }
  }

  ghost predicate PaysLastAt(s0: State, es: seq<Event>, i: nat) {
    i < |es| && PaysLast(Run(s0, es[..i]), es[i])
  }

  /**
   * Over every run: a completed envelope paid its whole total if and only if its last payment took all that was left.
   */
  lemma {:induction false} CompletionExactly(total: int, n: int, es: seq<Event>) returns (i: nat)
    requires total > 0 && n > 0 && Run(Created(total, n), es).completed
    ensures var s0 := Created(total, n); var s := Run(s0, es);
      && PaysLastAt(s0, es, i)
      && (PaidTotal(s.paid) == total <==> TakesAll(Run(s0, es[..i]).balance, es[i].draw))
  {
    var s0 := Created(total, n);
    RunKeeps(s0, es, total, n);
    var before := es[..|es| - 1];
    RunKeeps(s0, before, total, n);
    CompletionStep(Run(s0, before), es[|es| - 1], total, n);
    if Run(s0, before).completed {
      RunKeeps(s0, before, total, n);
      i := CompletionExactly(total, n, before);
      assert before[..i] == es[..i];
    } else {
      i := |es| - 1;
    }
  }

  /** An envelope paid out with claims left is never completed: no later run pays anything. */
  lemma {:induction false} ExhaustedNeverCompletes(s: State, es: seq<Event>, total: int, maxClaims: int)
    requires Inv(s, total, maxClaims) && s.balance == 0 && s.claims > 0
    ensures var t := Run(s, es); t.paid == s.paid && t.balance == 0 && t.claims == s.claims && !t.completed
  {
    if es != [] {
      var before := es[..|es| - 1];
      ExhaustedNeverCompletes(s, before, total, maxClaims);
      RunKeeps(s, before, total, maxClaims);
      assert CallInv(Run(s, before), CallOf(Run(s, before), es[|es| - 1].p));
    }
  }

  /** One claim alone, up to its commit. */
  function OneClaim(): seq<Event> {
    [ReadEnvelope(0, "a"), CheckClaim(0)]
  }

  lemma OneClaimState(total: int)
    requires total > 0
    ensures Run(Created(total, 1), OneClaim()) == Goto(Created(total, 1), 0, Committing("a", total, 1))
  {
    var s0 := Created(total, 1);
    RunSnoc(s0, [], ReadEnvelope(0, "a"));
    RunSnoc(s0, [ReadEnvelope(0, "a")], CheckClaim(0));
    assert [] + [ReadEnvelope(0, "a")] == [ReadEnvelope(0, "a")];
    assert OneClaim() == [ReadEnvelope(0, "a")] + [CheckClaim(0)];
  }

  /**
   * Both kinds of completion are real: an envelope for one claim is completed by it, and keeps a remainder exactly
   * when the share does not take all, for example one dollar with the lowest draw.
   */
  lemma CompletedWithRemainder(total: int, draw: real)
    requires total > 0
    ensures var s := Run(Created(total, 1), OneClaim() + [Commit(0, draw)]);
      s.completed && (s.balance > 0 <==> !TakesAll(total, draw))
    ensures !TakesAll(100, 0.0)
  {
    var s0 := Created(total, 1);
    RunKeeps(s0, OneClaim(), total, 1);
    OneClaimState(total);
    LastPaymentLeaves(Run(s0, OneClaim()), 0, draw, total);
    RunSnoc(s0, OneClaim(), Commit(0, draw));
  }

  lemma LastPaymentLeaves(s: State, p: nat, draw: real, total: int)
    requires Inv(s, total, 1) && s.balance == total && PaysLast(s, Commit(p, draw))
    ensures var t := Apply(s, Commit(p, draw)); t.completed && (t.balance > 0 <==> !TakesAll(total, draw))
  {
    CompletionStep(s, Commit(p, draw), total, 1);
    ApplyKeeps(s, Commit(p, draw), total, 1);
  }

  /** The race is real: two claimers read the same version, and the second keeps a row without a payment. */
  lemma LoserExists()
    ensures exists es :: var s := Run(Created(1000, 2), es); "b" in s.rows && !WasPaid(s, "b")
  {
    var s0 := Created(1000, 2);
    var a := [] + [ReadEnvelope(0, "a")];
    var b := a + [ReadEnvelope(1, "b")];
    var c := b + [CheckClaim(0)];
    var d := c + [CheckClaim(1)];
    var e := d + [Commit(0, 0.5)];
    var f := e + [Commit(1, 0.5)];
    RunSnoc(s0, [], ReadEnvelope(0, "a"));
    RunSnoc(s0, a, ReadEnvelope(1, "b"));
    RunSnoc(s0, b, CheckClaim(0));
    RunSnoc(s0, c, CheckClaim(1));
    assert Run(s0, d).calls == map[0 := Committing("a", 1000, 2), 1 := Committing("b", 1000, 2)];
    RunSnoc(s0, d, Commit(0, 0.5));
    assert Run(s0, e).paid == [Payment("a", ClaimAmount(1000, 2, 0.5))] && Run(s0, e).claims == 1;
    RunSnoc(s0, e, Commit(1, 0.5));
    assert "b" in Run(s0, f).rows && Run(s0, f).paid == Run(s0, e).paid;
  }

  // ---- one claim without interference ---------------------------------------------------------------

  datatype ClaimError = FullyClaimed | AlreadyClaimed

  class PublicEnvelope {
    const totalAmount: int
    const maxClaims: int
    var remainingBalance: int
    var remainingClaims: int
    var completed: bool
    var claims: map<string, int>
    ghost var paid: seq<Payment>

    ghost function View(): State
      reads this
    {
      State(remainingBalance, remainingClaims, completed, claims, paid, map[])
    }

    ghost predicate Valid()
      reads this
    {
      Inv(View(), totalAmount, maxClaims)
    }

    constructor (total: int, n: int)
      requires total > 0 && n >= 1
      ensures Valid() && totalAmount == total && maxClaims == n && View() == Created(total, n)
    {
      totalAmount, maxClaims := total, n;
      remainingBalance, remainingClaims, completed := total, n, false;
      claims, paid := map[], [];
    }

    /**
     * Refuses an amount that is not positive; a missing or zero claim count means 100, and counts are kept within 1
     * to 1000.
     */
    static method CreatePublicEnvelope(total: int, max: int) returns (env: PublicEnvelope?)
      ensures env == null <==> total <= 0
      ensures env != null ==> fresh(env) && env.Valid() && env.View() == Created(total, env.maxClaims)
      ensures env != null ==> 1 <= env.maxClaims <= 1000 && env.totalAmount == total
      ensures env != null && 1 <= max <= 1000 ==> env.maxClaims == max
      ensures env != null && max == 0 ==> env.maxClaims == 100
      ensures env != null && max < 0 ==> env.maxClaims == 1
      ensures env != null && max > 1000 ==> env.maxClaims == 1000
    {
      if total <= 0 { return null; }
      var wanted := if max == 0 then 100 else max;
      env := new PublicEnvelope(total, if wanted < 1 then 1 else if wanted > 1000 then 1000 else wanted);
    }

    /** Without a rival the guard matches, so an admitted claim is always paid. */
    method ClaimPublicEnvelope(claimer: string, draw: real) returns (r: Result<int, ClaimError>)
      requires Valid()
      modifies this
      ensures Valid()
      ensures r.Err? ==> View() == old(View())
      ensures r == Err(FullyClaimed) <==> old(remainingClaims) <= 0 || old(remainingBalance) <= 0
      ensures r == Err(AlreadyClaimed) <==>
        old(remainingClaims) > 0 && old(remainingBalance) > 0 && claimer in old(claims)
      ensures r.Ok? ==>
        remainingBalance == old(remainingBalance) - r.value && remainingClaims == old(remainingClaims) - 1
      ensures r.Ok? ==> FairShare(old(remainingBalance), old(remainingClaims), draw, r.value)
      ensures r.Ok? ==> paid == old(paid) + [Payment(claimer, r.value)] && claims == old(claims)[claimer := r.value]
    {
      if remainingClaims <= 0 || remainingBalance <= 0 { return Err(FullyClaimed); }
      if claimer in claims { return Err(AlreadyClaimed); }
      var amount := ClaimAmount(remainingBalance, remainingClaims, draw);
      ShareIsFair(remainingBalance, remainingClaims, draw);
      Pay(claimer, amount);
      return Ok(amount);
    }

    /** The transaction, its guard being met. */
    method Pay(claimer: string, amount: int)
      requires Valid() && claimer !in claims && remainingClaims > 0 && 1 <= amount <= remainingBalance
      modifies this
      ensures Valid()
      ensures View() == Transact(old(View()), claimer, old(remainingBalance), old(remainingClaims), amount)
    {
      ghost var t := Transact(View(), claimer, remainingBalance, remainingClaims, amount);
      TransactKeeps(View(), Committing(claimer, remainingBalance, remainingClaims), amount, totalAmount, maxClaims);
      remainingBalance := if remainingBalance - amount > 0 then remainingBalance - amount else 0;
      remainingClaims := remainingClaims - 1;
      completed := remainingClaims == 0;
      claims := claims[claimer := amount];
      paid := paid + [Payment(claimer, amount)];
      assert View() == t;
    }
  }
}

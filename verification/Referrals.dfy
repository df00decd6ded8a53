/**
 * The referral reward ladder: conditional updates on the referral row act as locks in front of a points ledger.
 *
 * Every database statement is one event; any number of calls interleave and may stop after any statement.
 * `owed` is a history variable: the rewards whose conditional update was won and whose ledger row is not written.
 */
module ReferralLadder {
  import opened Prelude

  datatype Milestone = WalletCreated | FirstSend | RetainedD7

  const REFEREE_WELCOME := 100
  const MIN_QUALIFYING_SEND_CENTS := 500

  function Reward(m: Milestone): int {
    match m case WalletCreated => 25 case FirstSend => 25 case RetainedD7 => 50
  }

  datatype Referral = Referral(
    referrer: string,
    walletCreated: bool,
    firstSendCompleted: bool,
    depositRetainedD7: bool,
    points: int)

  predicate Has(row: Referral, m: Milestone) {
    match m
    case WalletCreated => row.walletCreated
    case FirstSend => row.firstSendCompleted
    case RetainedD7 => row.depositRetainedD7
  }

  /** The data of the conditional update: set the flag and increment the points. */
  function Mark(row: Referral, m: Milestone): Referral {
    var paid := row.(points := row.points + Reward(m));
    match m
    case WalletCreated => paid.(walletCreated := true)
    case FirstSend => paid.(firstSendCompleted := true)
    case RetainedD7 => paid.(depositRetainedD7 := true)
  }

  datatype Reason = Milestone(m: Milestone) | SignupBonus

  /** A ledger row; `referee` says which referral it was paid for. */
  datatype Entry = Entry(user: string, points: int, reason: Reason, referee: string)

  datatype Call =
    | Idle
    | Reading(m: Milestone, referee: string, nested: bool)
    | Updating(m: Milestone, referee: string, nested: bool)
    | Paying(m: Milestone, referee: string, nested: bool)

  datatype Event =
    | Register(referee: string, referrer: string)
    | StartWallet(p: nat, referee: string)
    | StartFirstSend(p: nat, referee: string, cents: int)
    | StartCron(p: nat, referee: string)
    | StartDirectD7(p: nat, referee: string)
    | Step(p: nat)
    | Crash(p: nat)

  datatype State = State(
    refs: map<string, Referral>,
    order: seq<string>,
    ledger: seq<Entry>,
    calls: map<nat, Call>,
    owed: set<(string, Milestone)>)

  const Init := State(map[], [], [], map[], {})

  function CallOf(s: State, p: nat): Call {
    if p in s.calls then s.calls[p] else Idle
  }

  function Goto(s: State, p: nat, c: Call): State {
    s.(calls := s.calls[p := c])
  }

  /** `markFirstSend` continues after its nested `markWalletCreated` returned, whatever that returned. */
  function After(nested: bool, referee: string): Call {
    if nested then Updating(FirstSend, referee, false) else Idle
  }

  function Read(s: State, p: nat, m: Milestone, r: string, nested: bool): State {
    if r !in s.refs || Has(s.refs[r], m) then Goto(s, p, After(nested, r))
    else if m == FirstSend && !s.refs[r].walletCreated then Goto(s, p, Reading(WalletCreated, r, true))
    else Goto(s, p, Updating(m, r, nested))
  }

  function Update(s: State, p: nat, m: Milestone, r: string, nested: bool): State {
    if r !in s.refs || Has(s.refs[r], m) then Goto(s, p, After(nested, r))
    else Goto(s.(refs := s.refs[r := Mark(s.refs[r], m)], owed := s.owed + {(r, m)}), p, Paying(m, r, nested))
  }

  /** The rows one milestone writes, in one transaction. */
  function Rows(row: Referral, m: Milestone, r: string): seq<Entry> {
    [Entry(row.referrer, Reward(m), Milestone(m), r)]
    + if m == WalletCreated then [Entry(r, REFEREE_WELCOME, SignupBonus, r)] else []
  }

  function Pay(s: State, p: nat, m: Milestone, r: string, nested: bool): State {
    if r !in s.refs then Goto(s, p, Idle)
    else Goto(s.(ledger := s.ledger + Rows(s.refs[r], m, r), owed := s.owed - {(r, m)}), p, After(nested, r))
  }

  function Apply(s: State, e: Event): State {
    match e
    case Register(referee, referrer) =>
      if referee in s.refs || referee == referrer then s
      else s.(refs := s.refs[referee := Referral(referrer, false, false, false, 0)], order := s.order + [referee])
    case StartWallet(p, r) => if CallOf(s, p).Idle? then Goto(s, p, Reading(WalletCreated, r, false)) else s
    case StartFirstSend(p, r, cents) =>
      if CallOf(s, p).Idle? && cents >= MIN_QUALIFYING_SEND_CENTS then Goto(s, p, Reading(FirstSend, r, false)) else s
    case StartCron(p, r) =>
      if CallOf(s, p).Idle? && r in s.refs && !s.refs[r].depositRetainedD7 && s.refs[r].walletCreated
      then Goto(s, p, Reading(RetainedD7, r, false)) else s
    case StartDirectD7(p, r) => if CallOf(s, p).Idle? then Goto(s, p, Reading(RetainedD7, r, false)) else s
    case Step(p) =>
      (match CallOf(s, p)
       case Idle => s
       case Reading(m, r, nested) => Read(s, p, m, r, nested)
       case Updating(m, r, nested) => Update(s, p, m, r, nested)
       case Paying(m, r, nested) => Pay(s, p, m, r, nested))
    case Crash(p) => Goto(s, p, Idle)
  }

  function Run(es: seq<Event>): State {
    if es == [] then Init else Apply(Run(es[..|es| - 1]), es[|es| - 1])
  }

  // ---- counting -----------------------------------------------------------------------------------

  /** Number of referrer rows paid for milestone `m` of referral `r`. */
  function Count(ledger: seq<Entry>, r: string, m: Milestone): nat {
    if ledger == [] then 0
    else Count(ledger[..|ledger| - 1], r, m)
         + if ledger[|ledger| - 1].referee == r && ledger[|ledger| - 1].reason == Milestone(m) then 1 else 0
  }

  /** Referrer points paid for referral `r`. */
  function PaidFor(ledger: seq<Entry>, r: string): int {
    if ledger == [] then 0
    else var e := ledger[|ledger| - 1];
      PaidFor(ledger[..|ledger| - 1], r) + if e.referee == r && e.reason.Milestone? then e.points else 0
  }

  /** Milestone points credited to user `u`. */
  function PaidTo(ledger: seq<Entry>, u: string): int {
    if ledger == [] then 0
    else var e := ledger[|ledger| - 1];
      PaidTo(ledger[..|ledger| - 1], u) + if e.user == u && e.reason.Milestone? then e.points else 0
  }

  lemma CountSnoc(ledger: seq<Entry>, e: Entry, r: string, m: Milestone)
    ensures Count(ledger + [e], r, m)
         == Count(ledger, r, m) + if e.referee == r && e.reason == Milestone(m) then 1 else 0
  {
    assert (ledger + [e])[..|ledger|] == ledger;
  }

  lemma CountRows(ledger: seq<Entry>, row: Referral, m: Milestone, r: string, r': string, m': Milestone)
    ensures Count(ledger + Rows(row, m, r), r', m') == Count(ledger, r', m') + if r' == r && m' == m then 1 else 0
  {
    var a := Entry(row.referrer, Reward(m), Milestone(m), r);
    var b := Entry(r, REFEREE_WELCOME, SignupBonus, r);
    CountSnoc(ledger, a, r', m');
    if m == WalletCreated {
      assert ledger + Rows(row, m, r) == (ledger + [a]) + [b];
      CountSnoc(ledger + [a], b, r', m');
    } else {
      assert ledger + Rows(row, m, r) == ledger + [a];
    }
  }

  // ---- invariant ----------------------------------------------------------------------------------

  function Earned(row: Referral): int {
    (if row.walletCreated then 25 else 0) + (if row.firstSendCompleted then 25 else 0)
    + if row.depositRetainedD7 then 50 else 0
  }

  ghost predicate RowInv(row: Referral) {
    row.points == Earned(row) && (row.firstSendCompleted ==> row.walletCreated)
  }

  ghost predicate CallInv(s: State, c: Call) {
    && (c.Reading? && c.nested ==> c.m == WalletCreated && c.referee in s.refs)
    && (c.Updating? ==>
          && c.referee in s.refs && (c.nested ==> c.m == WalletCreated)
          && (c.m == FirstSend ==> s.refs[c.referee].walletCreated))
    && (c.Paying? ==>
          && c.referee in s.refs && (c.nested ==> c.m == WalletCreated)
          && (c.referee, c.m) in s.owed)
  }

  /** Each flag was paid exactly once or is still owed, and an unset flag was neither. */
  ghost predicate PaidOrOwed(s: State, r: string, m: Milestone) {
    && Count(s.ledger, r, m) <= 1
    && (r in s.refs && Has(s.refs[r], m) <==> Count(s.ledger, r, m) == 1 || (r, m) in s.owed)
    && (Count(s.ledger, r, m) == 1 ==> (r, m) !in s.owed)
  }

  ghost predicate EntryInv(s: State, e: Entry) {
    e.reason.Milestone? ==>
      e.referee in s.refs && e.user == s.refs[e.referee].referrer && e.points == Reward(e.reason.m)
  }

  ghost predicate Inv(s: State) {
    && Distinct(s.order) && (forall r :: r in s.order <==> r in s.refs)
    && (forall r :: r in s.refs ==> RowInv(s.refs[r]))
    && (forall p :: p in s.calls ==> CallInv(s, s.calls[p]))
    && (forall p, q :: p in s.calls && q in s.calls && s.calls[p].Paying? && s.calls[q].Paying? && p != q
          ==> (s.calls[p].referee, s.calls[p].m) != (s.calls[q].referee, s.calls[q].m))
    && (forall r, m :: PaidOrOwed(s, r, m))
    && (forall i :: 0 <= i < |s.ledger| ==> EntryInv(s, s.ledger[i]))
  }

  lemma RegisterKeeps(s: State, referee: string, referrer: string)
    requires Inv(s) && referee !in s.refs
    ensures Inv(s.(refs := s.refs[referee := Referral(referrer, false, false, false, 0)], order := s.order + [referee]))
  {
    var t := s.(refs := s.refs[referee := Referral(referrer, false, false, false, 0)], order := s.order + [referee]);
    forall p | p in t.calls ensures CallInv(t, t.calls[p]) { assert CallInv(s, s.calls[p]); }
    forall r, m ensures PaidOrOwed(t, r, m) { assert PaidOrOwed(s, r, m); }
    forall i | 0 <= i < |t.ledger| ensures EntryInv(t, t.ledger[i]) { assert EntryInv(s, s.ledger[i]); }
  }

  /** Moving a call that is not about to pay. */
  lemma GotoKeeps(s: State, p: nat, c: Call)
    requires Inv(s) && CallInv(s, c) && !c.Paying?
    ensures Inv(Goto(s, p, c))
  {
    var t := Goto(s, p, c);
    forall q | q in t.calls ensures CallInv(t, t.calls[q]) {
      if q != p { assert CallInv(s, s.calls[q]); }
    }
    forall r, m ensures PaidOrOwed(t, r, m) { assert PaidOrOwed(s, r, m); }
    forall i | 0 <= i < |t.ledger| ensures EntryInv(t, t.ledger[i]) { assert EntryInv(s, s.ledger[i]); }
  }

  /** Winning the conditional update sets one flag and makes one reward owed to this call alone. */
  lemma UpdateKeeps(s: State, p: nat, m: Milestone, r: string, nested: bool)
    requires Inv(s) && CallOf(s, p) == Updating(m, r, nested)
    ensures Inv(Update(s, p, m, r, nested))
  {
    var t := Update(s, p, m, r, nested);
    assert CallInv(s, CallOf(s, p));
    if Has(s.refs[r], m) {
      GotoKeeps(s, p, After(nested, r));
    } else {
      assert PaidOrOwed(s, r, m);
      assert RowInv(s.refs[r]);
      forall q | q in t.calls ensures CallInv(t, t.calls[q]) {
        if q != p { assert CallInv(s, s.calls[q]); }
      }
      forall r', m' ensures PaidOrOwed(t, r', m') { assert PaidOrOwed(s, r', m'); }
      forall i | 0 <= i < |t.ledger| ensures EntryInv(t, t.ledger[i]) { assert EntryInv(s, s.ledger[i]); }
      forall q | q in s.calls && s.calls[q].Paying? && q != p
        ensures (s.calls[q].referee, s.calls[q].m) != (r, m)
      {
        assert CallInv(s, s.calls[q]);
      }
    }
  }

  lemma PayAccounts(s: State, t: State, m: Milestone, r: string, r': string, m': Milestone)
    requires r in s.refs && (r, m) in s.owed && PaidOrOwed(s, r, m) && PaidOrOwed(s, r', m')
    requires t.refs == s.refs && t.ledger == s.ledger + Rows(s.refs[r], m, r) && t.owed == s.owed - {(r, m)}
    ensures PaidOrOwed(t, r', m')
  {
    CountRows(s.ledger, s.refs[r], m, r, r', m');
  }

  lemma PayEntries(s: State, t: State, m: Milestone, r: string)
    requires r in s.refs && forall i :: 0 <= i < |s.ledger| ==> EntryInv(s, s.ledger[i])
    requires t.refs == s.refs && t.ledger == s.ledger + Rows(s.refs[r], m, r)
    ensures forall i :: 0 <= i < |t.ledger| ==> EntryInv(t, t.ledger[i])
  {
    forall i | 0 <= i < |t.ledger| ensures EntryInv(t, t.ledger[i]) {
      if i < |s.ledger| { assert EntryInv(s, s.ledger[i]); }
      else { assert t.ledger[i] == Rows(s.refs[r], m, r)[i - |s.ledger|]; }
    }
  }

  /** Writing the ledger row settles what was owed. */
  lemma PayKeeps(s: State, p: nat, m: Milestone, r: string, nested: bool)
    requires Inv(s) && CallOf(s, p) == Paying(m, r, nested)
    ensures Inv(Pay(s, p, m, r, nested))
  {
    var t := Pay(s, p, m, r, nested);
    assert CallInv(s, s.calls[p]);
    assert PaidOrOwed(s, r, m);
    forall r', m' ensures PaidOrOwed(t, r', m') {
      assert PaidOrOwed(s, r', m');
      PayAccounts(s, t, m, r, r', m');
    }
    forall q | q in t.calls ensures CallInv(t, t.calls[q]) {
      if q != p { assert CallInv(s, s.calls[q]); }
    }
    PayEntries(s, t, m, r);
  }

  lemma StepKeeps(s: State, p: nat)
    requires Inv(s)
    ensures Inv(Apply(s, Step(p)))
  {
    match CallOf(s, p)
    case Idle =>
    case Reading(m, r, nested) =>
      assert CallInv(s, CallOf(s, p));
      GotoKeeps(s, p, Read(s, p, m, r, nested).calls[p]);
    case Updating(m, r, nested) => UpdateKeeps(s, p, m, r, nested);
    case Paying(m, r, nested) => PayKeeps(s, p, m, r, nested);
  }

  lemma ApplyKeeps(s: State, e: Event)
    requires Inv(s)
    ensures Inv(Apply(s, e))
  {
    match e
    case Register(referee, referrer) => if referee !in s.refs { RegisterKeeps(s, referee, referrer); }
    case Step(p) => StepKeeps(s, p);
    case _ =>
      if Apply(s, e) != s { GotoKeeps(s, e.p, Apply(s, e).calls[e.p]); }
  }

  lemma {:induction false} RunKeeps(es: seq<Event>)
    ensures Inv(Run(es))
  {
    if es != [] {
      RunKeeps(es[..|es| - 1]);
      ApplyKeeps(Run(es[..|es| - 1]), es[|es| - 1]);
    }
  }

  // ---- theorems over every interleaving ------------------------------------------------------------

  lemma {:induction false} PaidForIsCounts(ledger: seq<Entry>, r: string)
    requires forall i :: 0 <= i < |ledger| && ledger[i].reason.Milestone? ==>
      ledger[i].points == Reward(ledger[i].reason.m)
    ensures PaidFor(ledger, r)
         == 25 * Count(ledger, r, WalletCreated) + 25 * Count(ledger, r, FirstSend) + 50 * Count(ledger, r, RetainedD7)
  {
    if ledger != [] {
      PaidForIsCounts(ledger[..|ledger| - 1], r);
      var e := ledger[|ledger| - 1];
      if e.reason.Milestone? {
        assert e.points == Reward(e.reason.m);
        match e.reason.m case WalletCreated => case FirstSend => case RetainedD7 =>
      }
    }
  }

  function OwedFor(s: State, r: string): int {
    (if (r, WalletCreated) in s.owed then 25 else 0) + (if (r, FirstSend) in s.owed then 25 else 0)
    + if (r, RetainedD7) in s.owed then 50 else 0
  }

  /** A row's points are exactly the reached milestones, and exactly what the ledger paid for it plus what is owed. */
  lemma PointsAccounted(es: seq<Event>, r: string)
    requires r in Run(es).refs
    ensures var s := Run(es); var row := s.refs[r];
      && row.points == Earned(row)
      && row.points == PaidFor(s.ledger, r) + OwedFor(s, r)
      && (forall m :: Count(s.ledger, r, m) <= 1)
      && (row.firstSendCompleted ==> row.walletCreated)
  {
    RunKeeps(es);
    var s := Run(es);
    assert RowInv(s.refs[r]);
    forall m ensures Count(s.ledger, r, m) <= 1 { assert PaidOrOwed(s, r, m); }
    assert PaidOrOwed(s, r, WalletCreated) && PaidOrOwed(s, r, FirstSend) && PaidOrOwed(s, r, RetainedD7);
    forall i | 0 <= i < |s.ledger| && s.ledger[i].reason.Milestone?
      ensures s.ledger[i].points == Reward(s.ledger[i].reason.m)
    {
      assert EntryInv(s, s.ledger[i]);
    }
    PaidForIsCounts(s.ledger, r);
  }

  /** Sum over the referrals of `u`, in table order. */
  function TotalPoints(order: seq<string>, refs: map<string, Referral>, u: string): int
    requires forall r :: r in order ==> r in refs
  {
    if order == [] then 0
    else var r := order[|order| - 1];
      TotalPoints(order[..|order| - 1], refs, u) + if refs[r].referrer == u then refs[r].points else 0
  }

  function TotalPaid(order: seq<string>, refs: map<string, Referral>, ledger: seq<Entry>, u: string): int
    requires forall r :: r in order ==> r in refs
  {
    if order == [] then 0
    else var r := order[|order| - 1];
      TotalPaid(order[..|order| - 1], refs, ledger, u) + if refs[r].referrer == u then PaidFor(ledger, r) else 0
  }

  /** A ledger row counts towards exactly one referral. */
  lemma {:induction false} TotalPaidSnoc(order: seq<string>, refs: map<string, Referral>, ledger: seq<Entry>,
                                         e: Entry, u: string)
    requires Distinct(order) && forall r :: r in order ==> r in refs
    ensures TotalPaid(order, refs, ledger + [e], u) == TotalPaid(order, refs, ledger, u)
      + if e.reason.Milestone? && e.referee in order && refs[e.referee].referrer == u then e.points else 0
  {
    if order != [] {
      var init, r := order[..|order| - 1], order[|order| - 1];
      TotalPaidSnoc(init, refs, ledger, e, u);
      assert (ledger + [e])[..|ledger|] == ledger;
      assert order == init + [r];
      assert r !in init;
    }
  }

  lemma {:induction false} TotalPaidEmpty(order: seq<string>, refs: map<string, Referral>, u: string)
    requires forall r :: r in order ==> r in refs
    ensures TotalPaid(order, refs, [], u) == 0
  {
    if order != [] { TotalPaidEmpty(order[..|order| - 1], refs, u); }
  }

  lemma {:induction false} PaidToIsTotalPaid(s: State, ledger: seq<Entry>, u: string)
    requires Distinct(s.order) && forall r :: r in s.order <==> r in s.refs
    requires forall i :: 0 <= i < |ledger| ==> EntryInv(s, ledger[i])
    ensures PaidTo(ledger, u) == TotalPaid(s.order, s.refs, ledger, u)
  {
    if ledger == [] {
      TotalPaidEmpty(s.order, s.refs, u);
    } else {
      var init, e := ledger[..|ledger| - 1], ledger[|ledger| - 1];
      PaidToIsTotalPaid(s, init, u);
      assert ledger == init + [e];
      assert EntryInv(s, e);
      TotalPaidSnoc(s.order, s.refs, init, e, u);
    }
  }

  /** Rewards owed to `u`: won updates whose ledger row is not written. */
  function TotalOwed(order: seq<string>, s: State, u: string): int
    requires forall r :: r in order ==> r in s.refs
  {
    if order == [] then 0
    else var r := order[|order| - 1];
      TotalOwed(order[..|order| - 1], s, u) + if s.refs[r].referrer == u then OwedFor(s, r) else 0
  }

  /** Nothing is owed for the referrals of `u` among `order`. */
  ghost predicate NothingOwed(order: seq<string>, s: State, u: string)
    requires forall r :: r in order ==> r in s.refs
  {
    forall r, m :: r in order && s.refs[r].referrer == u ==> (r, m) !in s.owed
  }

  lemma OwedForSign(s: State, r: string)
    ensures OwedFor(s, r) >= 0
    ensures OwedFor(s, r) == 0 <==> forall m :: (r, m) !in s.owed
  {
    if OwedFor(s, r) == 0 {
      forall m ensures (r, m) !in s.owed {
        match m case WalletCreated => case FirstSend => case RetainedD7 =>
      }
    }
  }

  lemma {:induction false} TotalOwedSign(order: seq<string>, s: State, u: string)
    requires forall r :: r in order ==> r in s.refs
    ensures TotalOwed(order, s, u) >= 0
    ensures TotalOwed(order, s, u) == 0 <==> NothingOwed(order, s, u)
  {
    if order != [] {
      var init, r := order[..|order| - 1], order[|order| - 1];
      TotalOwedSign(init, s, u);
      OwedForSign(s, r);
      NothingOwedSnoc(init, s, u, r);
      assert order == init + [r];
    }
  }

  lemma NothingOwedSnoc(order: seq<string>, s: State, u: string, r: string)
    requires r in s.refs && forall x :: x in order ==> x in s.refs
    ensures forall x :: x in order + [r] ==> x in s.refs
    ensures NothingOwed(order + [r], s, u) <==>
      NothingOwed(order, s, u) && (s.refs[r].referrer == u ==> forall m :: (r, m) !in s.owed)
  {
    if NothingOwed(order + [r], s, u) {
      forall x, m | x in order && s.refs[x].referrer == u ensures (x, m) !in s.owed {
        assert x in order + [r];
      }
      assert r in order + [r];
    }
  }

  lemma {:induction false} TotalsAgree(es: seq<Event>, order: seq<string>, u: string)
    requires forall r :: r in order ==> r in Run(es).refs
    ensures TotalPaid(order, Run(es).refs, Run(es).ledger, u) + TotalOwed(order, Run(es), u)
         == TotalPoints(order, Run(es).refs, u)
  {
    if order != [] {
      TotalsAgree(es, order[..|order| - 1], u);
      PointsAccounted(es, order[|order| - 1]);
    }
  }

  /**
   * Table-wide, in every run: a referrer's ledger total and what is still owed to them are the points of their
   * referrals, so ledger and points agree exactly when nothing is owed to them.
   */
  lemma LedgerMatchesPoints(es: seq<Event>, u: string)
    ensures var s := Run(es);
      && (forall r :: r in s.order <==> r in s.refs)
      && PaidTo(s.ledger, u) + TotalOwed(s.order, s, u) == TotalPoints(s.order, s.refs, u)
      && (PaidTo(s.ledger, u) == TotalPoints(s.order, s.refs, u) <==> NothingOwed(s.order, s, u))
  {
    RunKeeps(es);
    var s := Run(es);
    PaidToIsTotalPaid(s, s.ledger, u);
    TotalsAgree(es, s.order, u);
    TotalOwedSign(s.order, s, u);
  }

  // ---- the welcome bonus ----------------------------------------------------------------------------

  /** Number of welcome bonuses paid for referral `r`. */
  function Bonuses(ledger: seq<Entry>, r: string): nat {
    if ledger == [] then 0
    else Bonuses(ledger[..|ledger| - 1], r)
         + if ledger[|ledger| - 1].referee == r && ledger[|ledger| - 1].reason.SignupBonus? then 1 else 0
  }

  /** Welcome bonuses are 100 points for the referee, as many as paid wallet milestones. */
  ghost predicate Welcomed(ledger: seq<Entry>) {
    && (forall i :: 0 <= i < |ledger| && ledger[i].reason.SignupBonus? ==>
          ledger[i].points == 100 && ledger[i].user == ledger[i].referee)
    && (forall r :: Bonuses(ledger, r) == Count(ledger, r, WalletCreated))
  }

  lemma BonusesSnoc(ledger: seq<Entry>, e: Entry, r: string)
    ensures Bonuses(ledger + [e], r) == Bonuses(ledger, r) + if e.referee == r && e.reason.SignupBonus? then 1 else 0
  {
    assert (ledger + [e])[..|ledger|] == ledger;
  }

  /** A wallet milestone comes with its bonus, any other without. */
  lemma RowsWelcome(ledger: seq<Entry>, row: Referral, m: Milestone, r: string)
    requires Welcomed(ledger)
    ensures Welcomed(ledger + Rows(row, m, r))
  {
    var a := Entry(row.referrer, Reward(m), Milestone(m), r);
    forall r' ensures Bonuses(ledger + Rows(row, m, r), r') == Count(ledger + Rows(row, m, r), r', WalletCreated) {
      CountRows(ledger, row, m, r, r', WalletCreated);
      BonusesSnoc(ledger, a, r');
      if m == WalletCreated {
        BonusesSnoc(ledger + [a], Entry(r, REFEREE_WELCOME, SignupBonus, r), r');
        assert ledger + Rows(row, m, r) == (ledger + [a]) + [Entry(r, REFEREE_WELCOME, SignupBonus, r)];
      } else {
        assert ledger + Rows(row, m, r) == ledger + [a];
      }
    }
  }

  /** Only a paying step writes the ledger. */
  lemma LedgerStep(s: State, e: Event)
    ensures
      || Apply(s, e).ledger == s.ledger
      || (&& e.Step? && CallOf(s, e.p).Paying? && CallOf(s, e.p).referee in s.refs
          && var c := CallOf(s, e.p); Apply(s, e).ledger == s.ledger + Rows(s.refs[c.referee], c.m, c.referee))
  {
  }

  lemma {:induction false} RunWelcomes(es: seq<Event>)
    ensures Welcomed(Run(es).ledger)
  {
    if es != [] {
      var s, e := Run(es[..|es| - 1]), es[|es| - 1];
      RunWelcomes(es[..|es| - 1]);
      LedgerStep(s, e);
      if Apply(s, e).ledger != s.ledger {
        var c := CallOf(s, e.p);
        RowsWelcome(s.ledger, s.refs[c.referee], c.m, c.referee);
      }
    }
  }

  /**
   * Over every run: a welcome bonus is 100 points for the referee, and a referral has one exactly when its wallet
   * milestone was paid, never more than one.
   */
  lemma WelcomeBonus(es: seq<Event>, r: string)
    ensures var ledger := Run(es).ledger;
      && Bonuses(ledger, r) == Count(ledger, r, WalletCreated) <= 1
      && (forall i :: 0 <= i < |ledger| && ledger[i].reason.SignupBonus? ==>
            ledger[i].points == 100 && ledger[i].user == ledger[i].referee)
  {
    RunWelcomes(es);
    RunKeeps(es);
    assert PaidOrOwed(Run(es), r, WalletCreated);
  }

  // ---- what reaches a milestone ---------------------------------------------------------------------

  /** The milestones a call may reach; a send of at least five dollars brings the wallet milestone along. */
  function Asks(e: Event): set<(string, Milestone)> {
    match e
    case StartWallet(_, r) => {(r, WalletCreated)}
    case StartFirstSend(_, r, cents) => if cents >= 500 then {(r, FirstSend), (r, WalletCreated)} else {}
    case StartCron(_, r) => {(r, RetainedD7)}
    case StartDirectD7(_, r) => {(r, RetainedD7)}
    case _ => {}
  }

  function Asked(es: seq<Event>): set<(string, Milestone)> {
    if es == [] then {} else Asked(es[..|es| - 1]) + Asks(es[|es| - 1])
  }

  predicate CallAsked(asked: set<(string, Milestone)>, c: Call) {
    !c.Idle? ==>
      && (c.referee, c.m) in asked && (c.nested ==> (c.referee, FirstSend) in asked)
      && (c.m == FirstSend ==> (c.referee, WalletCreated) in asked)
  }

  ghost predicate OnlyAsked(asked: set<(string, Milestone)>, s: State) {
    && (forall r, m :: r in s.refs && Has(s.refs[r], m) ==> (r, m) in asked)
    && (forall p :: p in s.calls ==> CallAsked(asked, s.calls[p]))
    && (forall r :: (r, FirstSend) in asked ==> (r, WalletCreated) in asked)
  }

  lemma AskedMore(asked: set<(string, Milestone)>, s: State, e: Event)
    requires OnlyAsked(asked, s)
    ensures OnlyAsked(asked + Asks(e), s)
  {
    forall p | p in s.calls ensures CallAsked(asked + Asks(e), s.calls[p]) {
      assert CallAsked(asked, s.calls[p]);
    }
  }

  lemma AskedGoto(asked: set<(string, Milestone)>, s: State, p: nat, c: Call)
    requires OnlyAsked(asked, s) && CallAsked(asked, c)
    ensures OnlyAsked(asked, Goto(s, p, c))
  {
  }

  lemma AskedUpdate(asked: set<(string, Milestone)>, s: State, p: nat, m: Milestone, r: string, nested: bool)
    requires OnlyAsked(asked, s) && CallAsked(asked, Updating(m, r, nested))
    ensures OnlyAsked(asked, Update(s, p, m, r, nested))
  {
    if r !in s.refs || Has(s.refs[r], m) {
      AskedGoto(asked, s, p, After(nested, r));
    } else {
      var t := s.(refs := s.refs[r := Mark(s.refs[r], m)], owed := s.owed + {(r, m)});
      assert OnlyAsked(asked, t);
      AskedGoto(asked, t, p, Paying(m, r, nested));
    }
  }

  lemma AskedStep(asked: set<(string, Milestone)>, s: State, e: Event)
    requires OnlyAsked(asked, s)
    ensures OnlyAsked(asked + Asks(e), Apply(s, e))
  {
    var t, more := Apply(s, e), asked + Asks(e);
    AskedMore(asked, s, e);
    if e.Step? {
      var c := CallOf(s, e.p);
      assert CallAsked(more, c);
      match c
      case Idle =>
      case Reading(_, _, _) => AskedGoto(more, s, e.p, t.calls[e.p]);
      case Updating(m, r, nested) => AskedUpdate(more, s, e.p, m, r, nested);
      case Paying(_, _, _) => AskedGoto(more, s.(ledger := t.ledger, owed := t.owed), e.p, t.calls[e.p]);
    } else if !e.Register? && t != s {
      AskedGoto(more, s, e.p, t.calls[e.p]);
    }
  }

  lemma {:induction false} RunAsked(es: seq<Event>)
    ensures OnlyAsked(Asked(es), Run(es))
  {
    if es != [] {
      RunAsked(es[..|es| - 1]);
      AskedStep(Asked(es[..|es| - 1]), Run(es[..|es| - 1]), es[|es| - 1]);
    }
  }

  lemma {:induction false} AskedByEvent(es: seq<Event>, r: string, m: Milestone) returns (i: nat)
    requires (r, m) in Asked(es)
    ensures i < |es| && (r, m) in Asks(es[i])
  {
    i := |es| - 1;
    if (r, m) !in Asks(es[i]) { i := AskedByEvent(es[..i], r, m); }
  }

  predicate SendsEnough(e: Event, r: string) {
    e.StartFirstSend? && e.referee == r && e.cents >= 500
  }

  /**
   * Over every run: a first send was reached only for a send of at least 500 cents, a wallet only by a wallet call or
   * such a send, and a retained deposit only by a stage-4 call, each for that referee.
   */
  lemma MilestonesAreAskedFor(es: seq<Event>, r: string)
    requires r in Run(es).refs
    ensures var row := Run(es).refs[r];
      && (row.firstSendCompleted ==> exists e :: e in es && SendsEnough(e, r))
      && (row.walletCreated ==> exists e :: e in es && (SendsEnough(e, r) || (e.StartWallet? && e.referee == r)))
      && (row.depositRetainedD7 ==> exists e :: e in es && (e.StartCron? || e.StartDirectD7?) && e.referee == r)
  {
    var row := Run(es).refs[r];
    if row.firstSendCompleted { var i := AskedFor(es, r, FirstSend); }
    if row.walletCreated { var i := AskedFor(es, r, WalletCreated); }
    if row.depositRetainedD7 { var i := AskedFor(es, r, RetainedD7); }
  }

  lemma AskedFor(es: seq<Event>, r: string, m: Milestone) returns (i: nat)
    requires r in Run(es).refs && Has(Run(es).refs[r], m)
    ensures i < |es| && es[i] in es && (r, m) in Asks(es[i])
  {
    RunAsked(es);
    i := AskedByEvent(es, r, m);
  }

  // ---- stage 4 needs its cron ----------------------------------------------------------------------

  ghost predicate CronInv(s: State) {
    && (forall r :: r in s.refs && s.refs[r].depositRetainedD7 ==> s.refs[r].walletCreated)
    && (forall p :: p in s.calls && (s.calls[p].Reading? || s.calls[p].Updating?) && s.calls[p].m == RetainedD7
          ==> s.calls[p].referee in s.refs && s.refs[s.calls[p].referee].walletCreated)
  }

  lemma CronStep(s: State, e: Event)
    requires Inv(s) && CronInv(s) && !e.StartDirectD7?
    ensures CronInv(Apply(s, e))
  {
    if e.Step? && CallOf(s, e.p).Updating? {
      assert CallInv(s, CallOf(s, e.p));
    }
  }

  /** With the cron as the only driver of stage 4, a retained deposit implies a created wallet. */
  lemma {:induction false} RetainedNeedsWallet(es: seq<Event>)
    requires forall i :: 0 <= i < |es| ==> !es[i].StartDirectD7?
    ensures CronInv(Run(es))
  {
    if es != [] {
      RetainedNeedsWallet(es[..|es| - 1]);
      RunKeeps(es[..|es| - 1]);
      CronStep(Run(es[..|es| - 1]), es[|es| - 1]);
    }
  }

  /** The stage-4 reward was given without a wallet. */
  predicate WalletGap(s: State, r: string) {
    r in s.refs && s.refs[r].depositRetainedD7 && !s.refs[r].walletCreated
  }

  /** The event wins the conditional update of stage 4 on `r`. */
  predicate WinsD7(s: State, e: Event, r: string) {
    && e.Step? && CallOf(s, e.p).Updating? && CallOf(s, e.p).m == RetainedD7 && CallOf(s, e.p).referee == r
    && r in s.refs && !s.refs[r].depositRetainedD7
  }

  /** A won stage-4 update leaves the ladder in order exactly when the wallet existed at that moment. */
  lemma D7NeedsWallet(s: State, e: Event, r: string)
    requires WinsD7(s, e, r)
    ensures r in Apply(s, e).refs && Apply(s, e).refs[r].depositRetainedD7
    ensures WalletGap(Apply(s, e), r) <==> !s.refs[r].walletCreated
  {
  }

  /** A step opens a gap exactly when it wins stage 4 before the wallet exists. */
  lemma GapArises(s: State, e: Event, r: string)
    requires Inv(s) && !WalletGap(s, r)
    ensures WalletGap(Apply(s, e), r) <==> WinsD7(s, e, r) && !s.refs[r].walletCreated
  {
    if WinsD7(s, e, r) { D7NeedsWallet(s, e, r); }
    if e.Step? && CallOf(s, e.p).Updating? { assert CallInv(s, CallOf(s, e.p)); }
  }

  ghost predicate GapAt(es: seq<Event>, k: nat, r: string) {
    k <= |es| && WalletGap(Run(es[..k]), r)
  }

  ghost predicate PaidWithoutWallet(es: seq<Event>, i: nat, r: string) {
    i < |es| && WinsD7(Run(es[..i]), es[i], r) && !Run(es[..i]).refs[r].walletCreated
  }

  lemma {:induction false} GapHasCause(es: seq<Event>, k: nat, r: string) returns (i: nat)
    requires GapAt(es, k, r)
    ensures i < k && PaidWithoutWallet(es, i, r)
    decreases k
  {
    assert es[..0] == [];
    assert k > 0 && es[..k][..k - 1] == es[..k - 1];
    RunKeeps(es[..k - 1]);
    if GapAt(es, k - 1, r) {
      i := GapHasCause(es, k - 1, r);
    } else {
      i := k - 1;
      GapArises(Run(es[..i]), es[i], r);
    }
  }

  lemma CauseOpensGap(es: seq<Event>, i: nat, r: string)
    requires PaidWithoutWallet(es, i, r)
    ensures GapAt(es, i + 1, r)
  {
    RunSnoc(es[..i], es[i]);
    assert es[..i + 1] == es[..i] + [es[i]];
    D7NeedsWallet(Run(es[..i]), es[i], r);
  }

  /**
   * Over every run, whoever drives stage 4: a retained deposit ever lacked its wallet if and only if some won update
   * met a row without one.
   */
  lemma RetainedWithoutWalletExactly(es: seq<Event>, r: string)
    ensures (exists k :: GapAt(es, k, r)) <==> (exists i :: PaidWithoutWallet(es, i, r))
  {
    if exists k :: GapAt(es, k, r) {
      var k: nat :| GapAt(es, k, r);
      var i := GapHasCause(es, k, r);
    }
    if exists i :: PaidWithoutWallet(es, i, r) {
      var i: nat :| PaidWithoutWallet(es, i, r);
      CauseOpensGap(es, i, r);
    }
  }

  lemma RunSnoc(es: seq<Event>, e: Event)
    ensures Run(es + [e]) == Apply(Run(es), e)
  {
    assert (es + [e])[..|es|] == es;
  }

  /** Called directly, `markDepositRetainedD7` pays a referral whose wallet was never created. */
  lemma DirectD7SkipsWallet()
    ensures exists es, r :: r in Run(es).refs && Run(es).refs[r].depositRetainedD7 && !Run(es).refs[r].walletCreated
  {
    var a := [] + [Register("b", "a")];
    var b := a + [StartDirectD7(0, "b")];
    var c := b + [Step(0)];
    var d := c + [Step(0)];
    RunSnoc([], Register("b", "a"));
    RunSnoc(a, StartDirectD7(0, "b"));
    RunSnoc(b, Step(0));
    RunSnoc(c, Step(0));
    assert "b" in Run(d).refs && Run(d).refs["b"].depositRetainedD7 && !Run(d).refs["b"].walletCreated;
  }

  // ---- one service instance -------------------------------------------------------------------------

  /** The service without concurrency: each method runs its statements in order. */
  class ReferralService {
    var refs: map<string, Referral>
    var ledger: seq<Entry>

    constructor (refs: map<string, Referral>)
      ensures this.refs == refs && ledger == []
    {
      this.refs, ledger := refs, [];
    }

    /** A milestone not yet reached is reached and paid, once; otherwise nothing changes. */
    ghost predicate Pays(refs0: map<string, Referral>, ledger0: seq<Entry>, r: string, m: Milestone)
      reads this
    {
      if r in refs0 && !Has(refs0[r], m)
      then refs == refs0[r := Mark(refs0[r], m)] && ledger == ledger0 + Rows(refs0[r], m, r)
      else refs == refs0 && ledger == ledger0
    }

    method MarkWalletCreated(r: string) returns (done: bool)
      modifies this
      ensures done == (r in old(refs) && !old(refs)[r].walletCreated)
      ensures Pays(old(refs), old(ledger), r, WalletCreated)
    {
      done := false;
      if r !in refs || refs[r].walletCreated { return; }
      var row := refs[r];
      refs := refs[r := Mark(row, WalletCreated)];
      ledger := ledger + Rows(row, WalletCreated, r);
      done := true;
    }

    /** Reaches the wallet milestone first, so both ladders stay ordered. */
    method MarkFirstSend(r: string, cents: int) returns (done: bool)
      modifies this
      ensures done == (cents >= MIN_QUALIFYING_SEND_CENTS && r in old(refs) && !old(refs)[r].firstSendCompleted)
      ensures !done ==> refs == old(refs) && ledger == old(ledger)
      ensures done ==>
        var row := old(refs)[r];
        refs == old(refs)[r := Mark(if row.walletCreated then row else Mark(row, WalletCreated), FirstSend)]
      ensures done && old(refs)[r].walletCreated ==> ledger == old(ledger) + Rows(refs[r], FirstSend, r)
      ensures done && !old(refs)[r].walletCreated ==>
        ledger == old(ledger) + Rows(refs[r], WalletCreated, r) + Rows(refs[r], FirstSend, r)
      ensures done && RowInv(old(refs)[r]) ==> r in refs && RowInv(refs[r])
    {
      done := false;
      if cents < MIN_QUALIFYING_SEND_CENTS { return; }
      if r !in refs || refs[r].firstSendCompleted { return; }
      if !refs[r].walletCreated {
        var _ := MarkWalletCreated(r);
      }
      var row := refs[r];
      refs := refs[r := Mark(row, FirstSend)];
      ledger := ledger + Rows(row, FirstSend, r);
      done := true;
    }

    method MarkDepositRetainedD7(r: string) returns (done: bool)
      modifies this
      ensures done == (r in old(refs) && !old(refs)[r].depositRetainedD7)
      ensures Pays(old(refs), old(ledger), r, RetainedD7)
    {
      done := false;
      if r !in refs || refs[r].depositRetainedD7 { return; }
      var row := refs[r];
      refs := refs[r := Mark(row, RetainedD7)];
      ledger := ledger + Rows(row, RetainedD7, r);
      done := true;
    }

    /** What the sweep did so far: the rows in `done` are treated, their ledger rows written and counted. */
    ghost predicate Swept(before: map<string, Referral>, ledger0: seq<Entry>, done: seq<string>,
                          retained: set<string>, awarded: nat)
      reads this
    {
      && Awarded(before, refs, done, retained)
      && ledger == ledger0 + AwardRows(before, done, retained)
      && awarded == |AwardRows(before, done, retained)|
    }

    /** One turn of the sweep. */
    method AwardCandidate(r: string, retained: set<string>, awarded: nat,
                          ghost before: map<string, Referral>, ghost ledger0: seq<Entry>, ghost done: seq<string>)
      returns (awarded': nat)
      requires Swept(before, ledger0, done, retained, awarded)
      requires r in before && !before[r].depositRetainedD7 && r !in done
      modifies this
      ensures Swept(before, ledger0, done + [r], retained, awarded')
    {
      AwardNext(before, refs, done, retained, r);
      awarded' := awarded;
      if r in retained {
        var paid := MarkDepositRetainedD7(r);
        if paid { awarded' := awarded' + 1; }
      }
    }

    /** The nightly sweep: exactly the candidates holding a retained deposit are paid, each once. */
    method AwardRetainedDepositMilestones(candidates: seq<string>, retained: set<string>) returns (awarded: nat)
      requires Distinct(candidates)
      requires forall r :: r in candidates <==> r in refs && refs[r].walletCreated && !refs[r].depositRetainedD7
      modifies this
      ensures Awarded(old(refs), refs, candidates, retained)
      ensures ledger == old(ledger) + AwardRows(old(refs), candidates, retained)
      ensures awarded == |AwardRows(old(refs), candidates, retained)|
      ensures forall r :: r in refs && refs[r].depositRetainedD7 && !old(refs)[r].depositRetainedD7 ==>
        refs[r].walletCreated
    {
      awarded := 0;
      ghost var before, ledger0 := refs, ledger;
      assert Swept(before, ledger0, [], retained, 0);
      assert candidates[..0] == [];
      for i := 0 to |candidates|
        invariant Swept(before, ledger0, candidates[..i], retained, awarded)
      {
        assert candidates[i] in candidates && candidates[i] !in candidates[..i];
        assert candidates[..i + 1] == candidates[..i] + [candidates[i]];
        awarded := AwardCandidate(candidates[i], retained, awarded, before, ledger0, candidates[..i]);
      }
      assert candidates[..|candidates|] == candidates;
      AwardedNeedsWallet(before, refs, candidates, retained);
    }
  }

  /** The table after the sweep treated `done`. */
  ghost predicate Awarded(before: map<string, Referral>, after: map<string, Referral>,
                          done: seq<string>, retained: set<string>)
  {
    && after.Keys == before.Keys
    && forall r :: r in before ==>
      after[r] == if r in done && r in retained then Mark(before[r], RetainedD7) else before[r]
  }

  lemma AwardedNeedsWallet(before: map<string, Referral>, after: map<string, Referral>,
                           done: seq<string>, retained: set<string>)
    requires Awarded(before, after, done, retained) && forall r :: r in done && r in before ==> before[r].walletCreated
    ensures forall r :: r in after && after[r].depositRetainedD7 && !before[r].depositRetainedD7 ==>
      after[r].walletCreated
  {
  }

  /** The referrer rows for the candidates that hold a retained deposit, in order. */
  ghost function AwardRows(refs: map<string, Referral>, candidates: seq<string>, retained: set<string>): seq<Entry> {
    if candidates == [] then []
    else
      var r := candidates[|candidates| - 1];
      AwardRows(refs, candidates[..|candidates| - 1], retained)
      + if r in retained && r in refs
        then [Entry(refs[r].referrer, Reward(RetainedD7), Milestone(RetainedD7), r)] else []
  }

  lemma AwardNext(before: map<string, Referral>, after: map<string, Referral>,
                  done: seq<string>, retained: set<string>, r: string)
    requires Awarded(before, after, done, retained) && r in before && r !in done
    ensures r in after && after[r] == before[r]
    ensures r in retained ==> Awarded(before, after[r := Mark(after[r], RetainedD7)], done + [r], retained)
    ensures r !in retained ==> Awarded(before, after, done + [r], retained)
    ensures AwardRows(before, done + [r], retained)
         == AwardRows(before, done, retained) + if r in retained then Rows(before[r], RetainedD7, r) else []
  {
    assert (done + [r])[..|done|] == done;
  }
}

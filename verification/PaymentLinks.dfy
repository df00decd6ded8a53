/**
 * Solana payment links: a database row that mirrors a write-once on-chain escrow.
 *
 * `LinkProtocol` is the interleaving model of one link: every database read or write and every chain
 * transaction is one event, any number of calls run at once, and any call may stop between two events.
 * Clocks are event parameters, so the service and the chain may disagree about the time.
 */
module LinkProtocol {
  import opened Prelude

  datatype Status = PENDING | FAILED | ACTIVE | CLAIMED | CANCELLED | EXPIRED

  /** Status byte of the on-chain account. */
  type ChainStatus = n: int | 0 <= n <= 3

  datatype Payout = ToRecipient | ToSender

  /** The escrow account; `payouts` lists every transfer out of it. */
  datatype Escrow = NoAccount | Account(status: ChainStatus, expiresAt: int, payouts: seq<Payout>)

  datatype Row = NoRow | Row(status: Status, escrowId: bool, expiresAt: int)

  /** Where a call stands between two atomic operations. */
  datatype Call =
    | Idle
    | Funding(expiresAt: int)
    | Activating
    | Failing
    | ClaimChecking
    | ClaimSubmitting
    | RedeemReading
    | RedeemWriting
    | CancelSubmitting
    | CancelWriting
    | RefundReading
    | RefundMirroring(seen: ChainStatus)
    | RefundSubmitting
    | RefundWriting

  /** How a chain transaction ends: it may land although the relayer call throws. */
  datatype Outcome = Confirmed | LandedButThrew | Rejected

  datatype ChainAction = Claim | Cancel | Refund

  datatype Event =
    | StartCreate(p: nat, expiresAt: int)
    | StartClaim(p: nat, now: int)
    | StartCancel(p: nat)
    | StartSweep(p: nat, now: int)
    | Advance(p: nat, now: int, outcome: Outcome)
    | Crash(p: nat)
    | Direct(action: ChainAction, now: int)

  datatype State = State(row: Row, escrow: Escrow, calls: map<nat, Call>)

  const Init := State(NoRow, NoAccount, map[])

  function CallOf(s: State, p: nat): Call {
    if p in s.calls then s.calls[p] else Idle
  }

  function Goto(s: State, p: nat, c: Call): State {
    s.(calls := s.calls[p := c])
  }

  /** The database status that stands for an on-chain status. */
  function PaymentLinkStatus(n: int): Status {
    if n == 1 then CLAIMED else if n == 2 then CANCELLED else if n == 3 then EXPIRED else ACTIVE
  }

  predicate Terminal(st: Status) {
    st == CLAIMED || st == CANCELLED || st == EXPIRED
  }

  predicate HasStatus(row: Row, st: Status) {
    row.Row? && row.status == st
  }

  // ---- the escrow program -------------------------------------------------------------------------

  /** The program settles only an active escrow; claims up to the expiry, refunds strictly after it. */
  predicate Accepts(e: Escrow, action: ChainAction, now: int) {
    && e.Account? && e.status == 0
    && (action == Claim ==> now <= e.expiresAt)
    && (action == Refund ==> now > e.expiresAt)
  }

  function Settled(action: ChainAction): ChainStatus {
    match action case Claim => 1 case Cancel => 2 case Refund => 3
  }

  function Settle(e: Escrow, action: ChainAction): Escrow
    requires e.Account?
  {
    Account(Settled(action), e.expiresAt, e.payouts + [if action == Claim then ToRecipient else ToSender])
  }

  /** Submits `action`; on a thrown error the call ends, whether or not the transaction landed. */
  function Submit(s: State, p: nat, action: ChainAction, now: int, outcome: Outcome, next: Call): State {
    if !Accepts(s.escrow, action, now) || outcome == Rejected then Goto(s, p, Idle)
    else Goto(s.(escrow := Settle(s.escrow, action)), p, if outcome == Confirmed then next else Idle)
  }

  // ---- the service --------------------------------------------------------------------------------

  function SetStatus(s: State, st: Status): State
    requires s.row.Row?
  {
    s.(row := s.row.(status := st))
  }

  /** One atomic operation of the call `p`. */
  function AdvanceCall(s: State, p: nat, now: int, outcome: Outcome): State {
    match CallOf(s, p)
    case Idle => s
    case Funding(exp) =>
      if outcome == Rejected || s.escrow.Account? then Goto(s, p, Failing)
      else Goto(s.(escrow := Account(0, exp, [])), p, if outcome == Confirmed then Activating else Failing)
    case Failing => Goto(if s.row.Row? then SetStatus(s, FAILED) else s, p, Idle)
    case Activating =>
      Goto(if s.row.Row? then s.(row := s.row.(status := ACTIVE, escrowId := true)) else s, p, Idle)
    case ClaimChecking =>
      Goto(s, p, if s.escrow.Account? && s.escrow.status == 0 then ClaimSubmitting else Idle)
    case ClaimSubmitting => Submit(s, p, Claim, now, outcome, RedeemReading)
    case RedeemReading => Goto(s, p, if HasStatus(s.row, ACTIVE) then RedeemWriting else Idle)
    case RedeemWriting => Goto(if s.row.Row? then SetStatus(s, CLAIMED) else s, p, Idle)
    case CancelSubmitting => Submit(s, p, Cancel, now, outcome, CancelWriting)
    case CancelWriting => Goto(if s.row.Row? then SetStatus(s, CANCELLED) else s, p, Idle)
    case RefundReading =>
      if s.escrow.NoAccount? then Goto(s, p, Idle)
      else if s.escrow.status != 0 then Goto(s, p, RefundMirroring(s.escrow.status))
      else Goto(s, p, RefundSubmitting)
    case RefundMirroring(seen) =>
      Goto(if s.row.Row? then SetStatus(s, PaymentLinkStatus(seen)) else s, p, Idle)
    case RefundSubmitting => Submit(s, p, Refund, now, outcome, RefundWriting)
    case RefundWriting => Goto(if s.row.Row? then SetStatus(s, EXPIRED) else s, p, Idle)
  }

  /** One event; an event that the state does not allow changes nothing. */
  function Apply(s: State, e: Event): State {
    match e
    case StartCreate(p, exp) =>
      if s.row.NoRow? && CallOf(s, p).Idle?
      then Goto(s.(row := Row(PENDING, false, exp)), p, Funding(exp)) else s
    case StartClaim(p, now) =>
      if CallOf(s, p).Idle? && HasStatus(s.row, ACTIVE) && s.row.escrowId
      then Goto(s, p, if s.row.expiresAt < now then RefundReading else ClaimChecking) else s
    case StartCancel(p) =>
      if CallOf(s, p).Idle? && HasStatus(s.row, ACTIVE) && s.row.escrowId
      then Goto(s, p, CancelSubmitting) else s
    case StartSweep(p, now) =>
      if CallOf(s, p).Idle? && HasStatus(s.row, ACTIVE) && s.row.escrowId && s.row.expiresAt < now
      then Goto(s, p, RefundReading) else s
    case Advance(p, now, outcome) => AdvanceCall(s, p, now, outcome)
    case Crash(p) => Goto(s, p, Idle)
    case Direct(action, now) =>
      if Accepts(s.escrow, action, now) then s.(escrow := Settle(s.escrow, action)) else s
  }

  function Run(s: State, es: seq<Event>): State {
    if es == [] then s else Apply(Run(s, es[..|es| - 1]), es[|es| - 1])
  }

  // ---- invariant ----------------------------------------------------------------------------------

  /** The link left the creation phase: somebody may have seen it ACTIVE. */
  predicate Live(row: Row) {
    row.Row? && row.status != PENDING && row.status != FAILED
  }

  /** What a call waiting at `c` may rely on. */
  ghost predicate CallInv(s: State, c: Call) {
    match c
    case Idle => true
    case Funding(exp) => HasStatus(s.row, PENDING) && s.escrow.NoAccount? && s.row.expiresAt == exp
    case Failing => HasStatus(s.row, PENDING)
    case Activating => HasStatus(s.row, PENDING) && s.escrow.Account?
    case ClaimChecking => Live(s.row)
    case ClaimSubmitting => Live(s.row)
    case RedeemReading => Live(s.row) && s.escrow.Account? && s.escrow.status == 1
    case RedeemWriting => Live(s.row) && s.escrow.Account? && s.escrow.status == 1
    case CancelSubmitting => Live(s.row)
    case CancelWriting => Live(s.row) && s.escrow.Account? && s.escrow.status == 2
    case RefundReading => Live(s.row)
    case RefundMirroring(seen) => Live(s.row) && s.escrow.Account? && s.escrow.status == seen != 0
    case RefundSubmitting => Live(s.row)
    case RefundWriting => Live(s.row) && s.escrow.Account? && s.escrow.status == 3
  }

  predicate Creating(c: Call) {
    c.Funding? || c.Failing? || c.Activating?
  }

  ghost predicate EscrowInv(e: Escrow) {
    e.Account? ==>
      && (e.status == 0 <==> e.payouts == [])
      && (e.status == 1 <==> e.payouts == [ToRecipient])
      && (e.status == 2 || e.status == 3 <==> e.payouts == [ToSender])
  }

  ghost predicate RowInv(s: State) {
    && (s.row.Row? && Terminal(s.row.status) ==>
      s.escrow.Account? && s.row.status == PaymentLinkStatus(s.escrow.status))
    && (HasStatus(s.row, ACTIVE) ==> s.escrow.Account?)
    && (Live(s.row) ==> s.row.escrowId)
    && (s.escrow.Account? ==> s.row.Row? && s.escrow.expiresAt == s.row.expiresAt)
  }

  ghost predicate Inv(s: State) {
    && EscrowInv(s.escrow)
    && RowInv(s)
    && (forall p :: p in s.calls ==> CallInv(s, s.calls[p]))
    && (forall p, q :: p in s.calls && q in s.calls && Creating(s.calls[p]) && Creating(s.calls[q]) ==> p == q)
  }

  /** Moving one call on keeps the invariant when shared state is untouched. */
  lemma GotoKeeps(s: State, p: nat, c: Call)
    requires Inv(s) && CallInv(s, c)
    requires Creating(c) ==> Creating(CallOf(s, p)) || forall q :: q in s.calls ==> !Creating(s.calls[q])
    ensures Inv(Goto(s, p, c))
  {
  }

  lemma SubmitKeeps(s: State, p: nat, action: ChainAction, now: int, outcome: Outcome, next: Call)
    requires Inv(s) && Live(s.row)
    requires !Creating(next)
    requires forall t: State :: t.row == s.row && t.escrow.Account? && t.escrow.status == Settled(action) ==>
      CallInv(t, next)
    ensures Inv(Submit(s, p, action, now, outcome, next))
  {
    if Accepts(s.escrow, action, now) {
      SettleKeeps(s, action, now);
      var t := s.(escrow := Settle(s.escrow, action));
      GotoKeeps(t, p, if outcome == Confirmed then next else Idle);
    }
    GotoKeeps(s, p, Idle);
  }

  /** A settlement can only happen while no call holds a settled view of the escrow. */
  lemma SettleKeeps(s: State, action: ChainAction, now: int)
    requires Inv(s) && Accepts(s.escrow, action, now)
    ensures Inv(s.(escrow := Settle(s.escrow, action)))
  {
    assert Settle(s.escrow, action).payouts == [if action == Claim then ToRecipient else ToSender];
  }

  /** Writing the mirrored status keeps every other call's view. */
  lemma MirrorKeeps(s: State, p: nat, st: Status)
    requires Inv(s) && Live(s.row) && Terminal(st)
    requires s.escrow.Account? && PaymentLinkStatus(s.escrow.status) == st
    ensures Inv(Goto(SetStatus(s, st), p, Idle))
    ensures Terminal(s.row.status) ==> SetStatus(s, st).row == s.row
  {
  }

  /** Only the creating call can be past the gate while the row is PENDING. */
  lemma FundingKeeps(s: State, p: nat, outcome: Outcome)
    requires Inv(s) && CallOf(s, p).Funding?
    ensures Inv(AdvanceCall(s, p, 0, outcome))
  {
  }

  /** The creating call's last write: nobody else is creating, and nobody saw the row ACTIVE yet. */
  lemma CreationEndKeeps(s: State, p: nat)
    requires Inv(s) && (CallOf(s, p).Failing? || CallOf(s, p).Activating?)
    ensures Inv(AdvanceCall(s, p, 0, Confirmed))
  {
    assert CallInv(s, s.calls[p]);
    var t := AdvanceCall(s, p, 0, Confirmed);
    forall q | q in t.calls ensures t.calls[q].Idle? {
      if q != p { assert CallInv(s, s.calls[q]); }
    }
  }

  lemma AdvanceKeeps(s: State, p: nat, now: int, outcome: Outcome)
    requires Inv(s)
    ensures Inv(AdvanceCall(s, p, now, outcome))
  {
    match CallOf(s, p)
    case Idle =>
    case Funding(exp) => FundingKeeps(s, p, outcome);
    case Failing => CreationEndKeeps(s, p);
    case Activating => CreationEndKeeps(s, p);
    case ClaimChecking => GotoKeeps(s, p, AdvanceCall(s, p, now, outcome).calls[p]);
    case RedeemReading => GotoKeeps(s, p, AdvanceCall(s, p, now, outcome).calls[p]);
    case RefundReading => GotoKeeps(s, p, AdvanceCall(s, p, now, outcome).calls[p]);
    case ClaimSubmitting => SubmitKeeps(s, p, Claim, now, outcome, RedeemReading);
    case CancelSubmitting => SubmitKeeps(s, p, Cancel, now, outcome, CancelWriting);
    case RefundSubmitting => SubmitKeeps(s, p, Refund, now, outcome, RefundWriting);
    case RedeemWriting => MirrorKeeps(s, p, CLAIMED);
    case CancelWriting => MirrorKeeps(s, p, CANCELLED);
    case RefundWriting => MirrorKeeps(s, p, EXPIRED);
    case RefundMirroring(seen) => MirrorKeeps(s, p, PaymentLinkStatus(seen));
  }

  /** Before the row exists nobody is past the gate. */
  lemma CreateKeeps(s: State, p: nat, exp: int)
    requires Inv(s) && s.row.NoRow?
    ensures Inv(Goto(s.(row := Row(PENDING, false, exp)), p, Funding(exp)))
  {
    forall q | q in s.calls ensures s.calls[q].Idle? { assert CallInv(s, s.calls[q]); }
  }

  lemma ApplyKeeps(s: State, e: Event)
    requires Inv(s)
    ensures Inv(Apply(s, e))
  {
    match e
    case Advance(p, now, outcome) => AdvanceKeeps(s, p, now, outcome);
    case Direct(action, now) => if Accepts(s.escrow, action, now) { SettleKeeps(s, action, now); }
    case StartCreate(p, exp) => if Apply(s, e) != s { CreateKeeps(s, p, exp); }
    case _ => if Apply(s, e) != s { GotoKeeps(s, e.p, Apply(s, e).calls[e.p]); }
  }

  lemma {:induction false} RunKeeps(s: State, es: seq<Event>)
    requires Inv(s)
    ensures Inv(Run(s, es))
  {
    if es != [] {
      RunKeeps(s, es[..|es| - 1]);
      ApplyKeeps(Run(s, es[..|es| - 1]), es[|es| - 1]);
    }
  }

  // ---- theorems over every interleaving ------------------------------------------------------------

  /**
   * A settled row names exactly the on-chain status, an ACTIVE row was funded, and the escrow has the row's expiry
   * and pays out at most once.
   */
  lemma RowMirrorsChain(es: seq<Event>)
    ensures var s := Run(Init, es);
      && (s.row.Row? && Terminal(s.row.status) ==>
        s.escrow.Account? && s.row.status == PaymentLinkStatus(s.escrow.status))
      && (HasStatus(s.row, ACTIVE) ==> s.escrow.Account?)
      && (s.escrow.Account? ==> s.row.Row? && s.escrow.expiresAt == s.row.expiresAt && |s.escrow.payouts| <= 1)
      && (HasStatus(s.row, CLAIMED) ==> s.escrow.payouts == [ToRecipient])
      && (HasStatus(s.row, CANCELLED) || HasStatus(s.row, EXPIRED) ==> s.escrow.payouts == [ToSender])
  {
    RunKeeps(Init, es);
  }

  lemma AdvanceSettled(s: State, p: nat, now: int, outcome: Outcome)
    requires Inv(s) && s.row.Row? && (Terminal(s.row.status) || s.row.status == FAILED)
    requires s.row.status == FAILED ==> forall q :: q in s.calls ==> !Creating(s.calls[q])
    ensures AdvanceCall(s, p, now, outcome).row == s.row
  {
    match CallOf(s, p)
    case RedeemWriting => MirrorKeeps(s, p, CLAIMED);
    case CancelWriting => MirrorKeeps(s, p, CANCELLED);
    case RefundWriting => MirrorKeeps(s, p, EXPIRED);
    case RefundMirroring(seen) => MirrorKeeps(s, p, PaymentLinkStatus(seen));
    case _ =>
  }

  /** Once settled, a row never changes again, whatever runs next. */
  lemma {:induction false} TerminalForever(es: seq<Event>, more: seq<Event>)
    requires Run(Init, es).row.Row? && Terminal(Run(Init, es).row.status)
    ensures Run(Run(Init, es), more).row == Run(Init, es).row
  {
    if more != [] {
      var before := more[..|more| - 1];
      TerminalForever(es, before);
      RunKeeps(Init, es);
      RunKeeps(Run(Init, es), before);
      var s := Run(Run(Init, es), before);
      match more[|more| - 1]
      case Advance(p, now, outcome) => AdvanceSettled(s, p, now, outcome);
      case _ =>
    }
  }

  /** The events of this service, as opposed to transactions sent to the program directly. */
  predicate ServiceOnly(es: seq<Event>) {
    forall i :: 0 <= i < |es| ==> !es[i].Direct?
  }

  /** No creating call is left, so a PENDING or FAILED row can no longer become ACTIVE. */
  predicate Abandoned(s: State) {
    && s.row.Row? && (s.row.status == PENDING || s.row.status == FAILED)
    && forall p :: p in s.calls ==> !Creating(s.calls[p])
  }

  lemma AbandonedStep(s: State, e: Event)
    requires Inv(s) && Abandoned(s) && !e.Direct?
    ensures Abandoned(Apply(s, e)) && Apply(s, e).escrow == s.escrow && Apply(s, e).row == s.row
  {
    if e.Advance? {
      assert CallOf(s, e.p).Idle?;
    }
  }

  /** An escrow behind an abandoned row is out of the service's reach for good: no run of it moves the funds. */
  lemma {:induction false} AbandonedEscrowNeverMoves(s: State, es: seq<Event>)
    requires Inv(s) && Abandoned(s) && ServiceOnly(es)
    ensures Run(s, es).escrow == s.escrow && Run(s, es).row == s.row && Abandoned(Run(s, es))
  {
    if es != [] {
      var before := es[..|es| - 1];
      AbandonedEscrowNeverMoves(s, before);
      RunKeeps(s, before);
      AbandonedStep(Run(s, before), es[|es| - 1]);
    }
  }

  // ---- when funds are stranded ----------------------------------------------------------------------

  /** Funds behind a row that no call will ever activate. */
  predicate Stranded(s: State) {
    Abandoned(s) && s.escrow.Account?
  }

  /** How the funding step ends decides the next statement: a landed but thrown funding goes to the FAILED write. */
  lemma FundingEnds(s: State, p: nat, now: int, outcome: Outcome)
    requires Inv(s) && CallOf(s, p).Funding?
    ensures var t := Apply(s, Advance(p, now, outcome));
      && (CallOf(t, p).Activating? <==> outcome == Confirmed)
      && (CallOf(t, p).Failing? <==> outcome != Confirmed)
      && (t.escrow.Account? <==> outcome != Rejected)
  {
    assert CallInv(s, CallOf(s, p));
  }

  /**
   * A creation that runs to its end leaves a FAILED row over a funded escrow exactly when the funding landed although
   * the call threw.
   */
  lemma FailedOverFundsExactly(s: State, p: nat, now: int, outcome: Outcome, now': int, outcome': Outcome)
    requires Inv(s) && CallOf(s, p).Funding?
    ensures var t := Apply(Apply(s, Advance(p, now, outcome)), Advance(p, now', outcome'));
      && (HasStatus(t.row, ACTIVE) <==> outcome == Confirmed)
      && (HasStatus(t.row, FAILED) && t.escrow.Account? <==> outcome == LandedButThrew)
      && (Stranded(t) <==> outcome == LandedButThrew)
  {
    assert CallInv(s, CallOf(s, p));
    FundingEnds(s, p, now, outcome);
    ApplyKeeps(s, Advance(p, now, outcome));
    var u := Apply(s, Advance(p, now, outcome));
    var t := Apply(u, Advance(p, now', outcome'));
    forall q | q in t.calls ensures !Creating(t.calls[q]) {
      if q != p { assert q in s.calls && p in s.calls; }
    }
  }

  /** The step that strands funds: writing FAILED over an account, or stopping before the row is written. */
  predicate Strands(s: State, e: Event) {
    && (e.Advance? || e.Crash?) && s.escrow.Account?
    && (CallOf(s, e.p).Failing? || (CallOf(s, e.p).Activating? && e.Crash?))
  }

  lemma StrandedStep(s: State, e: Event)
    requires Inv(s)
    ensures Stranded(Apply(s, e)) <==> Stranded(s) || Strands(s, e)
  {
    var t := Apply(s, e);
    if Stranded(s) {
      if !e.Direct? { AbandonedStep(s, e); }
    } else if Strands(s, e) {
      assert CallInv(s, s.calls[e.p]);
      forall q | q in t.calls ensures !Creating(t.calls[q]) {
        if q != e.p { assert q in s.calls && Creating(s.calls[e.p]); }
      }
    } else if s.row.Row? && (s.row.status == PENDING || s.row.status == FAILED) {
      NotStranded(s, e);
    } else if Live(s.row) {
      ApplyLive(s, e);
    }
  }

  /** A live row stays live. */
  lemma ApplyLive(s: State, e: Event)
    requires Inv(s) && Live(s.row)
    ensures Live(Apply(s, e).row)
  {
    if e.Advance? && e.p in s.calls { assert CallInv(s, s.calls[e.p]); }
  }

  lemma NotStranded(s: State, e: Event)
    requires Inv(s) && !Stranded(s) && !Strands(s, e)
    requires s.row.Row? && (s.row.status == PENDING || s.row.status == FAILED)
    ensures !Stranded(Apply(s, e))
  {
    var t := Apply(s, e);
    if exists q :: q in s.calls && Creating(s.calls[q]) {
      var q :| q in s.calls && Creating(s.calls[q]);
      assert CallInv(s, s.calls[q]);
      if (e.Advance? || e.Crash?) && e.p == q {
        if e.Advance? && s.calls[q].Funding? { FundingEnds(s, q, e.now, e.outcome); }
      } else {
        if e.Advance? { assert CallOf(s, e.p).Idle?; }
        assert t.calls[q] == s.calls[q];
      }
    }
  }

  /** Event `i` is a funding that landed on chain. */
  ghost predicate Landed(es: seq<Event>, i: nat) {
    i < |es| && es[i].Advance? && es[i].outcome != Rejected && CallOf(Run(Init, es[..i]), es[i].p).Funding?
  }

  /**
   * Event `j` is the creating call's next one after event `i`, and it does not activate the row: the call had thrown,
   * or it stops.
   */
  ghost predicate CutShort(es: seq<Event>, i: nat, j: nat)
    requires i < |es| && es[i].Advance?
  {
    && i < j < |es| && (es[j].Advance? || es[j].Crash?) && es[j].p == es[i].p
    && Creating(CallOf(Run(Init, es[..j]), es[j].p))
    && (es[i].outcome == LandedButThrew || es[j].Crash?)
  }

  /** A call reaches its last write over an account only by a funding that lands. */
  lemma CameFrom(s: State, e: Event, p: nat)
    requires Inv(s)
    requires var t := Apply(s, e); CallOf(t, p).Activating? || (CallOf(t, p).Failing? && t.escrow.Account?)
    ensures
      || (CallOf(s, p) == CallOf(Apply(s, e), p) && s.escrow.Account?)
      || (&& e.Advance? && e.p == p && CallOf(s, p).Funding? && e.outcome != Rejected
          && (e.outcome == LandedButThrew <==> CallOf(Apply(s, e), p).Failing?))
  {
    if CallOf(Apply(s, e), p) == CallOf(s, p) {
      assert CallInv(s, CallOf(s, p));
      if s.escrow.NoAccount? { AccountAppears(s, e); }
    } else {
      OwnStep(s, e, p);
    }
  }

  /** Only a funding creates the account. */
  lemma AccountAppears(s: State, e: Event)
    requires Inv(s) && s.escrow.NoAccount? && Apply(s, e).escrow.Account?
    ensures e.Advance? && CallOf(s, e.p).Funding?
  {
  }

  /** A call gets to its last write by its own funding step. */
  lemma OwnStep(s: State, e: Event, p: nat)
    requires Inv(s) && CallOf(Apply(s, e), p) != CallOf(s, p)
    requires var t := Apply(s, e); CallOf(t, p).Activating? || (CallOf(t, p).Failing? && t.escrow.Account?)
    ensures e.Advance? && e.p == p && CallOf(s, p).Funding?
    ensures e.outcome != Rejected && (e.outcome == LandedButThrew <==> CallOf(Apply(s, e), p).Failing?)
  {
    assert e.Advance? && e.p == p;
    assert CallInv(s, CallOf(s, p));
  }

  /** A call waiting to write the row after a landed funding was brought there by that funding. */
  lemma {:induction false} FundedBy(es: seq<Event>, p: nat) returns (i: nat)
    requires var s := Run(Init, es); CallOf(s, p).Activating? || (CallOf(s, p).Failing? && s.escrow.Account?)
    ensures Landed(es, i) && es[i].p == p
    ensures es[i].outcome == LandedButThrew <==> CallOf(Run(Init, es), p).Failing?
  {
    var before, e := es[..|es| - 1], es[|es| - 1];
    var s := Run(Init, before);
    RunKeeps(Init, before);
    CameFrom(s, e, p);
    if e.Advance? && e.p == p && CallOf(s, p).Funding? {
      i := |es| - 1;
    } else {
      i := FundedBy(before, p);
      assert before[..i] == es[..i];
    }
  }

  /** Over an existing account no call starts funding, and a creating call waits or ends. */
  lemma WaitStep(s: State, e: Event, p: nat)
    requires Inv(s) && s.row.Row? && s.escrow.Account?
    ensures var t := Apply(s, e);
      t.row.Row? && t.escrow.Account? && (Creating(CallOf(t, p)) ==> CallOf(t, p) == CallOf(s, p))
  {
    if p in s.calls { assert CallInv(s, s.calls[p]); }
    if e.Advance? && e.p in s.calls { assert CallInv(s, s.calls[e.p]); }
  }

  /** After a landed funding the call waits where its outcome put it, until its next event. */
  lemma {:induction false} WaitsAfter(es: seq<Event>, i: nat, j: nat)
    requires Landed(es, i) && i < j <= |es|
    ensures var s := Run(Init, es[..j]); var c := CallOf(s, es[i].p);
      && s.row.Row? && s.escrow.Account?
      && (Creating(c) ==> if es[i].outcome == LandedButThrew then c.Failing? else c.Activating?)
    decreases j
  {
    var s := Run(Init, es[..j - 1]);
    RunKeeps(Init, es[..j - 1]);
    assert es[..j][..j - 1] == es[..j - 1];
    assert Run(Init, es[..j]) == Apply(s, es[j - 1]);
    if j == i + 1 {
      FundingEnds(s, es[i].p, es[i].now, es[i].outcome);
      assert CallInv(s, CallOf(s, es[i].p));
    } else {
      WaitsAfter(es, i, j - 1);
      WaitStep(s, es[j - 1], es[i].p);
    }
  }

  /** The funding at `i` landed and was cut short at `j`. */
  ghost predicate StrandedBy(es: seq<Event>, i: nat, j: nat) {
    Landed(es, i) && CutShort(es, i, j)
  }

  /** Whether events before the last stranded funds does not depend on the last. */
  lemma SameEarlier(es: seq<Event>, i: nat, j: nat)
    requires j < |es| - 1
    ensures StrandedBy(es[..|es| - 1], i, j) <==> StrandedBy(es, i, j)
  {
    var before := es[..|es| - 1];
    assert i < j ==> before[..i] == es[..i];
    assert before[..j] == es[..j];
  }

  /** Stranded funds have a funding that was cut short. */
  lemma {:induction false} StrandedHasCause(es: seq<Event>) returns (i: nat, j: nat)
    requires Stranded(Run(Init, es))
    ensures StrandedBy(es, i, j)
  {
    j := |es| - 1;
    var before := es[..j];
    RunKeeps(Init, before);
    StrandedStep(Run(Init, before), es[j]);
    if Stranded(Run(Init, before)) {
      i, j := StrandedHasCause(before);
      SameEarlier(es, i, j);
    } else {
      i := FundedBy(before, es[j].p);
      assert before[..i] == es[..i];
    }
  }

  /** A funding that was cut short strands its funds, for good. */
  lemma {:induction false} CauseStrands(es: seq<Event>, i: nat, j: nat)
    requires StrandedBy(es, i, j)
    ensures Stranded(Run(Init, es))
  {
    var k := |es| - 1;
    RunKeeps(Init, es[..k]);
    StrandedStep(Run(Init, es[..k]), es[k]);
    if j < k {
      SameEarlier(es, i, j);
      CauseStrands(es[..k], i, j);
    } else {
      WaitsAfter(es, i, j);
    }
  }

  /**
   * Over every run: funds are stranded if and only if a funding landed and its call then threw, or stopped before it
   * could mark the row ACTIVE.
   */
  lemma StrandedExactly(es: seq<Event>)
    ensures Stranded(Run(Init, es)) <==> exists i, j :: StrandedBy(es, i, j)
  {
    if Stranded(Run(Init, es)) {
      var i, j := StrandedHasCause(es);
    }
    if exists i, j :: StrandedBy(es, i, j) {
      var i: nat, j: nat :| StrandedBy(es, i, j);
      CauseStrands(es, i, j);
    }
  }

  /** The other way in: the funding is confirmed and the call stops before it writes the row, which stays PENDING. */
  lemma PendingRowOverFundedEscrow()
    ensures exists es :: ServiceOnly(es) && Stranded(Run(Init, es))
                         && HasStatus(Run(Init, es).row, PENDING) && Run(Init, es).escrow == Account(0, 10, [])
  {
    var a := [StartCreate(0, 10)];
    var b := a + [Advance(0, 0, Confirmed)];
    var c := b + [Crash(0)];
    assert a[..0] == [] && b[..1] == a && c[..2] == b;
    assert Run(Init, a) == Apply(Init, a[0]);
    assert Run(Init, b) == Apply(Run(Init, a), b[1]);
    assert Run(Init, c) == Apply(Run(Init, b), c[2]);
    assert ServiceOnly(c);
  }

  /** Such rows exist: the funding lands, the relayer call throws, and the row is marked FAILED over a funded escrow. */
  lemma FailedRowOverFundedEscrow()
    ensures exists es :: ServiceOnly(es) && Abandoned(Run(Init, es))
                         && HasStatus(Run(Init, es).row, FAILED) && Run(Init, es).escrow == Account(0, 10, [])
  {
    var a := [StartCreate(0, 10)];
    var b := a + [Advance(0, 0, LandedButThrew)];
    var c := b + [Advance(0, 0, Confirmed)];
    assert a[..0] == [] && b[..1] == a && c[..2] == b;
    assert Run(Init, []) == Init;
    assert Run(Init, a) == Apply(Init, a[0]);
    assert Run(Init, b) == Apply(Run(Init, a), b[1]);
    assert Run(Init, c) == Apply(Run(Init, b), c[2]);
    assert ServiceOnly(c);
  }

  /** The last write of a claim, a cancellation or a refund. */
  predicate AtLastWrite(c: Call) {
    c.RedeemWriting? || c.CancelWriting? || c.RefundMirroring? || c.RefundWriting?
  }

  /**
   * In every interleaving, a call that gets to its last write leaves the row terminal and naming the chain status,
   * and no later run changes it.
   */
  lemma LastWriteMirrors(es: seq<Event>, p: nat, now: int, outcome: Outcome, more: seq<Event>)
    requires AtLastWrite(CallOf(Run(Init, es), p))
    ensures var t := Apply(Run(Init, es), Advance(p, now, outcome));
      && t.escrow == Run(Init, es).escrow && t.escrow.Account? && t.row.Row? && Terminal(t.row.status)
      && t.row.status == PaymentLinkStatus(t.escrow.status)
      && Run(t, more).row == t.row
  {
    RunKeeps(Init, es);
    var s := Run(Init, es);
    assert CallInv(s, s.calls[p]);
    var e := Advance(p, now, outcome);
    assert (es + [e])[..|es|] == es;
    assert Run(Init, es + [e]) == Apply(s, e);
    TerminalForever(es + [e], more);
  }

  /**
   * Refunding on an expired ACTIVE row, one call running alone with every transaction confirmed, repairs the mirror.
   */
  lemma LoneRefundRepairs(s: State, p: nat, now: int, chainNow: int)
    requires Inv(s) && HasStatus(s.row, ACTIVE) && s.row.expiresAt < now && CallOf(s, p).Idle?
    requires s.escrow.Account? && (s.escrow.status == 0 ==> chainNow > s.escrow.expiresAt)
    ensures
      var step := Advance(p, chainNow, Confirmed);
      var t := Apply(Apply(Apply(Apply(s, StartSweep(p, now)), step), step), step);
      && t.row.status == PaymentLinkStatus(t.escrow.status) && Terminal(t.row.status)
      && t.escrow.status == (if s.escrow.status == 0 then 3 else s.escrow.status)
  {
  }

  // ---- which party a call pays ----------------------------------------------------------------------

  /** A link that was created: an ACTIVE row over an active escrow with the row's expiry. */
  lemma LoneCreation(p: nat, expiresAt: int, now: int)
    ensures
      var step := Advance(p, now, Confirmed);
      var t := Apply(Apply(Apply(Init, StartCreate(p, expiresAt)), step), step);
      && t.row == Row(ACTIVE, true, expiresAt) && t.escrow == Account(0, expiresAt, [])
  {
  }

  /**
   * One claim running alone with every transaction confirmed. Up to the row's expiry it pays the recipient and writes
   * CLAIMED exactly when the escrow is active and not expired on chain; after it, it never claims but goes the refund
   * way.
   */
  lemma LoneClaim(s: State, p: nat, now: int, chainNow: int)
    requires Inv(s) && HasStatus(s.row, ACTIVE) && CallOf(s, p).Idle?
    ensures
      var step := Advance(p, chainNow, Confirmed);
      var t := Apply(Apply(Apply(Apply(Apply(s, StartClaim(p, now)), step), step), step), step);
      if now <= s.row.expiresAt then
        if s.escrow.status == 0 && chainNow <= s.escrow.expiresAt
        then t.row == s.row.(status := CLAIMED) && t.escrow == Account(1, s.escrow.expiresAt, [ToRecipient])
        else t.row == s.row && t.escrow == s.escrow
      else if s.escrow.status == 0 then
        if chainNow > s.escrow.expiresAt
        then t.row == s.row.(status := EXPIRED) && t.escrow == Account(3, s.escrow.expiresAt, [ToSender])
        else t.row == s.row && t.escrow == s.escrow
      else
        && t.row == s.row.(status := PaymentLinkStatus(s.escrow.status)) && Terminal(t.row.status)
        && t.escrow == s.escrow
  {
  }

  /** One cancellation running alone pays the sender and writes CANCELLED exactly when the escrow is active. */
  lemma LoneCancel(s: State, p: nat, chainNow: int)
    requires Inv(s) && HasStatus(s.row, ACTIVE) && CallOf(s, p).Idle?
    ensures
      var step := Advance(p, chainNow, Confirmed);
      var t := Apply(Apply(Apply(s, StartCancel(p)), step), step);
      if s.escrow.status == 0
      then t.row == s.row.(status := CANCELLED) && t.escrow == Account(2, s.escrow.expiresAt, [ToSender])
      else t.row == s.row && t.escrow == s.escrow
  {
  }

  /** A call that started on `row` by `e` set out to do `action`. */
  predicate SetsOut(row: Row, e: Event, action: ChainAction) {
    && HasStatus(row, ACTIVE)
    && match action
       case Claim => e.StartClaim? && e.now <= row.expiresAt
       case Cancel => e.StartCancel?
       case Refund => (e.StartClaim? || e.StartSweep?) && row.expiresAt < e.now
  }

  /** The transaction that a call at `c` submits or has submitted. */
  function Submits(c: Call): Option<ChainAction> {
    if c.ClaimChecking? || c.ClaimSubmitting? || c.RedeemReading? || c.RedeemWriting? then Some(Claim)
    else if c.CancelSubmitting? || c.CancelWriting? then Some(Cancel)
    else if c.RefundReading? || c.RefundMirroring? || c.RefundSubmitting? || c.RefundWriting? then Some(Refund)
    else None
  }

  /** Event `i` started the call that `p` is in: nothing ended it since. */
  ghost predicate StartedAt(es: seq<Event>, i: nat, p: nat) {
    && i < |es| && !es[i].Advance? && !es[i].Crash? && !es[i].Direct? && es[i].p == p
    && CallOf(Run(Init, es[..i]), p).Idle?
    && forall k :: i < k <= |es| ==> !CallOf(Run(Init, es[..k]), p).Idle?
  }

  /** A step keeps what a call in progress is there to submit; a call that begins has set out to do it. */
  lemma SubmitsStep(s: State, e: Event, p: nat)
    requires Submits(CallOf(Apply(s, e), p)).Some?
    ensures CallOf(s, p).Idle? ==>
      !e.Advance? && !e.Crash? && !e.Direct? && e.p == p && SetsOut(s.row, e, Submits(CallOf(Apply(s, e), p)).value)
    ensures !CallOf(s, p).Idle? ==> Submits(CallOf(s, p)) == Submits(CallOf(Apply(s, e), p))
  {
  }

  /** Every call in a claim, cancellation or refund was started by an event that set out to do just that. */
  lemma {:induction false} HasStart(es: seq<Event>, p: nat) returns (i: nat)
    requires Submits(CallOf(Run(Init, es), p)).Some?
    ensures StartedAt(es, i, p)
    ensures SetsOut(Run(Init, es[..i]).row, es[i], Submits(CallOf(Run(Init, es), p)).value)
  {
    var before, e := es[..|es| - 1], es[|es| - 1];
    var s := Run(Init, before);
    assert es[..|es|] == es;
    SubmitsStep(s, e, p);
    if CallOf(s, p).Idle? {
      i := |es| - 1;
    } else {
      i := HasStart(before, p);
      assert forall k :: 0 <= k <= |before| ==> before[..k] == es[..k];
    }
  }

  /** A call's payout is that of its transaction, within the program's time limits. */
  lemma PayoutStep(s: State, p: nat, now: int, outcome: Outcome)
    requires s.escrow.Account? && AdvanceCall(s, p, now, outcome).escrow != s.escrow
    ensures Submits(CallOf(s, p)).Some? && s.escrow.status == 0
    ensures var e := AdvanceCall(s, p, now, outcome).escrow;
      match Submits(CallOf(s, p)).value
      case Claim => now <= s.escrow.expiresAt && e == Account(1, s.escrow.expiresAt, s.escrow.payouts + [ToRecipient])
      case Cancel => e == Account(2, s.escrow.expiresAt, s.escrow.payouts + [ToSender])
      case Refund => now > s.escrow.expiresAt && e == Account(3, s.escrow.expiresAt, s.escrow.payouts + [ToSender])
  {
  }

  /** The escrow `paid` is what a call started on `row` by `e` may make of an active one with expiry `limit`. */
  predicate PaysAsStarted(row: Row, e: Event, limit: int, paid: Escrow, now: int) {
    && HasStatus(row, ACTIVE)
    && match e
       case StartCancel(_) => paid == Account(2, limit, [ToSender])
       case StartClaim(_, started) =>
         if started <= row.expiresAt then paid == Account(1, limit, [ToRecipient]) && now <= limit
         else paid == Account(3, limit, [ToSender]) && now > limit
       case StartSweep(_, started) =>
         row.expiresAt < started && paid == Account(3, limit, [ToSender]) && now > limit
       case _ => false
  }

  /**
   * Over every run: a call that moves the escrow's funds was started on an ACTIVE row. It pays the recipient if and
   * only if it started as a claim not after the row's expiry, and otherwise the sender: as a cancellation, or as a
   * sweep or a claim after the expiry, which the chain lets through only after its own.
   */
  lemma PayoutFollowsStart(es: seq<Event>, p: nat, now: int, outcome: Outcome)
    requires Run(Init, es).escrow.Account?
    requires Apply(Run(Init, es), Advance(p, now, outcome)).escrow != Run(Init, es).escrow
    ensures Run(Init, es).escrow.status == 0
    ensures exists i: nat :: StartedAt(es, i, p) && PaysAsStarted(Run(Init, es[..i]).row, es[i],
      Run(Init, es).escrow.expiresAt, Apply(Run(Init, es), Advance(p, now, outcome)).escrow, now)
  {
    RunKeeps(Init, es);
    PayoutStep(Run(Init, es), p, now, outcome);
    var i := HasStart(es, p);
    assert Run(Init, es).escrow.payouts == [];
  }
}

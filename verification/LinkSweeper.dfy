/**
 * The expiry sweep over the whole link table: `sweepExpired` and `refundExpiredLink`, with the wallets,
 * clocks and relayer failures of one run as input.
 */
module LinkSweeper {
  import opened Prelude
  import opened LinkProtocol

  datatype LinkRow = LinkRow(
    pay: bool,
    status: Status,
    envelopeId: Option<string>,
    senderUserId: Option<string>,
    expiresAt: Option<int>)

  datatype ChainAccount = ChainAccount(status: ChainStatus, expiresAt: int)

  /** Everything one sweep meets: both clocks, users with a wallet, and escrows whose relayer calls throw. */
  datatype World = World(
    now: int,
    chainNow: int,
    wallets: set<string>,
    readFails: set<string>,
    refundFails: set<string>)

  type Chain = map<string, ChainAccount>

  /** The rows `sweepExpired` selects. */
  predicate Candidate(row: LinkRow, now: int) {
    row.pay && row.status == ACTIVE && row.envelopeId.Some? && row.expiresAt.Some? && row.expiresAt.value < now
  }

  predicate SenderHasWallet(row: LinkRow, w: World) {
    row.senderUserId.Some? && row.senderUserId.value in w.wallets
  }

  /** The refund transaction for this escrow goes through. */
  predicate Refundable(e: string, chain: Chain, w: World) {
    e in chain && chain[e].status == 0 && w.chainNow > chain[e].expiresAt && e !in w.readFails && e !in w.refundFails
  }

  /** The sweep's error branch for a selected row. */
  predicate Throws(row: LinkRow, chain: Chain, w: World) {
    row.envelopeId.Some? && SenderHasWallet(row, w) &&
    var e := row.envelopeId.value;
    e in w.readFails || (e in chain && chain[e].status == 0 && !Refundable(e, chain, w))
  }

  /** The status a sweep must leave in a row. */
  function SweptStatus(row: LinkRow, chain: Chain, w: World): Status {
    if !Candidate(row, w.now) || !SenderHasWallet(row, w) || row.envelopeId.value in w.readFails then row.status
    else
      var e := row.envelopeId.value;
      if e !in chain then row.status
      else if chain[e].status != 0 then PaymentLinkStatus(chain[e].status)
      else if Refundable(e, chain, w) then EXPIRED else row.status
  }

  /** Nothing goes wrong: selected rows have a sender wallet and an account, and no relayer call throws. */
  ghost predicate ErrorFree(rows: map<string, LinkRow>, chain: Chain, w: World) {
    forall c :: c in rows && Candidate(rows[c], w.now) ==>
      && SenderHasWallet(rows[c], w)
      && rows[c].envelopeId.value in chain
      && !Throws(rows[c], chain, w)
  }

  /** `after` differs from `before` only by refunds of active, expired escrows. */
  ghost predicate RefundsOnly(before: Chain, after: Chain, w: World) {
    && after.Keys == before.Keys
    && forall e :: e in before ==>
      after[e] == before[e] || (Refundable(e, before, w) && after[e] == before[e].(status := 3))
  }

  /** Refunds made earlier in the same sweep do not change what a later row must become. */
  lemma SweptStatusStable(row: LinkRow, before: Chain, after: Chain, w: World)
    requires RefundsOnly(before, after, w)
    ensures SweptStatus(row, after, w) == SweptStatus(row, before, w)
    ensures Throws(row, after, w) == Throws(row, before, w)
  {
    if row.envelopeId.Some? && row.envelopeId.value in before {
      var e := row.envelopeId.value;
      assert after[e] == before[e] || (Refundable(e, before, w) && after[e] == before[e].(status := 3));
    }
  }

  function SweptRow(row: LinkRow, chain: Chain, w: World): LinkRow {
    row.(status := SweptStatus(row, chain, w))
  }

  type Rows = map<string, LinkRow>

  /** The refund of this selected row goes through. */
  predicate Pays(row: LinkRow, chain: Chain, w: World) {
    row.envelopeId.Some? && SenderHasWallet(row, w) && Refundable(row.envelopeId.value, chain, w)
  }

  /** The sweep has treated exactly the rows in `done`. */
  ghost predicate Treated(rows0: Rows, chain0: Chain, rows: Rows, chain: Chain, done: set<string>, w: World) {
    && rows.Keys == rows0.Keys
    && done <= rows0.Keys
    && (forall c :: c in rows0 ==> rows[c] == if c in done then SweptRow(rows0[c], chain0, w) else rows0[c])
    && RefundsOnly(chain0, chain, w)
    && (forall c :: c in done && Pays(rows0[c], chain0, w) ==> chain[rows0[c].envelopeId.value].status == 3)
  }

  /** What one treated row does to the table and the chain. */
  ghost predicate TreatsOne(rows: Rows, chain: Chain, rows': Rows, chain': Chain, code: string, w: World) {
    && code in rows
    && rows' == rows[code := SweptRow(rows[code], chain, w)]
    && RefundsOnly(chain, chain', w)
    && (Pays(rows[code], chain, w) ==> chain'[rows[code].envelopeId.value].status == 3)
  }

  lemma TreatNext(rows0: Rows, chain0: Chain, rows: Rows, chain: Chain, rows': Rows, chain': Chain,
                  done: set<string>, code: string, w: World)
    requires Treated(rows0, chain0, rows, chain, done, w) && code !in done
    requires TreatsOne(rows, chain, rows', chain', code, w)
    ensures Treated(rows0, chain0, rows', chain', done + {code}, w)
  {
    SweptStatusStable(rows[code], chain0, chain, w);
    forall e | e in chain0
      ensures chain'[e] == chain0[e] || (Refundable(e, chain0, w) && chain'[e] == chain0[e].(status := 3))
    {
      assert chain[e] == chain0[e] || chain[e] == chain0[e].(status := 3);
      assert chain'[e] == chain[e] || chain'[e] == chain[e].(status := 3);
    }
    forall c | c in done + {code} && Pays(rows0[c], chain0, w)
      ensures chain'[rows0[c].envelopeId.value].status == 3
    {
      var e := rows0[c].envelopeId.value;
      assert chain[e] == chain0[e] || chain[e].status == 3;
      assert chain'[e] == chain[e] || chain'[e].status == 3;
    }
  }

  /** An error-free sweep leaves no expired ACTIVE funded link, and every selected row mirrors its escrow. */
  lemma ErrorFreeSweep(rows0: Rows, chain0: Chain, rows: Rows, chain: Chain, done: set<string>, w: World)
    requires Treated(rows0, chain0, rows, chain, done, w) && ErrorFree(rows0, chain0, w)
    requires forall c :: c in done <==> c in rows0 && Candidate(rows0[c], w.now)
    ensures forall c :: c in rows ==> !Candidate(rows[c], w.now)
    ensures forall c :: c in done ==>
      && rows[c].envelopeId.Some? && rows[c].envelopeId.value in chain
      && rows[c].status == PaymentLinkStatus(chain[rows[c].envelopeId.value].status)
      && Terminal(rows[c].status)
  {
    forall c | c in done
      ensures rows[c].envelopeId.Some? && rows[c].envelopeId.value in chain
      ensures rows[c].status == PaymentLinkStatus(chain[rows[c].envelopeId.value].status) && Terminal(rows[c].status)
    {
      var e := rows0[c].envelopeId.value;
      assert chain[e] == chain0[e] || (Refundable(e, chain0, w) && chain[e] == chain0[e].(status := 3));
    }
  }

  class SolanaPaymentLinks {
    var rows: Rows
    var chain: Chain

    constructor (rows: Rows, chain: Chain)
      ensures this.rows == rows && this.chain == chain
    {
      this.rows, this.chain := rows, chain;
    }

    /** Refunds or repairs one selected link; `threw` stands for a relayer exception. */
    method RefundExpiredLink(code: string, w: World) returns (threw: bool)
      requires code in rows && Candidate(rows[code], w.now)
      modifies this
      ensures threw == Throws(old(rows)[code], old(chain), w)
      ensures TreatsOne(old(rows), old(chain), rows, chain, code, w)
    {
      var link := rows[code];
      var e := link.envelopeId.value;
      threw := false;
      assert rows == rows[code := link.(status := link.status)];
      if !SenderHasWallet(link, w) { return; }
      if e in w.readFails { threw := true; return; }
      if e !in chain { return; }
      if chain[e].status != 0 {
        rows := rows[code := link.(status := PaymentLinkStatus(chain[e].status))];
        return;
      }
      if e in w.refundFails || w.chainNow <= chain[e].expiresAt { threw := true; return; }
      chain := chain[e := chain[e].(status := 3)];
      rows := rows[code := link.(status := EXPIRED)];
    }

    /**
     * One sweep over `selected`, the codes the query returned. The list it returns holds every link whose
     * refund call did not throw, including links that were skipped or only repaired.
     */
    method SweepExpired(selected: seq<string>, w: World) returns (refunded: seq<string>)
      requires Distinct(selected)
      requires forall c :: c in selected <==> c in rows && Candidate(rows[c], w.now)
      modifies this
      ensures Treated(old(rows), old(chain), rows, chain, Elements(selected), w)
      ensures forall c :: c in refunded <==> c in selected && c in old(rows) && !Throws(old(rows)[c], old(chain), w)
      ensures rows.Keys == old(rows).Keys && chain.Keys == old(chain).Keys
      ensures forall c :: c in rows && rows[c] != old(rows)[c] ==>
        var row := old(rows)[c];
        && row.pay && row.status == ACTIVE && row.expiresAt.Some? && row.expiresAt.value < w.now
        && Terminal(rows[c].status) && rows[c] == row.(status := rows[c].status)
      ensures forall e :: e in chain && chain[e] != old(chain)[e] ==>
        old(chain)[e].status == 0 && old(chain)[e].expiresAt < w.chainNow && chain[e] == old(chain)[e].(status := 3)
      ensures ErrorFree(old(rows), old(chain), w) ==>
        forall c :: c in rows && rows[c].pay && rows[c].status == ACTIVE ==>
        rows[c].envelopeId.None? || rows[c].expiresAt.None? || rows[c].expiresAt.value >= w.now
      ensures ErrorFree(old(rows), old(chain), w) ==> forall c :: c in selected ==> c in refunded
    {
      refunded := [];
      ghost var done: set<string> := {};
      for i := 0 to |selected|
        invariant done == Elements(selected[..i])
        invariant Treated(old(rows), old(chain), rows, chain, done, w)
        invariant forall c :: c in refunded <==> c in done && !Throws(old(rows)[c], old(chain), w)
      {
        var c := selected[i];
        assert c !in done;
        ghost var rows1, chain1 := rows, chain;
        SweptStatusStable(rows1[c], old(chain), chain1, w);
        var threw := RefundExpiredLink(c, w);
        TreatNext(old(rows), old(chain), rows1, chain1, rows, chain, done, c, w);
        if !threw { refunded := refunded + [c]; }
        done := done + {c};
        assert selected[..i + 1] == selected[..i] + [c];
      }
      assert selected[..|selected|] == selected;
      if ErrorFree(old(rows), old(chain), w) {
        ErrorFreeSweep(old(rows), old(chain), rows, chain, done, w);
        assert forall c :: c in rows ==> !Candidate(rows[c], w.now);
      }
    }
  }
}

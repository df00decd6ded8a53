/** The listener's own loop: one `scanOnce` of a single replica, with its cursor row and Deposit table as fields. */
module DepositListener {
  import opened Prelude
  import opened DepositLogs
  import opened DepositIndexer

  /** What one scan meets: the finalized head, the wallet table, the token index, and logs whose processing throws. */
  datatype ScanInput = ScanInput(
    head: int,
    addresses: seq<Address>,
    wallets: Wallets,
    tokens: set<Address>,
    faulty: set<LogKey>)

  ghost predicate InputOk(i: ScanInput) {
    Distinct(i.addresses) && Elements(i.addresses) == i.wallets.Keys
  }

  /** The row a creditable log becomes. */
  function RowFor(l: Log, i: ScanInput): Deposit
    requires |l.topics| == 3 && AddressOf(l.topics[2]) in i.wallets
  {
    Deposit(l, i.wallets[AddressOf(l.topics[2])], i.wallets, l.token in i.tokens)
  }

  /** A deposit whose processing does not throw. */
  predicate Due(cfg: Config, l: Log, i: ScanInput) {
    Creditable(l, i.wallets, cfg.protocol) && KeyOf(l) !in i.faulty
  }

  /** The keys of the rows whose token is known, which are the ones announced. */
  function AnnouncedKeys(rows: seq<Deposit>): seq<LogKey> {
    if rows == [] then []
    else
      var last := rows[|rows| - 1];
      AnnouncedKeys(rows[..|rows| - 1]) + if last.recognized then [KeyOf(last.log)] else []
  }

  lemma AnnouncedSnoc(rows: seq<Deposit>, row: Deposit)
    ensures AnnouncedKeys(rows + [row]) == AnnouncedKeys(rows) + if row.recognized then [KeyOf(row.log)] else []
  {
    assert (rows + [row])[..|rows|] == rows;
  }

  /** Every row of `rows` is the row of a due log among `logs`. */
  ghost predicate RowsOf(cfg: Config, i: ScanInput, logs: seq<Log>, rows: seq<Deposit>) {
    forall k :: 0 <= k < |rows| ==> rows[k].log in logs && Due(cfg, rows[k].log, i) && rows[k] == RowFor(rows[k].log, i)
  }

  /** Every due log among the first `n` has a row. */
  ghost predicate Recorded(cfg: Config, i: ScanInput, logs: seq<Log>, n: nat, rows: seq<Deposit>) {
    forall k :: 0 <= k < n && k < |logs| && Due(cfg, logs[k], i) ==> HasRow(rows, KeyOf(logs[k]))
  }

  lemma RecordedNext(cfg: Config, i: ScanInput, logs: seq<Log>, n: nat, rows: seq<Deposit>, rows': seq<Deposit>)
    requires n < |logs| && Recorded(cfg, i, logs, n, rows) && rows <= rows'
    requires Due(cfg, logs[n], i) ==> HasRow(rows', KeyOf(logs[n]))
    ensures Recorded(cfg, i, logs, n + 1, rows')
  {
    forall k | 0 <= k < n && HasRow(rows, KeyOf(logs[k])) ensures HasRow(rows', KeyOf(logs[k])) {
      RowsGrow(rows, rows', KeyOf(logs[k]));
    }
  }

  /** Every new row is the row of a due log of the scanned span. */
  ghost predicate NewRows(cfg: Config, i: ScanInput, from: int, to: int, rows: seq<Deposit>) {
    forall k :: 0 <= k < |rows| ==>
      var l := rows[k].log;
      && l in cfg.chain && Matches(l, from, to, i.addresses) && Due(cfg, l, i)
      && rows[k] == RowFor(l, i)
  }

  lemma RecordedLogs(cfg: Config, i: ScanInput, logs: seq<Log>, rows: seq<Deposit>)
    requires Recorded(cfg, i, logs, |logs|, rows)
    ensures forall l :: l in logs && Due(cfg, l, i) ==> HasRow(rows, KeyOf(l))
  {
  }

  class DepositListenerService {
    const cfg: Config
    var cursor: Option<int>
    var deposits: seq<Deposit>
    var announced: seq<LogKey>

    ghost predicate Valid()
      reads this
    {
      RowsOk(cfg, deposits)
    }

    constructor (cfg: Config)
      ensures Valid() && this.cfg == cfg && cursor == None && deposits == [] && announced == []
    {
      this.cfg, cursor, deposits, announced := cfg, None, [], [];
    }

    method GetCursor(head: int) returns (c: int)
      modifies this`cursor
      ensures cursor == Some(c)
      ensures old(cursor).Some? ==> c == old(cursor).value
      ensures old(cursor).None? ==> c == if cfg.startBlock.Some? then cfg.startBlock.value else head
    {
      if cursor.None? {
        cursor := Some(if cfg.startBlock.Some? then cfg.startBlock.value else head);
      }
      c := cursor.value;
    }

    /** Credits one log that the query returned; the result says whether a row was written. */
    method ProcessTransferLog(l: Log, i: ScanInput) returns (r: bool)
      requires Valid() && l in cfg.chain && IsTransfer(l) && KeyOf(l) !in i.faulty
      modifies this`deposits, this`announced
      ensures Valid()
      ensures r <==> Creditable(l, i.wallets, cfg.protocol) && !HasRow(old(deposits), KeyOf(l))
      ensures r ==> deposits == old(deposits) + [RowFor(l, i)]
      ensures r ==> var row := deposits[|old(deposits)|];
        row.log == l && row.userId == i.wallets[AddressOf(l.topics[2])] && (row.recognized <==> l.token in i.tokens)
      ensures !r ==> deposits == old(deposits)
      ensures announced == old(announced) + if r && l.token in i.tokens then [KeyOf(l)] else []
    {
      r := false;
      if |l.topics| != 3 { return; }
      var sender, recipient := AddressOf(l.topics[1]), AddressOf(l.topics[2]);
      if recipient !in i.wallets { return; }
      if sender in i.wallets { return; }
      if sender in cfg.protocol { return; }
      if l.data.None? || l.data.value == 0 { return; }
      if HasRow(deposits, KeyOf(l)) { return; }
      InsertOk(cfg, deposits, RowFor(l, i));
      deposits := deposits + [RowFor(l, i)];
      if l.token in i.tokens { announced := announced + [KeyOf(l)]; }
      r := true;
    }

    /**
     * One scan from the cursor towards the head. Every deposit of the scanned span whose processing does not
     * throw has a row afterwards, no other row is new, `credited` counts the new rows, and exactly those with a
     * known token are announced.
     */
    method ScanOnce(i: ScanInput) returns (scannedTo: int, credited: nat)
      requires Valid() && InputOk(i) && (cfg.batch >= 1 || i.addresses == [])
      modifies this
      ensures Valid() && cursor == Some(scannedTo)
      ensures old(deposits) <= deposits && credited == |deposits| - |old(deposits)|
      ensures var from := (if old(cursor).Some? then old(cursor).value
                           else if cfg.startBlock.Some? then cfg.startBlock.value else i.head) + 1;
        && scannedTo == (if from > i.head then from - 1 else Min(i.head, from + cfg.span - 1))
        && (forall l :: l in cfg.chain && Matches(l, from, scannedTo, i.addresses) && Due(cfg, l, i)
             ==> HasRow(deposits, KeyOf(l)))
        && NewRows(cfg, i, from, scannedTo, deposits[|old(deposits)|..])
      ensures announced == old(announced) + AnnouncedKeys(deposits[|old(deposits)|..])
    {
      var c := GetCursor(i.head);
      var from := c + 1;
      credited := 0;
      if from > i.head { scannedTo := c; return; }
      scannedTo := Min(i.head, from + cfg.span - 1);
      if |i.addresses| == 0 {
        cursor := Some(scannedTo);
        return;
      }
      var logs := FetchTransferLogs(cfg.chain, from, scannedTo, i.addresses, cfg.batch);
      FetchedLogs(cfg, from, scannedTo, i.addresses, logs);
      ghost var added: seq<Deposit>;
      credited, added := ProcessLogs(logs, i);
      RecordedLogs(cfg, i, logs, deposits);
      cursor := Some(scannedTo);
      assert deposits[|old(deposits)|..] == added;
    }

    /** The loop over the fetched logs; one that throws is skipped. */
    method ProcessLogs(logs: seq<Log>, i: ScanInput) returns (credited: nat, ghost added: seq<Deposit>)
      requires Valid() && forall l :: l in logs ==> l in cfg.chain && IsTransfer(l)
      modifies this`deposits, this`announced
      ensures Valid()
      ensures deposits == old(deposits) + added && credited == |added| && RowsOf(cfg, i, logs, added)
      ensures Recorded(cfg, i, logs, |logs|, deposits)
      ensures announced == old(announced) + AnnouncedKeys(added)
    {
      credited, added := 0, [];
      for n := 0 to |logs|
        invariant Valid()
        invariant deposits == old(deposits) + added && credited == |added| && RowsOf(cfg, i, logs, added)
        invariant Recorded(cfg, i, logs, n, deposits)
        invariant announced == old(announced) + AnnouncedKeys(added)
      {
        ghost var rows := deposits;
        assert logs[n] in logs;
        if KeyOf(logs[n]) !in i.faulty {
          var r := ProcessTransferLog(logs[n], i);
          if r {
            credited := credited + 1;
            assert deposits[|rows|] == RowFor(logs[n], i);
            AnnouncedSnoc(added, RowFor(logs[n], i));
            added := added + [RowFor(logs[n], i)];
          }
        }
        RecordedNext(cfg, i, logs, n, rows, deposits);
      }
    }
  }

  /** The fetched list holds exactly the matching logs of the chain. */
  lemma FetchedLogs(cfg: Config, from: int, to: int, addresses: seq<Address>, logs: seq<Log>)
    requires multiset(logs) == multiset(GetLogs(cfg.chain, from, to, addresses))
    ensures forall l :: l in logs <==> l in cfg.chain && Matches(l, from, to, addresses)
    ensures forall l :: l in logs ==> IsTransfer(l)
  {
    GetLogsMembers(cfg.chain, from, to, addresses);
    forall l ensures l in logs <==> l in GetLogs(cfg.chain, from, to, addresses) {
      assert l in logs <==> l in multiset(logs);
    }
  }
}

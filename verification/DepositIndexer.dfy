/**
 * Replicas of the deposit indexer over one shared cursor row and one Deposit table.
 *
 * Each database statement and each log query is one event. A replica may stop anywhere, a cursor save may
 * arrive late and move the cursor backwards, and processing a log may throw before or after its row is written.
 * Blocks up to the finalized head do not change, so the chain is one fixed sequence of logs.
 */
module DepositIndexer {
  import opened Prelude
  import opened DepositLogs

  datatype Config = Config(
    chain: seq<Log>,
    span: int,
    batch: int,
    startBlock: Option<int>,
    protocol: set<Address>)

  /** A Deposit row, with the wallet snapshot it was judged by. */
  datatype Deposit = Deposit(log: Log, userId: string, wallets: Wallets, recognized: bool)

  /** A scan whose every fetched log has been handed to `processTransferLog`; `failed` are those that threw. */
  datatype Scan = Scan(
    from: int,
    to: int,
    addresses: seq<Address>,
    wallets: Wallets,
    handed: seq<Log>,
    failed: seq<Log>)

  datatype Phase =
    | Resting
    | HaveHead(head: int)
    | Creating(head: int)
    | HaveCursor(head: int, cursor: int)
    | Fetching(from: int, to: int, addresses: seq<Address>, wallets: Wallets, next: nat, out: seq<Log>)
    | Handing(scan: Scan, todo: seq<Log>)
    | Announcing(scan: Scan, todo: seq<Log>, key: LogKey)
    | Saving(from: int, to: int)

  datatype Fault = NoFault | ThrowsBefore | ThrowsAfter

  datatype Event =
    | ReadHead(r: nat, head: int)
    | ReadCursor(r: nat)
    | CreateCursor(r: nat)
    | LoadWallets(r: nat, addresses: seq<Address>, wallets: Wallets)
    | FetchBatch(r: nat)
    | Process(r: nat, recognized: bool, fault: Fault)
    | Announce(r: nat)
    | SaveCursor(r: nat)
    | Crash(r: nat)

  datatype State = State(
    cursor: Option<int>,
    start: Option<int>,
    deposits: seq<Deposit>,
    announced: seq<LogKey>,
    scans: seq<Scan>,
    replicas: map<nat, Phase>)

  const Init := State(None, None, [], [], [], map[])

  function PhaseOf(s: State, r: nat): Phase {
    if r in s.replicas then s.replicas[r] else Resting
  }

  function Goto(s: State, r: nat, ph: Phase): State {
    s.(replicas := s.replicas[r := ph])
  }

  predicate HasRow(deposits: seq<Deposit>, key: LogKey) {
    exists i :: 0 <= i < |deposits| && KeyOf(deposits[i].log) == key
  }

  /** Finishing the log loop completes the scan; the cursor is saved next. */
  function Proceed(s: State, r: nat, scan: Scan, todo: seq<Log>): State {
    if todo == [] then Goto(s.(scans := s.scans + [scan]), r, Saving(scan.from, scan.to))
    else Goto(s, r, Handing(scan, todo))
  }

  /** `processTransferLog` on the next log, up to and including the insert guarded by the unique key. */
  function ProcessNext(cfg: Config, s: State, r: nat, scan: Scan, todo: seq<Log>, recognized: bool, fault: Fault): State
    requires todo != []
  {
    var l := todo[0];
    var scan' := scan.(handed := scan.handed + [l]);
    var threw := scan'.(failed := scan.failed + [l]);
    if !Creditable(l, scan.wallets, cfg.protocol) then Proceed(s, r, scan', todo[1..])
    else if fault == ThrowsBefore then Proceed(s, r, threw, todo[1..])
    else if HasRow(s.deposits, KeyOf(l)) then Proceed(s, r, scan', todo[1..])
    else
      var row := Deposit(l, scan.wallets[AddressOf(l.topics[2])], scan.wallets, recognized);
      var s' := s.(deposits := s.deposits + [row]);
      if fault == ThrowsAfter then Proceed(s', r, threw, todo[1..])
      else if recognized then Goto(s', r, Announcing(scan', todo[1..], KeyOf(l)))
      else Proceed(s', r, scan', todo[1..])
  }

  function StartScan(cfg: Config, s: State, r: nat, addresses: seq<Address>, wallets: Wallets,
                     head: int, cursor: int): State
  {
    var from := cursor + 1;
    var to := Min(head, from + cfg.span - 1);
    if from > head then Goto(s, r, Resting)
    else if addresses == [] then Proceed(s, r, Scan(from, to, [], wallets, [], []), [])
    else Goto(s, r, Fetching(from, to, addresses, wallets, 0, []))
  }

  /**
   * One turn of the batching loop; with a setting that is not positive the loop never ends, and its results are never
   * used.
   */
  function Fetch(cfg: Config, s: State, r: nat, ph: Phase): State
    requires ph.Fetching?
  {
    var end := Min(ph.next + cfg.batch, |ph.addresses|);
    if ph.next >= |ph.addresses| then
      Proceed(s, r, Scan(ph.from, ph.to, ph.addresses, ph.wallets, [], []), ph.out)
    else if cfg.batch <= 0 then s
    else
      Goto(s, r, ph.(next := end, out := ph.out + GetLogs(cfg.chain, ph.from, ph.to, ph.addresses[ph.next..end])))
  }

  /** One event; an event that the replica's phase does not allow changes nothing. */
  ghost function Apply(cfg: Config, s: State, e: Event): State {
    var ph := PhaseOf(s, e.r);
    match e
    case ReadHead(r, head) => if ph.Resting? then Goto(s, r, HaveHead(head)) else s
    case ReadCursor(r) =>
      if !ph.HaveHead? then s
      else if s.cursor.Some? then Goto(s, r, HaveCursor(ph.head, s.cursor.value))
      else Goto(s, r, Creating(ph.head))
    case CreateCursor(r) =>
      if !ph.Creating? then s
      else if s.cursor.Some? then Goto(s, r, Resting)
      else
        var c := if cfg.startBlock.Some? then cfg.startBlock.value else ph.head;
        Goto(s.(cursor := Some(c), start := Some(c)), r, HaveCursor(ph.head, c))
    case LoadWallets(r, addresses, wallets) =>
      if ph.HaveCursor? && Distinct(addresses) && Elements(addresses) == wallets.Keys
      then StartScan(cfg, s, r, addresses, wallets, ph.head, ph.cursor) else s
    case FetchBatch(r) => if ph.Fetching? then Fetch(cfg, s, r, ph) else s
    case Process(r, recognized, fault) =>
      if ph.Handing? && ph.todo != [] then ProcessNext(cfg, s, r, ph.scan, ph.todo, recognized, fault) else s
    case Announce(r) =>
      if ph.Announcing? then Proceed(s.(announced := s.announced + [ph.key]), r, ph.scan, ph.todo) else s
    case SaveCursor(r) => if ph.Saving? then Goto(s.(cursor := Some(ph.to)), r, Resting) else s
    case Crash(r) => Goto(s, r, Resting)
  }

  ghost function Run(cfg: Config, es: seq<Event>): State {
    if es == [] then Init else Apply(cfg, Run(cfg, es[..|es| - 1]), es[|es| - 1])
  }

  // ---- coverage -----------------------------------------------------------------------------------

  /** The scan handed over exactly the logs of its span addressed to its wallets, each exactly once. */
  ghost predicate Complete(cfg: Config, scan: Scan) {
    && Elements(scan.addresses) == scan.wallets.Keys
    && multiset(scan.handed) == multiset(GetLogs(cfg.chain, scan.from, scan.to, scan.addresses))
  }

  ghost predicate Covered(scans: seq<Scan>, b: int) {
    exists i :: 0 <= i < |scans| && scans[i].from <= b <= scans[i].to
  }

  /**
   * Every block after the start up to `c` lies in a finished scan; `c` is below the start only with a negative span.
   */
  ghost predicate CoveredTo(cfg: Config, s: State, c: int) {
    && s.start.Some? && (cfg.span >= 0 ==> s.start.value <= c)
    && forall b :: s.start.value < b <= c ==> Covered(s.scans, b)
  }

  /** A scan's last block lies behind the cursor it started from exactly when the configured span is negative. */
  predicate SpanInv(cfg: Config, from: int, to: int) {
    to < from - 1 <==> cfg.span < 0
  }

  /** A scan in progress over a span that continues the covered prefix. */
  ghost predicate ScanInv(cfg: Config, s: State, scan: Scan, todo: seq<Log>) {
    && SpanInv(cfg, scan.from, scan.to)
    && CoveredTo(cfg, s, scan.from - 1)
    && Elements(scan.addresses) == scan.wallets.Keys
    && multiset(scan.handed) + multiset(todo) == multiset(GetLogs(cfg.chain, scan.from, scan.to, scan.addresses))
  }

  ghost predicate CoverInv(cfg: Config, s: State, ph: Phase) {
    match ph
    case HaveCursor(_, c) => CoveredTo(cfg, s, c)
    case Fetching(from, to, addresses, wallets, next, out) =>
      && SpanInv(cfg, from, to) && next <= |addresses| && Distinct(addresses)
      && CoveredTo(cfg, s, from - 1)
      && Elements(addresses) == wallets.Keys
      && multiset(out) == multiset(GetLogs(cfg.chain, from, to, addresses[..next]))
    case Handing(scan, todo) => ScanInv(cfg, s, scan, todo)
    case Announcing(scan, todo, _) => ScanInv(cfg, s, scan, todo)
    case Saving(from, to) => SpanInv(cfg, from, to) && CoveredTo(cfg, s, to)
    case _ => true
  }

  ghost predicate Coverage(cfg: Config, s: State) {
    && (forall i :: 0 <= i < |s.scans| ==> Complete(cfg, s.scans[i]))
    && (s.cursor.Some? ==> CoveredTo(cfg, s, s.cursor.value))
    && (s.cursor.None? ==> s.start.None?)
    && (forall r :: r in s.replicas ==> CoverInv(cfg, s, s.replicas[r]))
  }

  /** Coverage only grows. */
  ghost predicate Grows(s: State, t: State) {
    && s.scans <= t.scans
    && (s.start.Some? ==> t.start == s.start)
  }

  lemma CoveredGrows(cfg: Config, s: State, t: State, c: int)
    requires Grows(s, t) && CoveredTo(cfg, s, c)
    ensures CoveredTo(cfg, t, c)
  {
    forall b | s.start.value < b <= c ensures Covered(t.scans, b) {
      assert Covered(s.scans, b);
      var i :| 0 <= i < |s.scans| && s.scans[i].from <= b <= s.scans[i].to;
      assert t.scans[i] == s.scans[i];
    }
  }

  lemma CoverInvGrows(cfg: Config, s: State, t: State, ph: Phase)
    requires Grows(s, t) && CoverInv(cfg, s, ph)
    ensures CoverInv(cfg, t, ph)
  {
    match ph
    case HaveCursor(_, c) => CoveredGrows(cfg, s, t, c);
    case Fetching(from, _, _, _, _, _) => CoveredGrows(cfg, s, t, from - 1);
    case Handing(scan, _) => CoveredGrows(cfg, s, t, scan.from - 1);
    case Announcing(scan, _, _) => CoveredGrows(cfg, s, t, scan.from - 1);
    case Saving(_, to) => CoveredGrows(cfg, s, t, to);
    case _ =>
  }

  /** A replica's own step: shared state grows, its next phase is justified, everybody else is unaffected. */
  lemma StepCoverage(cfg: Config, s: State, t: State, r: nat, ph: Phase)
    requires Coverage(cfg, s) && Grows(s, t)
    requires t.replicas == s.replicas[r := ph] && CoverInv(cfg, t, ph)
    requires t.cursor == s.cursor || (t.cursor.Some? && CoveredTo(cfg, t, t.cursor.value))
    requires t.cursor.None? ==> t.start.None?
    requires forall i :: 0 <= i < |t.scans| ==> Complete(cfg, t.scans[i])
    ensures Coverage(cfg, t)
  {
    forall q | q in t.replicas ensures CoverInv(cfg, t, t.replicas[q]) {
      if q != r { CoverInvGrows(cfg, s, t, s.replicas[q]); }
    }
    if s.cursor.Some? { CoveredGrows(cfg, s, t, s.cursor.value); }
  }

  /** Completing the last log extends the covered prefix by the scan's span. */
  lemma ProceedCoverage(cfg: Config, s: State, t: State, r: nat, scan: Scan, todo: seq<Log>)
    requires Coverage(cfg, s) && ScanInv(cfg, s, scan, todo)
    requires t == s.(deposits := t.deposits, announced := t.announced)
    ensures Coverage(cfg, Proceed(t, r, scan, todo))
  {
    var u := Proceed(t, r, scan, todo);
    if todo == [] {
      assert multiset(todo) == multiset{};
      forall b | s.start.value < b <= scan.to ensures Covered(u.scans, b) {
        if b < scan.from { CoveredGrows(cfg, s, u, scan.from - 1); }
        else { assert u.scans[|s.scans|] == scan; }
      }
      StepCoverage(cfg, s, u, r, Saving(scan.from, scan.to));
    } else {
      CoveredGrows(cfg, s, u, scan.from - 1);
      StepCoverage(cfg, s, u, r, Handing(scan, todo));
    }
  }

  lemma FetchCoverage(cfg: Config, s: State, r: nat)
    requires Coverage(cfg, s) && PhaseOf(s, r).Fetching?
    ensures Coverage(cfg, Fetch(cfg, s, r, PhaseOf(s, r)))
  {
    var ph := PhaseOf(s, r);
    var end := Min(ph.next + cfg.batch, |ph.addresses|);
    if ph.next >= |ph.addresses| {
      assert ph.addresses[..ph.next] == ph.addresses;
      ProceedCoverage(cfg, s, s, r, Scan(ph.from, ph.to, ph.addresses, ph.wallets, [], []), ph.out);
    } else if cfg.batch >= 1 {
      var batch := ph.addresses[ph.next..end];
      assert ph.addresses[..ph.next] + batch == ph.addresses[..end];
      BatchesAddUp(cfg.chain, ph.from, ph.to, ph.addresses[..ph.next], batch);
      var t := Fetch(cfg, s, r, ph);
      CoveredGrows(cfg, s, t, ph.from - 1);
      StepCoverage(cfg, s, t, r, t.replicas[r]);
    }
  }

  /** A replica that goes on to announce keeps its scan. */
  lemma AnnouncingCoverage(cfg: Config, s: State, t: State, r: nat, scan: Scan, todo: seq<Log>, key: LogKey)
    requires Coverage(cfg, s) && ScanInv(cfg, s, scan, todo) && t == s.(deposits := t.deposits)
    ensures Coverage(cfg, Goto(t, r, Announcing(scan, todo, key)))
  {
    var u := Goto(t, r, Announcing(scan, todo, key));
    CoveredGrows(cfg, s, u, scan.from - 1);
    StepCoverage(cfg, s, u, r, Announcing(scan, todo, key));
  }

  /** Moving the next log from the list to the handed ones keeps the scan's account of its logs. */
  lemma HandedOver(cfg: Config, s: State, scan: Scan, todo: seq<Log>, failed: seq<Log>)
    requires ScanInv(cfg, s, scan, todo) && todo != []
    ensures ScanInv(cfg, s, scan.(handed := scan.handed + [todo[0]], failed := failed), todo[1..])
  {
    assert todo == [todo[0]] + todo[1..];
  }

  lemma ProcessCoverage(cfg: Config, s: State, r: nat, recognized: bool, fault: Fault)
    requires Coverage(cfg, s) && PhaseOf(s, r).Handing? && PhaseOf(s, r).todo != []
    ensures Coverage(cfg, ProcessNext(cfg, s, r, PhaseOf(s, r).scan, PhaseOf(s, r).todo, recognized, fault))
  {
    var ph := PhaseOf(s, r);
    var l, rest := ph.todo[0], ph.todo[1..];
    var ok := ph.scan.(handed := ph.scan.handed + [l]);
    var bad := ok.(failed := ph.scan.failed + [l]);
    assert CoverInv(cfg, s, ph);
    HandedOver(cfg, s, ph.scan, ph.todo, bad.failed);
    HandedOver(cfg, s, ph.scan, ph.todo, ok.failed);
    if !Creditable(l, ph.scan.wallets, cfg.protocol) || (fault != ThrowsBefore && HasRow(s.deposits, KeyOf(l))) {
      ProceedCoverage(cfg, s, s, r, ok, rest);
    } else if fault == ThrowsBefore {
      ProceedCoverage(cfg, s, s, r, bad, rest);
    } else {
      var row := Deposit(l, ph.scan.wallets[AddressOf(l.topics[2])], ph.scan.wallets, recognized);
      var s' := s.(deposits := s.deposits + [row]);
      if fault == ThrowsAfter {
        ProceedCoverage(cfg, s, s', r, bad, rest);
      } else if recognized {
        AnnouncingCoverage(cfg, s, s', r, ok, rest, KeyOf(l));
      } else {
        ProceedCoverage(cfg, s, s', r, ok, rest);
      }
    }
  }

  lemma LoadCoverage(cfg: Config, s: State, r: nat, addresses: seq<Address>, wallets: Wallets)
    requires Coverage(cfg, s) && PhaseOf(s, r).HaveCursor?
    requires Distinct(addresses) && Elements(addresses) == wallets.Keys
    ensures Coverage(cfg, StartScan(cfg, s, r, addresses, wallets, PhaseOf(s, r).head, PhaseOf(s, r).cursor))
  {
    var ph := PhaseOf(s, r);
    var from := ph.cursor + 1;
    var to := Min(ph.head, from + cfg.span - 1);
    GetLogsNoRecipients(cfg.chain, from, to);
    var t := StartScan(cfg, s, r, addresses, wallets, ph.head, ph.cursor);
    if from > ph.head {
      StepCoverage(cfg, s, t, r, Resting);
    } else if addresses == [] {
      ProceedCoverage(cfg, s, s, r, Scan(from, to, [], wallets, [], []), []);
    } else {
      CoveredGrows(cfg, s, t, ph.cursor);
      assert addresses[..0] == [];
      StepCoverage(cfg, s, t, r, Fetching(from, to, addresses, wallets, 0, []));
    }
  }

  lemma ApplyCoverage(cfg: Config, s: State, e: Event)
    requires Coverage(cfg, s)
    ensures Coverage(cfg, Apply(cfg, s, e))
  {
    var ph := PhaseOf(s, e.r);
    var t := Apply(cfg, s, e);
    match e
    case ReadHead(r, head) => if t != s { StepCoverage(cfg, s, t, r, HaveHead(head)); }
    case ReadCursor(r) => if t != s {
      if s.cursor.Some? { CoveredGrows(cfg, s, t, s.cursor.value); }
      StepCoverage(cfg, s, t, r, t.replicas[r]);
    }
    case CreateCursor(r) => if t != s { StepCoverage(cfg, s, t, r, t.replicas[r]); }
    case LoadWallets(r, addresses, wallets) => if t != s { LoadCoverage(cfg, s, r, addresses, wallets); }
    case FetchBatch(r) => if ph.Fetching? { FetchCoverage(cfg, s, r); }
    case Process(r, recognized, fault) => if t != s { ProcessCoverage(cfg, s, r, recognized, fault); }
    case Announce(r) => if ph.Announcing? {
      ProceedCoverage(cfg, s, s.(announced := s.announced + [ph.key]), r, ph.scan, ph.todo);
    }
    case SaveCursor(r) => if ph.Saving? { CoveredGrows(cfg, s, t, ph.to); StepCoverage(cfg, s, t, r, Resting); }
    case Crash(r) => StepCoverage(cfg, s, t, r, Resting);
  }

  lemma {:induction false} RunCoverage(cfg: Config, es: seq<Event>)
    ensures Coverage(cfg, Run(cfg, es))
  {
    if es != [] {
      RunCoverage(cfg, es[..|es| - 1]);
      ApplyCoverage(cfg, Run(cfg, es[..|es| - 1]), es[|es| - 1]);
    }
  }

  // ---- recording ----------------------------------------------------------------------------------

  /** A row's log is a transfer on the chain and passed every test under the snapshot it was judged by. */
  ghost predicate RowOk(cfg: Config, d: Deposit) {
    && d.log in cfg.chain && IsTransfer(d.log)
    && Creditable(d.log, d.wallets, cfg.protocol)
    && d.userId == d.wallets[AddressOf(d.log.topics[2])]
  }

  ghost predicate RowsOk(cfg: Config, rows: seq<Deposit>) {
    && (forall i :: 0 <= i < |rows| ==> RowOk(cfg, rows[i]))
    && (forall i, j :: 0 <= i < j < |rows| ==> KeyOf(rows[i].log) != KeyOf(rows[j].log))
  }

  predicate HasRecognizedRow(rows: seq<Deposit>, key: LogKey) {
    exists i :: 0 <= i < |rows| && KeyOf(rows[i].log) == key && rows[i].recognized
  }

  /** Handing a log over had its effect: it threw, or it was not creditable, or its row exists. */
  ghost predicate Accounted(cfg: Config, rows: seq<Deposit>, scan: Scan) {
    forall l :: l in scan.handed ==>
      l in scan.failed || !Creditable(l, scan.wallets, cfg.protocol) || HasRow(rows, KeyOf(l))
  }

  ghost predicate RecordInv(cfg: Config, s: State, ph: Phase) {
    match ph
    case Handing(scan, _) => Accounted(cfg, s.deposits, scan)
    case Announcing(scan, _, key) =>
      Accounted(cfg, s.deposits, scan) && key !in s.announced && HasRecognizedRow(s.deposits, key)
    case _ => true
  }

  ghost predicate Recording(cfg: Config, s: State) {
    && RowsOk(cfg, s.deposits)
    && Distinct(s.announced)
    && (forall k :: k in s.announced ==> HasRecognizedRow(s.deposits, k))
    && (forall i :: 0 <= i < |s.scans| ==> Accounted(cfg, s.deposits, s.scans[i]))
    && (forall r :: r in s.replicas ==> RecordInv(cfg, s, s.replicas[r]))
    && (forall q, r :: q in s.replicas && r in s.replicas && q != r ==>
          s.replicas[q].Announcing? && s.replicas[r].Announcing? ==> s.replicas[q].key != s.replicas[r].key)
  }

  lemma RowsGrow(rows: seq<Deposit>, more: seq<Deposit>, key: LogKey)
    requires rows <= more
    ensures HasRow(rows, key) ==> HasRow(more, key)
    ensures HasRecognizedRow(rows, key) ==> HasRecognizedRow(more, key)
  {
    if HasRow(rows, key) {
      var i :| 0 <= i < |rows| && KeyOf(rows[i].log) == key;
      assert more[i] == rows[i];
    }
    if HasRecognizedRow(rows, key) {
      var i :| 0 <= i < |rows| && KeyOf(rows[i].log) == key && rows[i].recognized;
      assert more[i] == rows[i];
    }
  }

  lemma AccountedGrows(cfg: Config, rows: seq<Deposit>, more: seq<Deposit>, scan: Scan)
    requires rows <= more && Accounted(cfg, rows, scan)
    ensures Accounted(cfg, more, scan)
  {
    forall l | l in scan.handed
      ensures l in scan.failed || !Creditable(l, scan.wallets, cfg.protocol) || HasRow(more, KeyOf(l))
    {
      RowsGrow(rows, more, KeyOf(l));
    }
  }

  /** A replica's step that only adds rows, with the announcements unchanged. */
  lemma StepRecording(cfg: Config, s: State, t: State, r: nat, ph: Phase)
    requires Recording(cfg, s) && t.replicas == s.replicas[r := ph] && RecordInv(cfg, t, ph)
    requires s.deposits <= t.deposits && RowsOk(cfg, t.deposits) && t.announced == s.announced
    requires s.scans <= t.scans
    requires forall i :: |s.scans| <= i < |t.scans| ==> Accounted(cfg, t.deposits, t.scans[i])
    requires ph.Announcing? ==>
      forall q :: q in s.replicas && q != r && s.replicas[q].Announcing? ==> s.replicas[q].key != ph.key
    ensures Recording(cfg, t)
  {
    forall k | k in t.announced ensures HasRecognizedRow(t.deposits, k) {
      RowsGrow(s.deposits, t.deposits, k);
    }
    forall i | 0 <= i < |t.scans| ensures Accounted(cfg, t.deposits, t.scans[i]) {
      if i < |s.scans| { AccountedGrows(cfg, s.deposits, t.deposits, s.scans[i]); }
    }
    forall q | q in t.replicas ensures RecordInv(cfg, t, t.replicas[q]) {
      if q != r {
        var theirs := s.replicas[q];
        assert RecordInv(cfg, s, theirs);
        match theirs
        case Handing(scan, _) => AccountedGrows(cfg, s.deposits, t.deposits, scan);
        case Announcing(scan, _, key) =>
          AccountedGrows(cfg, s.deposits, t.deposits, scan);
          RowsGrow(s.deposits, t.deposits, key);
        case _ =>
      }
    }
  }

  lemma ProceedRecording(cfg: Config, s: State, t: State, r: nat, scan: Scan, todo: seq<Log>)
    requires Recording(cfg, s) && t == s.(deposits := t.deposits)
    requires s.deposits <= t.deposits && RowsOk(cfg, t.deposits) && Accounted(cfg, t.deposits, scan)
    ensures Recording(cfg, Proceed(t, r, scan, todo))
  {
    var u := Proceed(t, r, scan, todo);
    StepRecording(cfg, s, u, r, u.replicas[r]);
  }

  /** The insert behind the unique key adds a fresh, correct row. */
  lemma InsertOk(cfg: Config, rows: seq<Deposit>, row: Deposit)
    requires RowsOk(cfg, rows) && RowOk(cfg, row) && !HasRow(rows, KeyOf(row.log))
    ensures RowsOk(cfg, rows + [row])
    ensures HasRow(rows + [row], KeyOf(row.log))
    ensures row.recognized ==> HasRecognizedRow(rows + [row], KeyOf(row.log))
  {
    assert (rows + [row])[|rows|] == row;
  }

  /** A key without a row was never announced and nobody is about to announce it. */
  lemma FreshKey(cfg: Config, s: State, key: LogKey)
    requires Recording(cfg, s) && !HasRow(s.deposits, key)
    ensures key !in s.announced
    ensures forall q :: q in s.replicas && s.replicas[q].Announcing? ==> s.replicas[q].key != key
  {
    forall q | q in s.replicas && s.replicas[q].Announcing? ensures s.replicas[q].key != key {
      assert RecordInv(cfg, s, s.replicas[q]);
    }
  }

  /** The logs a scan has still to hand over are transfers on the chain. */
  lemma FetchedMatches(cfg: Config, s: State, scan: Scan, todo: seq<Log>)
    requires ScanInv(cfg, s, scan, todo) && todo != []
    ensures todo[0] in cfg.chain && Matches(todo[0], scan.from, scan.to, scan.addresses)
  {
    assert todo[0] in multiset(todo);
    assert todo[0] in multiset(GetLogs(cfg.chain, scan.from, scan.to, scan.addresses));
    GetLogsMembers(cfg.chain, scan.from, scan.to, scan.addresses);
  }

  lemma ProcessRecording(cfg: Config, s: State, r: nat, recognized: bool, fault: Fault)
    requires Recording(cfg, s) && Coverage(cfg, s) && PhaseOf(s, r).Handing? && PhaseOf(s, r).todo != []
    ensures Recording(cfg, ProcessNext(cfg, s, r, PhaseOf(s, r).scan, PhaseOf(s, r).todo, recognized, fault))
  {
    var ph := PhaseOf(s, r);
    var scan, l, rest := ph.scan, ph.todo[0], ph.todo[1..];
    assert RecordInv(cfg, s, ph) && CoverInv(cfg, s, ph);
    FetchedMatches(cfg, s, scan, ph.todo);
    var ok := scan.(handed := scan.handed + [l]);
    var bad := ok.(failed := scan.failed + [l]);
    if !Creditable(l, scan.wallets, cfg.protocol) || (fault != ThrowsBefore && HasRow(s.deposits, KeyOf(l))) {
      ProceedRecording(cfg, s, s, r, ok, rest);
    } else if fault == ThrowsBefore {
      ProceedRecording(cfg, s, s, r, bad, rest);
    } else {
      var row := Deposit(l, scan.wallets[AddressOf(l.topics[2])], scan.wallets, recognized);
      InsertOk(cfg, s.deposits, row);
      var t := s.(deposits := s.deposits + [row]);
      AccountedGrows(cfg, s.deposits, t.deposits, scan);
      FreshKey(cfg, s, KeyOf(l));
      if fault == ThrowsAfter {
        ProceedRecording(cfg, s, t, r, bad, rest);
      } else if recognized {
        var u := Goto(t, r, Announcing(ok, rest, KeyOf(l)));
        StepRecording(cfg, s, u, r, u.replicas[r]);
      } else {
        ProceedRecording(cfg, s, t, r, ok, rest);
      }
    }
  }

  /** Sending the announcement uses up the key; nobody else holds it. */
  lemma AnnounceRecording(cfg: Config, s: State, r: nat)
    requires Recording(cfg, s) && PhaseOf(s, r).Announcing?
    ensures var ph := PhaseOf(s, r);
      Recording(cfg, Proceed(s.(announced := s.announced + [ph.key]), r, ph.scan, ph.todo))
  {
    var ph := PhaseOf(s, r);
    var u := Proceed(s.(announced := s.announced + [ph.key]), r, ph.scan, ph.todo);
    assert RecordInv(cfg, s, ph);
    DistinctAppend(s.announced, ph.key);
    forall q | q in u.replicas ensures RecordInv(cfg, u, u.replicas[q]) {
      if q != r { assert RecordInv(cfg, s, s.replicas[q]); }
    }
  }

  lemma LoadRecording(cfg: Config, s: State, r: nat, addresses: seq<Address>, wallets: Wallets)
    requires Recording(cfg, s) && PhaseOf(s, r).HaveCursor?
    ensures Recording(cfg, StartScan(cfg, s, r, addresses, wallets, PhaseOf(s, r).head, PhaseOf(s, r).cursor))
  {
    var t := StartScan(cfg, s, r, addresses, wallets, PhaseOf(s, r).head, PhaseOf(s, r).cursor);
    StepRecording(cfg, s, t, r, t.replicas[r]);
  }

  lemma FetchRecording(cfg: Config, s: State, r: nat)
    requires Recording(cfg, s) && PhaseOf(s, r).Fetching?
    ensures Recording(cfg, Fetch(cfg, s, r, PhaseOf(s, r)))
  {
    var ph := PhaseOf(s, r);
    var t := Fetch(cfg, s, r, ph);
    if ph.next >= |ph.addresses| {
      ProceedRecording(cfg, s, s, r, Scan(ph.from, ph.to, ph.addresses, ph.wallets, [], []), ph.out);
    } else if cfg.batch >= 1 {
      StepRecording(cfg, s, t, r, t.replicas[r]);
    }
  }

  lemma ApplyRecording(cfg: Config, s: State, e: Event)
    requires Coverage(cfg, s) && Recording(cfg, s)
    ensures Recording(cfg, Apply(cfg, s, e))
  {
    var ph := PhaseOf(s, e.r);
    var t := Apply(cfg, s, e);
    match e
    case Process(r, recognized, fault) => if t != s { ProcessRecording(cfg, s, r, recognized, fault); }
    case Announce(r) => if ph.Announcing? { AnnounceRecording(cfg, s, r); }
    case LoadWallets(r, addresses, wallets) => if t != s { LoadRecording(cfg, s, r, addresses, wallets); }
    case FetchBatch(r) => if t != s { FetchRecording(cfg, s, r); }
    case _ => if t != s { StepRecording(cfg, s, t, e.r, t.replicas[e.r]); }
  }

  lemma {:induction false} RunRecording(cfg: Config, es: seq<Event>)
    ensures Recording(cfg, Run(cfg, es))
  {
    if es != [] {
      RunCoverage(cfg, es[..|es| - 1]);
      RunRecording(cfg, es[..|es| - 1]);
      ApplyRecording(cfg, Run(cfg, es[..|es| - 1]), es[|es| - 1]);
    }
  }

  // ---- theorems over every run --------------------------------------------------------------------

  /**
   * Block `b` was scanned: one scan handed over every log of `b` addressed to its wallets, and each of them
   * that is a deposit by that snapshot and did not throw has its own row.
   */
  ghost predicate Scanned(cfg: Config, s: State, b: int, scan: Scan) {
    && scan.from <= b <= scan.to
    && Complete(cfg, scan)
    && forall l :: l in cfg.chain && l.block == b && Matches(l, b, b, scan.addresses) ==>
      && multiset(scan.handed)[l] == multiset(cfg.chain)[l]
      && (Creditable(l, scan.wallets, cfg.protocol) && l !in scan.failed ==>
            exists i :: 0 <= i < |s.deposits| && s.deposits[i].log == l)
  }

  lemma {:induction false} GetLogsMultiplicity(chain: seq<Log>, from: int, to: int, recipients: seq<Address>, l: Log)
    requires Matches(l, from, to, recipients)
    ensures multiset(GetLogs(chain, from, to, recipients))[l] == multiset(chain)[l]
  {
    if chain != [] {
      GetLogsMultiplicity(chain[..|chain| - 1], from, to, recipients, l);
      assert chain == chain[..|chain| - 1] + [chain[|chain| - 1]];
    }
  }

  lemma RowOfLog(cfg: Config, rows: seq<Deposit>, l: Log)
    requires UniqueKeys(cfg.chain) && RowsOk(cfg, rows) && HasRow(rows, KeyOf(l)) && l in cfg.chain
    ensures exists i :: 0 <= i < |rows| && rows[i].log == l
  {
    var i :| 0 <= i < |rows| && KeyOf(rows[i].log) == KeyOf(l);
    assert RowOk(cfg, rows[i]);
  }

  ghost predicate BlockScanned(cfg: Config, s: State, b: int) {
    exists i :: 0 <= i < |s.scans| && Scanned(cfg, s, b, s.scans[i])
  }

  lemma CoveredIsScanned(cfg: Config, s: State, b: int)
    requires UniqueKeys(cfg.chain) && Coverage(cfg, s) && Recording(cfg, s) && Covered(s.scans, b)
    ensures BlockScanned(cfg, s, b)
  {
    var i :| 0 <= i < |s.scans| && s.scans[i].from <= b <= s.scans[i].to;
    var scan := s.scans[i];
    forall l | l in cfg.chain && l.block == b && Matches(l, b, b, scan.addresses)
      ensures multiset(scan.handed)[l] == multiset(cfg.chain)[l]
      ensures Creditable(l, scan.wallets, cfg.protocol) && l !in scan.failed ==>
        exists j :: 0 <= j < |s.deposits| && s.deposits[j].log == l
    {
      GetLogsMultiplicity(cfg.chain, scan.from, scan.to, scan.addresses, l);
      assert l in multiset(scan.handed);
      if Creditable(l, scan.wallets, cfg.protocol) && l !in scan.failed {
        assert Accounted(cfg, s.deposits, scan);
        RowOfLog(cfg, s.deposits, l);
      }
    }
    assert Scanned(cfg, s, b, scan);
  }

  /**
   * However replicas interleave, stop and save out of order: every block after the start up to the cursor was
   * scanned.
   */
  lemma EveryBlockScanned(cfg: Config, es: seq<Event>)
    requires UniqueKeys(cfg.chain)
    ensures var s := Run(cfg, es);
      s.cursor.Some? ==>
        s.start.Some? && (cfg.span >= 0 ==> s.start.value <= s.cursor.value)
        && forall b :: s.start.value < b <= s.cursor.value ==> BlockScanned(cfg, s, b)
  {
    RunCoverage(cfg, es);
    RunRecording(cfg, es);
    var s := Run(cfg, es);
    if s.cursor.Some? {
      forall b | s.start.value < b <= s.cursor.value ensures BlockScanned(cfg, s, b) {
        assert Covered(s.scans, b);
        CoveredIsScanned(cfg, s, b);
      }
    }
  }

  // ---- which logs get a row and an announcement -----------------------------------------------------

  /** The logs whose processing threw in the run. */
  ghost function Threw(cfg: Config, es: seq<Event>): set<LogKey> {
    if es == [] then {}
    else
      var before, e := es[..|es| - 1], es[|es| - 1];
      Threw(cfg, before) + ThrewNow(Run(cfg, before), e)
  }

  function ThrewNow(s: State, e: Event): set<LogKey> {
    if e.Process? && e.fault != NoFault && PhaseOf(s, e.r).Handing? && PhaseOf(s, e.r).todo != []
    then {KeyOf(PhaseOf(s, e.r).todo[0])} else {}
  }

  /** The announcements that a stop cut off in the run. */
  ghost function Dropped(cfg: Config, es: seq<Event>): set<LogKey> {
    if es == [] then {}
    else
      var before, e := es[..|es| - 1], es[|es| - 1];
      Dropped(cfg, before) + DroppedNow(Run(cfg, before), e)
  }

  function DroppedNow(s: State, e: Event): set<LogKey> {
    if e.Crash? && PhaseOf(s, e.r).Announcing? then {PhaseOf(s, e.r).key} else {}
  }

  /** Only logs whose processing threw count as failed. */
  ghost predicate FailedThrew(threw: set<LogKey>, failed: seq<Log>) {
    forall l :: l in failed ==> KeyOf(l) in threw
  }

  function FailedOf(ph: Phase): seq<Log> {
    if ph.Handing? || ph.Announcing? then ph.scan.failed else []
  }

  ghost predicate FailuresThrew(threw: set<LogKey>, s: State) {
    && (forall i :: 0 <= i < |s.scans| ==> FailedThrew(threw, s.scans[i].failed))
    && (forall r :: r in s.replicas ==> FailedThrew(threw, FailedOf(s.replicas[r])))
  }

  lemma StepThrew(threw: set<LogKey>, more: set<LogKey>, s: State, t: State, r: nat, ph: Phase)
    requires FailuresThrew(threw, s) && threw <= more
    requires t.replicas == s.replicas[r := ph] && FailedThrew(more, FailedOf(ph))
    requires s.scans <= t.scans
    requires forall i :: |s.scans| <= i < |t.scans| ==> FailedThrew(more, t.scans[i].failed)
    ensures FailuresThrew(more, t)
  {
    forall i | 0 <= i < |t.scans| ensures FailedThrew(more, t.scans[i].failed) {
      if i < |s.scans| { assert t.scans[i] == s.scans[i]; }
    }
    forall q | q in t.replicas ensures FailedThrew(more, FailedOf(t.replicas[q])) {
      if q != r { assert FailedThrew(threw, FailedOf(s.replicas[q])); }
    }
  }

  /** Handing over `l` adds it to the failed logs only when its processing throws. */
  predicate FailsWith(more: seq<Log>, failed: seq<Log>, l: Log, fault: Fault) {
    more == [] || more == failed || (more == failed + [l] && fault != NoFault)
  }

  /** What a step does to the lists of failed logs. */
  ghost predicate FailsBy(s: State, t: State, r: nat, failed: seq<Log>, l: Log, fault: Fault) {
    && r in t.replicas && t.replicas == s.replicas[r := t.replicas[r]]
    && FailsWith(FailedOf(t.replicas[r]), failed, l, fault)
    && s.scans <= t.scans
    && forall i :: |s.scans| <= i < |t.scans| ==> FailsWith(t.scans[i].failed, failed, l, fault)
  }

  lemma ProcessFailed(cfg: Config, s: State, r: nat, recognized: bool, fault: Fault)
    requires PhaseOf(s, r).Handing? && PhaseOf(s, r).todo != []
    ensures
      var scan, todo := PhaseOf(s, r).scan, PhaseOf(s, r).todo;
      FailsBy(s, ProcessNext(cfg, s, r, scan, todo, recognized, fault), r, scan.failed, todo[0], fault)
  {
  }

  lemma OtherFailed(cfg: Config, s: State, e: Event, l: Log)
    requires !e.Process? && Apply(cfg, s, e) != s
    ensures FailsBy(s, Apply(cfg, s, e), e.r, FailedOf(PhaseOf(s, e.r)), l, NoFault)
  {
  }

  lemma ThrewBy(threw: set<LogKey>, s: State, t: State, r: nat, l: Log, fault: Fault)
    requires FailuresThrew(threw, s) && FailsBy(s, t, r, FailedOf(PhaseOf(s, r)), l, fault)
    ensures FailuresThrew(threw + if fault != NoFault then {KeyOf(l)} else {}, t)
  {
    assert FailedThrew(threw, FailedOf(PhaseOf(s, r)));
    StepThrew(threw, threw + if fault != NoFault then {KeyOf(l)} else {}, s, t, r, t.replicas[r]);
  }

  lemma ApplyThrew(cfg: Config, threw: set<LogKey>, s: State, e: Event)
    requires FailuresThrew(threw, s)
    ensures FailuresThrew(threw + ThrewNow(s, e), Apply(cfg, s, e))
  {
    var ph := PhaseOf(s, e.r);
    if e.Process? {
      if ph.Handing? && ph.todo != [] {
        ProcessFailed(cfg, s, e.r, e.recognized, e.fault);
        ThrewBy(threw, s, Apply(cfg, s, e), e.r, ph.todo[0], e.fault);
      }
    } else if Apply(cfg, s, e) != s {
      var l := Log(0, 0, 0, 0, [], None);
      OtherFailed(cfg, s, e, l);
      ThrewBy(threw, s, Apply(cfg, s, e), e.r, l, NoFault);
    }
  }

  lemma {:induction false} RunThrew(cfg: Config, es: seq<Event>)
    ensures FailuresThrew(Threw(cfg, es), Run(cfg, es))
  {
    if es != [] {
      var before := es[..|es| - 1];
      RunThrew(cfg, before);
      ApplyThrew(cfg, Threw(cfg, before), Run(cfg, before), es[|es| - 1]);
    }
  }

  /** The row credits the owner of the recipient with a nonzero amount sent from outside. */
  ghost predicate CreditsOwner(cfg: Config, d: Deposit) {
    && d.log in cfg.chain && |d.log.topics| == 3 && d.log.topics[0] == TRANSFER_TOPIC
    && d.log.topics[2] in d.wallets && d.userId == d.wallets[d.log.topics[2]]
    && d.log.topics[1] % ADDRESS_SPACE !in d.wallets && d.log.topics[1] % ADDRESS_SPACE !in cfg.protocol
    && d.log.data.Some? && d.log.data.value > 0
  }

  lemma RowCredits(cfg: Config, d: Deposit)
    requires RowOk(cfg, d)
    ensures CreditsOwner(cfg, d)
  {
    assert AddressOf(d.log.topics[2]) == d.log.topics[2];
  }

  /**
   * Over every run: every row's log is a Transfer on the chain, with three topics and a nonzero amount, sent from
   * outside the snapshot it was judged by and outside the protocol, and credits the owner of its recipient.
   */
  lemma RecordedRows(cfg: Config, es: seq<Event>)
    ensures forall d :: d in Run(cfg, es).deposits ==> CreditsOwner(cfg, d)
  {
    RunRecording(cfg, es);
    var rows := Run(cfg, es).deposits;
    forall d | d in rows ensures CreditsOwner(cfg, d) {
      var i :| 0 <= i < |rows| && rows[i] == d;
      RowCredits(cfg, rows[i]);
    }
  }

  /** A Transfer to a wallet of the snapshot, of a nonzero amount, from outside the snapshot and the protocol. */
  predicate OutsideTransfer(l: Log, wallets: Wallets, protocol: set<Address>) {
    && |l.topics| == 3 && l.topics[0] == TRANSFER_TOPIC
    && l.topics[2] in wallets
    && l.topics[1] % ADDRESS_SPACE !in wallets && l.topics[1] % ADDRESS_SPACE !in protocol
    && l.data.Some? && l.data.value > 0
  }

  /** The scan covered block `b`, and each outside transfer of that block has a row unless its processing threw. */
  ghost predicate RecordedBy(cfg: Config, s: State, threw: set<LogKey>, b: int, scan: Scan) {
    && scan.from <= b <= scan.to
    && forall l :: l in cfg.chain && l.block == b && OutsideTransfer(l, scan.wallets, cfg.protocol) ==>
      KeyOf(l) in threw || exists d :: d in s.deposits && d.log == l
  }

  lemma ScannedIsRecorded(cfg: Config, s: State, threw: set<LogKey>, b: int, scan: Scan)
    requires Scanned(cfg, s, b, scan) && FailedThrew(threw, scan.failed)
    ensures RecordedBy(cfg, s, threw, b, scan)
  {
    forall l | l in cfg.chain && l.block == b && OutsideTransfer(l, scan.wallets, cfg.protocol)
      ensures KeyOf(l) in threw || exists d :: d in s.deposits && d.log == l
    {
      assert l.topics[2] in Elements(scan.addresses);
      assert Matches(l, b, b, scan.addresses);
      if l !in scan.failed {
        var j :| 0 <= j < |s.deposits| && s.deposits[j].log == l;
        assert s.deposits[j] in s.deposits;
      }
    }
  }

  /**
   * Over every run: each block after the start up to the cursor was scanned with some snapshot, and each outside
   * transfer of that block has a row unless its processing threw.
   */
  lemma OutsideTransfersRecorded(cfg: Config, es: seq<Event>, b: int)
    requires UniqueKeys(cfg.chain)
    requires var s := Run(cfg, es); s.cursor.Some? && s.start.Some? && s.start.value < b <= s.cursor.value
    ensures exists scan :: scan in Run(cfg, es).scans && RecordedBy(cfg, Run(cfg, es), Threw(cfg, es), b, scan)
  {
    EveryBlockScanned(cfg, es);
    RunThrew(cfg, es);
    var s := Run(cfg, es);
    assert BlockScanned(cfg, s, b);
    var i :| 0 <= i < |s.scans| && Scanned(cfg, s, b, s.scans[i]);
    ScannedIsRecorded(cfg, s, Threw(cfg, es), b, s.scans[i]);
  }

  /** Somebody is about to announce the key. */
  ghost predicate Pending(s: State, key: LogKey) {
    exists r :: r in s.replicas && s.replicas[r].Announcing? && s.replicas[r].key == key
  }

  ghost predicate Announced(lost: set<LogKey>, s: State) {
    forall d :: d in s.deposits && d.recognized ==>
      KeyOf(d.log) in s.announced || KeyOf(d.log) in lost || Pending(s, KeyOf(d.log))
  }

  /** A step away from an announcement makes it or drops it. */
  lemma PendingStep(cfg: Config, s: State, e: Event, key: LogKey)
    requires Pending(s, key)
    ensures var t := Apply(cfg, s, e); key in t.announced || key in DroppedNow(s, e) || Pending(t, key)
  {
    var r :| r in s.replicas && s.replicas[r].Announcing? && s.replicas[r].key == key;
    var t := Apply(cfg, s, e);
    if e.r != r { assert t.replicas[r] == s.replicas[r]; }
  }

  /** A new recognized row is announced next, or its processing threw. */
  lemma NewRowStep(cfg: Config, s: State, e: Event, d: Deposit)
    requires d in Apply(cfg, s, e).deposits && d !in s.deposits && d.recognized
    ensures KeyOf(d.log) in ThrewNow(s, e) || Pending(Apply(cfg, s, e), KeyOf(d.log))
  {
    var t := Apply(cfg, s, e);
    assert e.Process?;
    assert t.replicas[e.r].Announcing? || e.fault != NoFault;
  }

  lemma AnnouncedStep(cfg: Config, s: State, e: Event, lost: set<LogKey>, more: set<LogKey>)
    requires Announced(lost, s) && lost + ThrewNow(s, e) + DroppedNow(s, e) <= more
    ensures Announced(more, Apply(cfg, s, e))
  {
    var t := Apply(cfg, s, e);
    forall d | d in t.deposits && d.recognized
      ensures KeyOf(d.log) in t.announced || KeyOf(d.log) in more || Pending(t, KeyOf(d.log))
    {
      if d !in s.deposits { NewRowStep(cfg, s, e, d); }
      else if Pending(s, KeyOf(d.log)) { PendingStep(cfg, s, e, KeyOf(d.log)); }
      else { AnnouncedGrows(cfg, s, e); }
    }
  }

  lemma AnnouncedGrows(cfg: Config, s: State, e: Event)
    ensures s.announced <= Apply(cfg, s, e).announced
  {
  }

  lemma {:induction false} RunAnnounced(cfg: Config, es: seq<Event>)
    ensures Announced(Threw(cfg, es) + Dropped(cfg, es), Run(cfg, es))
  {
    if es != [] {
      var before := es[..|es| - 1];
      RunAnnounced(cfg, before);
      AnnouncedStep(cfg, Run(cfg, before), es[|es| - 1], Threw(cfg, before) + Dropped(cfg, before),
                    Threw(cfg, es) + Dropped(cfg, es));
    }
  }

  /**
   * Over every run, once nobody is announcing: a recognized row is announced, unless processing its log threw or its
   * announcement was cut off by a stop.
   */
  lemma RecognizedAreAnnounced(cfg: Config, es: seq<Event>)
    requires forall r :: !PhaseOf(Run(cfg, es), r).Announcing?
    ensures forall d :: d in Run(cfg, es).deposits && d.recognized ==>
      KeyOf(d.log) in Run(cfg, es).announced || KeyOf(d.log) in Threw(cfg, es) || KeyOf(d.log) in Dropped(cfg, es)
  {
    RunAnnounced(cfg, es);
    forall r | r in Run(cfg, es).replicas ensures !Run(cfg, es).replicas[r].Announcing? {
      assert !PhaseOf(Run(cfg, es), r).Announcing?;
    }
  }

  // ---- how far a scan reaches ---------------------------------------------------------------------

  /** The finalized heads that replicas read in the run. */
  ghost function Heads(cfg: Config, es: seq<Event>): set<int> {
    if es == [] then {}
    else
      var before, e := es[..|es| - 1], es[|es| - 1];
      Heads(cfg, before) + if e.ReadHead? && PhaseOf(Run(cfg, before), e.r).Resting? then {e.head} else {}
  }

  /** Blocks `from` to `to` run from behind a cursor to a head read, or for `span` blocks if that is less. */
  ghost predicate SpanTo(cfg: Config, heads: set<int>, from: int, to: int) {
    exists h :: h in heads && from <= h && to <= h && to < from + cfg.span && (to == h || to == from + cfg.span - 1)
  }

  /** The start is the configured block, or else a head read. */
  ghost predicate StartKnown(cfg: Config, heads: set<int>, start: int) {
    if cfg.startBlock.Some? then start == cfg.startBlock.value else start in heads
  }

  /** The block is the start or lies no later than a head read. */
  ghost predicate Reached(heads: set<int>, start: Option<int>, b: int) {
    start == Some(b) || exists h :: h in heads && b <= h
  }

  ghost predicate HeadInv(cfg: Config, heads: set<int>, s: State, ph: Phase) {
    match ph
    case Resting => true
    case HaveHead(head) => head in heads
    case Creating(head) => head in heads
    case HaveCursor(head, c) => head in heads && Reached(heads, s.start, c)
    case Fetching(from, to, _, _, _, _) => SpanTo(cfg, heads, from, to)
    case Handing(scan, _) => SpanTo(cfg, heads, scan.from, scan.to)
    case Announcing(scan, _, _) => SpanTo(cfg, heads, scan.from, scan.to)
    case Saving(from, to) => SpanTo(cfg, heads, from, to)
  }

  ghost predicate WithinHeads(cfg: Config, heads: set<int>, s: State) {
    && (s.start.Some? ==> StartKnown(cfg, heads, s.start.value))
    && (s.cursor.Some? ==> s.start.Some? && Reached(heads, s.start, s.cursor.value))
    && (s.cursor.None? ==> s.start.None?)
    && (forall i :: 0 <= i < |s.scans| ==> SpanTo(cfg, heads, s.scans[i].from, s.scans[i].to))
    && (forall r :: r in s.replicas ==> HeadInv(cfg, heads, s, s.replicas[r]))
  }

  lemma HeadInvGrows(cfg: Config, heads: set<int>, more: set<int>, s: State, t: State, ph: Phase)
    requires heads <= more && (s.start.Some? ==> t.start == s.start) && HeadInv(cfg, heads, s, ph)
    ensures HeadInv(cfg, more, t, ph)
  {
  }

  /** The step of replica `r` keeps what the heads bound, when its own new phase and the shared state do. */
  lemma StepHeads(cfg: Config, heads: set<int>, more: set<int>, s: State, t: State, r: nat, ph: Phase)
    requires WithinHeads(cfg, heads, s) && heads <= more && Grows(s, t)
    requires t.replicas == s.replicas[r := ph] && HeadInv(cfg, more, t, ph)
    requires t.start.Some? ==> StartKnown(cfg, more, t.start.value)
    requires t.cursor.Some? ==> t.start.Some? && Reached(more, t.start, t.cursor.value)
    requires t.cursor.None? ==> t.start.None?
    requires forall i :: |s.scans| <= i < |t.scans| ==> SpanTo(cfg, more, t.scans[i].from, t.scans[i].to)
    ensures WithinHeads(cfg, more, t)
  {
    forall q | q in t.replicas ensures HeadInv(cfg, more, t, t.replicas[q]) {
      if q != r { HeadInvGrows(cfg, heads, more, s, t, s.replicas[q]); }
    }
    forall i | 0 <= i < |t.scans| ensures SpanTo(cfg, more, t.scans[i].from, t.scans[i].to) {
      if i < |s.scans| { assert t.scans[i] == s.scans[i]; }
    }
  }

  lemma ProceedHeads(cfg: Config, heads: set<int>, s: State, t: State, r: nat, scan: Scan, todo: seq<Log>)
    requires WithinHeads(cfg, heads, s) && SpanTo(cfg, heads, scan.from, scan.to)
    requires t == s.(deposits := t.deposits, announced := t.announced)
    ensures WithinHeads(cfg, heads, Proceed(t, r, scan, todo))
  {
    var u := Proceed(t, r, scan, todo);
    StepHeads(cfg, heads, heads, s, u, r, u.replicas[r]);
  }

  lemma ProcessHeads(cfg: Config, heads: set<int>, s: State, r: nat, recognized: bool, fault: Fault)
    requires WithinHeads(cfg, heads, s) && PhaseOf(s, r).Handing? && PhaseOf(s, r).todo != []
    ensures WithinHeads(cfg, heads, ProcessNext(cfg, s, r, PhaseOf(s, r).scan, PhaseOf(s, r).todo, recognized, fault))
  {
    var ph := PhaseOf(s, r);
    var l, rest := ph.todo[0], ph.todo[1..];
    var ok := ph.scan.(handed := ph.scan.handed + [l]);
    var bad := ok.(failed := ph.scan.failed + [l]);
    assert HeadInv(cfg, heads, s, ph);
    ProceedHeads(cfg, heads, s, s, r, ok, rest);
    ProceedHeads(cfg, heads, s, s, r, bad, rest);
    if Creditable(l, ph.scan.wallets, cfg.protocol) {
      var row := Deposit(l, ph.scan.wallets[AddressOf(l.topics[2])], ph.scan.wallets, recognized);
      var t := s.(deposits := s.deposits + [row]);
      ProceedHeads(cfg, heads, s, t, r, ok, rest);
      ProceedHeads(cfg, heads, s, t, r, bad, rest);
      var u := Goto(t, r, Announcing(ok, rest, KeyOf(l)));
      StepHeads(cfg, heads, heads, s, u, r, u.replicas[r]);
    }
  }

  /**
   * What a replica scans: nothing when its cursor is at the head, and otherwise from behind the cursor to the head, or
   * for the configured number of blocks if that is less.
   */
  lemma ScanSpan(cfg: Config, s: State, r: nat, addresses: seq<Address>, wallets: Wallets)
    requires PhaseOf(s, r).HaveCursor? && Distinct(addresses) && Elements(addresses) == wallets.Keys
    ensures
      var head, cursor := PhaseOf(s, r).head, PhaseOf(s, r).cursor;
      var t := Apply(cfg, s, LoadWallets(r, addresses, wallets));
      var to := if head <= cursor + cfg.span then head else cursor + cfg.span;
      && (head <= cursor ==> PhaseOf(t, r).Resting? && t.scans == s.scans)
      && (head > cursor && addresses == [] ==>
            PhaseOf(t, r) == Saving(cursor + 1, to) && t.scans == s.scans + [Scan(cursor + 1, to, [], wallets, [], [])])
      && (head > cursor && addresses != [] ==>
            PhaseOf(t, r) == Fetching(cursor + 1, to, addresses, wallets, 0, []) && t.scans == s.scans)
  {
  }

  lemma LoadHeads(cfg: Config, heads: set<int>, s: State, r: nat, addresses: seq<Address>, wallets: Wallets)
    requires WithinHeads(cfg, heads, s) && PhaseOf(s, r).HaveCursor?
    requires Distinct(addresses) && Elements(addresses) == wallets.Keys
    ensures WithinHeads(cfg, heads, Apply(cfg, s, LoadWallets(r, addresses, wallets)))
  {
    var t := Apply(cfg, s, LoadWallets(r, addresses, wallets));
    var head, cursor := PhaseOf(s, r).head, PhaseOf(s, r).cursor;
    ScanSpan(cfg, s, r, addresses, wallets);
    assert HeadInv(cfg, heads, s, PhaseOf(s, r));
    if head > cursor {
      assert SpanTo(cfg, heads, cursor + 1, if head <= cursor + cfg.span then head else cursor + cfg.span);
    }
    StepHeads(cfg, heads, heads, s, t, r, t.replicas[r]);
  }

  lemma SaveHeads(cfg: Config, heads: set<int>, s: State, r: nat)
    requires WithinHeads(cfg, heads, s) && Coverage(cfg, s) && PhaseOf(s, r).Saving?
    ensures WithinHeads(cfg, heads, Apply(cfg, s, SaveCursor(r)))
  {
    var ph := PhaseOf(s, r);
    assert HeadInv(cfg, heads, s, ph) && CoverInv(cfg, s, ph);
    StepHeads(cfg, heads, heads, s, Apply(cfg, s, SaveCursor(r)), r, Resting);
  }

  lemma FetchHeads(cfg: Config, heads: set<int>, s: State, r: nat)
    requires WithinHeads(cfg, heads, s) && PhaseOf(s, r).Fetching?
    ensures WithinHeads(cfg, heads, Fetch(cfg, s, r, PhaseOf(s, r)))
  {
    var ph := PhaseOf(s, r);
    var t := Fetch(cfg, s, r, ph);
    assert HeadInv(cfg, heads, s, ph);
    if ph.next >= |ph.addresses| {
      ProceedHeads(cfg, heads, s, s, r, Scan(ph.from, ph.to, ph.addresses, ph.wallets, [], []), ph.out);
    } else if cfg.batch >= 1 {
      StepHeads(cfg, heads, heads, s, t, r, t.replicas[r]);
    }
  }

  lemma AnnounceHeads(cfg: Config, heads: set<int>, s: State, r: nat)
    requires WithinHeads(cfg, heads, s) && PhaseOf(s, r).Announcing?
    ensures WithinHeads(cfg, heads, Apply(cfg, s, Announce(r)))
  {
    var ph := PhaseOf(s, r);
    assert HeadInv(cfg, heads, s, ph);
    ProceedHeads(cfg, heads, s, s.(announced := s.announced + [ph.key]), r, ph.scan, ph.todo);
  }

  lemma ApplyHeads(cfg: Config, heads: set<int>, more: set<int>, s: State, e: Event)
    requires WithinHeads(cfg, heads, s) && Coverage(cfg, s)
    requires more == heads + if e.ReadHead? && PhaseOf(s, e.r).Resting? then {e.head} else {}
    ensures WithinHeads(cfg, more, Apply(cfg, s, e))
  {
    var ph := PhaseOf(s, e.r);
    var t := Apply(cfg, s, e);
    match e
    case ReadHead(r, head) => if ph.Resting? { StepHeads(cfg, heads, more, s, t, r, HaveHead(head)); }
    case LoadWallets(r, addresses, wallets) => if t != s { LoadHeads(cfg, heads, s, r, addresses, wallets); }
    case FetchBatch(r) => if ph.Fetching? { FetchHeads(cfg, heads, s, r); }
    case Process(r, recognized, fault) => if t != s { ProcessHeads(cfg, heads, s, r, recognized, fault); }
    case Announce(r) => if ph.Announcing? { AnnounceHeads(cfg, heads, s, r); }
    case SaveCursor(r) => if ph.Saving? { SaveHeads(cfg, heads, s, r); }
    case _ => if t != s { StepHeads(cfg, heads, heads, s, t, e.r, t.replicas[e.r]); }
  }

  lemma {:induction false} RunHeads(cfg: Config, es: seq<Event>)
    ensures WithinHeads(cfg, Heads(cfg, es), Run(cfg, es))
  {
    if es != [] {
      var before := es[..|es| - 1];
      RunHeads(cfg, before);
      RunCoverage(cfg, before);
      ApplyHeads(cfg, Heads(cfg, before), Heads(cfg, es), Run(cfg, before), es[|es| - 1]);
    }
  }

  /**
   * Over every run: indexing starts at the configured block or a head read, no scan and no save goes past a head some
   * replica read, each scan spans exactly the blocks up to that head or the configured number of them, and the cursor
   * is the start or lies at or before such a head.
   */
  lemma NeverPastTheHead(cfg: Config, es: seq<Event>)
    ensures var s, heads := Run(cfg, es), Heads(cfg, es);
      && (s.cursor.Some? ==> s.start.Some? && StartKnown(cfg, heads, s.start.value))
      && (s.cursor.Some? ==> s.cursor == s.start || exists h :: h in heads && s.cursor.value <= h)
      && (forall i :: 0 <= i < |s.scans| ==> SpanTo(cfg, heads, s.scans[i].from, s.scans[i].to))
      && (forall r :: PhaseOf(s, r).Saving? ==> SpanTo(cfg, heads, PhaseOf(s, r).from, PhaseOf(s, r).to))
      && (forall r :: PhaseOf(s, r).Fetching? ==> SpanTo(cfg, heads, PhaseOf(s, r).from, PhaseOf(s, r).to))
  {
    RunHeads(cfg, es);
    var s := Run(cfg, es);
    forall r: nat | PhaseOf(s, r).Saving? || PhaseOf(s, r).Fetching?
      ensures SpanTo(cfg, Heads(cfg, es), PhaseOf(s, r).from, PhaseOf(s, r).to)
    {
      assert HeadInv(cfg, Heads(cfg, es), s, s.replicas[r]);
    }
  }

  // ---- when the cursor moves back -----------------------------------------------------------------

  predicate Lowers(s: State, t: State) {
    s.cursor.Some? && t.cursor.Some? && t.cursor.value < s.cursor.value
  }

  /** The event is a cursor save that takes effect. */
  predicate Saves(s: State, e: Event) {
    e.SaveCursor? && PhaseOf(s, e.r).Saving?
  }

  /** A step lowers the cursor exactly when it saves a block below the stored one. */
  lemma LowersExactly(cfg: Config, s: State, e: Event)
    ensures Lowers(s, Apply(cfg, s, e)) <==> Saves(s, e) && s.cursor.Some? && PhaseOf(s, e.r).to < s.cursor.value
  {
  }

  /** The cursor value a scan started from. */
  function Base(ph: Phase): Option<int> {
    match ph
    case HaveCursor(_, c) => Some(c)
    case Fetching(from, _, _, _, _, _) => Some(from - 1)
    case Handing(scan, _) => Some(scan.from - 1)
    case Announcing(scan, _, _) => Some(scan.from - 1)
    case Saving(from, _) => Some(from - 1)
    case _ => None
  }

  /** If the replica is in a scan, the cursor still has the value it read. */
  predicate Current(s: State, r: nat) {
    Base(PhaseOf(s, r)).Some? ==> s.cursor == Base(PhaseOf(s, r))
  }

  lemma CurrentStep(cfg: Config, s: State, e: Event, r: nat)
    requires Current(s, r) && (Saves(s, e) ==> e.r == r)
    ensures Current(Apply(cfg, s, e), r)
  {
    if e.r == r { OwnCurrent(cfg, s, e); } else { OthersCurrent(cfg, s, e, r); }
  }

  /** Another replica's step changes neither this one's phase nor, unless it saves, an existing cursor. */
  lemma OthersCurrent(cfg: Config, s: State, e: Event, r: nat)
    requires e.r != r && !Saves(s, e)
    ensures PhaseOf(Apply(cfg, s, e), r) == PhaseOf(s, r)
    ensures s.cursor.Some? ==> Apply(cfg, s, e).cursor == s.cursor
  {
  }

  /** Going on with a scan keeps its base. */
  lemma ProceedBase(s: State, r: nat, scan: Scan, todo: seq<Log>)
    ensures var t := Proceed(s, r, scan, todo); t.cursor == s.cursor && Base(PhaseOf(t, r)) == Some(scan.from - 1)
  {
  }

  lemma OwnCurrent(cfg: Config, s: State, e: Event)
    requires Current(s, e.r)
    ensures Current(Apply(cfg, s, e), e.r)
  {
    var ph := PhaseOf(s, e.r);
    match e
    case Process(r, recognized, fault) => if ph.Handing? && ph.todo != [] { ProcessBase(cfg, s, r, recognized, fault); }
    case Announce(r) => if ph.Announcing? { ProceedBase(s.(announced := s.announced + [ph.key]), r, ph.scan, ph.todo); }
    case _ =>
  }

  lemma ProcessBase(cfg: Config, s: State, r: nat, recognized: bool, fault: Fault)
    requires PhaseOf(s, r).Handing? && PhaseOf(s, r).todo != []
    ensures var ph := PhaseOf(s, r); var t := ProcessNext(cfg, s, r, ph.scan, ph.todo, recognized, fault);
      t.cursor == s.cursor && Base(PhaseOf(t, r)) == Base(ph)
  {
  }

  /** Event `i` is a save by a replica other than `r`. */
  ghost predicate OtherSave(cfg: Config, es: seq<Event>, i: nat, r: nat) {
    i < |es| && Saves(Run(cfg, es[..i]), es[i]) && es[i].r != r
  }

  /** Without another replica's save, what a replica read stays the cursor. */
  lemma {:induction false} StaysCurrent(cfg: Config, es: seq<Event>, k: nat, r: nat)
    requires k <= |es| && Current(Run(cfg, es[..k]), r)
    requires forall i :: k <= i ==> !OtherSave(cfg, es, i, r)
    ensures Current(Run(cfg, es), r)
    decreases |es|
  {
    if k == |es| {
      assert es[..k] == es;
    } else {
      var before := es[..|es| - 1];
      assert before[..k] == es[..k];
      forall i: nat | k <= i ensures !OtherSave(cfg, before, i, r) {
        if i < |before| {
          assert before[..i] == es[..i];
          assert !OtherSave(cfg, es, i, r);
        }
      }
      StaysCurrent(cfg, before, k, r);
      assert !OtherSave(cfg, es, |es| - 1, r);
      CurrentStep(cfg, Run(cfg, before), es[|es| - 1], r);
    }
  }

  /** A replica's save over an unchanged cursor lowers it exactly when the configured span is negative. */
  lemma CurrentSave(cfg: Config, es: seq<Event>, r: nat)
    requires Current(Run(cfg, es), r) && PhaseOf(Run(cfg, es), r).Saving?
    ensures var s := Run(cfg, es); Lowers(s, Apply(cfg, s, SaveCursor(r))) <==> cfg.span < 0
  {
    RunCoverage(cfg, es);
    assert CoverInv(cfg, Run(cfg, es), PhaseOf(Run(cfg, es), r));
  }

  /**
   * With a span that is not negative, a save lowers the cursor only if another replica saved since this one read it.
   */
  lemma BackwardNeedsAnotherSave(cfg: Config, es: seq<Event>, k: nat, r: nat)
    requires cfg.span >= 0 && k <= |es| && Current(Run(cfg, es[..k]), r)
    requires Lowers(Run(cfg, es), Apply(cfg, Run(cfg, es), SaveCursor(r)))
    ensures exists i :: k <= i && OtherSave(cfg, es, i, r)
  {
    if forall i :: k <= i ==> !OtherSave(cfg, es, i, r) {
      StaysCurrent(cfg, es, k, r);
      LowersExactly(cfg, Run(cfg, es), SaveCursor(r));
      CurrentSave(cfg, es, r);
    }
  }

  /**
   * A replica that is the only one to save lowers the cursor with a save exactly when the configured span is
   * negative.
   */
  lemma LoneReplica(cfg: Config, es: seq<Event>, r: nat)
    requires forall i :: !OtherSave(cfg, es, i, r)
    requires PhaseOf(Run(cfg, es), r).Saving?
    ensures var s := Run(cfg, es); Lowers(s, Apply(cfg, s, SaveCursor(r))) <==> cfg.span < 0
  {
    assert es[..0] == [];
    StaysCurrent(cfg, es, 0, r);
    CurrentSave(cfg, es, r);
  }

  lemma RunSnoc(cfg: Config, es: seq<Event>, e: Event)
    ensures Run(cfg, es + [e]) == Apply(cfg, Run(cfg, es), e)
  {
    assert (es + [e])[..|es|] == es;
  }

  const LateConfig := Config([], 2000, 500, Some(1), {})

  /** Two replicas read cursor 1; the second saw an older head. */
  const LateReads := [ReadHead(0, 3), ReadCursor(0), CreateCursor(0), ReadHead(1, 2), ReadCursor(1)]

  lemma BothHoldTheCursor()
    ensures var s := Run(LateConfig, LateReads);
      s.cursor == Some(1) && PhaseOf(s, 0) == HaveCursor(3, 1) && PhaseOf(s, 1) == HaveCursor(2, 1)
  {
    var es := LateReads;
    assert es[..0] == [];
    assert es[..1] == [] + [es[0]] && es[..2] == es[..1] + [es[1]] && es[..3] == es[..2] + [es[2]];
    assert es[..4] == es[..3] + [es[3]] && es == es[..4] + [es[4]];
    RunSnoc(LateConfig, [], es[0]);
    RunSnoc(LateConfig, es[..1], es[1]);
    RunSnoc(LateConfig, es[..2], es[2]);
    RunSnoc(LateConfig, es[..3], es[3]);
    RunSnoc(LateConfig, es[..4], es[4]);
  }

  const LateScans := LateReads + [LoadWallets(0, [], map[])] + [LoadWallets(1, [], map[])]

  lemma BothAreSaving()
    ensures var s := Run(LateConfig, LateScans); PhaseOf(s, 0) == Saving(2, 3) && PhaseOf(s, 1) == Saving(2, 2)
  {
    BothHoldTheCursor();
    RunSnoc(LateConfig, LateReads, LoadWallets(0, [], map[]));
    RunSnoc(LateConfig, LateReads + [LoadWallets(0, [], map[])], LoadWallets(1, [], map[]));
  }

  /** The slower replica's save arrives last and moves the cursor from 3 back to 2. */
  lemma CursorMayMoveBack()
    ensures exists cfg, es, e :: Run(cfg, es).cursor == Some(3) && Run(cfg, es + [e]).cursor == Some(2)
  {
    BothAreSaving();
    var a := LateScans + [SaveCursor(0)];
    RunSnoc(LateConfig, LateScans, SaveCursor(0));
    RunSnoc(LateConfig, a, SaveCursor(1));
    assert Run(LateConfig, a).cursor == Some(3);
    assert Run(LateConfig, a + [SaveCursor(1)]).cursor == Some(2);
  }

  /**
   * Over all runs: one row and at most one announcement per log key, and no internal or protocol sender is recorded.
   */
  lemma RecordedAtMostOnce(cfg: Config, es: seq<Event>)
    ensures var s := Run(cfg, es);
      && RowsOk(cfg, s.deposits)
      && Distinct(s.announced)
      && (forall k :: k in s.announced ==> HasRecognizedRow(s.deposits, k))
      && (forall i :: 0 <= i < |s.deposits| ==>
            var sender := AddressOf(s.deposits[i].log.topics[1]);
            sender !in s.deposits[i].wallets && sender !in cfg.protocol)
  {
    RunRecording(cfg, es);
    var s := Run(cfg, es);
    forall i | 0 <= i < |s.deposits|
      ensures |s.deposits[i].log.topics| == 3
      ensures AddressOf(s.deposits[i].log.topics[1]) !in s.deposits[i].wallets
      ensures AddressOf(s.deposits[i].log.topics[1]) !in cfg.protocol
    {
      assert RowOk(cfg, s.deposits[i]);
    }
  }
}

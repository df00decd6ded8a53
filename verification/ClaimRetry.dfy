/**
 * The claim retry queue with any number of workers.
 *
 * A worker fetches a batch, keeps the fetched retry counts, and takes the items one by one with a conditional
 * update. It may stop anywhere, also while a handler runs. Batches may be stale.
 */
module ClaimWorkers {
  import opened Prelude

  datatype Status = PENDING | PROCESSING | COMPLETED | FAILED

  const MAX_RETRIES := 3

  datatype Row = Row(status: Status, retries: nat)

  /** A fetched item: its id and the retry count seen then. */
  datatype Item = Item(id: string, retries: nat)

  datatype Worker = Worker(batch: seq<Item>, running: Option<Item>)

  datatype Event =
    | Record(id: string)
    | Fetch(p: nat, ids: seq<string>)
    | Take(p: nat)
    | Finish(p: nat, ok: bool)
    | Crash(p: nat)

  /** `executions` counts the handler runs of each id. */
  datatype State = State(rows: map<string, Row>, workers: map<nat, Worker>, executions: map<string, nat>)

  const Init := State(map[], map[], map[])

  function WorkerOf(s: State, p: nat): Worker {
    if p in s.workers then s.workers[p] else Worker([], None)
  }

  function Executions(s: State, id: string): nat {
    if id in s.executions then s.executions[id] else 0
  }

  function Goto(s: State, p: nat, w: Worker): State {
    s.(workers := s.workers[p := w])
  }

  predicate Eligible(row: Row) {
    row.status == PENDING && row.retries < MAX_RETRIES
  }

  predicate AllEligible(rows: map<string, Row>, ids: seq<string>) {
    forall i :: 0 <= i < |ids| ==> ids[i] in rows && Eligible(rows[ids[i]])
  }

  function Fetched(rows: map<string, Row>, ids: seq<string>): seq<Item>
    requires AllEligible(rows, ids)
  {
    if ids == [] then [] else [Item(ids[0], rows[ids[0]].retries)] + Fetched(rows, ids[1..])
  }

  /** The result of one handler run, judged by the fetched retry count. */
  function Outcome(row: Row, fetched: nat, ok: bool): Row {
    if ok then row.(status := COMPLETED)
    else if fetched + 1 >= MAX_RETRIES then Row(FAILED, fetched + 1)
    else Row(PENDING, fetched + 1)
  }

  function Apply(s: State, e: Event): State {
    match e
    case Record(id) => if id in s.rows then s else s.(rows := s.rows[id := Row(PENDING, 0)])
    case Fetch(p, ids) =>
      if WorkerOf(s, p) == Worker([], None) && AllEligible(s.rows, ids)
      then Goto(s, p, Worker(Fetched(s.rows, ids), None)) else s
    case Take(p) =>
      var w := WorkerOf(s, p);
      if w.running.Some? || w.batch == [] then s
      else
        var it := w.batch[0];
        if it.id in s.rows && s.rows[it.id].status == PENDING
        then Goto(s.(rows := s.rows[it.id := s.rows[it.id].(status := PROCESSING)],
                     executions := s.executions[it.id := Executions(s, it.id) + 1]),
                  p, Worker(w.batch[1..], Some(it)))
        else Goto(s, p, Worker(w.batch[1..], None))
    case Finish(p, ok) =>
      var w := WorkerOf(s, p);
      if w.running.None? || w.running.value.id !in s.rows then s
      else
        var it := w.running.value;
        Goto(s.(rows := s.rows[it.id := Outcome(s.rows[it.id], it.retries, ok)]), p, w.(running := None))
    case Crash(p) => Goto(s, p, Worker([], None))
  }

  function Run(s: State, es: seq<Event>): State {
    if es == [] then s else Apply(Run(s, es[..|es| - 1]), es[|es| - 1])
  }

  predicate Final(row: Row) {
    row.status == COMPLETED || row.status == FAILED
  }

  predicate Runs(s: State, p: nat, id: string) {
    p in s.workers && s.workers[p].running.Some? && s.workers[p].running.value.id == id
  }

  /** A handler runs only while its row is PROCESSING, and two workers never run the same one. */
  ghost predicate Inv(s: State) {
    && (forall p, id :: Runs(s, p, id) ==> id in s.rows && s.rows[id].status == PROCESSING)
    && (forall p, q, id :: Runs(s, p, id) && Runs(s, q, id) ==> p == q)
  }

  lemma ApplyKeeps(s: State, e: Event)
    requires Inv(s)
    ensures Inv(Apply(s, e))
    ensures forall id :: id in s.rows && Final(s.rows[id]) ==>
      id in Apply(s, e).rows && Apply(s, e).rows[id] == s.rows[id]
  {
    var t := Apply(s, e);
    if e.Take? || e.Finish? || e.Crash? || e.Fetch? {
      var w := WorkerOf(s, e.p);
      assert w.running.Some? ==> Runs(s, e.p, w.running.value.id);
      forall p, id | Runs(t, p, id) && p != e.p ensures Runs(s, p, id) {}
    } else {
      forall p, id | Runs(t, p, id) ensures Runs(s, p, id) {}
    }
  }

  lemma {:induction false} RunKeeps(s: State, es: seq<Event>)
    requires Inv(s)
    ensures Inv(Run(s, es))
  {
    if es != [] {
      RunKeeps(s, es[..|es| - 1]);
      ApplyKeeps(Run(s, es[..|es| - 1]), es[|es| - 1]);
    }
  }

  /** In every interleaving at most one worker executes a given claim, and it holds the row in PROCESSING. */
  lemma MutualExclusion(es: seq<Event>, p: nat, q: nat, id: string)
    requires Runs(Run(Init, es), p, id) && Runs(Run(Init, es), q, id)
    ensures p == q && id in Run(Init, es).rows && Run(Init, es).rows[id].status == PROCESSING
  {
    RunKeeps(Init, es);
  }

  /** COMPLETED and FAILED are final: no later run changes such a row or executes its handler again. */
  lemma {:induction false} FinalForever(s: State, es: seq<Event>, id: string)
    requires Inv(s) && id in s.rows && Final(s.rows[id])
    ensures id in Run(s, es).rows && Run(s, es).rows[id] == s.rows[id]
    ensures Executions(Run(s, es), id) == Executions(s, id)
  {
    if es != [] {
      var before := es[..|es| - 1];
      FinalForever(s, before, id);
      RunKeeps(s, before);
      ApplyKeeps(Run(s, before), es[|es| - 1]);
    }
  }

  /** A claim whose worker stopped in the middle of the handler. */
  ghost predicate Orphaned(s: State, id: string) {
    id in s.rows && s.rows[id].status == PROCESSING && forall p :: !Runs(s, p, id)
  }

  lemma OrphanStep(s: State, e: Event, id: string)
    requires Inv(s) && Orphaned(s, id)
    ensures Orphaned(Apply(s, e), id) && Apply(s, e).rows[id] == s.rows[id]
    ensures Executions(Apply(s, e), id) == Executions(s, id)
  {
    var t := Apply(s, e);
    if e.Finish? {
      var w := WorkerOf(s, e.p);
      assert w.running.Some? ==> Runs(s, e.p, w.running.value.id);
    }
    forall p ensures !Runs(t, p, id) {
      assert !Runs(s, p, id);
    }
  }

  /** An orphaned claim stays PROCESSING forever: nothing in the service retries or fails it. */
  lemma {:induction false} OrphanNeverRetried(s: State, es: seq<Event>, id: string)
    requires Inv(s) && Orphaned(s, id)
    ensures Orphaned(Run(s, es), id) && Executions(Run(s, es), id) == Executions(s, id)
  {
    if es != [] {
      OrphanNeverRetried(s, es[..|es| - 1], id);
      RunKeeps(s, es[..|es| - 1]);
      OrphanStep(Run(s, es[..|es| - 1]), es[|es| - 1], id);
    }
  }

  /** A step orphans a claim exactly when it stops the worker that runs its handler. */
  lemma OrphanArises(s: State, e: Event, id: string)
    requires Inv(s) && !Orphaned(s, id)
    ensures Orphaned(Apply(s, e), id) <==> e.Crash? && Runs(s, e.p, id)
  {
    var t := Apply(s, e);
    if e.Crash? && Runs(s, e.p, id) {
      forall p ensures !Runs(t, p, id) {
        assert Runs(s, p, id) ==> p == e.p;
      }
    } else if id in s.rows && s.rows[id].status == PROCESSING {
      var p :| Runs(s, p, id);
      if e.Finish? && e.p == p {
        assert t.rows[id].status != PROCESSING;
      } else {
        assert Runs(t, p, id);
      }
    } else if id in t.rows && t.rows[id].status == PROCESSING {
      assert e.Take?;
      assert Runs(t, e.p, id);
    }
  }

  /** Event `i` stopped a worker while it ran the handler of `id`. */
  ghost predicate StoppedIn(es: seq<Event>, i: nat, id: string) {
    i < |es| && es[i].Crash? && Runs(Run(Init, es[..i]), es[i].p, id)
  }

  /** Over every run: a claim is stuck in PROCESSING if and only if some worker stopped while running its handler. */
  lemma {:induction false} OrphanedExactly(es: seq<Event>, id: string)
    ensures Orphaned(Run(Init, es), id) <==> exists i :: StoppedIn(es, i, id)
  {
    if es != [] {
      var k := |es| - 1;
      var before := es[..k];
      RunKeeps(Init, before);
      OrphanedExactly(before, id);
      forall i | 0 <= i < k ensures StoppedIn(before, i, id) <==> StoppedIn(es, i, id) {
        assert before[..i] == es[..i];
      }
      assert (exists i :: StoppedIn(es, i, id)) <==> (exists i :: StoppedIn(before, i, id)) || StoppedIn(es, k, id);
      if Orphaned(Run(Init, before), id) {
        OrphanStep(Run(Init, before), es[k], id);
      } else {
        OrphanArises(Run(Init, before), es[k], id);
      }
    }
  }

  predicate HasStatus(s: State, id: string, status: Status) {
    id in s.rows && s.rows[id].status == status
  }

  /** A handler run of `id` ends it: a success completes it, a failure that counts as the third fails it. */
  predicate Ends(s: State, e: Event, id: string, status: Status) {
    && e.Finish? && Runs(s, e.p, id)
    && if status == COMPLETED then e.ok else !e.ok && s.workers[e.p].running.value.retries >= 2
  }

  lemma EndStep(s: State, e: Event, id: string, status: Status)
    requires Inv(s) && (status == COMPLETED || status == FAILED)
    ensures HasStatus(Apply(s, e), id, status) <==> HasStatus(s, id, status) || Ends(s, e, id, status)
  {
    if e.Finish? && WorkerOf(s, e.p).running.Some? {
      var own := WorkerOf(s, e.p).running.value.id;
      assert Runs(s, e.p, own);
    }
  }

  ghost predicate EndedAt(es: seq<Event>, i: nat, id: string, status: Status) {
    i < |es| && Ends(Run(Init, es[..i]), es[i], id, status)
  }

  /**
   * Over every run: a claim is COMPLETED if and only if some run of its handler succeeded, and FAILED if and only if a
   * run failed whose batch already counted two retries.
   */
  lemma {:induction false} EndedExactly(es: seq<Event>, id: string, status: Status)
    requires status == COMPLETED || status == FAILED
    ensures HasStatus(Run(Init, es), id, status) <==> exists i :: EndedAt(es, i, id, status)
  {
    if es != [] {
      var k := |es| - 1;
      var before := es[..k];
      RunKeeps(Init, before);
      EndedExactly(before, id, status);
      forall i | 0 <= i < k ensures EndedAt(before, i, id, status) <==> EndedAt(es, i, id, status) {
        assert before[..i] == es[..i];
      }
      assert (exists i :: EndedAt(es, i, id, status))
        <==> (exists i :: EndedAt(before, i, id, status)) || EndedAt(es, k, id, status);
      EndStep(Run(Init, before), es[k], id, status);
    }
  }

  // ---- how often a handler runs -----------------------------------------------------------------------

  function Running(s: State, p: nat): Option<Item> {
    WorkerOf(s, p).running
  }

  /** How far a failing run's written retry count falls behind the row: what the worker's old count forgets. */
  function Forgets(s: State, e: Event, id: string): int {
    if e.Finish? && !e.ok && Running(s, e.p).Some? && Running(s, e.p).value.id == id && id in s.rows
    then s.rows[id].retries - Running(s, e.p).value.retries else 0
  }

  function Forgotten(es: seq<Event>, id: string): int {
    if es == [] then 0
    else Forgotten(es[..|es| - 1], id) + Forgets(Run(Init, es[..|es| - 1]), es[|es| - 1], id)
  }

  /** The run that is under way, was interrupted, or succeeded. */
  function Uncounted(row: Row): nat {
    if row.status == PROCESSING || row.status == COMPLETED then 1 else 0
  }

  /** `lost` runs beside the counted retries and the uncounted one. */
  predicate Accounts(s: State, id: string, lost: int) {
    if id in s.rows then Executions(s, id) == s.rows[id].retries + Uncounted(s.rows[id]) + lost
    else Executions(s, id) == 0 && lost == 0
  }

  lemma AccountsStep(s: State, e: Event, id: string, lost: int)
    requires Inv(s) && Accounts(s, id, lost)
    ensures Accounts(Apply(s, e), id, lost + Forgets(s, e, id))
  {
    if e.Finish? {
      var w := WorkerOf(s, e.p);
      assert w.running.Some? ==> Runs(s, e.p, w.running.value.id);
    }
  }

  /**
   * Over every run, with any stale batches: a handler ran once per counted retry, once if uncounted, and once per
   * forgotten failure.
   */
  lemma {:induction false} ExecutionsAccounted(es: seq<Event>, id: string)
    ensures Accounts(Run(Init, es), id, Forgotten(es, id))
  {
    if es != [] {
      var before := es[..|es| - 1];
      ExecutionsAccounted(before, id);
      RunKeeps(Init, before);
      AccountsStep(Run(Init, before), es[|es| - 1], id, Forgotten(before, id));
    }
  }

  /** Only eligible counts are fetched, so the stored count stays below three until the claim is FAILED with three. */
  predicate CountOk(row: Row) {
    if row.status == FAILED then row.retries == MAX_RETRIES else row.retries < MAX_RETRIES
  }

  predicate ItemsOk(w: Worker) {
    && (w.running.Some? ==> w.running.value.retries < MAX_RETRIES)
    && forall i :: 0 <= i < |w.batch| ==> w.batch[i].retries < MAX_RETRIES
  }

  ghost predicate Counts(s: State) {
    && (forall id :: id in s.rows ==> CountOk(s.rows[id]))
    && (forall p :: p in s.workers ==> ItemsOk(s.workers[p]))
  }

  lemma {:induction false} FetchedOk(rows: map<string, Row>, ids: seq<string>)
    requires AllEligible(rows, ids)
    ensures ItemsOk(Worker(Fetched(rows, ids), None))
  {
    if ids != [] { FetchedOk(rows, ids[1..]); }
  }

  lemma CountsStep(s: State, e: Event)
    requires Inv(s) && Counts(s)
    ensures Counts(Apply(s, e))
  {
    if e.Finish? && Running(s, e.p).Some? { assert Runs(s, e.p, Running(s, e.p).value.id); }
    if e.Fetch? && AllEligible(s.rows, e.ids) { FetchedOk(s.rows, e.ids); }
  }

  lemma {:induction false} RunCounts(es: seq<Event>)
    ensures Counts(Run(Init, es))
  {
    if es != [] {
      RunCounts(es[..|es| - 1]);
      RunKeeps(Init, es[..|es| - 1]);
      CountsStep(Run(Init, es[..|es| - 1]), es[|es| - 1]);
    }
  }

  /** Over every run: a FAILED claim ran exactly three times if and only if its failing runs forgot nothing in sum. */
  lemma FailedAfterThree(es: seq<Event>, id: string)
    requires id in Run(Init, es).rows && Run(Init, es).rows[id].status == FAILED
    ensures Executions(Run(Init, es), id) == 3 <==> Forgotten(es, id) == 0
  {
    ExecutionsAccounted(es, id);
    RunCounts(es);
  }

  /** A worker is about to run a claim. */
  predicate Takes(s: State, p: nat) {
    var w := WorkerOf(s, p);
    w.running.None? && w.batch != [] && w.batch[0].id in s.rows && s.rows[w.batch[0].id].status == PENDING
  }

  /** The condition the conditional update leaves out: the row still has the fetched retry count. */
  predicate FreshTake(s: State, p: nat)
    requires Takes(s, p)
  {
    s.rows[WorkerOf(s, p).batch[0].id].retries == WorkerOf(s, p).batch[0].retries
  }

  /** A take whose handler fails keeps the books balanced exactly when it was fresh. */
  lemma FailedTakeForgets(s: State, p: nat, lost: int)
    requires Inv(s) && Takes(s, p) && Accounts(s, WorkerOf(s, p).batch[0].id, lost)
    ensures var id := WorkerOf(s, p).batch[0].id;
      Accounts(Apply(Apply(s, Take(p)), Finish(p, false)), id, lost) <==> FreshTake(s, p)
  {
    var t := Apply(s, Take(p));
    assert WorkerOf(t, p) == Worker(WorkerOf(s, p).batch[1..], Some(WorkerOf(s, p).batch[0]));
  }

  ghost predicate TakesFresh(es: seq<Event>) {
    forall i :: 0 <= i < |es| && es[i].Take? && Takes(Run(Init, es[..i]), es[i].p) ==>
      FreshTake(Run(Init, es[..i]), es[i].p)
  }

  /** A running handler's count is the row's. */
  ghost predicate RunsFresh(s: State) {
    forall p :: p in s.workers && s.workers[p].running.Some? ==>
      var it := s.workers[p].running.value;
      it.id in s.rows && s.rows[it.id].retries == it.retries
  }

  lemma RunsFreshStep(s: State, e: Event)
    requires Inv(s) && RunsFresh(s) && (e.Take? && Takes(s, e.p) ==> FreshTake(s, e.p))
    ensures RunsFresh(Apply(s, e))
    ensures forall id :: Forgets(s, e, id) == 0
  {
    var t := Apply(s, e);
    forall p | p in t.workers && t.workers[p].running.Some?
      ensures var it := t.workers[p].running.value; it.id in t.rows && t.rows[it.id].retries == it.retries
    {
      if e.Record? || p != e.p {
        assert Runs(s, p, t.workers[p].running.value.id);
        if e.Finish? && Running(s, e.p).Some? { assert Runs(s, e.p, Running(s, e.p).value.id); }
      }
    }
  }

  lemma {:induction false} RunFresh(es: seq<Event>)
    requires TakesFresh(es)
    ensures RunsFresh(Run(Init, es)) && forall id :: Forgotten(es, id) == 0
  {
    if es != [] {
      var before := es[..|es| - 1];
      assert forall i :: 0 <= i < |before| ==> before[..i] == es[..i];
      RunFresh(before);
      RunKeeps(Init, before);
      RunsFreshStep(Run(Init, before), es[|es| - 1]);
    }
  }

  /** With fresh takes the three-attempt bound holds for any number of workers and any crashes. */
  lemma ThreeAttempts(es: seq<Event>, id: string)
    requires TakesFresh(es) && id in Run(Init, es).rows
    ensures var s := Run(Init, es);
      && Executions(s, id) == s.rows[id].retries + Uncounted(s.rows[id])
      && Executions(s, id) <= 3
      && (s.rows[id].status == FAILED ==> Executions(s, id) == 3)
  {
    RunFresh(es);
    ExecutionsAccounted(es, id);
    RunCounts(es);
  }

  // ---- witnesses --------------------------------------------------------------------------------------

  lemma RunSnoc(s: State, es: seq<Event>, e: Event)
    ensures Run(s, es + [e]) == Apply(Run(s, es), e)
  {
    assert (es + [e])[..|es|] == es;
  }

  lemma FetchOne(s: State, p: nat)
    requires WorkerOf(s, p) == Worker([], None) && "c" in s.rows && Eligible(s.rows["c"])
    ensures Apply(s, Fetch(p, ["c"])) == Goto(s, p, Worker([Item("c", s.rows["c"].retries)], None))
  {
    assert AllEligible(s.rows, ["c"]) && ["c"][1..] == [];
    assert Fetched(s.rows, ["c"]) == [Item("c", s.rows["c"].retries)];
  }

  /** A worker whose batch is just this claim takes it and its handler throws. */
  lemma FailOne(s: State, p: nat, fetched: nat)
    requires WorkerOf(s, p) == Worker([Item("c", fetched)], None) && "c" in s.rows && s.rows["c"].status == PENDING
    ensures var t := Apply(Apply(s, Take(p)), Finish(p, false));
      && t.rows == s.rows["c" := Outcome(s.rows["c"], fetched, false)]
      && t.workers == s.workers[p := Worker([], None)] && Executions(t, "c") == Executions(s, "c") + 1
  {
    var t := Apply(s, Take(p));
    assert WorkerOf(t, p) == Worker([], Some(Item("c", fetched)));
  }

  /** Two workers fetched the claim with no retries; the first failed it twice. */
  const BothFetched: seq<Event> := [Record("c"), Fetch(0, ["c"]), Fetch(1, ["c"])]
  const StaleRace: seq<Event> :=
    BothFetched + [Take(0)] + [Finish(0, false)] + [Fetch(0, ["c"])] + [Take(0)] + [Finish(0, false)]

  lemma BothFetchedState()
    ensures Run(Init, BothFetched)
         == State(map["c" := Row(PENDING, 0)],
                  map[0 := Worker([Item("c", 0)], None), 1 := Worker([Item("c", 0)], None)], map[])
  {
    var a := [] + [Record("c")];
    var b := a + [Fetch(0, ["c"])];
    RunSnoc(Init, [], Record("c"));
    assert Run(Init, a) == State(map["c" := Row(PENDING, 0)], map[], map[]);
    RunSnoc(Init, a, Fetch(0, ["c"]));
    FetchOne(Run(Init, a), 0);
    RunSnoc(Init, b, Fetch(1, ["c"]));
    FetchOne(Run(Init, b), 1);
    assert BothFetched == b + [Fetch(1, ["c"])];
  }

  /** Orphans are real: a worker takes a claim and stops. */
  lemma OrphanExists()
    ensures exists es :: Orphaned(Run(Init, es), "c")
  {
    var a := BothFetched + [Take(0)];
    var b := a + [Crash(0)];
    BothFetchedState();
    RunSnoc(Init, BothFetched, Take(0));
    RunSnoc(Init, a, Crash(0));
    assert Runs(Run(Init, a), 0, "c");
    assert b[..|a|] == a;
    assert StoppedIn(b, |a|, "c");
    OrphanedExactly(b, "c");
  }

  lemma StaleRaceState()
    ensures var s := Run(Init, StaleRace);
      && s.rows == map["c" := Row(PENDING, 2)] && Executions(s, "c") == 2
      && WorkerOf(s, 0) == Worker([], None) && WorkerOf(s, 1) == Worker([Item("c", 0)], None)
  {
    BothFetchedState();
    var s := Run(Init, BothFetched);
    FailOne(s, 0, 0);
    RunSnoc(Init, BothFetched, Take(0));
    RunSnoc(Init, BothFetched + [Take(0)], Finish(0, false));
    var b := BothFetched + [Take(0)] + [Finish(0, false)];
    var t := Run(Init, b);
    assert t.rows["c"] == Row(PENDING, 1);
    RunSnoc(Init, b, Fetch(0, ["c"]));
    FetchOne(t, 0);
    FailOne(Apply(t, Fetch(0, ["c"])), 0, 1);
    RunSnoc(Init, b + [Fetch(0, ["c"])], Take(0));
    RunSnoc(Init, b + [Fetch(0, ["c"])] + [Take(0)], Finish(0, false));
  }

  const ResetRace: seq<Event> := StaleRace + [Take(1)] + [Finish(1, false)]

  /** The second worker's old count puts the row back to one retry after three runs. */
  lemma CountReset()
    ensures var s := Run(Init, ResetRace);
      s.rows == map["c" := Row(PENDING, 1)] && Executions(s, "c") == 3 && WorkerOf(s, 0) == Worker([], None)
  {
    StaleRaceState();
    RunSnoc(Init, StaleRace, Take(1));
    RunSnoc(Init, StaleRace + [Take(1)], Finish(1, false));
    FailOne(Run(Init, StaleRace), 1, 0);
  }

  /**
   * With stale batches the three-attempt bound fails: the second worker's old count resets the retries, and the
   * handler runs a fourth time.
   */
  lemma StaleBatchRunsFourTimes()
    ensures exists es :: Executions(Run(Init, es), "c") == 4
  {
    CountReset();
    var c := ResetRace + [Fetch(0, ["c"])];
    RunSnoc(Init, ResetRace, Fetch(0, ["c"]));
    FetchOne(Run(Init, ResetRace), 0);
    assert WorkerOf(Run(Init, c), 0).batch == [Item("c", 1)];
    RunSnoc(Init, c, Take(0));
    assert Executions(Run(Init, c + [Take(0)]), "c") == 4;
  }
}

/** One scheduler that does not stop: rounds of at most twenty attempts over the queue in creation order. */
module ClaimScheduler {
  import opened Prelude
  import opened ClaimWorkers

  const BATCH: nat := 20

  datatype Kind = ENVELOPE_CLAIM | ESCROW_CLAIM | AIRDROP_CLAIM

  /** A queued claim; `runs` and `fails` count its handler executions. */
  datatype Claim = Claim(id: string, kind: Kind, status: Status, retries: nat, runs: nat, fails: nat)

  function Queued(id: string, kind: Kind): Claim {
    Claim(id, kind, PENDING, 0, 0, 0)
  }

  predicate Active(c: Claim) {
    c.status == PENDING && c.retries < MAX_RETRIES
  }

  /** What a handler run meets: registered executors, and the claims whose execution throws. */
  datatype Handlers = Handlers(envelopes: bool, escrow: bool, throwing: set<string>)

  /** A kind without a registered executor counts as a success. */
  predicate Succeeds(c: Claim, h: Handlers) {
    match c.kind
    case ENVELOPE_CLAIM => h.envelopes ==> c.id !in h.throwing
    case ESCROW_CLAIM => h.escrow ==> c.id !in h.throwing
    case AIRDROP_CLAIM => true
  }

  function Attempted(c: Claim, h: Handlers): Claim {
    var row := Outcome(Row(PROCESSING, c.retries), c.retries, Succeeds(c, h));
    c.(status := row.status, retries := row.retries, runs := c.runs + 1,
       fails := c.fails + if Succeeds(c, h) then 0 else 1)
  }

  /** One funded round: the first `quota` active claims are attempted once each. */
  function Round(q: seq<Claim>, quota: nat, h: Handlers): (q': seq<Claim>)
    ensures |q'| == |q|
  {
    if q == [] then []
    else if Active(q[0]) && quota > 0 then [Attempted(q[0], h)] + Round(q[1..], quota - 1, h)
    else [q[0]] + Round(q[1..], quota, h)
  }

  datatype Tick = Funded(h: Handlers) | Unfunded | Arrival(id: string, kind: Kind)

  function AfterTick(q: seq<Claim>, t: Tick): seq<Claim> {
    match t
    case Funded(h) => Round(q, BATCH, h)
    case Unfunded => q
    case Arrival(id, kind) => q + [Queued(id, kind)]
  }

  function RunTicks(q: seq<Claim>, ts: seq<Tick>): (q': seq<Claim>)
    decreases |ts|
  {
    if ts == [] then q else RunTicks(AfterTick(q, ts[0]), ts[1..])
  }

  function FundedRounds(ts: seq<Tick>): nat {
    if ts == [] then 0 else (if ts[0].Funded? then 1 else 0) + FundedRounds(ts[1..])
  }

  /** How many active claims stand before position `i`. */
  function Ahead(q: seq<Claim>, i: nat): nat
    requires i <= |q|
  {
    if i == 0 then 0 else Ahead(q, i - 1) + if Active(q[i - 1]) then 1 else 0
  }

  /** Attempts an active claim may still need. */
  function Need(c: Claim): nat {
    if Active(c) then MAX_RETRIES - c.retries else 0
  }

  // ---- one round ------------------------------------------------------------------------------------

  lemma {:induction false} AheadTail(q: seq<Claim>, i: nat)
    requires 0 < i <= |q|
    ensures Ahead(q, i) == (if Active(q[0]) then 1 else 0) + Ahead(q[1..], i - 1)
  {
    if i > 1 { AheadTail(q, i - 1); }
  }

  /** Exactly the active claims with fewer than `quota` active ones before them are attempted. */
  lemma {:induction false} RoundAt(q: seq<Claim>, quota: nat, h: Handlers, i: nat)
    requires i < |q|
    ensures Round(q, quota, h)[i] == if Active(q[i]) && Ahead(q, i) < quota then Attempted(q[i], h) else q[i]
  {
    if i > 0 {
      AheadTail(q, i);
      RoundAt(q[1..], if Active(q[0]) && quota > 0 then quota - 1 else quota, h, i - 1);
    }
  }

  /** A tick never makes a position need more, and a funded round serves the first twenty. */
  lemma TickAt(q: seq<Claim>, t: Tick, i: nat)
    requires i < |q|
    ensures |q| <= |AfterTick(q, t)|
    ensures Need(AfterTick(q, t)[i]) <= Need(q[i])
    ensures t.Funded? && Ahead(q, i) < BATCH && Active(q[i]) ==> Need(AfterTick(q, t)[i]) < Need(q[i])
  {
    if t.Funded? { RoundAt(q, BATCH, t.h, i); }
  }

  lemma {:induction false} TickAhead(q: seq<Claim>, t: Tick, i: nat)
    requires i <= |q|
    ensures |q| <= |AfterTick(q, t)| && Ahead(AfterTick(q, t), i) <= Ahead(q, i)
  {
    if i > 0 {
      TickAhead(q, t, i - 1);
      TickAt(q, t, i - 1);
    } else if t.Funded? {
      assert |Round(q, BATCH, t.h)| == |q|;
    }
  }

  lemma {:induction false} RunAhead(q: seq<Claim>, ts: seq<Tick>, i: nat)
    requires i <= |q|
    ensures |q| <= |RunTicks(q, ts)| && Ahead(RunTicks(q, ts), i) <= Ahead(q, i)
    ensures i < |q| ==> Need(RunTicks(q, ts)[i]) <= Need(q[i])
    decreases |ts|
  {
    if ts != [] {
      TickAhead(q, ts[0], i);
      if i < |q| { TickAt(q, ts[0], i); }
      RunAhead(AfterTick(q, ts[0]), ts[1..], i);
    }
  }

  // ---- progress ---------------------------------------------------------------------------------------

  /** A claim among the first twenty is settled once as many funded rounds passed as it needs attempts. */
  lemma {:induction false} FrontSettles(q: seq<Claim>, ts: seq<Tick>, i: nat)
    requires i < |q| && Ahead(q, i) < BATCH && FundedRounds(ts) >= Need(q[i])
    ensures |q| <= |RunTicks(q, ts)| && Need(RunTicks(q, ts)[i]) == 0
    decreases |ts|
  {
    if ts == [] {
    } else {
      TickAt(q, ts[0], i);
      TickAhead(q, ts[0], i);
      FrontSettles(AfterTick(q, ts[0]), ts[1..], i);
    }
  }

  /** The position of the twentieth active claim before `i`. */
  lemma {:induction false} Twentieth(q: seq<Claim>, i: nat) returns (j: nat)
    requires i <= |q| && Ahead(q, i) >= BATCH
    ensures BATCH <= j <= i && Ahead(q, j) == BATCH
    ensures forall k :: 0 <= k < j ==> Ahead(q, k) < BATCH || !Active(q[k])
  {
    j := 0;
    while Ahead(q, j) < BATCH
      invariant 0 <= j <= i && Ahead(q, j) <= BATCH && Ahead(q, j) <= j
      invariant forall k :: 0 <= k < j ==> Ahead(q, k) < BATCH
      decreases i - j
    {
      j := j + 1;
    }
  }

  lemma {:induction false} AheadSplit(q: seq<Claim>, q': seq<Claim>, j: nat, i: nat)
    requires j <= i <= |q| <= |q'|
    requires forall k :: 0 <= k < j ==> !Active(q'[k])
    requires forall k :: j <= k < i && Active(q'[k]) ==> Active(q[k])
    ensures Ahead(q', i) <= Ahead(q, i) - Ahead(q, j)
    decreases i
  {
    if i == 0 {
    } else if i == j {
      NoneAhead(q', i);
    } else {
      AheadSplit(q, q', j, i - 1);
    }
  }

  lemma {:induction false} NoneAhead(q: seq<Claim>, i: nat)
    requires i <= |q| && forall k :: 0 <= k < i ==> !Active(q[k])
    ensures Ahead(q, i) == 0
  {
    if i > 0 { NoneAhead(q, i - 1); }
  }

  lemma NeedIsActive(c: Claim)
    ensures Need(c) == 0 <==> !Active(c)
    ensures Need(c) <= MAX_RETRIES
  {
  }

  /** Three funded rounds clear the first twenty active claims, so everybody behind moves up by twenty. */
  lemma ThreeRoundsClearABatch(q: seq<Claim>, ts: seq<Tick>, i: nat)
    requires i < |q| && Ahead(q, i) >= BATCH && FundedRounds(ts) >= MAX_RETRIES
    ensures |q| <= |RunTicks(q, ts)| && Ahead(RunTicks(q, ts), i) <= Ahead(q, i) - BATCH
  {
    RunAhead(q, ts, i);
    var q' := RunTicks(q, ts);
    var j := Twentieth(q, i);
    forall k | 0 <= k < j ensures !Active(q'[k]) {
      NeedIsActive(q[k]);
      if Active(q[k]) { FrontSettles(q, ts, k); } else { RunAhead(q, ts, k); }
      NeedIsActive(q'[k]);
    }
    forall k | j <= k < i && Active(q'[k]) ensures Active(q[k]) {
      RunAhead(q, ts, k);
      NeedIsActive(q[k]);
      NeedIsActive(q'[k]);
    }
    AheadSplit(q, q', j, i);
  }

  lemma {:induction false} RunSplit(q: seq<Claim>, a: seq<Tick>, b: seq<Tick>)
    ensures RunTicks(q, a + b) == RunTicks(RunTicks(q, a), b)
    ensures FundedRounds(a + b) == FundedRounds(a) + FundedRounds(b)
    decreases |a|
  {
    if a == [] {
      assert a + b == b;
    } else {
      assert (a + b)[1..] == a[1..] + b;
      RunSplit(AfterTick(q, a[0]), a[1..], b);
    }
  }

  /** A prefix that holds exactly `n` funded rounds. */
  lemma {:induction false} FirstFunded(ts: seq<Tick>, n: nat) returns (k: nat)
    requires FundedRounds(ts) >= n
    ensures k <= |ts| && FundedRounds(ts[..k]) == n && FundedRounds(ts[k..]) == FundedRounds(ts) - n
    decreases |ts|
  {
    if n == 0 {
      k := 0;
      assert ts[0..] == ts;
    } else if ts[0].Funded? {
      k := FirstFunded(ts[1..], n - 1);
      k := k + 1;
      assert ts[..k][1..] == ts[1..][..k - 1] && ts[k..] == ts[1..][k - 1..];
    } else {
      k := FirstFunded(ts[1..], n);
      k := k + 1;
      assert ts[..k][1..] == ts[1..][..k - 1] && ts[k..] == ts[1..][k - 1..];
    }
  }

  /**
   * A claim with `k` active claims before it is settled within 3 * (k / 20 + 1) funded rounds, whatever arrives
   * meanwhile.
   */
  lemma {:induction false} SettledInTime(q: seq<Claim>, ts: seq<Tick>, i: nat)
    requires i < |q| && FundedRounds(ts) >= 3 * (Ahead(q, i) / BATCH + 1)
    ensures |q| <= |RunTicks(q, ts)| && !Active(RunTicks(q, ts)[i])
    decreases Ahead(q, i)
  {
    NeedIsActive(q[i]);
    if Ahead(q, i) < BATCH {
      FrontSettles(q, ts, i);
      NeedIsActive(RunTicks(q, ts)[i]);
    } else {
      var k := AfterThreeRounds(q, ts, i);
      SettledInTime(RunTicks(q, ts[..k]), ts[k..], i);
    }
  }

  /** Twenty places up take three rounds off the bound. */
  lemma BoundShrinks(ahead: nat, ahead': nat, rounds: nat)
    requires ahead' <= ahead - BATCH && rounds >= 3 * (ahead / BATCH + 1)
    ensures rounds - 3 >= 3 * (ahead' / BATCH + 1)
  {
  }

  /** The point at which three funded rounds are over, with the bound for what remains. */
  lemma AfterThreeRounds(q: seq<Claim>, ts: seq<Tick>, i: nat) returns (k: nat)
    requires i < |q| && Ahead(q, i) >= BATCH && FundedRounds(ts) >= 3 * (Ahead(q, i) / BATCH + 1)
    ensures k <= |ts| && RunTicks(RunTicks(q, ts[..k]), ts[k..]) == RunTicks(q, ts)
    ensures var q' := RunTicks(q, ts[..k]);
      |q| <= |q'| && Ahead(q', i) < Ahead(q, i) && FundedRounds(ts[k..]) >= 3 * (Ahead(q', i) / BATCH + 1)
  {
    k := FirstFunded(ts, 3);
    assert ts[..k] + ts[k..] == ts;
    RunSplit(q, ts[..k], ts[k..]);
    ThreeRoundsClearABatch(q, ts[..k], i);
    BoundShrinks(Ahead(q, i), Ahead(RunTicks(q, ts[..k]), i), FundedRounds(ts));
  }

  // ---- accounting -------------------------------------------------------------------------------------

  /** Retries are the failed runs; at most three runs; a settled claim is COMPLETED or, after three failures, FAILED. */
  predicate Accounted(c: Claim) {
    && c.retries == c.fails && c.runs <= MAX_RETRIES
    && c.runs == c.fails + (if c.status == COMPLETED then 1 else 0)
    && (c.status == PENDING ==> c.retries < MAX_RETRIES)
    && (c.status == FAILED ==> c.fails == MAX_RETRIES)
    && c.status != PROCESSING
  }

  predicate AllAccounted(q: seq<Claim>) {
    forall i :: 0 <= i < |q| ==> Accounted(q[i])
  }

  lemma {:induction false} RunsAccounted(q: seq<Claim>, ts: seq<Tick>)
    requires AllAccounted(q)
    ensures AllAccounted(RunTicks(q, ts))
    decreases |ts|
  {
    if ts != [] {
      var q1 := AfterTick(q, ts[0]);
      forall i | 0 <= i < |q1| ensures Accounted(q1[i]) {
        if i < |q| && ts[0].Funded? { RoundAt(q, BATCH, ts[0].h, i); }
      }
      RunsAccounted(q1, ts[1..]);
    }
  }

  /**
   * Bounded retries: from an empty queue, a claim with `k` active claims ahead ends COMPLETED or FAILED in time,
   * after at most three runs.
   */
  lemma BoundedRetries(past: seq<Tick>, future: seq<Tick>, i: nat)
    requires i < |RunTicks([], past)| && FundedRounds(future) >= 3 * (Ahead(RunTicks([], past), i) / BATCH + 1)
    ensures i < |RunTicks(RunTicks([], past), future)|
    ensures var c := RunTicks(RunTicks([], past), future)[i];
      && (c.status == COMPLETED || c.status == FAILED)
      && c.runs <= 3 && c.retries == c.fails && (c.status == FAILED ==> c.fails == 3)
  {
    RunsAccounted([], past);
    RunsAccounted(RunTicks([], past), future);
    SettledInTime(RunTicks([], past), future, i);
    assert Accounted(RunTicks(RunTicks([], past), future)[i]);
  }

  // ---- how a claim ends ---------------------------------------------------------------------------------

  /** The claim's handler throws: its kind has a registered executor, whose execution fails. */
  predicate Throws(id: string, kind: Kind, h: Handlers) {
    && id in h.throwing
    && ((kind == ENVELOPE_CLAIM && h.envelopes) || (kind == ESCROW_CLAIM && h.escrow))
  }

  ghost predicate NeverThrows(id: string, kind: Kind, ts: seq<Tick>) {
    forall t :: t in ts && t.Funded? ==> !Throws(id, kind, t.h)
  }

  ghost predicate AlwaysThrows(id: string, kind: Kind, ts: seq<Tick>) {
    forall t :: t in ts && t.Funded? ==> Throws(id, kind, t.h)
  }

  /** A claim whose every run failed, so far. */
  function Failing(id: string, kind: Kind, n: nat): Claim {
    Claim(id, kind, if n < MAX_RETRIES then PENDING else FAILED, n, n, n)
  }

  /** A claim that has been run without a failure. */
  function Succeeded(id: string, kind: Kind): Claim {
    Claim(id, kind, COMPLETED, 0, 1, 0)
  }

  lemma {:induction false} CalmRun(q: seq<Claim>, ts: seq<Tick>, i: nat, id: string, kind: Kind)
    requires i < |q| && NeverThrows(id, kind, ts) && (q[i] == Queued(id, kind) || q[i] == Succeeded(id, kind))
    ensures i < |RunTicks(q, ts)|
    ensures RunTicks(q, ts)[i] == Queued(id, kind) || RunTicks(q, ts)[i] == Succeeded(id, kind)
    decreases |ts|
  {
    if ts != [] {
      assert ts[0] in ts;
      if ts[0].Funded? { RoundAt(q, BATCH, ts[0].h, i); }
      CalmRun(AfterTick(q, ts[0]), ts[1..], i, id, kind);
    }
  }

  lemma {:induction false} FailingRun(q: seq<Claim>, ts: seq<Tick>, i: nat, id: string, kind: Kind, n: nat)
    returns (m: nat)
    requires i < |q| && AlwaysThrows(id, kind, ts) && n <= MAX_RETRIES && q[i] == Failing(id, kind, n)
    ensures i < |RunTicks(q, ts)| && m <= MAX_RETRIES && RunTicks(q, ts)[i] == Failing(id, kind, m)
    decreases |ts|
  {
    m := n;
    if ts != [] {
      assert ts[0] in ts;
      if ts[0].Funded? {
        RoundAt(q, BATCH, ts[0].h, i);
        if AfterTick(q, ts[0])[i] != q[i] { m := n + 1; }
      }
      m := FailingRun(AfterTick(q, ts[0]), ts[1..], i, id, kind, m);
    }
  }

  /**
   * Over every run: a claim recorded after any past is settled in time, COMPLETED by a single run if its handler never
   * throws, and FAILED after exactly three failed runs if it always does. Without a registered executor it never
   * throws.
   */
  lemma EndsByItsHandler(past: seq<Tick>, id: string, kind: Kind, future: seq<Tick>)
    requires FundedRounds(future) >= 3 * (Ahead(RunTicks([], past), |RunTicks([], past)|) / BATCH + 1)
    ensures var q := RunTicks([], past); var q' := RunTicks(AfterTick(q, Arrival(id, kind)), future);
      && |q| < |q'|
      && (NeverThrows(id, kind, future) ==> q'[|q|] == Claim(id, kind, COMPLETED, 0, 1, 0))
      && (AlwaysThrows(id, kind, future) ==> q'[|q|] == Claim(id, kind, FAILED, 3, 3, 3))
  {
    var q := RunTicks([], past);
    var q1, i := AfterTick(q, Arrival(id, kind)), |q|;
    assert q1[i] == Queued(id, kind);
    SameAhead(q, q1, i);
    SettledInTime(q1, future, i);
    if NeverThrows(id, kind, future) { CalmRun(q1, future, i, id, kind); }
    if AlwaysThrows(id, kind, future) { var m := FailingRun(q1, future, i, id, kind, 0); }
  }

  lemma {:induction false} SameAhead(q: seq<Claim>, more: seq<Claim>, i: nat)
    requires i <= |q| && q <= more
    ensures Ahead(more, i) == Ahead(q, i)
  {
    if i > 0 {
      SameAhead(q, more, i - 1);
      assert more[i - 1] == q[i - 1];
    }
  }

  // ---- the cron method --------------------------------------------------------------------------------

  class ClaimRetryService {
    var items: seq<Claim>

    constructor ()
      ensures items == []
    {
      items := [];
    }

    method RecordPendingClaim(id: string, kind: Kind)
      modifies this
      ensures items == AfterTick(old(items), Arrival(id, kind))
    {
      items := items + [Queued(id, kind)];
    }

    /** The query: positions of the first twenty active claims. */
    method FetchPending() returns (batch: seq<nat>)
      ensures |batch| <= BATCH
      ensures forall k :: 0 <= k < |batch| ==>
        batch[k] < |items| && Active(items[batch[k]]) && Ahead(items, batch[k]) == k
      ensures forall i :: 0 <= i < |items| && Active(items[i]) && Ahead(items, i) < BATCH ==> i in batch
    {
      batch := [];
      var i := 0;
      while i < |items| && |batch| < BATCH
        invariant 0 <= i <= |items| && |batch| <= BATCH && |batch| == Ahead(items, i)
        invariant forall k :: 0 <= k < |batch| ==>
          batch[k] < i && Active(items[batch[k]]) && Ahead(items, batch[k]) == k
        invariant forall k :: 0 <= k < i && Active(items[k]) ==> k in batch
      {
        if Active(items[i]) { batch := batch + [i]; }
        i := i + 1;
      }
      forall j | i <= j < |items| ensures Ahead(items, j) >= Ahead(items, i) {
        AheadMonotone(items, i, j);
      }
    }

    /** Takes each fetched claim, runs its handler and writes the outcome: together one round over the queue. */
    method ProcessPendingClaims(isLow: bool, h: Handlers)
      modifies this
      ensures items == AfterTick(old(items), if isLow then Unfunded else Funded(h))
    {
      if isLow { return; }
      var batch := FetchPending();
      ghost var q := items;
      for k := 0 to |batch|
        invariant |items| == |q|
        invariant forall i :: 0 <= i < |q| ==>
          items[i] == if Active(q[i]) && Ahead(q, i) < k then Attempted(q[i], h) else q[i]
      {
        var i := batch[k];
        forall j | 0 <= j < |q| && Active(q[j]) && Ahead(q, j) == k ensures j == i {
          AheadInjective(q, i, j);
        }
        var item := items[i];
        items := items[i := item.(status := PROCESSING)];
        items := items[i := Attempted(item, h)];
      }
      forall i | 0 <= i < |q| ensures items[i] == Round(q, BATCH, h)[i] {
        RoundAt(q, BATCH, h, i);
        assert Active(q[i]) && Ahead(q, i) < BATCH ==> i in batch;
      }
    }
  }

  lemma {:induction false} AheadMonotone(q: seq<Claim>, i: nat, j: nat)
    requires i <= j <= |q|
    ensures Ahead(q, i) <= Ahead(q, j)
    decreases j
  {
    if i < j { AheadMonotone(q, i, j - 1); }
  }

  lemma AheadStrict(q: seq<Claim>, i: nat, j: nat)
    requires i < j <= |q| && Active(q[i])
    ensures Ahead(q, i) < Ahead(q, j)
  {
    AheadMonotone(q, i + 1, j);
  }

  lemma AheadInjective(q: seq<Claim>, i: nat, j: nat)
    requires i < |q| && j < |q| && Active(q[i]) && Active(q[j]) && Ahead(q, i) == Ahead(q, j)
    ensures i == j
  {
    if i < j {
      AheadStrict(q, i, j);
    } else if j < i {
      AheadStrict(q, j, i);
    }
  }
}

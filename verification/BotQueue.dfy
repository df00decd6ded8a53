/** The in-process bot job scheduler: a FIFO queue in front of ten workers. */
module BotQueue {
  import opened Prelude

  const CONCURRENCY: nat := 10

  /**
   * `launched` lists the jobs handed to a worker, in order; `finished` holds the positions in `launched` whose
   * handler has returned or thrown. Jobs carry no identity of their own: ids may repeat.
   */
  datatype State<T> = State(queue: seq<T>, activeWorkers: nat, launched: seq<T>, finished: set<nat>)

  datatype Event<T> = Enqueue(job: T) | Finish(i: nat)

  function Empty<T>(): State<T> {
    State([], 0, [], {})
  }

  /** `processQueue`: launch at most one job. */
  function Process<T>(s: State<T>): State<T> {
    if s.activeWorkers >= CONCURRENCY || s.queue == [] then s
    else State(s.queue[1..], s.activeWorkers + 1, s.launched + [s.queue[0]], s.finished)
  }

  /** A launched job that has not ended. */
  predicate Running<T>(s: State<T>, i: nat) {
    i < |s.launched| && i !in s.finished
  }

  function Apply<T>(s: State<T>, e: Event<T>): State<T> {
    match e
    case Enqueue(job) => Process(s.(queue := s.queue + [job]))
    case Finish(i) =>
      if Running(s, i) && s.activeWorkers > 0
      then Process(s.(activeWorkers := s.activeWorkers - 1, finished := s.finished + {i})) else s
  }

  function Run<T>(s: State<T>, es: seq<Event<T>>): State<T> {
    if es == [] then s else Apply(Run(s, es[..|es| - 1]), es[|es| - 1])
  }

  function Jobs<T>(es: seq<Event<T>>): seq<T> {
    if es == [] then []
    else Jobs(es[..|es| - 1]) + match es[|es| - 1] case Enqueue(job) => [job] case Finish(_) => []
  }

  /** A waiting job means all ten workers are busy; the workers are exactly the unfinished launches. */
  ghost predicate Inv<T>(s: State<T>) {
    && s.activeWorkers <= CONCURRENCY
    && (s.queue != [] ==> s.activeWorkers == CONCURRENCY)
    && (forall i :: i in s.finished ==> i < |s.launched|)
    && s.activeWorkers == |s.launched| - |s.finished|
  }

  lemma ApplyKeeps<T>(s: State<T>, e: Event<T>)
    requires Inv(s)
    ensures Inv(Apply(s, e))
    ensures Apply(s, e).launched + Apply(s, e).queue
         == s.launched + s.queue + match e case Enqueue(job) => [job] case Finish(_) => []
    ensures s.launched <= Apply(s, e).launched
  {
    match e
    case Enqueue(job) =>
      var t := s.(queue := s.queue + [job]);
      if s.activeWorkers < CONCURRENCY { assert t.queue == [job]; }
    case Finish(i) =>
      if Running(s, i) && s.queue != [] {
        assert s.launched + [s.queue[0]] + s.queue[1..] == s.launched + s.queue;
      }
  }

  /**
   * However enqueues and completions interleave: at most ten workers, no idle worker while a job waits, and jobs
   * launch once each, in order, none lost.
   */
  lemma {:induction false} FifoWithTenWorkers<T>(es: seq<Event<T>>)
    ensures var s := Run(Empty<T>(), es);
      && Inv(s)
      && s.launched + s.queue == Jobs(es)
  {
    if es != [] {
      FifoWithTenWorkers(es[..|es| - 1]);
      ApplyKeeps(Run(Empty<T>(), es[..|es| - 1]), es[|es| - 1]);
    }
  }

  /** Completions that ended a running handler. */
  function Completions<T>(s: State<T>, es: seq<Event<T>>): nat {
    if es == [] then 0
    else
      var last := es[|es| - 1];
      Completions(s, es[..|es| - 1]) + if last.Finish? && Running(Run(s, es[..|es| - 1]), last.i) then 1 else 0
  }

  /**
   * No starvation: the job at queue position `k` has launched once `k + 1` handlers ended, whatever was enqueued
   * meanwhile.
   */
  lemma {:induction false} LaunchedInTurn<T>(s: State<T>, es: seq<Event<T>>, k: nat)
    requires Inv(s) && k < |s.queue|
    ensures Inv(Run(s, es))
    ensures s.launched + s.queue <= Run(s, es).launched + Run(s, es).queue
    ensures |Run(s, es).launched| >= |s.launched| + (if Completions(s, es) <= k then Completions(s, es) else k + 1)
    ensures Completions(s, es) > k ==> Run(s, es).launched[|s.launched| + k] == s.queue[k]
  {
    if es != [] {
      var init := es[..|es| - 1];
      LaunchedInTurn(s, init, k);
      var t := Run(s, init);
      var u := Run(s, es);
      ApplyKeeps(t, es[|es| - 1]);
      if Completions(s, init) <= k && Completions(s, es) > Completions(s, init) && |t.launched| < |s.launched| + k + 1 {
        assert |t.launched + t.queue| >= |s.launched| + |s.queue|;
        assert t.queue != [];
      }
    }
    if Completions(s, es) > k {
      var u := Run(s, es);
      assert (u.launched + u.queue)[|s.launched| + k] == (s.launched + s.queue)[|s.launched| + k];
    }
  }

  class BotQueueService<T> {
    var queue: seq<T>
    var activeWorkers: nat
    ghost var launched: seq<T>
    ghost var finished: set<nat>

    ghost function View(): State<T>
      reads this
    {
      State(queue, activeWorkers, launched, finished)
    }

    constructor ()
      ensures View() == Empty()
    {
      queue, activeWorkers, launched, finished := [], 0, [], {};
    }

    /** Launches at most the front job, so that no job waits beside a free worker if at most one could start. */
    method ProcessQueue()
      modifies this
      ensures View() == Process(old(View()))
      ensures launched + queue == old(launched) + old(queue) && old(launched) <= launched
      ensures |old(queue)| <= 1 || old(activeWorkers) >= CONCURRENCY - 1 ==> queue == [] || activeWorkers >= CONCURRENCY
    {
      if activeWorkers >= CONCURRENCY || |queue| == 0 { return; }
      activeWorkers := activeWorkers + 1;
      launched := launched + [queue[0]];
      queue := queue[1..];
    }

    method EnqueueJob(job: T)
      requires Inv(View())
      modifies this
      ensures Inv(View()) && View() == Apply(old(View()), Enqueue(job))
      ensures launched + queue == old(launched) + old(queue) + [job]
    {
      ApplyKeeps(View(), Enqueue(job));
      queue := queue + [job];
      ProcessQueue();
    }

    /** The `finally` block of handler `i`, reached on success and on error. */
    method FinishJob(ghost i: nat)
      requires Inv(View()) && Running(View(), i)
      modifies this
      ensures Inv(View()) && View() == Apply(old(View()), Finish(i))
      ensures launched + queue == old(launched) + old(queue)
    {
      RunningMeansBusy(View(), i);
      ApplyKeeps(View(), Finish(i));
      activeWorkers := activeWorkers - 1;
      finished := finished + {i};
      ProcessQueue();
    }
  }

  lemma {:induction false} BelowCard(s: set<nat>, n: nat)
    requires forall i :: i in s ==> i < n
    ensures |s| <= n
  {
    if n > 0 {
      BelowCard(s - {n - 1}, n - 1);
      if n - 1 in s { assert s == (s - {n - 1}) + {n - 1}; } else { assert s == s - {n - 1}; }
    } else {
      assert s == {};
    }
  }

  lemma RunningMeansBusy<T>(s: State<T>, i: nat)
    requires Inv(s) && Running(s, i)
    ensures s.activeWorkers > 0
  {
    BelowCard(s.finished + {i}, |s.launched|);
  }
}

/**
 * `publish_all_parallel` of sacct_backfill.py as an interleaved transition system.
 *
 * The actors are the producer, the consumer and the workers of one thread pool; the shared
 * state is the semaphore, the FIFO work queue and the list of futures.  Producer and consumer
 * are themselves tasks of the pool, so each occupies a worker while it runs.
 */
module BackfillPipeline {
  import opened Wrappers
  import opened TimeBounds

  /** `permits` is `max_concurrency`; without it there is no semaphore. */
  datatype Config = Config(chunks: seq<Interval>, permits: Option<nat>, workers: nat)

  datatype Producer =
    | Unstarted
    | Fetching                    // about to ask `chunk_iter` for the next chunk
    | Wanting(chunk: Interval)    // before `sem.acquire()`
    | Holding(chunk: Interval)    // permit held, before `work_queue.put(chunk)`
    | Returned

  datatype Consumer =
    | Idle
    | Getting                     // blocked in or about to call `work_queue.get()`
    | Picked(work: Interval)      // before `e.submit(...)`
    | Registering                 // submitted, before `add_done_callback`
    | Draining                    // in `wait(fs)`
    | Finished

  datatype Stage = Pending | Running | Done(ok: bool)
  datatype Callback = Unset | Set | Fired

  /** A future for one chunk: queued in the pool, running, or finished with or without success. */
  datatype Job = Job(chunk: Interval, stage: Stage, callback: Callback)

  datatype State = State(
    fetched: nat,                  // how many chunks have been taken from `chunk_iter`
    producer: Producer,
    consumer: Consumer,
    free: nat,                     // the semaphore's counter
    queue: seq<Option<Interval>>,  // `work_queue`, oldest first; None is the end marker
    jobs: seq<Job>)                // futures, in submission order

  datatype Action =
    | StartConsumer | StartProducer
    | Fetch | Acquire | Put | Close
    | Get | Submit | Register | Leave
    | StartJob(i: nat) | FinishJob(i: nat, ok: bool) | FireCallback(i: nat)

  function Init(cfg: Config): State {
    State(0, Unstarted, Idle, if cfg.permits.Some? then cfg.permits.value else 0, [], [])
  }

  // ---------- Weighted sums over the futures ----------

  function Sum<T>(s: seq<T>, w: T -> nat): nat {
    if s == [] then 0 else Sum(s[..|s| - 1], w) + w(s[|s| - 1])
  }

  lemma {:induction false} SumUpdate<T>(s: seq<T>, i: nat, x: T, w: T -> nat)
    requires i < |s|
    ensures Sum(s[i := x], w) == Sum(s, w) - w(s[i]) + w(x)
    ensures w(s[i]) <= Sum(s, w)
  {
    var n := |s| - 1;
    if i == n {
      assert s[i := x][..n] == s[..n];
    } else {
      assert s[i := x][..n] == s[..n][i := x];
      SumUpdate(s[..n], i, x, w);
    }
  }

  lemma SumAppend<T>(s: seq<T>, x: T, w: T -> nat)
    ensures Sum(s + [x], w) == Sum(s, w) + w(x)
  {
    assert (s + [x])[..|s|] == s;
  }

  lemma {:induction false} SumBelow<T>(s: seq<T>, v: T -> nat, w: T -> nat)
    requires forall i :: 0 <= i < |s| ==> v(s[i]) <= w(s[i])
    ensures Sum(s, v) <= Sum(s, w)
  {
    if s != [] {
      SumBelow(s[..|s| - 1], v, w);
    }
  }

  /** Submitted, and its callback has not fired. */
  function Unfired(j: Job): nat { if j.callback.Fired? then 0 else 1 }

  function IsRunning(j: Job): nat { if j.stage.Running? then 1 else 0 }

  /** A worker is running the publish, or is still in the done-callbacks of the future. */
  function Occupies(j: Job): nat {
    if j.stage.Running? || (j.stage.Done? && j.callback.Set?) then 1 else 0
  }

  /** Steps still to be taken for a future. */
  function JobSteps(j: Job): nat {
    (if j.callback.Unset? then 1 else 0)
    + (if j.stage.Pending? then 2 else if j.stage.Running? then 1 else 0)
    + (if j.callback.Fired? then 0 else 1)
  }

  function ProducerWorkers(p: Producer): nat { if p.Unstarted? || p.Returned? then 0 else 1 }

  function ConsumerWorkers(c: Consumer): nat { if c.Idle? || c.Finished? then 0 else 1 }

  function Busy(s: State): nat {
    ProducerWorkers(s.producer) + ConsumerWorkers(s.consumer) + Sum(s.jobs, Occupies)
  }

  // ---------- Steps ----------

  predicate Enabled(cfg: Config, s: State, a: Action) {
    match a
    // The pool's own queue is FIFO: the consumer, the producer, then the publishes in order.
    case StartConsumer => s.consumer.Idle? && Busy(s) < cfg.workers
    case StartProducer => s.producer.Unstarted? && !s.consumer.Idle? && Busy(s) < cfg.workers
    case Fetch => s.producer.Fetching? && s.fetched < |cfg.chunks|
    case Acquire => s.producer.Wanting? && (cfg.permits.Some? ==> s.free > 0)
    case Put => s.producer.Holding?
    case Close => s.producer.Fetching? && s.fetched >= |cfg.chunks|
    case Get => s.consumer.Getting? && s.queue != []
    case Submit => s.consumer.Picked?
    case Register => s.consumer.Registering? && s.jobs != []
    case Leave => s.consumer.Draining? && forall i :: 0 <= i < |s.jobs| ==> s.jobs[i].stage.Done?
    case StartJob(i) =>
      && i < |s.jobs| && s.jobs[i].stage.Pending?
      && (forall k :: 0 <= k < i ==> !s.jobs[k].stage.Pending?)
      && !s.producer.Unstarted? && Busy(s) < cfg.workers
    case FinishJob(i, ok) => i < |s.jobs| && s.jobs[i].stage.Running?
    case FireCallback(i) => i < |s.jobs| && s.jobs[i].stage.Done? && s.jobs[i].callback.Set?
  }

  function Release(cfg: Config, s: State): nat {
    if cfg.permits.Some? then s.free + 1 else s.free
  }

  function Next(cfg: Config, s: State, a: Action): State
    requires Enabled(cfg, s, a)
  {
    match a
    case StartConsumer => s.(consumer := Getting)
    case StartProducer => s.(producer := Fetching)
    case Fetch => s.(producer := Wanting(cfg.chunks[s.fetched]), fetched := s.fetched + 1)
    case Acquire =>
      s.(producer := Holding(s.producer.chunk), free := if cfg.permits.Some? then s.free - 1 else s.free)
    case Put => s.(producer := Fetching, queue := s.queue + [Some(s.producer.chunk)])
    case Close => s.(producer := Returned, queue := s.queue + [None])
    case Get =>
      s.(consumer := if s.queue[0].Some? then Picked(s.queue[0].value) else Draining, queue := s.queue[1..])
    case Submit => s.(consumer := Registering, jobs := s.jobs + [Job(s.consumer.work, Pending, Unset)])
    case Register =>
      // A callback added to a future that is already done runs at once, in the consumer.
      var last := |s.jobs| - 1;
      var j := s.jobs[last];
      if j.stage.Done? then
        s.(consumer := Getting, jobs := s.jobs[last := j.(callback := Fired)], free := Release(cfg, s))
      else
        s.(consumer := Getting, jobs := s.jobs[last := j.(callback := Set)])
    case Leave => s.(consumer := Finished)
    case StartJob(i) => s.(jobs := s.jobs[i := s.jobs[i].(stage := Running)])
    case FinishJob(i, ok) => s.(jobs := s.jobs[i := s.jobs[i].(stage := Done(ok))])
    case FireCallback(i) =>
      s.(jobs := s.jobs[i := s.jobs[i].(callback := Fired)], free := Release(cfg, s))
  }

  /** The state after a sequence of actions, or None when some action is not enabled. */
  function Exec(cfg: Config, s: State, run: seq<Action>): Option<State>
    decreases run
  {
    if run == [] then Some(s)
    else if Enabled(cfg, s, run[0]) then Exec(cfg, Next(cfg, s, run[0]), run[1..])
    else None
  }

  ghost predicate Reachable(cfg: Config, s: State) {
    exists run :: Exec(cfg, Init(cfg), run) == Some(s)
  }

  /** Both helper futures are done and the pool has been joined: `publish_all_parallel` returns. */
  predicate Final(s: State) {
    s.producer.Returned? && s.consumer.Finished?
    && forall i :: 0 <= i < |s.jobs| ==> s.jobs[i].callback.Fired?
  }

  // ---------- The invariant ----------

  function Chunks(jobs: seq<Job>): seq<Interval> {
    seq(|jobs|, i requires 0 <= i < |jobs| => jobs[i].chunk)
  }

  function Queued(q: seq<Option<Interval>>): seq<Interval> {
    if q == [] then []
    else (if q[0].Some? then [q[0].value] else []) + Queued(q[1..])
  }

  function ConsumerHand(c: Consumer): seq<Interval> { if c.Picked? then [c.work] else [] }

  function ProducerHand(p: Producer): seq<Interval> {
    if p.Wanting? || p.Holding? then [p.chunk] else []
  }

  /** Every chunk fetched so far, oldest first, wherever it is now. */
  function Stream(s: State): seq<Interval> {
    Chunks(s.jobs) + ConsumerHand(s.consumer) + Queued(s.queue) + ProducerHand(s.producer)
  }

  /** Every place a permit can be. */
  function Permits(s: State): nat {
    s.free + (if s.producer.Holding? then 1 else 0) + |Queued(s.queue)|
    + |ConsumerHand(s.consumer)| + Sum(s.jobs, Unfired)
  }

  predicate Closed(q: seq<Option<Interval>>) { q != [] && q[|q| - 1].None? }

  ghost predicate Protocol(cfg: Config, s: State) {
    && s.fetched <= |cfg.chunks|
    && (forall i :: 0 <= i < |s.queue| - 1 ==> s.queue[i].Some?)
    && (s.consumer.Idle? ==> s.producer.Unstarted?)
    && (s.producer.Unstarted? ==> s.fetched == 0)
    && (s.producer.Returned? ==> s.fetched == |cfg.chunks|)
    && (s.producer.Returned? <==> Closed(s.queue) || s.consumer.Draining? || s.consumer.Finished?)
    && (s.consumer.Draining? || s.consumer.Finished? ==> s.queue == [])
  }

  ghost predicate JobsInOrder(s: State) {
    && (forall i, j :: 0 <= i < j < |s.jobs| && s.jobs[i].stage.Pending? ==> s.jobs[j].stage.Pending?)
    && (forall i :: 0 <= i < |s.jobs| && s.jobs[i].callback.Fired? ==> s.jobs[i].stage.Done?)
    && (forall i :: 0 <= i < |s.jobs| && s.jobs[i].callback.Unset? ==> i == |s.jobs| - 1 && s.consumer.Registering?)
    && (s.consumer.Registering? ==> s.jobs != [] && s.jobs[|s.jobs| - 1].callback.Unset?)
    && (s.consumer.Finished? ==> forall i :: 0 <= i < |s.jobs| ==> s.jobs[i].stage.Done?)
  }

  ghost predicate Inv(cfg: Config, s: State) {
    && Protocol(cfg, s)
    && JobsInOrder(s)
    && Stream(s) == cfg.chunks[..s.fetched]
    && (cfg.permits.Some? ==> Permits(s) == cfg.permits.value)
    && Busy(s) <= cfg.workers
  }

  lemma {:induction false} QueuedAppend(q: seq<Option<Interval>>, x: Option<Interval>)
    ensures Queued(q + [x]) == Queued(q) + (if x.Some? then [x.value] else [])
  {
    if q != [] {
      assert (q + [x])[1..] == q[1..] + [x];
      QueuedAppend(q[1..], x);
    }
  }

  lemma QueuedTail(q: seq<Option<Interval>>)
    requires q != []
    ensures Queued(q) == (if q[0].Some? then [q[0].value] else []) + Queued(q[1..])
  {
  }

  lemma ChunksAppend(jobs: seq<Job>, j: Job)
    ensures Chunks(jobs + [j]) == Chunks(jobs) + [j.chunk]
  {
  }

  lemma ChunksUpdate(jobs: seq<Job>, i: nat, j: Job)
    requires i < |jobs| && j.chunk == jobs[i].chunk
    ensures Chunks(jobs[i := j]) == Chunks(jobs)
  {
  }

  lemma InitInv(cfg: Config)
    ensures Inv(cfg, Init(cfg))
  {
  }

  predicate OnJob(a: Action) { a.Register? || a.StartJob? || a.FinishJob? || a.FireCallback? }

  lemma JobStepStream(cfg: Config, s: State, a: Action)
    requires Enabled(cfg, s, a) && OnJob(a)
    ensures Stream(Next(cfg, s, a)) == Stream(s)
  {
    var t := Next(cfg, s, a);
    match a
    case Register => ChunksUpdate(s.jobs, |s.jobs| - 1, t.jobs[|s.jobs| - 1]);
    case StartJob(i) => ChunksUpdate(s.jobs, i, t.jobs[i]);
    case FinishJob(i, ok) => ChunksUpdate(s.jobs, i, t.jobs[i]);
    case FireCallback(i) => ChunksUpdate(s.jobs, i, t.jobs[i]);
  }

  /** A helper's step moves a chunk to the next place, or takes one from `chunk_iter`. */
  lemma HelperStepStream(cfg: Config, s: State, a: Action)
    requires Enabled(cfg, s, a) && !OnJob(a)
    ensures Stream(Next(cfg, s, a)) == Stream(s) + (if a.Fetch? then [cfg.chunks[s.fetched]] else [])
  {
    var t := Next(cfg, s, a);
    match a
    case Submit =>
      ChunksAppend(s.jobs, Job(s.consumer.work, Pending, Unset));
      assert Chunks(t.jobs) == Chunks(s.jobs) + [s.consumer.work];
    case Put =>
      QueuedAppend(s.queue, Some(s.producer.chunk));
      assert Queued(t.queue) == Queued(s.queue) + [s.producer.chunk];
    case Close => QueuedAppend(s.queue, None);
    case Get => assert ConsumerHand(t.consumer) + Queued(t.queue) == Queued(s.queue);
    case _ =>
  }

  lemma StepStream(cfg: Config, s: State, a: Action)
    requires Protocol(cfg, s) && Enabled(cfg, s, a)
    requires Stream(s) == cfg.chunks[..s.fetched]
    ensures Stream(Next(cfg, s, a)) == cfg.chunks[..Next(cfg, s, a).fetched]
  {
    hide Stream, Busy;
    if OnJob(a) {
      JobStepStream(cfg, s, a);
    } else {
      HelperStepStream(cfg, s, a);
    }
  }

  lemma StepPermits(cfg: Config, s: State, a: Action)
    requires Protocol(cfg, s) && JobsInOrder(s) && Enabled(cfg, s, a)
    requires cfg.permits.Some?
    ensures Permits(Next(cfg, s, a)) == Permits(s)
  {
    hide Sum, Queued, Busy;
    var t := Next(cfg, s, a);
    match a
    case Get => QueuedTail(s.queue);
    case Submit => SumAppend(s.jobs, Job(s.consumer.work, Pending, Unset), Unfired);
    case Put => QueuedAppend(s.queue, Some(s.producer.chunk));
    case Close => QueuedAppend(s.queue, None);
    case Register => SumUpdate(s.jobs, |s.jobs| - 1, t.jobs[|s.jobs| - 1], Unfired);
    case StartJob(i) => SumUpdate(s.jobs, i, t.jobs[i], Unfired);
    case FinishJob(i, ok) => SumUpdate(s.jobs, i, t.jobs[i], Unfired);
    case FireCallback(i) => SumUpdate(s.jobs, i, t.jobs[i], Unfired);
    case _ =>
  }

  lemma StepBusy(cfg: Config, s: State, a: Action)
    requires Protocol(cfg, s) && JobsInOrder(s) && Enabled(cfg, s, a)
    requires Busy(s) <= cfg.workers
    ensures Busy(Next(cfg, s, a)) <= cfg.workers
  {
    hide Sum;
    var t := Next(cfg, s, a);
    match a
    case Submit => SumAppend(s.jobs, Job(s.consumer.work, Pending, Unset), Occupies);
    case Register => SumUpdate(s.jobs, |s.jobs| - 1, t.jobs[|s.jobs| - 1], Occupies);
    case StartJob(i) => SumUpdate(s.jobs, i, t.jobs[i], Occupies);
    case FinishJob(i, ok) => SumUpdate(s.jobs, i, t.jobs[i], Occupies);
    case FireCallback(i) => SumUpdate(s.jobs, i, t.jobs[i], Occupies);
    case _ =>
  }

  lemma StepProtocol(cfg: Config, s: State, a: Action)
    requires Protocol(cfg, s) && Enabled(cfg, s, a)
    ensures Protocol(cfg, Next(cfg, s, a))
  {
  }

  lemma StepJobsInOrder(cfg: Config, s: State, a: Action)
    requires JobsInOrder(s) && Enabled(cfg, s, a)
    ensures JobsInOrder(Next(cfg, s, a))
  {
    hide Busy;
  }

  lemma StepInv(cfg: Config, s: State, a: Action)
    requires Inv(cfg, s) && Enabled(cfg, s, a)
    ensures Inv(cfg, Next(cfg, s, a))
  {
    StepProtocol(cfg, s, a);
    StepJobsInOrder(cfg, s, a);
    StepStream(cfg, s, a);
    StepBusy(cfg, s, a);
    if cfg.permits.Some? {
      StepPermits(cfg, s, a);
    }
  }

  lemma {:induction false} ExecInv(cfg: Config, s: State, run: seq<Action>)
    requires Inv(cfg, s) && Exec(cfg, s, run).Some?
    ensures Inv(cfg, Exec(cfg, s, run).value)
    decreases run
  {
    if run != [] {
      StepInv(cfg, s, run[0]);
      ExecInv(cfg, Next(cfg, s, run[0]), run[1..]);
    }
  }

  // ---------- Safety ----------

  /** The invariant holds in every state of every interleaving. */
  lemma ReachableInv(cfg: Config, s: State)
    requires Reachable(cfg, s)
    ensures Inv(cfg, s)
  {
    var run :| Exec(cfg, Init(cfg), run) == Some(s);
    InitInv(cfg);
    ExecInv(cfg, Init(cfg), run);
  }

  /** Permits are conserved, so no more than `max_concurrency` publishes run at once. */
  lemma ConcurrencyBound(cfg: Config, s: State)
    requires Reachable(cfg, s) && cfg.permits.Some?
    ensures Permits(s) == cfg.permits.value
    ensures Sum(s.jobs, IsRunning) <= cfg.permits.value
  {
    ReachableInv(cfg, s);
    SumBelow(s.jobs, IsRunning, Unfired);
  }

  /** Nor do publishes and helpers together exceed the pool. */
  lemma PoolBound(cfg: Config, s: State)
    requires Reachable(cfg, s)
    ensures ProducerWorkers(s.producer) + ConsumerWorkers(s.consumer) + Sum(s.jobs, IsRunning) <= cfg.workers
  {
    ReachableInv(cfg, s);
    SumBelow(s.jobs, IsRunning, Occupies);
  }

  /** The futures are the first chunks of the stream: each submitted once, in stream order. */
  lemma SubmittedInOrder(cfg: Config, s: State)
    requires Reachable(cfg, s)
    ensures Chunks(s.jobs) <= cfg.chunks
  {
    ReachableInv(cfg, s);
    assert Chunks(s.jobs) == Stream(s)[..|s.jobs|];
    assert Stream(s)[..|s.jobs|] == cfg.chunks[..s.fetched][..|s.jobs|];
  }

  /** On return every chunk has been published, whether or not publishes failed, and every permit is back. */
  lemma FinalOutcome(cfg: Config, s: State)
    requires Reachable(cfg, s) && Final(s)
    ensures Chunks(s.jobs) == cfg.chunks
    ensures forall i :: 0 <= i < |s.jobs| ==> s.jobs[i].stage.Done?
    ensures cfg.permits.Some? ==> s.free == cfg.permits.value
  {
    ReachableInv(cfg, s);
    assert Stream(s) == Chunks(s.jobs);
    assert cfg.chunks[..s.fetched] == cfg.chunks;
    SumZero(s.jobs, Unfired);
  }

  lemma {:induction false} SumZero<T>(s: seq<T>, w: T -> nat)
    requires forall i :: 0 <= i < |s| ==> w(s[i]) == 0
    ensures Sum(s, w) == 0
  {
    if s != [] {
      SumZero(s[..|s| - 1], w);
    }
  }

  // ---------- Termination ----------

  /** The number of steps that can still be taken. */
  function Rank(cfg: Config, s: State): int {
    9 * (|cfg.chunks| - s.fetched)
    + (match s.producer
       case Unstarted => 2
       case Fetching => 1
       case Wanting(_) => 9
       case Holding(_) => 8
       case Returned => 0)
    + 6 * |Queued(s.queue)|
    + (match s.consumer
       case Idle => 3
       case Getting => 2
       case Picked(_) => 7
       case Registering => 2
       case Draining => 1
       case Finished => 0)
    + Sum(s.jobs, JobSteps)
  }

  lemma JobStepRank(cfg: Config, s: State, a: Action)
    requires JobsInOrder(s) && Enabled(cfg, s, a) && OnJob(a)
    ensures Rank(cfg, Next(cfg, s, a)) < Rank(cfg, s)
  {
    hide Sum, Queued, Busy;
    var t := Next(cfg, s, a);
    match a
    case Register => SumUpdate(s.jobs, |s.jobs| - 1, t.jobs[|s.jobs| - 1], JobSteps);
    case StartJob(i) => SumUpdate(s.jobs, i, t.jobs[i], JobSteps);
    case FinishJob(i, ok) => SumUpdate(s.jobs, i, t.jobs[i], JobSteps);
    case FireCallback(i) => SumUpdate(s.jobs, i, t.jobs[i], JobSteps);
  }

  lemma HelperStepRank(cfg: Config, s: State, a: Action)
    requires Enabled(cfg, s, a) && !OnJob(a)
    ensures Rank(cfg, Next(cfg, s, a)) < Rank(cfg, s)
  {
    hide Sum, Queued, Busy;
    match a
    case Get => QueuedTail(s.queue);
    case Submit => SumAppend(s.jobs, Job(s.consumer.work, Pending, Unset), JobSteps);
    case Put => QueuedAppend(s.queue, Some(s.producer.chunk));
    case Close => QueuedAppend(s.queue, None);
    case _ =>
  }

  lemma {:induction false} ExecRank(cfg: Config, s: State, run: seq<Action>)
    requires Inv(cfg, s) && Exec(cfg, s, run).Some?
    ensures |run| + Rank(cfg, Exec(cfg, s, run).value) <= Rank(cfg, s)
    ensures Rank(cfg, Exec(cfg, s, run).value) >= 0
    decreases run
  {
    if run != [] {
      StepInv(cfg, s, run[0]);
      if OnJob(run[0]) {
        JobStepRank(cfg, s, run[0]);
      } else {
        HelperStepRank(cfg, s, run[0]);
      }
      ExecRank(cfg, Next(cfg, s, run[0]), run[1..]);
    }
  }

  /** Every run stops: nine steps a chunk and five for the helpers are the most there can be. */
  lemma RunsAreBounded(cfg: Config, run: seq<Action>)
    requires Exec(cfg, Init(cfg), run).Some?
    ensures |run| <= 9 * |cfg.chunks| + 5
  {
    InitInv(cfg);
    ExecRank(cfg, Init(cfg), run);
  }

  // ---------- Progress ----------

  /** No worker for a publish is ever needed beyond the helpers' two, or one becomes free for it. */
  predicate Live(cfg: Config) {
    && cfg.workers >= 2
    && (cfg.permits.None? || |cfg.chunks| <= cfg.permits.value || (cfg.workers >= 3 && cfg.permits.value >= 1))
  }

  ghost predicate Stuck(cfg: Config, s: State) {
    !Final(s) && forall a :: !Enabled(cfg, s, a)
  }

  /** The first pending future, or the number of futures if none is pending. */
  lemma FirstPending(jobs: seq<Job>) returns (i: nat)
    ensures i <= |jobs|
    ensures forall k :: 0 <= k < i ==> !jobs[k].stage.Pending?
    ensures i < |jobs| ==> jobs[i].stage.Pending?
  {
    i := 0;
    while i < |jobs| && !jobs[i].stage.Pending?
      invariant i <= |jobs| && forall k :: 0 <= k < i ==> !jobs[k].stage.Pending?
    {
      i := i + 1;
    }
  }

  lemma StreamLength(cfg: Config, s: State)
    requires Inv(cfg, s)
    ensures |s.jobs| + |ConsumerHand(s.consumer)| + |Queued(s.queue)| + |ProducerHand(s.producer)| == s.fetched
  {
    assert |Stream(s)| == |cfg.chunks[..s.fetched]|;
  }

  lemma {:induction false} SumAtMostLength<T>(s: seq<T>, w: T -> nat)
    requires forall i :: 0 <= i < |s| ==> w(s[i]) <= 1
    ensures Sum(s, w) <= |s|
  {
    if s != [] {
      SumAtMostLength(s[..|s| - 1], w);
    }
  }

  /** When only futures could move and none of the running kind is left, no worker is inside one. */
  lemma NoneOccupied(s: State)
    requires forall i :: 0 <= i < |s.jobs| ==> Occupies(s.jobs[i]) == 0
    ensures Busy(s) == ProducerWorkers(s.producer) + ConsumerWorkers(s.consumer)
  {
    SumZero(s.jobs, Occupies);
  }

  /** A producer that cannot acquire leaves a chunk of the stream without a permit. */
  lemma BlockedProducer(cfg: Config, s: State)
    requires Inv(cfg, s) && s.producer.Wanting? && cfg.permits.Some? && s.free == 0
    ensures cfg.permits.value < |cfg.chunks|
  {
    StreamLength(cfg, s);
    SumAtMostLength(s.jobs, Unfired);
  }

  lemma Progress(cfg: Config, s: State)
    requires Inv(cfg, s) && Live(cfg) && !Final(s)
    ensures exists a :: Enabled(cfg, s, a)
  {
    if a :| a in {StartConsumer, StartProducer, Fetch, Acquire, Put, Close, Get, Submit, Register, Leave}
            && Enabled(cfg, s, a) {
    } else if i :| 0 <= i < |s.jobs| && s.jobs[i].stage.Running? {
      assert Enabled(cfg, s, FinishJob(i, true));
    } else if i :| 0 <= i < |s.jobs| && s.jobs[i].stage.Done? && s.jobs[i].callback.Set? {
      assert Enabled(cfg, s, FireCallback(i));
    } else {
      assert HelpersBlocked(cfg, s);
      OnlyStarting(cfg, s);
    }
  }

  predicate HelpersBlocked(cfg: Config, s: State) {
    && !Enabled(cfg, s, StartConsumer) && !Enabled(cfg, s, StartProducer)
    && !Enabled(cfg, s, Fetch) && !Enabled(cfg, s, Acquire) && !Enabled(cfg, s, Put) && !Enabled(cfg, s, Close)
    && !Enabled(cfg, s, Get) && !Enabled(cfg, s, Submit) && !Enabled(cfg, s, Register) && !Enabled(cfg, s, Leave)
  }

  /** Where neither helper can move and no publish is running: the producer has started, and a worker is free. */
  lemma BlockedHelpers(cfg: Config, s: State)
    requires Inv(cfg, s) && Live(cfg) && HelpersBlocked(cfg, s)
    requires Busy(s) == ProducerWorkers(s.producer) + ConsumerWorkers(s.consumer)
    ensures !s.producer.Unstarted? && !s.consumer.Idle?
    ensures s.producer.Wanting? || s.producer.Returned?
    ensures s.producer.Wanting? ==> cfg.permits.Some? && s.free == 0
    ensures s.consumer.Getting? ==> s.queue == [] && s.producer.Wanting?
    ensures s.consumer.Getting? || s.consumer.Draining? || s.consumer.Finished?
  {
    hide Stream, Sum, Permits, Queued;
    assert s.consumer.Registering? ==> s.jobs != [];
  }

  /** The remaining case of Progress: nothing but starting a pending publish can be enabled. */
  lemma OnlyStarting(cfg: Config, s: State)
    requires Inv(cfg, s) && Live(cfg) && !Final(s)
    requires HelpersBlocked(cfg, s)
    requires forall i :: 0 <= i < |s.jobs| ==> !s.jobs[i].stage.Running?
    requires forall i :: 0 <= i < |s.jobs| && s.jobs[i].stage.Done? ==> !s.jobs[i].callback.Set?
    ensures exists a :: Enabled(cfg, s, a)
  {
    hide Stream, Sum;
    NoneOccupied(s);
    BlockedHelpers(cfg, s);
    if s.producer.Wanting? {
      BlockedProducer(cfg, s);
    }
    var i := FirstPending(s.jobs);
    if i < |s.jobs| {
      assert Enabled(cfg, s, StartJob(i));
    } else {
      SumZero(s.jobs, Unfired);
    }
  }

  // ---------- Deadlock, exactly ----------

  lemma {:induction false} ExecAppend(cfg: Config, s: State, run: seq<Action>, a: Action)
    requires Exec(cfg, s, run).Some? && Enabled(cfg, Exec(cfg, s, run).value, a)
    ensures Exec(cfg, s, run + [a]) == Some(Next(cfg, Exec(cfg, s, run).value, a))
    decreases run
  {
    if run == [] {
      assert [a][1..] == [];
    } else {
      assert (run + [a])[1..] == run[1..] + [a];
      ExecAppend(cfg, Next(cfg, s, run[0]), run[1..], a);
    }
  }

  lemma ReachNext(cfg: Config, s: State, a: Action) returns (t: State)
    requires Reachable(cfg, s) && Enabled(cfg, s, a)
    ensures t == Next(cfg, s, a) && Reachable(cfg, t)
  {
    var run :| Exec(cfg, Init(cfg), run) == Some(s);
    ExecAppend(cfg, Init(cfg), run, a);
    t := Next(cfg, s, a);
  }

  lemma ReachInit(cfg: Config)
    ensures Reachable(cfg, Init(cfg))
  {
    assert Exec(cfg, Init(cfg), []) == Some(Init(cfg));
  }

  /** The semaphore, if there is one, has `k` permits. */
  predicate Permitted(cfg: Config, k: nat) { cfg.permits.Some? ==> k <= cfg.permits.value }

  /** Both helpers run and the first `k` chunks are submitted but no worker has taken one up. */
  function Parked(cfg: Config, k: nat): State
    requires k <= |cfg.chunks| && Permitted(cfg, k)
  {
    State(k, Fetching, Getting, if cfg.permits.Some? then cfg.permits.value - k else 0, [],
          seq(k, i requires 0 <= i < k => Job(cfg.chunks[i], Pending, Set)))
  }

  lemma {:induction false} ReachParked(cfg: Config, k: nat)
    requires cfg.workers >= 2 && k <= |cfg.chunks| && Permitted(cfg, k)
    ensures Reachable(cfg, Parked(cfg, k))
  {
    if k == 0 {
      ReachInit(cfg);
      var s := ReachNext(cfg, Init(cfg), StartConsumer);
      s := ReachNext(cfg, s, StartProducer);
      assert s == Parked(cfg, 0);
    } else {
      ReachParked(cfg, k - 1);
      ParkNext(cfg, k - 1);
    }
  }

  /** As Parked(cfg, k), with the next chunk in the work queue. */
  function ParkedAndQueued(cfg: Config, k: nat): State
    requires k < |cfg.chunks| && Permitted(cfg, k + 1)
  {
    var p := Parked(cfg, k);
    p.(fetched := k + 1, free := if cfg.permits.Some? then p.free - 1 else 0, queue := [Some(cfg.chunks[k])])
  }

  lemma QueueNext(cfg: Config, k: nat)
    requires k < |cfg.chunks| && Permitted(cfg, k + 1)
    requires Reachable(cfg, Parked(cfg, k))
    ensures Reachable(cfg, ParkedAndQueued(cfg, k))
  {
    var s := ReachNext(cfg, Parked(cfg, k), Fetch);
    s := ReachNext(cfg, s, Acquire);
    s := ReachNext(cfg, s, Put);
    assert s == ParkedAndQueued(cfg, k);
  }

  lemma ParkNext(cfg: Config, k: nat)
    requires k < |cfg.chunks| && Permitted(cfg, k + 1)
    requires Reachable(cfg, Parked(cfg, k))
    ensures Reachable(cfg, Parked(cfg, k + 1))
  {
    QueueNext(cfg, k);
    var s := ReachNext(cfg, ParkedAndQueued(cfg, k), Get);
    assert s.queue == [];
    s := ReachNext(cfg, s, Submit);
    s := ReachNext(cfg, s, Register);
    assert s.jobs == Parked(cfg, k + 1).jobs;
  }

  /** Outside Live some interleaving really does deadlock. */
  lemma DeadlockWitness(cfg: Config) returns (s: State)
    requires !Live(cfg)
    ensures Reachable(cfg, s) && Stuck(cfg, s)
  {
    ReachInit(cfg);
    s := Init(cfg);
    if cfg.workers == 1 {
      s := ReachNext(cfg, s, StartConsumer);
    } else if cfg.workers >= 2 {
      ReachParked(cfg, cfg.permits.value);
      s := ReachNext(cfg, Parked(cfg, cfg.permits.value), Fetch);
    }
  }

  /**
   * No interleaving deadlocks exactly when the pool has three workers and there is a permit,
   * or two workers and enough permits for the producer never to wait.
   */
  lemma DeadlockFreedom(cfg: Config)
    ensures (forall s :: Reachable(cfg, s) ==> !Stuck(cfg, s)) <==> Live(cfg)
  {
    if Live(cfg) {
      forall s | Reachable(cfg, s)
        ensures !Stuck(cfg, s)
      {
        ReachableInv(cfg, s);
        if !Final(s) {
          Progress(cfg, s);
        }
      }
    } else {
      var s := DeadlockWitness(cfg);
    }
  }

  /** A run that can go no further has published the whole stream in order. */
  lemma MaximalRunsPublishAll(cfg: Config, s: State)
    requires Live(cfg) && Reachable(cfg, s) && forall a :: !Enabled(cfg, s, a)
    ensures Final(s) && Chunks(s.jobs) == cfg.chunks
    ensures forall i :: 0 <= i < |s.jobs| ==> s.jobs[i].stage.Done?
  {
    DeadlockFreedom(cfg);
    assert !Stuck(cfg, s);
    FinalOutcome(cfg, s);
  }

  /**
   * The pool that `ThreadPoolExecutor()` makes has five workers or more: with it no interleaving
   * deadlocks exactly when there is no semaphore, or a permit, or nothing to publish.
   */
  lemma DefaultPoolDeadlocksExactlyWhen(cfg: Config)
    requires cfg.workers >= 5
    ensures (forall s :: Reachable(cfg, s) ==> !Stuck(cfg, s)) <==>
            cfg.permits.None? || cfg.permits.value >= 1 || cfg.chunks == []
  {
    DeadlockFreedom(cfg);
  }

  /** The command line passes the permits it was given, or none for a number that is not positive. */
  function PermitsOf(concurrently: int): Option<nat> {
    if concurrently > 0 then Some(concurrently) else None
  }

  lemma BackfillNeverDeadlocks(cfg: Config, concurrently: int, s: State)
    requires cfg.workers >= 5 && cfg.permits == PermitsOf(concurrently) && Reachable(cfg, s)
    ensures !Stuck(cfg, s)
  {
    DefaultPoolDeadlocksExactlyWhen(cfg);
  }

  // ---------- What the steps allow ----------

  /** A publish may succeed or fail, and its future is done either way. */
  lemma PublishEndsEitherWay(cfg: Config, s: State, i: nat, ok: bool)
    requires i < |s.jobs| && s.jobs[i].stage.Running?
    ensures Enabled(cfg, s, FinishJob(i, ok))
    ensures Next(cfg, s, FinishJob(i, ok)).jobs == s.jobs[i := s.jobs[i].(stage := Done(ok))]
  {
  }

  /** The consumer ends only after all chunks are submitted and all publishes done. */
  lemma ConsumerWaits(cfg: Config, s: State)
    requires Reachable(cfg, s) && s.consumer.Finished?
    ensures Chunks(s.jobs) == cfg.chunks
    ensures forall i :: 0 <= i < |s.jobs| ==> s.jobs[i].stage.Done?
  {
    ReachableInv(cfg, s);
    assert Stream(s) == Chunks(s.jobs);
    assert cfg.chunks[..s.fetched] == cfg.chunks;
  }

  /** As Parked(cfg, k), with the first `m` publishes running. */
  function Launched(cfg: Config, k: nat, m: nat): State
    requires m <= k <= |cfg.chunks| && Permitted(cfg, k)
  {
    Parked(cfg, k).(jobs := seq(k, i requires 0 <= i < k =>
      Job(cfg.chunks[i], if i < m then Running else Pending, Set)))
  }

  lemma {:induction false} SumOfFirst<T>(s: seq<T>, m: nat, w: T -> nat)
    requires m <= |s| && forall i :: 0 <= i < |s| ==> w(s[i]) == if i < m then 1 else 0
    ensures Sum(s, w) == m
  {
    if s != [] {
      var n := |s| - 1;
      SumOfFirst(s[..n], if m <= n then m else n, w);
    }
  }

  lemma {:induction false} ReachLaunched(cfg: Config, k: nat, m: nat)
    requires m <= k <= |cfg.chunks| && Permitted(cfg, k) && m + 2 <= cfg.workers
    ensures Reachable(cfg, Launched(cfg, k, m))
  {
    if m == 0 {
      ReachParked(cfg, k);
      assert Launched(cfg, k, 0) == Parked(cfg, k);
    } else {
      var before := Launched(cfg, k, m - 1);
      ReachLaunched(cfg, k, m - 1);
      SumOfFirst(before.jobs, m - 1, Occupies);
      var s := ReachNext(cfg, before, StartJob(m - 1));
      assert s.jobs == Launched(cfg, k, m).jobs;
    }
  }

  /** Publishes really run side by side: as many as there are permits, chunks and workers beside the helpers. */
  lemma ConcurrencyIsAttained(cfg: Config, n: nat) returns (s: State)
    requires n <= |cfg.chunks| && Permitted(cfg, n) && n + 2 <= cfg.workers
    ensures Reachable(cfg, s) && Sum(s.jobs, IsRunning) == n
  {
    ReachLaunched(cfg, n, n);
    s := Launched(cfg, n, n);
    SumOfFirst(s.jobs, n, IsRunning);
  }
}

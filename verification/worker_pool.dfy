/** The worker pool of `ApiWorkerScheduler` as a value, one function per method that runs
    under the pool's lock. What a method does to the outside is returned as events. */
module WorkerPool {
  import opened Errors
  import opened PlatformProps
  import opened Sequences

  newtype WorkerId = n: int | 0 <= n
  newtype OperationId = n: int | 0 <= n

  datatype ActionStage = StageUnknown | CacheCheck | Queued | Executing | Completed | CompletedFromCache {
    predicate Finished() { Completed? || CompletedFromCache? }
  }

  /** `UpdateOperationType`. */
  datatype Update = KeepAlive | WithStage(stage: ActionStage) | WithError(error: Error) {
    predicate Terminal() { WithError? || (WithStage? && stage.Finished()) }
    predicate Backpressure() { WithError? && error.code == ResourceExhausted }
  }

  datatype Worker = Worker(
    props: Properties,
    running: map<OperationId, Properties>,
    lastUpdate: U64,
    paused: bool,
    draining: bool)
  {
    predicate CanAcceptWork() { !paused && !draining }

    predicate Eligible(demand: Properties) { CanAcceptWork() && Satisfies(props, demand) }

    /** `run_action`: record the action, then take what it demands. */
    function Run(op: OperationId, demand: Properties): Worker {
      this.(running := running[op := demand], props := Reduce(props, demand))
    }

    /** `complete_action`. */
    function Complete(op: OperationId): (Worker, UnitResult) {
      if op !in running then
        (this, Err(Error(Internal, [OperationNotRunning(op as int)])))
      else
        (this.(running := running - {op}, props := Restore(props, running[op]), paused := false), Ok)
    }

    /** The finishing part of `update_action`. */
    function Finish(op: OperationId, backpressure: bool): (Worker, UnitResult) {
      var (w, r) := Complete(op);
      (if (!CanAcceptWork() || backpressure) && w.running != map[] then w.(paused := true) else w, r)
    }
  }

  function NewWorker(props: Properties, timestamp: U64): Worker {
    Worker(props, map[], timestamp, false, false)
  }

  /** `order` lists the pool from the most to the least recently used worker. */
  datatype Pool = Pool(order: seq<WorkerId>, workers: map<WorkerId, Worker>) {
    predicate Runs(w: WorkerId, op: OperationId) { w in workers && op in workers[w].running }
    predicate Eligible(w: WorkerId, demand: Properties) { w in workers && workers[w].Eligible(demand) }
  }

  const EMPTY := Pool([], map[])

  /** An effect of a method, in program order: an operation given to a worker, a call of
      `update_operation` and whether it was accepted, a wakeup of the matching engine, and
      an operation queued for the keep-alive consumer. */
  datatype Event =
    | Started(worker: WorkerId, op: OperationId)
    | Updated(worker: WorkerId, op: OperationId, update: Update, accepted: bool)
    | Notified
    | Sent(worker: WorkerId, op: OperationId)

  datatype Outcome = Outcome(pool: Pool, events: seq<Event>, result: UnitResult)

  /** What a method cannot decide itself: the order in which the table of running operations
      of each worker is iterated, and what the state manager answers. */
  datatype Env = Env(listing: WorkerId -> seq<OperationId>, answer: (WorkerId, OperationId) -> UnitResult)

  /** `LruCache::get_mut` and `put`: the worker becomes the most recent one. */
  function Promote(p: Pool, w: WorkerId, worker: Worker): Pool {
    Pool([w] + Without(p.order, w), p.workers[w := worker])
  }

  function HandBacks(w: WorkerId, err: Error, ops: seq<OperationId>, env: Env): seq<Event> {
    seq(|ops|, i requires 0 <= i < |ops| => Updated(w, ops[i], WithError(err), env.answer(w, ops[i]).Ok?))
  }

  function Attempts(w: WorkerId, ops: seq<OperationId>, env: Env): seq<UnitResult> {
    seq(|ops|, i requires 0 <= i < |ops| => env.answer(w, ops[i]))
  }

  /** `immediate_evict_worker`. */
  function Evict(p: Pool, w: WorkerId, err: Error, env: Env): Outcome {
    if w in p.workers then
      Outcome(Pool(Without(p.order, w), p.workers - {w}),
              [Notified] + HandBacks(w, err, env.listing(w), env) + [Notified],
              MergeAll(Attempts(w, env.listing(w), env)))
    else
      Outcome(p, [Notified, Notified], Ok)
  }

  function EvictAndReport(o: Outcome, w: WorkerId, err: Error, env: Env): Outcome {
    var e := Evict(o.pool, w, err, env);
    Outcome(e.pool, o.events + e.events, Err(err).Merge(e.result))
  }

  const CONNECTION_ERROR := Error(Internal, [
    WorkerDisconnected, ConnectionResultFailed, InitialConnectionFailed, AddFailed])

  /** The trait's `add_worker`. */
  function AddWorker(p: Pool, w: WorkerId, props: Properties, timestamp: U64, sent: bool, env: Env): Outcome {
    var o := Outcome(Promote(p, w, NewWorker(props, timestamp)), [Notified], Ok);
    if sent then o else EvictAndReport(o, w, CONNECTION_ERROR, env)
  }

  function Sends(w: WorkerId, ops: seq<OperationId>): seq<Event> {
    seq(|ops|, i requires 0 <= i < |ops| => Sent(w, ops[i]))
  }

  /** `refresh_lifetime`: the only method that looks a worker up without promoting it. */
  function Refresh(p: Pool, w: WorkerId, timestamp: U64, env: Env): Outcome {
    if w !in p.workers then
      Outcome(p, [], Err(Error(InvalidArgument, [WorkerNotFound(w as int)])))
    else if p.workers[w].lastUpdate > timestamp then
      Outcome(p, [], Err(Error(InvalidArgument, [StaleTimestamp(timestamp)])))
    else
      Outcome(p.(workers := p.workers[w := p.workers[w].(lastUpdate := timestamp)]), Sends(w, env.listing(w)), Ok)
  }

  /** `set_drain_worker`. */
  function SetDrain(p: Pool, w: WorkerId, draining: bool): Outcome {
    if w !in p.workers then
      Outcome(p, [], Err(Error(Internal, [WorkerNotFound(w as int)])))
    else
      Outcome(Promote(p, w, p.workers[w].(draining := draining)), [Notified], Ok)
  }

  function NotRunningError(op: OperationId): Error {
    Error(Internal, [OperationNotRunning(op as int)])
  }

  /** `update_action`. */
  function UpdateAction(p: Pool, w: WorkerId, op: OperationId, update: Update, env: Env): Outcome {
    if w !in p.workers then
      Outcome(p, [], Err(Error(Internal, [WorkerNotFound(w as int)])))
    else
      var worker := p.workers[w];
      var touched := Promote(p, w, worker);
      var answer := env.answer(w, op).Tip(InUpdateOperation);
      var called := [Updated(w, op, update, answer.Ok?)];
      if op !in worker.running then
        EvictAndReport(Outcome(touched, [], Ok), w, NotRunningError(op), env)
      else if answer.Err? then
        Outcome(touched, called, answer)
      else if !update.Terminal() then
        Outcome(touched, called, Ok)
      else
        var (finished, r) := worker.Finish(op, update.Backpressure());
        Outcome(Promote(p, w, finished), called + [Notified], r)
  }

  function CommandFailedError(w: WorkerId): Error {
    Error(Internal, [CommandFailed(w as int)])
  }

  /** `worker_notify_run_action`. */
  function RunAction(p: Pool, w: WorkerId, op: OperationId, demand: Properties, sent: bool, env: Env): Outcome {
    if w !in p.workers then Outcome(p, [], Ok)
    else
      var o := Outcome(Promote(p, w, p.workers[w].Run(op, demand)), [Started(w, op)], Ok);
      if sent then o else EvictAndReport(o, w, CommandFailedError(w), env)
  }

  /** The trait's `remove_worker`. */
  function RemoveWorker(p: Pool, w: WorkerId, env: Env): Outcome {
    Evict(p, w, Error(Internal, [RemovalRequested]), env)
  }

  /** The workers the timeout scan collects: from the least recent end, as long as they are
      too old. */
  function TimedOutTail(order: seq<WorkerId>, workers: map<WorkerId, Worker>, threshold: nat): seq<WorkerId> {
    if order == [] then [] else
      var last := order[|order| - 1];
      if last in workers && workers[last].lastUpdate <= threshold
      then [last] + TimedOutTail(order[..|order| - 1], workers, threshold)
      else []
  }

  function TimeoutError(w: WorkerId): Error {
    Error(Internal, [TimedOut(w as int)])
  }

  function EvictEach(p: Pool, ids: seq<WorkerId>, env: Env): Outcome
    decreases |ids|
  {
    if ids == [] then Outcome(p, [], Ok) else
      var first := Evict(p, ids[0], TimeoutError(ids[0]), env);
      var rest := EvictEach(first.pool, ids[1..], env);
      Outcome(rest.pool, first.events + rest.events, first.result.Merge(rest.result))
  }

  /** `remove_timedout_workers`. */
  function RemoveTimedOut(p: Pool, now: U64, timeout: U64, env: Env): Outcome {
    EvictEach(p, TimedOutTail(p.order, p.workers, WrappingSub(now, timeout)), env)
  }

  /** A call of one of the methods that take the pool's lock and change the pool. */
  datatype Step =
    | Add(w: WorkerId, props: Properties, timestamp: U64, sent: bool)
    | Beat(w: WorkerId, timestamp: U64)
    | Drain(w: WorkerId, draining: bool)
    | Report(w: WorkerId, op: OperationId, update: Update)
    | Dispatch(w: WorkerId, op: OperationId, demand: Properties, sent: bool)
    | Remove(w: WorkerId)
    | Expire(now: U64, timeout: U64)

  datatype Call = Call(step: Step, env: Env)

  /** The cache is consistent: one place in the recency order per worker. */
  ghost predicate Shape(p: Pool) {
    NoDup(p.order) && forall w :: w in p.order <==> w in p.workers
  }

  function Apply(p: Pool, c: Call): Outcome {
    match c.step
    case Add(w, props, ts, sent) => AddWorker(p, w, props, ts, sent, c.env)
    case Beat(w, ts) => Refresh(p, w, ts, c.env)
    case Drain(w, d) => SetDrain(p, w, d)
    case Report(w, op, u) => UpdateAction(p, w, op, u, c.env)
    case Dispatch(w, op, demand, sent) => RunAction(p, w, op, demand, sent, c.env)
    case Remove(w) => RemoveWorker(p, w, c.env)
    case Expire(now, timeout) => RemoveTimedOut(p, now, timeout, c.env)
  }

  /** The environment iterates the tables that this pool has. */
  ghost predicate Fits(p: Pool, env: Env) {
    forall w :: w in p.workers ==> Lists(env.listing(w), p.workers[w].running.Keys)
  }

  /** The pool whose tables a call iterates: a worker that is being added or handed an
      action may be evicted in the same call. */
  function Iterated(p: Pool, step: Step): Pool {
    match step
    case Add(w, props, ts, _) => Promote(p, w, NewWorker(props, ts))
    case Dispatch(w, op, demand, _) =>
      if w in p.workers then Promote(p, w, p.workers[w].Run(op, demand)) else p
    case _ => p
  }

  /** What a call may rely on: the environment fits, and an action is only handed to a
      worker that satisfies it, which `reduce_platform_properties` asserts. */
  ghost predicate Enabled(p: Pool, c: Call) {
    && Fits(Iterated(p, c.step), c.env)
    && (c.step.Dispatch? && c.step.w in p.workers ==> Satisfies(p.workers[c.step.w].props, c.step.demand))
  }

  /** A whole run: the pool it ends in and everything it did to the outside. */
  function Exec(p: Pool, calls: seq<Call>): Outcome
    decreases |calls|
  {
    if calls == [] then Outcome(p, [], Ok) else
      var first := Apply(p, calls[0]);
      var rest := Exec(first.pool, calls[1..]);
      Outcome(rest.pool, first.events + rest.events, rest.result)
  }

  ghost predicate IsRun(p: Pool, calls: seq<Call>)
    decreases |calls|
  {
    calls != [] ==> Enabled(p, calls[0]) && IsRun(Apply(p, calls[0]).pool, calls[1..])
  }
}

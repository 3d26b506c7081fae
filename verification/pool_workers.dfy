/** What happens to a worker between two moments at which it is in the pool: its capacity is
    conserved, a pause lasts until the worker is idle, and its timestamp only grows. */
module PoolWorkers {
  import opened Errors
  import opened PlatformProps
  import opened Sequences
  import opened WorkerPool
  import opened PoolInvariant

  predicate Targets(step: Step, v: WorkerId) { !step.Expire? && step.w == v }

  /** The worker `v` is in the pool before and after the call and was not replaced by it. */
  predicate Survives(p: Pool, c: Call, v: WorkerId) {
    v in p.workers && v in Apply(p, c).pool.workers && !(c.step.Add? && c.step.w == v)
  }

  /** What a call does to the worker it names. */
  function Changed(worker: Worker, c: Call): Worker {
    match c.step
    case Beat(w, ts) => if worker.lastUpdate <= ts then worker.(lastUpdate := ts) else worker
    case Drain(w, d) => worker.(draining := d)
    case Report(w, op, u) =>
      if op in worker.running && c.env.answer(w, op).Ok? && u.Terminal()
      then worker.Finish(op, u.Backpressure()).0 else worker
    case Dispatch(w, op, demand, sent) => worker.Run(op, demand)
    case _ => worker
  }

  lemma EvictRemoves(p: Pool, w: WorkerId, err: Error, env: Env)
    ensures Evict(p, w, err, env).pool.workers == p.workers - {w}
  {
    if w !in p.workers { assert p.workers - {w} == p.workers; }
  }

  /** A survivor is what the call makes of the worker it names, or unchanged. */
  ghost predicate AsChanged(p: Pool, c: Call, v: WorkerId)
    requires Survives(p, c, v)
  {
    Apply(p, c).pool.workers[v] == if Targets(c.step, v) then Changed(p.workers[v], c) else p.workers[v]
  }

  lemma AddSurvivor(p: Pool, c: Call, v: WorkerId)
    requires Survives(p, c, v) && c.step.Add?
    ensures AsChanged(p, c, v)
  {
    var q := Promote(p, c.step.w, NewWorker(c.step.props, c.step.timestamp));
    EvictRemoves(q, c.step.w, CONNECTION_ERROR, c.env);
  }

  lemma DispatchSurvivor(p: Pool, c: Call, v: WorkerId)
    requires Survives(p, c, v) && c.step.Dispatch?
    ensures AsChanged(p, c, v)
  {
    var w := c.step.w;
    if w in p.workers {
      EvictRemoves(Promote(p, w, p.workers[w].Run(c.step.op, c.step.demand)), w, CommandFailedError(w), c.env);
    }
  }

  lemma ReportSurvivor(p: Pool, c: Call, v: WorkerId)
    requires Survives(p, c, v) && c.step.Report?
    ensures AsChanged(p, c, v)
  {
    var w, op := c.step.w, c.step.op;
    UpdateActionCases(p, w, op, c.step.update, c.env);
    if w in p.workers {
      EvictRemoves(Promote(p, w, p.workers[w]), w, NotRunningError(op), c.env);
    }
  }

  lemma QuietSurvivor(p: Pool, c: Call, v: WorkerId)
    requires Survives(p, c, v) && (c.step.Beat? || c.step.Drain?)
    ensures AsChanged(p, c, v)
  {
  }

  lemma RemovalSurvivor(p: Pool, c: Call, v: WorkerId)
    requires Valid(p) && Survives(p, c, v) && (c.step.Remove? || c.step.Expire?)
    ensures AsChanged(p, c, v)
  {
    if c.step.Remove? {
      EvictRemoves(p, c.step.w, Error(Internal, [RemovalRequested]), c.env);
    } else {
      EvictEachKeepsValid(p, TimedOutTail(p.order, p.workers, WrappingSub(c.step.now, c.step.timeout)), c.env);
    }
  }

  lemma SurvivorIsChanged(p: Pool, c: Call, v: WorkerId)
    requires Valid(p) && Survives(p, c, v)
    ensures AsChanged(p, c, v)
  {
    match c.step
    case Add(_, _, _, _) => AddSurvivor(p, c, v);
    case Dispatch(_, _, _, _) => DispatchSurvivor(p, c, v);
    case Report(_, _, _) => ReportSurvivor(p, c, v);
    case Beat(_, _) => QuietSurvivor(p, c, v);
    case Drain(_, _) => QuietSurvivor(p, c, v);
    case Remove(_) => RemovalSurvivor(p, c, v);
    case Expire(_, _) => RemovalSurvivor(p, c, v);
  }

  // ---------------------------------------------------------------- one call

  /** The call gives `v` an operation that the pool already has running on it. */
  predicate Restarts(p: Pool, c: Call, v: WorkerId, k: string) {
    c.step.Dispatch? && c.step.w == v && p.Runs(v, c.step.op) && Amount(p.workers[v].running[c.step.op], k) != 0
  }

  /** A call conserves free plus held amounts of a surviving worker exactly if it does not
      start an operation that is still running there; otherwise the old share is lost. */
  lemma CapacityConservedExactly(p: Pool, c: Call, v: WorkerId, k: string)
    requires Valid(p) && Enabled(p, c) && Survives(p, c, v)
    ensures Capacity(Apply(p, c).pool.workers[v], k) == Capacity(p.workers[v], k) <==> !Restarts(p, c, v, k)
    ensures Capacity(Apply(p, c).pool.workers[v], k) <= Capacity(p.workers[v], k)
  {
    SurvivorIsChanged(p, c, v);
    if Targets(c.step, v) {
      match c.step
      case Dispatch(w, op, demand, sent) => RunCapacity(p.workers[v], op, demand, k);
      case Report(w, op, u) =>
        if op in p.workers[v].running {
          CompleteCapacity(p.workers[v], op, k);
        }
      case _ =>
    }
  }

  /** A paused worker stays paused over every call, completions and the end of draining
      included, exactly until nothing runs on it. */
  lemma PauseLastsUntilIdle(p: Pool, c: Call, v: WorkerId)
    requires Valid(p) && Enabled(p, c) && Survives(p, c, v) && p.workers[v].paused
    ensures Apply(p, c).pool.workers[v].paused <==> Apply(p, c).pool.workers[v].running != map[]
  {
    SurvivorIsChanged(p, c, v);
    ApplyKeepsValid(p, c);
    if c.step.Dispatch? && c.step.w == v {
      assert c.step.op in Changed(p.workers[v], c).running;
    }
  }

  /** The reports after which an operation is no longer running: an error, or the stages that
      carry a result. */
  predicate IsLast(u: Update) {
    u.WithError? || u == WithStage(Completed) || u == WithStage(CompletedFromCache)
  }

  /** The report of a worker that has no resources left for the operation. */
  predicate IsExhausted(u: Update) {
    u.WithError? && u.error.code == ResourceExhausted
  }

  /** A worker becomes paused only by finishing one of several operations, and then because
      it reported that its resources are exhausted or because it was draining. */
  lemma PauseHasACause(p: Pool, c: Call, v: WorkerId)
    requires Valid(p) && Enabled(p, c) && Survives(p, c, v) && !p.workers[v].paused
    ensures Apply(p, c).pool.workers[v].paused ==>
      && c.step.Report? && c.step.w == v && p.Runs(v, c.step.op) && c.env.answer(v, c.step.op).Ok?
      && (IsExhausted(c.step.update) || (IsLast(c.step.update) && p.workers[v].draining))
      && |p.workers[v].running| >= 2
  {
    SurvivorIsChanged(p, c, v);
    if Apply(p, c).pool.workers[v].paused {
      var op := c.step.op;
      var running := p.workers[v].running;
      var left :| left in running - {op};
      assert {op, left} <= running.Keys;
      assert |running.Keys - {op, left}| == |running.Keys| - 2;
    }
  }

  lemma TimestampsNeverDecrease(p: Pool, c: Call, v: WorkerId)
    requires Valid(p) && Survives(p, c, v)
    ensures Apply(p, c).pool.workers[v].lastUpdate >= p.workers[v].lastUpdate
    ensures Apply(p, c).pool.workers[v].lastUpdate != p.workers[v].lastUpdate ==> c.step.Beat? && c.step.w == v
  {
    SurvivorIsChanged(p, c, v);
  }

  /** The properties only change in their `Minimum` amounts. */
  predicate SameKind(a: Properties, b: Properties) {
    a.Keys == b.Keys && forall k :: k in a ==> if a[k].Minimum? then b[k].Minimum? else b[k] == a[k]
  }

  lemma KindIsKept(p: Pool, c: Call, v: WorkerId)
    requires Valid(p) && Survives(p, c, v)
    ensures SameKind(p.workers[v].props, Apply(p, c).pool.workers[v].props)
  {
    SurvivorIsChanged(p, c, v);
    if c.step.Report? && c.step.w == v {
      var worker, op := p.workers[v], c.step.op;
      assert op in worker.running ==> SameKind(worker.props, Restore(worker.props, worker.running[op]));
    }
  }

  // -------------------------------------------------------------- whole runs

  /** `v` is in the pool throughout the run and is never replaced. */
  ghost predicate Stays(p: Pool, calls: seq<Call>, v: WorkerId)
    decreases |calls|
  {
    v in p.workers && (calls != [] ==> Survives(p, calls[0], v) && Stays(Apply(p, calls[0]).pool, calls[1..], v))
  }

  ghost predicate NeverRestarts(p: Pool, calls: seq<Call>, v: WorkerId)
    decreases |calls|
  {
    calls != [] ==> (forall k :: !Restarts(p, calls[0], v, k)) && NeverRestarts(Apply(p, calls[0]).pool, calls[1..], v)
  }

  /** Over a run no amount of a worker grows, and all stay the same exactly if no operation is
      started that is still running there and holds some. */
  lemma {:induction false} CapacityOverARun(p: Pool, calls: seq<Call>, v: WorkerId)
    requires Valid(p) && IsRun(p, calls) && Stays(p, calls, v)
    ensures v in Exec(p, calls).pool.workers && SameKind(p.workers[v].props, Exec(p, calls).pool.workers[v].props)
    ensures forall k :: Capacity(Exec(p, calls).pool.workers[v], k) <= Capacity(p.workers[v], k)
    ensures NeverRestarts(p, calls, v) <==>
      forall k :: Capacity(Exec(p, calls).pool.workers[v], k) == Capacity(p.workers[v], k)
    decreases |calls|
  {
    if calls != [] {
      var next := Apply(p, calls[0]).pool;
      ApplyKeepsValid(p, calls[0]);
      KindIsKept(p, calls[0], v);
      forall k
        ensures Capacity(next.workers[v], k) <= Capacity(p.workers[v], k)
        ensures !Restarts(p, calls[0], v, k) <==> Capacity(next.workers[v], k) == Capacity(p.workers[v], k)
      {
        CapacityConservedExactly(p, calls[0], v, k);
      }
      CapacityOverARun(next, calls[1..], v);
    }
  }

  /** However a run interleaves dispatches, completions, rejections and backpressure, a worker
      that was idle and is idle again offers exactly the properties it had, if and only if no
      operation was started on it that was still running there. */
  lemma IdleAgainMeansWhole(p: Pool, calls: seq<Call>, v: WorkerId)
    requires Valid(p) && IsRun(p, calls) && Stays(p, calls, v) && p.workers[v].running == map[]
    ensures v in Exec(p, calls).pool.workers
    ensures Exec(p, calls).pool.workers[v].running == map[] ==>
      (Exec(p, calls).pool.workers[v].props == p.workers[v].props <==> NeverRestarts(p, calls, v))
  {
    CapacityOverARun(p, calls, v);
    var before, after := p.workers[v], Exec(p, calls).pool.workers[v];
    if after.running == map[] {
      forall k ensures Capacity(after, k) == Amount(after.props, k) && Capacity(before, k) == Amount(before.props, k) {
        assert Held(before.running, k) == 0 && Held(after.running, k) == 0;
      }
      if NeverRestarts(p, calls, v) {
        forall k | k in before.props ensures after.props[k] == before.props[k] {
          assert Capacity(after, k) == Capacity(before, k);
        }
      }
    }
  }

  /** `v` has something running at every moment of the run. */
  ghost predicate Busy(p: Pool, calls: seq<Call>, v: WorkerId)
    requires Stays(p, calls, v)
    decreases |calls|
  {
    p.workers[v].running != map[] && (calls != [] ==> Busy(Apply(p, calls[0]).pool, calls[1..], v))
  }

  /** Over a whole run: a paused worker that is never idle stays closed to new work, whatever
      it completes and however often draining is switched on and off. */
  lemma {:induction false} PausedWhileBusy(p: Pool, calls: seq<Call>, v: WorkerId)
    requires Valid(p) && IsRun(p, calls) && Stays(p, calls, v) && Busy(p, calls, v) && p.workers[v].paused
    ensures v in Exec(p, calls).pool.workers && !Exec(p, calls).pool.workers[v].CanAcceptWork()
    decreases |calls|
  {
    if calls != [] {
      ApplyKeepsValid(p, calls[0]);
      PauseLastsUntilIdle(p, calls[0], v);
      PausedWhileBusy(Apply(p, calls[0]).pool, calls[1..], v);
    }
  }

  lemma {:induction false} TimestampsOverARun(p: Pool, calls: seq<Call>, v: WorkerId)
    requires Valid(p) && IsRun(p, calls) && Stays(p, calls, v)
    ensures v in Exec(p, calls).pool.workers && Exec(p, calls).pool.workers[v].lastUpdate >= p.workers[v].lastUpdate
    decreases |calls|
  {
    if calls != [] {
      ApplyKeepsValid(p, calls[0]);
      TimestampsNeverDecrease(p, calls[0], v);
      TimestampsOverARun(Apply(p, calls[0]).pool, calls[1..], v);
    }
  }

  function Alone(v: WorkerId, w: Worker): Pool { Pool([v], map[v := w]) }

  /** A call that hands an operation to the only worker of a pool or reports one back. */
  ghost predicate CallAlone(v: WorkerId, w: Worker, c: Call) {
    && (c.step.Dispatch? || c.step.Report?) && c.step.w == v
    && (c.step.Dispatch? ==>
          && c.step.sent && Satisfies(w.props, c.step.demand)
          && Lists(c.env.listing(v), w.Run(c.step.op, c.step.demand).running.Keys))
    && (c.step.Report? ==> c.step.op in w.running && Lists(c.env.listing(v), w.running.Keys))
  }

  lemma ChangeAlone(v: WorkerId, w: Worker, c: Call)
    requires CallAlone(v, w, c)
    ensures Enabled(Alone(v, w), c) && Apply(Alone(v, w), c).pool == Alone(v, Changed(w, c))
  {
    assert Without([v], v) == [] && [v] + [] == [v];
    assert forall x: Worker :: map[v := w][v := x] == map[v := x];
    if c.step.Report? { UpdateActionCases(Alone(v, w), v, c.step.op, c.step.update, c.env); }
  }

  lemma RunCons(p: Pool, c: Call, rest: seq<Call>)
    requires Enabled(p, c) && IsRun(Apply(p, c).pool, rest)
    ensures IsRun(p, [c] + rest) && Exec(p, [c] + rest).pool == Exec(Apply(p, c).pool, rest).pool
  {
    assert ([c] + rest)[1..] == rest;
  }

  lemma ThreeCallsAlone(v: WorkerId, w: Worker, c1: Call, c2: Call, c3: Call)
    requires CallAlone(v, w, c1) && CallAlone(v, Changed(w, c1), c2) && CallAlone(v, Changed(Changed(w, c1), c2), c3)
    ensures IsRun(Alone(v, w), [c1] + ([c2] + ([c3] + [])))
    ensures Exec(Alone(v, w), [c1] + ([c2] + ([c3] + []))).pool == Alone(v, Changed(Changed(Changed(w, c1), c2), c3))
  {
    var w2, w3 := Changed(w, c1), Changed(Changed(w, c1), c2);
    ChangeAlone(v, w3, c3);
    RunCons(Alone(v, w3), c3, []);
    ChangeAlone(v, w2, c2);
    RunCons(Alone(v, w2), c2, [c3] + []);
    ChangeAlone(v, w, c1);
    RunCons(Alone(v, w), c1, [c2] + ([c3] + []));
  }

  function Units(k: string, n: U64): Properties { map[k := Minimum(n)] }

  function Holding(k: string, n: U64, op: OperationId, held: U64): Worker {
    Worker(Units(k, n), map[op := Units(k, held)], 0, false, false)
  }

  function Start(v: WorkerId, op: OperationId, k: string, n: U64): Call {
    Call(Dispatch(v, op, Units(k, n), true), Env(w => [op], (w, o) => Ok))
  }

  function Completion(v: WorkerId, op: OperationId): Call {
    Call(Report(v, op, WithStage(Completed)), Env(w => [op], (w, o) => Ok))
  }

  /** Start the same operation for 2 of 4 units twice, and complete it. */
  lemma TwoStartsOneCompletion(v: WorkerId, op: OperationId, k: string)
    ensures Changed(NewWorker(Units(k, 4), 0), Start(v, op, k, 2)) == Holding(k, 2, op, 2)
    ensures Changed(Holding(k, 2, op, 2), Start(v, op, k, 2)) == Holding(k, 0, op, 2)
    ensures Changed(Holding(k, 0, op, 2), Completion(v, op)) == NewWorker(Units(k, 2), 0)
  {
    assert Reduce(Units(k, 4), Units(k, 2)) == Units(k, 2);
    assert Reduce(Units(k, 2), Units(k, 2)) == Units(k, 0);
    assert Restore(Units(k, 0), Units(k, 2)) == Units(k, 2);
    assert map[op := Units(k, 2)][op := Units(k, 2)] == map[op := Units(k, 2)];
    assert map[op := Units(k, 2)] - {op} == map[];
  }

  function Join(v: WorkerId, props: Properties): Call {
    Call(Add(v, props, 0, true), Env(w => [], (w, o) => Ok))
  }

  lemma JoinsAlone(v: WorkerId, props: Properties)
    ensures Enabled(EMPTY, Join(v, props)) && Apply(EMPTY, Join(v, props)).pool == Alone(v, NewWorker(props, 0))
  {
    assert Without([], v) == [] && [v] + [] == [v];
  }

  /** A restart loses the share for good: a worker that joins an empty pool with 4 units ends
      idle and offers 2 units. */
  lemma RestartLosesAShare(v: WorkerId, op: OperationId, k: string) returns (calls: seq<Call>)
    ensures IsRun(EMPTY, [Join(v, Units(k, 4))] + calls)
    ensures Apply(EMPTY, Join(v, Units(k, 4))).pool == Alone(v, NewWorker(Units(k, 4), 0))
    ensures Exec(EMPTY, [Join(v, Units(k, 4))] + calls).pool == Alone(v, NewWorker(Units(k, 2), 0))
  {
    TwoStartsOneCompletion(v, op, k);
    ThreeCallsAlone(v, NewWorker(Units(k, 4), 0), Start(v, op, k, 2), Start(v, op, k, 2), Completion(v, op));
    calls := [Start(v, op, k, 2)] + ([Start(v, op, k, 2)] + ([Completion(v, op)] + []));
    JoinsAlone(v, Units(k, 4));
    RunCons(EMPTY, Join(v, Units(k, 4)), calls);
  }
}

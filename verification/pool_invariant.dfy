/** What every call of the pool keeps, whatever the workers and the state manager do. */
module PoolInvariant {
  import opened Errors
  import opened PlatformProps
  import opened Sequences
  import opened WorkerPool

  /** The amount of property `k` that the running actions of a worker hold. */
  ghost function Held(running: map<OperationId, Properties>, k: string): nat
    decreases running.Keys
  {
    if running == map[] then 0 else
      var op :| op in running;
      assert (running - {op}).Keys < running.Keys;
      Amount(running[op], k) + Held(running - {op}, k)
  }

  lemma {:induction false} HeldRemove(running: map<OperationId, Properties>, op: OperationId, k: string)
    requires op in running
    ensures Held(running, k) == Amount(running[op], k) + Held(running - {op}, k)
    decreases running.Keys
  {
    var x :| x in running && Held(running, k) == Amount(running[x], k) + Held(running - {x}, k);
    if x != op {
      assert (running - {x}).Keys < running.Keys && (running - {op}).Keys < running.Keys;
      HeldRemove(running - {x}, op, k);
      HeldRemove(running - {op}, x, k);
      assert running - {x} - {op} == running - {op} - {x};
    }
  }

  /** What the worker would offer if nothing were running on it. */
  ghost function Capacity(w: Worker, k: string): nat {
    Amount(w.props, k) + Held(w.running, k)
  }

  /** A paused worker is running something that will unpause it; every running action can
      give its share back without a missing key and without exceeding 64 bits. */
  ghost predicate WorkerOk(w: Worker) {
    && (w.paused ==> w.running != map[])
    && (forall op :: op in w.running ==> Carries(w.props, w.running[op]))
    && (forall k :: Capacity(w, k) < U64_LIMIT)
  }

  ghost predicate Valid(p: Pool) {
    Shape(p) && forall w :: w in p.workers ==> WorkerOk(p.workers[w])
  }

  /** Handing out an action keeps the capacity, except that it forgets what an earlier
      action under the same operation id still holds. */
  lemma RunCapacity(w: Worker, op: OperationId, demand: Properties, k: string)
    requires Satisfies(w.props, demand)
    ensures Capacity(w.Run(op, demand), k) + (if op in w.running then Amount(w.running[op], k) else 0) == Capacity(w, k)
  {
    ReduceThenRestore(w.props, demand);
    var running := w.running[op := demand];
    HeldRemove(running, op, k);
    assert running - {op} == w.running - {op};
    if op in w.running {
      HeldRemove(w.running, op, k);
    } else {
      assert w.running - {op} == w.running;
    }
  }

  lemma RunKeepsOk(w: Worker, op: OperationId, demand: Properties)
    requires WorkerOk(w) && Satisfies(w.props, demand)
    ensures WorkerOk(w.Run(op, demand))
  {
    var r := w.Run(op, demand);
    ReduceThenRestore(w.props, demand);
    assert op in r.running;
    forall k ensures Capacity(r, k) < U64_LIMIT {
      RunCapacity(w, op, demand, k);
      assert Capacity(w, k) < U64_LIMIT;
    }
  }

  /** Completing an action gives its share back exactly: no sum wraps, no key is missing. */
  lemma CompleteCapacity(w: Worker, op: OperationId, k: string)
    requires WorkerOk(w) && op in w.running
    ensures Amount(w.Complete(op).0.props, k) == Amount(w.props, k) + Amount(w.running[op], k)
    ensures Capacity(w.Complete(op).0, k) == Capacity(w, k)
  {
    HeldRemove(w.running, op, k);
    assert Capacity(w, k) < U64_LIMIT && Carries(w.props, w.running[op]);
  }

  /** `complete_action` does not fail on the path that reaches it; afterwards the worker is
      paused exactly if it was closed to work, or reported backpressure, and has work left. */
  lemma FinishKeepsOk(w: Worker, op: OperationId, backpressure: bool)
    requires WorkerOk(w) && op in w.running
    ensures WorkerOk(w.Finish(op, backpressure).0) && w.Finish(op, backpressure).1 == Ok
  {
    var r := w.Complete(op).0;
    forall k ensures Capacity(r, k) < U64_LIMIT {
      CompleteCapacity(w, op, k);
      assert Capacity(w, k) < U64_LIMIT;
    }
    assert forall o :: o in r.running ==> o in w.running && r.running[o] == w.running[o];
    var f := w.Finish(op, backpressure).0;
    assert forall k :: Capacity(f, k) == Capacity(r, k);
  }

  lemma NewKeepsOk(props: Properties, timestamp: U64)
    ensures WorkerOk(NewWorker(props, timestamp))
  {
  }

  lemma PromoteKeepsValid(p: Pool, w: WorkerId, worker: Worker)
    requires Valid(p) && WorkerOk(worker)
    ensures Valid(Promote(p, w, worker))
  {
    WithoutElements(p.order, w);
  }

  lemma EvictKeepsValid(p: Pool, w: WorkerId, err: Error, env: Env)
    requires Valid(p)
    ensures Valid(Evict(p, w, err, env).pool)
    ensures Evict(p, w, err, env).pool == Pool(Without(p.order, w), p.workers - {w})
  {
    WithoutElements(p.order, w);
    if w !in p.workers {
      assert p.workers - {w} == p.workers;
    }
  }

  lemma {:induction false} EvictEachKeepsValid(p: Pool, ids: seq<WorkerId>, env: Env)
    requires Valid(p)
    ensures Valid(EvictEach(p, ids, env).pool)
    ensures forall v :: v in EvictEach(p, ids, env).pool.workers <==> v in p.workers && v !in ids
    ensures forall v :: v in EvictEach(p, ids, env).pool.workers ==>
      EvictEach(p, ids, env).pool.workers[v] == p.workers[v]
    decreases |ids|
  {
    if ids != [] {
      EvictKeepsValid(p, ids[0], TimeoutError(ids[0]), env);
      EvictEachKeepsValid(Evict(p, ids[0], TimeoutError(ids[0]), env).pool, ids[1..], env);
      assert ids == [ids[0]] + ids[1..];
    }
  }

  lemma AddKeepsValid(p: Pool, w: WorkerId, props: Properties, ts: U64, sent: bool, env: Env)
    requires Valid(p)
    ensures Valid(AddWorker(p, w, props, ts, sent, env).pool)
  {
    NewKeepsOk(props, ts);
    PromoteKeepsValid(p, w, NewWorker(props, ts));
    EvictKeepsValid(Promote(p, w, NewWorker(props, ts)), w, CONNECTION_ERROR, env);
  }

  lemma RefreshKeepsValid(p: Pool, w: WorkerId, ts: U64, env: Env)
    requires Valid(p)
    ensures Valid(Refresh(p, w, ts, env).pool)
  {
    if w in p.workers {
      assert forall k :: Capacity(p.workers[w].(lastUpdate := ts), k) == Capacity(p.workers[w], k);
    }
  }

  lemma DrainKeepsValid(p: Pool, w: WorkerId, d: bool)
    requires Valid(p)
    ensures Valid(SetDrain(p, w, d).pool)
  {
    if w in p.workers {
      var worker := p.workers[w].(draining := d);
      assert forall k :: Capacity(worker, k) == Capacity(p.workers[w], k);
      PromoteKeepsValid(p, w, worker);
    }
  }

  /** The outcomes of `update_action`, branch by branch. */
  lemma UpdateActionCases(p: Pool, w: WorkerId, op: OperationId, u: Update, env: Env)
    ensures var o := UpdateAction(p, w, op, u, env);
      w !in p.workers ==> o == Outcome(p, [], Err(Error(Internal, [WorkerNotFound(w as int)])))
    ensures var o := UpdateAction(p, w, op, u, env);
      w in p.workers && op !in p.workers[w].running ==>
        var e := Evict(Promote(p, w, p.workers[w]), w, NotRunningError(op), env);
        o == Outcome(e.pool, e.events, Err(NotRunningError(op)).Merge(e.result))
    ensures var o := UpdateAction(p, w, op, u, env);
      p.Runs(w, op) && (env.answer(w, op).Err? || !u.Terminal()) ==>
        var answer := env.answer(w, op);
        o == Outcome(Promote(p, w, p.workers[w]), [Updated(w, op, u, answer.Ok?)], answer.Tip(InUpdateOperation))
    ensures var o := UpdateAction(p, w, op, u, env);
      p.Runs(w, op) && env.answer(w, op).Ok? && u.Terminal() ==>
        var finished := p.workers[w].Finish(op, u.Backpressure()).0;
        o == Outcome(Promote(p, w, finished), [Updated(w, op, u, true), Notified], Ok)
  {
    if w in p.workers && op !in p.workers[w].running {
      var e := Evict(Promote(p, w, p.workers[w]), w, NotRunningError(op), env);
      assert [] + e.events == e.events;
    }
  }

  lemma ReportKeepsValid(p: Pool, w: WorkerId, op: OperationId, u: Update, env: Env)
    requires Valid(p)
    ensures Valid(UpdateAction(p, w, op, u, env).pool)
  {
    UpdateActionCases(p, w, op, u, env);
    if w in p.workers {
      PromoteKeepsValid(p, w, p.workers[w]);
      if op !in p.workers[w].running {
        EvictKeepsValid(Promote(p, w, p.workers[w]), w, NotRunningError(op), env);
      } else if env.answer(w, op).Ok? && u.Terminal() {
        FinishKeepsOk(p.workers[w], op, u.Backpressure());
        PromoteKeepsValid(p, w, p.workers[w].Finish(op, u.Backpressure()).0);
      }
    }
  }

  lemma DispatchKeepsValid(p: Pool, w: WorkerId, op: OperationId, demand: Properties, sent: bool, env: Env)
    requires Valid(p) && (w in p.workers ==> Satisfies(p.workers[w].props, demand))
    ensures Valid(RunAction(p, w, op, demand, sent, env).pool)
  {
    if w in p.workers {
      RunKeepsOk(p.workers[w], op, demand);
      PromoteKeepsValid(p, w, p.workers[w].Run(op, demand));
      EvictKeepsValid(Promote(p, w, p.workers[w].Run(op, demand)), w, CommandFailedError(w), env);
    }
  }

  /** Every call keeps the pool valid. */
  lemma ApplyKeepsValid(p: Pool, c: Call)
    requires Valid(p) && Enabled(p, c)
    ensures Valid(Apply(p, c).pool)
  {
    match c.step
    case Add(w, props, ts, sent) => AddKeepsValid(p, w, props, ts, sent, c.env);
    case Beat(w, ts) => RefreshKeepsValid(p, w, ts, c.env);
    case Drain(w, d) => DrainKeepsValid(p, w, d);
    case Report(w, op, u) => ReportKeepsValid(p, w, op, u, c.env);
    case Dispatch(w, op, demand, sent) => DispatchKeepsValid(p, w, op, demand, sent, c.env);
    case Remove(w) => EvictKeepsValid(p, w, Error(Internal, [RemovalRequested]), c.env);
    case Expire(now, timeout) =>
      EvictEachKeepsValid(p, TimedOutTail(p.order, p.workers, WrappingSub(now, timeout)), c.env);
  }

  /** So every reachable pool is valid. */
  lemma {:induction false} ReachableIsValid(p: Pool, calls: seq<Call>)
    requires Valid(p) && IsRun(p, calls)
    ensures Valid(Exec(p, calls).pool)
    decreases |calls|
  {
    if calls != [] {
      ApplyKeepsValid(p, calls[0]);
      ReachableIsValid(Apply(p, calls[0]).pool, calls[1..]);
    }
  }
}

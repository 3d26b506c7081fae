/** What a caller of the pool is told: when a call succeeds, with which code it fails, and with
    which error the state manager gets operations back. */
module PoolResults {
  import opened Errors
  import opened PlatformProps
  import opened Sequences
  import opened WorkerPool
  import opened PoolInvariant
  import opened KeepAlives

  /** The state manager takes back every operation of the worker. */
  ghost predicate TakesAllBack(p: Pool, w: WorkerId, env: Env) {
    forall op :: p.Runs(w, op) ==> env.answer(w, op).Ok?
  }

  /** What a call needs to succeed, on the state before it. */
  ghost predicate MaySucceed(p: Pool, c: Call) {
    match c.step
    case Add(_, _, _, sent) => sent
    case Beat(w, ts) => w in p.workers && p.workers[w].lastUpdate <= ts
    case Drain(w, _) => w in p.workers
    case Report(w, op, _) => p.Runs(w, op) && c.env.answer(w, op).Ok?
    case Dispatch(w, _, _, sent) => w in p.workers ==> sent
    case Remove(w) => TakesAllBack(p, w, c.env)
    case Expire(now, timeout) =>
      forall w :: w in TimedOutTail(p.order, p.workers, WrappingSub(now, timeout)) ==> TakesAllBack(p, w, c.env)
  }

  lemma EvictSucceedsExactly(p: Pool, w: WorkerId, err: Error, env: Env)
    requires Fits(p, env)
    ensures Evict(p, w, err, env).result.Ok? <==> TakesAllBack(p, w, env)
  {
    if w in p.workers { EvictionReport(p, w, err, env); }
  }

  lemma EvictLeavesOthers(p: Pool, w: WorkerId, err: Error, env: Env)
    requires Fits(p, env)
    ensures var q := Evict(p, w, err, env).pool;
      Fits(q, env) && forall v, op :: v != w ==> (q.Runs(v, op) <==> p.Runs(v, op))
  {
  }

  lemma {:induction false} EvictEachSucceedsExactly(p: Pool, ids: seq<WorkerId>, env: Env)
    requires Fits(p, env) && NoDup(ids)
    ensures EvictEach(p, ids, env).result.Ok? <==> forall w :: w in ids ==> TakesAllBack(p, w, env)
    decreases |ids|
  {
    if ids != [] {
      var w, rest := ids[0], ids[1..];
      var q := Evict(p, w, TimeoutError(w), env).pool;
      NoDupTail(ids);
      assert ids == [w] + rest;
      EvictSucceedsExactly(p, w, TimeoutError(w), env);
      EvictLeavesOthers(p, w, TimeoutError(w), env);
      EvictEachSucceedsExactly(q, rest, env);
      forall v | v in rest ensures TakesAllBack(q, v, env) <==> TakesAllBack(p, v, env) {
        assert forall op :: q.Runs(v, op) <==> p.Runs(v, op);
      }
    }
  }

  lemma {:induction false} TailHasNoDuplicates(order: seq<WorkerId>, workers: map<WorkerId, Worker>, threshold: nat)
    requires NoDup(order)
    ensures NoDup(TimedOutTail(order, workers, threshold))
    ensures forall w :: w in TimedOutTail(order, workers, threshold) ==> w in order
    decreases |order|
  {
    if order != [] {
      var front, last := order[..|order| - 1], order[|order| - 1];
      assert order == front + [last];
      NoDupSnoc(front, last);
      TailHasNoDuplicates(front, workers, threshold);
    }
  }

  /** Every call succeeds exactly if it has what it needs. */
  lemma SucceedsExactly(p: Pool, c: Call)
    requires Valid(p) && Enabled(p, c)
    ensures Apply(p, c).result.Ok? <==> MaySucceed(p, c)
  {
    match c.step
    case Report(w, op, u) => UpdateActionCases(p, w, op, u, c.env);
    case Remove(w) => EvictSucceedsExactly(p, w, Error(Internal, [RemovalRequested]), c.env);
    case Expire(now, timeout) =>
      var threshold := WrappingSub(now, timeout);
      TailHasNoDuplicates(p.order, p.workers, threshold);
      EvictEachSucceedsExactly(p, TimedOutTail(p.order, p.workers, threshold), c.env);
    case _ =>
  }

  /** The state manager refused an operation of the worker with this code. */
  ghost predicate RefusedWith(p: Pool, w: WorkerId, env: Env, code: Code) {
    exists op :: p.Runs(w, op) && env.answer(w, op).Err? && env.answer(w, op).error.code == code
  }

  lemma {:induction false} FirstFailure(attempts: seq<UnitResult>) returns (i: nat)
    requires Failures(attempts) != []
    ensures i < |attempts| && attempts[i] == Err(Failures(attempts)[0])
    decreases |attempts|
  {
    i := 0;
    if attempts[0].Ok? {
      i := FirstFailure(attempts[1..]);
      i := i + 1;
    }
  }

  lemma EvictFailsWith(p: Pool, w: WorkerId, err: Error, env: Env)
    requires Fits(p, env) && Evict(p, w, err, env).result.Err?
    ensures RefusedWith(p, w, env, Evict(p, w, err, env).result.error.code)
  {
    var ops := env.listing(w);
    var attempts := Attempts(w, ops, env);
    MergeAllReportsEveryFailure(attempts);
    var i := FirstFailure(attempts);
    assert Lists(ops, p.workers[w].running.Keys);
    assert p.Runs(w, ops[i]);
  }

  lemma {:induction false} EvictEachFailsWith(p: Pool, ids: seq<WorkerId>, env: Env) returns (w: WorkerId)
    requires Fits(p, env) && NoDup(ids) && EvictEach(p, ids, env).result.Err?
    ensures w in ids && RefusedWith(p, w, env, EvictEach(p, ids, env).result.error.code)
    decreases |ids|
  {
    w := ids[0];
    var first := Evict(p, w, TimeoutError(w), env);
    if first.result.Err? {
      EvictFailsWith(p, w, TimeoutError(w), env);
    } else {
      NoDupTail(ids);
      EvictLeavesOthers(p, w, TimeoutError(w), env);
      w := EvictEachFailsWith(first.pool, ids[1..], env);
      var op :| first.pool.Runs(w, op) && env.answer(w, op).Err? &&
        env.answer(w, op).error.code == EvictEach(p, ids, env).result.error.code;
      assert p.Runs(w, op);
    }
  }

  /** What a failing call reports: that the caller is wrong about a heartbeat, what the state
      manager answered, or an internal error. */
  ghost predicate Explains(p: Pool, c: Call, e: Error) {
    match c.step
    case Beat(_, _) => e.code == InvalidArgument
    case Report(w, op, _) =>
      if p.Runs(w, op)
      then var a := c.env.answer(w, op); a.Err? && e.code == a.error.code && a.error.messages <= e.messages
      else e.code == Internal
    case Remove(w) => RefusedWith(p, w, c.env, e.code)
    case Expire(_, _) => exists w :: RefusedWith(p, w, c.env, e.code)
    case _ => e.code == Internal
  }

  lemma FailureIsExplained(p: Pool, c: Call)
    requires Valid(p) && Enabled(p, c) && Apply(p, c).result.Err?
    ensures Explains(p, c, Apply(p, c).result.error)
  {
    match c.step
    case Report(w, op, u) => UpdateActionCases(p, w, op, u, c.env);
    case Remove(w) => EvictFailsWith(p, w, Error(Internal, [RemovalRequested]), c.env);
    case Expire(now, timeout) =>
      var threshold := WrappingSub(now, timeout);
      TailHasNoDuplicates(p.order, p.workers, threshold);
      var w := EvictEachFailsWith(p, TimedOutTail(p.order, p.workers, threshold), c.env);
    case _ =>
  }

  // ------------------------------------------------------- the handed back

  /** The call's own report. */
  predicate IsOwnReport(c: Call, e: Event) {
    && c.step.Report? && e.Updated?
    && e.worker == c.step.w && e.op == c.step.op && e.update == c.step.update
  }

  lemma EvictsAsInternal(p: Pool, w: WorkerId, err: Error, env: Env, e: Event)
    requires err.code == Internal
    ensures e in Evict(p, w, err, env).events && e.Updated? ==>
      e.update.WithError? && e.update.error.code == Internal
  {
  }

  lemma {:induction false} EvictEachAsInternal(p: Pool, ids: seq<WorkerId>, env: Env, e: Event)
    ensures e in EvictEach(p, ids, env).events && e.Updated? ==>
      e.update.WithError? && e.update.error.code == Internal
    decreases |ids|
  {
    if ids != [] {
      EvictsAsInternal(p, ids[0], TimeoutError(ids[0]), env, e);
      EvictEachAsInternal(Evict(p, ids[0], TimeoutError(ids[0]), env).pool, ids[1..], env, e);
    }
  }

  /** Whatever a call tells the state manager beyond its own report is an internal error: no
      operation that an eviction hands back looks like backpressure of the worker. */
  lemma HandedBackAsInternal(p: Pool, c: Call, e: Event)
    requires Enabled(p, c) && e in Apply(p, c).events && e.Updated? && !IsOwnReport(c, e)
    ensures e.update.WithError? && e.update.error.code == Internal && !e.update.Backpressure()
  {
    match c.step
    case Add(w, props, ts, _) =>
      EvictsAsInternal(Promote(p, w, NewWorker(props, ts)), w, CONNECTION_ERROR, c.env, e);
    case Report(w, op, u) =>
      UpdateActionCases(p, w, op, u, c.env);
      if w in p.workers { EvictsAsInternal(Promote(p, w, p.workers[w]), w, NotRunningError(op), c.env, e); }
    case Dispatch(w, op, demand, _) =>
      if w in p.workers {
        EvictsAsInternal(Promote(p, w, p.workers[w].Run(op, demand)), w, CommandFailedError(w), c.env, e);
      }
    case Remove(w) => EvictsAsInternal(p, w, Error(Internal, [RemovalRequested]), c.env, e);
    case Expire(now, timeout) =>
      EvictEachAsInternal(p, TimedOutTail(p.order, p.workers, WrappingSub(now, timeout)), c.env, e);
    case _ =>
  }
}

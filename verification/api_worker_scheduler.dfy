/** `ApiWorkerScheduler` as an object whose methods update the pool in place. Each method is
    proved to do to its fields, to the outside and to its result exactly what the function
    of the same call in `WorkerPool` says. */
module ApiWorkerSchedulers {
  import opened Errors
  import opened PlatformProps
  import opened Sequences
  import opened WorkerPool
  import opened PoolInvariant
  import opened Matching

  /** One round of the eviction loop: what is done and what is left make up the whole. */
  lemma EvictEachStep(p: Pool, ids: seq<WorkerId>, i: nat, env: Env, done: seq<Event>, result: UnitResult)
    requires i < |ids|
    ensures var one, whole := Evict(p, ids[i], TimeoutError(ids[i]), env), EvictEach(p, ids[i..], env);
      var rest := EvictEach(one.pool, ids[i + 1..], env);
      && whole.pool == rest.pool
      && done + whole.events == done + one.events + rest.events
      && result.Merge(whole.result) == result.Merge(one.result).Merge(rest.result)
  {
    var one := Evict(p, ids[i], TimeoutError(ids[i]), env);
    var rest := EvictEach(one.pool, ids[i + 1..], env);
    assert ids[i..][1..] == ids[i + 1..];
    assert done + (one.events + rest.events) == done + one.events + rest.events;
    MergeIsAMonoid(result, one.result, rest.result);
  }

  class ApiWorkerScheduler {
    const strategy: Strategy
    /** The recency order and the contents of the cache of workers. */
    var order: seq<WorkerId>
    var workers: map<WorkerId, Worker>
    /** Everything done to the outside so far. */
    var effects: seq<Event>

    ghost function View(): Pool reads this { Pool(order, workers) }

    /** The pool, the effects and a result are those of `o`. */
    ghost predicate Reached(o: Outcome, before: seq<Event>, result: UnitResult) reads this {
      View() == o.pool && effects == before + o.events && result == o.result
    }

    constructor (strategy: Strategy)
      ensures View() == EMPTY && effects == [] && this.strategy == strategy && Valid(View())
    {
      this.strategy := strategy;
      order, workers, effects := [], map[], [];
    }

    /** `refresh_lifetime`. */
    method RefreshLifetime(w: WorkerId, timestamp: U64, env: Env) returns (result: UnitResult)
      modifies `workers, `effects
      ensures Reached(Refresh(old(View()), w, timestamp, env), old(effects), result)
    {
      if w !in workers {
        return Err(Error(InvalidArgument, [WorkerNotFound(w as int)]));
      }
      if workers[w].lastUpdate > timestamp {
        return Err(Error(InvalidArgument, [StaleTimestamp(timestamp)]));
      }
      workers := workers[w := workers[w].(lastUpdate := timestamp)];
      var ops := env.listing(w);
      for i := 0 to |ops|
        invariant effects == old(effects) + Sends(w, ops)[..i]
        invariant workers == Refresh(old(View()), w, timestamp, env).pool.workers
      {
        effects := effects + [Sent(w, ops[i])];
      }
      result := Ok;
    }

    method NotifyWorkerChange()
      modifies `effects
      ensures effects == old(effects) + [Notified]
    {
      effects := effects + [Notified];
    }

    /** `get_mut` or `put`, and the write through the reference it returns. */
    method Store(w: WorkerId, worker: Worker)
      modifies `order, `workers
      ensures View() == Promote(old(View()), w, worker)
    {
      order, workers := [w] + Without(order, w), workers[w := worker];
    }

    /** The inner `remove_worker`, which wakes the matching engine in any case. */
    method RemoveFromPool(w: WorkerId) returns (present: bool)
      modifies `order, `workers, `effects
      ensures present == (w in old(workers)) && effects == old(effects) + [Notified]
      ensures View() == if present then Pool(Without(old(order), w), old(workers) - {w}) else old(View())
    {
      present := w in workers;
      if present {
        order, workers := Without(order, w), workers - {w};
      }
      NotifyWorkerChange();
    }

    /** `immediate_evict_worker`. */
    method ImmediateEvictWorker(w: WorkerId, err: Error, env: Env) returns (result: UnitResult)
      modifies `order, `workers, `effects
      ensures Reached(Evict(old(View()), w, err, env), old(effects), result)
    {
      result := Ok;
      var present := RemoveFromPool(w);
      if present {
        var ops := env.listing(w);
        var i := 0;
        while i < |ops|
          invariant 0 <= i <= |ops|
          invariant effects == old(effects) + [Notified] + HandBacks(w, err, ops, env)[..i]
          invariant result == MergeAll(Attempts(w, ops, env)[..i])
          invariant View() == Evict(old(View()), w, err, env).pool
        {
          var answer := env.answer(w, ops[i]);
          effects := effects + [Updated(w, ops[i], WithError(err), answer.Ok?)];
          MergeFromAppend(Ok, Attempts(w, ops, env)[..i], [answer]);
          assert Attempts(w, ops, env)[..i + 1] == Attempts(w, ops, env)[..i] + [answer];
          result := result.Merge(answer);
          i := i + 1;
        }
        assert HandBacks(w, err, ops, env)[..|ops|] == HandBacks(w, err, ops, env);
        assert Attempts(w, ops, env)[..|ops|] == Attempts(w, ops, env);
      }
      NotifyWorkerChange();
    }

    /** The trait's `add_worker`; `sent` is whether the connection message could be sent. */
    method AddWorker(w: WorkerId, props: Properties, timestamp: U64, sent: bool, env: Env) returns (result: UnitResult)
      modifies `order, `workers, `effects
      ensures Reached(WorkerPool.AddWorker(old(View()), w, props, timestamp, sent, env), old(effects), result)
    {
      Store(w, NewWorker(props, timestamp));
      NotifyWorkerChange();
      if sent {
        return Ok;
      }
      var evicted := ImmediateEvictWorker(w, CONNECTION_ERROR, env);
      result := Err(CONNECTION_ERROR).Merge(evicted);
    }

    /** `set_drain_worker`. */
    method SetDrainWorker(w: WorkerId, draining: bool) returns (result: UnitResult)
      modifies `order, `workers, `effects
      ensures Reached(SetDrain(old(View()), w, draining), old(effects), result)
    {
      if w !in workers {
        return Err(Error(Internal, [WorkerNotFound(w as int)]));
      }
      Store(w, workers[w].(draining := draining));
      NotifyWorkerChange();
      result := Ok;
    }

    /** `inner_find_worker_for_action`: a scan from either end of the recency order. */
    method FindWorkerForAction(demand: Properties) returns (found: Option<WorkerId>)
      ensures found == Find(View(), strategy, demand)
    {
      if strategy.LeastRecentlyUsed? {
        var n := |order|;
        assert order[..n] == order;
        while n > 0
          invariant 0 <= n <= |order|
          invariant LeastRecent(order[..n], workers, demand) == LeastRecent(order, workers, demand)
        {
          var last := order[n - 1];
          assert order[..n][..n - 1] == order[..n - 1];
          if last in workers && workers[last].Eligible(demand) {
            return Some(last);
          }
          n := n - 1;
        }
      } else {
        var n := 0;
        while n < |order|
          invariant 0 <= n <= |order|
          invariant MostRecent(order[n..], workers, demand) == MostRecent(order, workers, demand)
        {
          assert order[n..][1..] == order[n + 1..];
          if order[n] in workers && workers[order[n]].Eligible(demand) {
            return Some(order[n]);
          }
          n := n + 1;
        }
      }
      found := None;
    }

    /** The finishing part of `update_action`: `complete_action`, then the pause. */
    static method FinishAction(before: Worker, op: OperationId, backpressure: bool) returns (worker: Worker)
      requires op in before.running && Carries(before.props, before.running[op])
      ensures worker == before.Finish(op, backpressure).0
    {
      var wasPaused := !before.CanAcceptWork();
      var props := RestoreInPlace(before.props, before.running[op]);
      worker := before.(running := before.running - {op}, props := props, paused := false);
      if (wasPaused || backpressure) && worker.running != map[] {
        worker := worker.(paused := true);
      }
    }

    /** `update_action`. */
    method UpdateAction(w: WorkerId, op: OperationId, update: Update, env: Env) returns (result: UnitResult)
      requires View().Runs(w, op) ==> Carries(workers[w].props, workers[w].running[op])
      modifies `order, `workers, `effects
      ensures Reached(WorkerPool.UpdateAction(old(View()), w, op, update, env), old(effects), result)
    {
      UpdateActionCases(View(), w, op, update, env);
      if w !in workers {
        return Err(Error(Internal, [WorkerNotFound(w as int)]));
      }
      var worker := workers[w];
      Store(w, worker);
      if op !in worker.running {
        var evicted := ImmediateEvictWorker(w, NotRunningError(op), env);
        return Err(NotRunningError(op)).Merge(evicted);
      }
      var answer := env.answer(w, op);
      effects := effects + [Updated(w, op, update, answer.Ok?)];
      if answer.Err? {
        return answer.Tip(InUpdateOperation);
      }
      if !update.Terminal() {
        return Ok;
      }
      worker := FinishAction(worker, op, update.Backpressure());
      workers := workers[w := worker];
      assert workers == old(workers)[w := worker];
      NotifyWorkerChange();
      result := Ok;
    }

    /** `run_action`, without the message: record the operation and take its share. */
    static method StartAction(before: Worker, op: OperationId, demand: Properties) returns (worker: Worker)
      requires Satisfies(before.props, demand)
      ensures worker == before.Run(op, demand)
    {
      var props := ReduceInPlace(before.props, demand);
      worker := before.(running := before.running[op := demand], props := props);
    }

    /** `worker_notify_run_action`; `sent` is whether the command could be sent. */
    method WorkerNotifyRunAction(w: WorkerId, op: OperationId, demand: Properties, sent: bool, env: Env)
      returns (result: UnitResult)
      requires w in workers ==> Satisfies(workers[w].props, demand)
      modifies `order, `workers, `effects
      ensures Reached(RunAction(old(View()), w, op, demand, sent, env), old(effects), result)
    {
      if w !in workers {
        return Ok;
      }
      var worker := StartAction(workers[w], op, demand);
      Store(w, worker);
      effects := effects + [Started(w, op)];
      if sent {
        return Ok;
      }
      var evicted := ImmediateEvictWorker(w, CommandFailedError(w), env);
      result := Err(CommandFailedError(w)).Merge(evicted);
    }

    /** The ids that the timeout scan collects from the least recent end. */
    method CollectTimedOut(threshold: nat) returns (ids: seq<WorkerId>)
      ensures ids == TimedOutTail(order, workers, threshold)
    {
      ids := [];
      var n := |order|;
      assert order[..n] == order;
      while n > 0 && order[n - 1] in workers && workers[order[n - 1]].lastUpdate <= threshold
        invariant 0 <= n <= |order|
        invariant TimedOutTail(order, workers, threshold) == ids + TimedOutTail(order[..n], workers, threshold)
      {
        assert order[..n][..n - 1] == order[..n - 1];
        ids := ids + [order[n - 1]];
        n := n - 1;
      }
    }

    /** `remove_timedout_workers`. */
    method RemoveTimedOutWorkers(now: U64, timeout: U64, env: Env) returns (result: UnitResult)
      modifies `order, `workers, `effects
      ensures Reached(RemoveTimedOut(old(View()), now, timeout, env), old(effects), result)
    {
      var ids := CollectTimedOut(WrappingSub(now, timeout));
      ghost var all := EvictEach(View(), ids, env);
      result := Ok;
      var i := 0;
      assert ids[0..] == ids;
      while i < |ids|
        invariant 0 <= i <= |ids|
        invariant all.pool == EvictEach(View(), ids[i..], env).pool
        invariant old(effects) + all.events == effects + EvictEach(View(), ids[i..], env).events
        invariant all.result == result.Merge(EvictEach(View(), ids[i..], env).result)
      {
        EvictEachStep(View(), ids, i, env, effects, result);
        var evicted := ImmediateEvictWorker(ids[i], TimeoutError(ids[i]), env);
        result := result.Merge(evicted);
        i := i + 1;
      }
      assert ids[i..] == [];
      MergeIsAMonoid(result, result, result);
    }

    /** The trait's `remove_worker`. */
    method RemoveWorker(w: WorkerId, env: Env) returns (result: UnitResult)
      modifies `order, `workers, `effects
      ensures Reached(WorkerPool.RemoveWorker(old(View()), w, env), old(effects), result)
    {
      result := ImmediateEvictWorker(w, Error(Internal, [RemovalRequested]), env);
    }

    /** Any of the calls that take the lock: it does what `Apply` says, and the pool is valid
        afterwards, so every sequence of calls on the object is a run in the sense of `Exec`. */
    method Perform(c: Call) returns (result: UnitResult)
      requires Valid(View()) && Enabled(View(), c)
      modifies `order, `workers, `effects
      ensures Valid(View()) && Reached(Apply(old(View()), c), old(effects), result)
    {
      ApplyKeepsValid(View(), c);
      match c.step
      case Add(w, props, ts, sent) => result := AddWorker(w, props, ts, sent, c.env);
      case Beat(w, ts) => result := RefreshLifetime(w, ts, c.env);
      case Drain(w, d) => result := SetDrainWorker(w, d);
      case Report(w, op, u) => result := UpdateAction(w, op, u, c.env);
      case Dispatch(w, op, demand, sent) => result := WorkerNotifyRunAction(w, op, demand, sent, c.env);
      case Remove(w) => result := RemoveWorker(w, c.env);
      case Expire(now, timeout) => result := RemoveTimedOutWorkers(now, timeout, c.env);
    }
  }
}

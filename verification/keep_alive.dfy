/** Keep-alives of running operations, from the heartbeat that queues them to the background
    task that forwards them, and the report that an eviction makes. */
module KeepAlives {
  import opened Errors
  import opened PlatformProps
  import opened Sequences
  import opened WorkerPool
  import opened PoolInvariant

  lemma {:induction false} EvictEachSendsNothing(p: Pool, ids: seq<WorkerId>, env: Env, w: WorkerId, op: OperationId)
    ensures Sent(w, op) !in EvictEach(p, ids, env).events
    decreases |ids|
  {
    if ids != [] {
      EvictEachSendsNothing(Evict(p, ids[0], TimeoutError(ids[0]), env).pool, ids[1..], env, w, op);
    }
  }

  lemma OthersQueueNothing(p: Pool, c: Call, w: WorkerId, op: OperationId)
    requires Enabled(p, c) && !c.step.Beat?
    ensures Sent(w, op) !in Apply(p, c).events
  {
    match c.step
    case Report(v, o, u) => UpdateActionCases(p, v, o, u, c.env);
    case Expire(now, timeout) =>
      EvictEachSendsNothing(p, TimedOutTail(p.order, p.workers, WrappingSub(now, timeout)), c.env, w, op);
    case Add(_, _, _, _) =>
    case Drain(_, _) =>
    case Dispatch(_, _, _, _) =>
    case Remove(_) =>
  }

  lemma SendsListsThePairs(v: WorkerId, ops: seq<OperationId>, running: set<OperationId>, w: WorkerId, op: OperationId)
    requires Lists(ops, running)
    ensures NoDup(Sends(v, ops))
    ensures Sent(w, op) in Sends(v, ops) <==> w == v && op in running
  {
    var sends := Sends(v, ops);
    if w == v && op in ops {
      var i :| 0 <= i < |ops| && ops[i] == op;
      assert sends[i] == Sent(w, op);
    }
  }

  /** An accepted heartbeat queues every operation running on that worker exactly once; no
      other call queues anything. */
  lemma HeartbeatQueuesTheRunning(p: Pool, c: Call, w: WorkerId, op: OperationId)
    requires Valid(p) && Enabled(p, c)
    ensures Sent(w, op) in Apply(p, c).events <==>
      c.step.Beat? && c.step.w == w && p.Runs(w, op) && p.workers[w].lastUpdate <= c.step.timestamp
    ensures c.step.Beat? ==> NoDup(Apply(p, c).events)
  {
    if c.step.Beat? {
      var v := c.step.w;
      if v in p.workers { SendsListsThePairs(v, c.env.listing(v), p.workers[v].running.Keys, w, op); }
    } else {
      OthersQueueNothing(p, c, w, op);
    }
  }

  /** In every run, a queued pair was queued by a heartbeat of that worker at a moment at
      which the operation was running on it. */
  lemma {:induction false} QueuedWasRunning(p: Pool, calls: seq<Call>, w: WorkerId, op: OperationId) returns (n: nat)
    requires Valid(p) && IsRun(p, calls) && Sent(w, op) in Exec(p, calls).events
    ensures n < |calls| && calls[n].step.Beat? && calls[n].step.w == w
    ensures Exec(p, calls[..n]).pool.Runs(w, op)
    decreases |calls|
  {
    var first := Apply(p, calls[0]);
    ApplyKeepsValid(p, calls[0]);
    HeartbeatQueuesTheRunning(p, calls[0], w, op);
    if Sent(w, op) in first.events {
      n := 0;
      assert Exec(p, calls[..0]).pool == p;
    } else {
      n := QueuedWasRunning(first.pool, calls[1..], w, op);
      n := n + 1;
      assert calls[..n][1..] == calls[1..][..n - 1];
    }
  }

  // ------------------------------------------------------------ the consumer

  const RECV_MANY_LIMIT := 256

  function Concat<T>(arrivals: seq<seq<T>>): seq<T> {
    if arrivals == [] then [] else arrivals[0] + Concat(arrivals[1..])
  }

  /** The inner loop, over one batch. */
  method ForwardBatch<T>(before: seq<T>, messages: seq<T>) returns (forwarded: seq<T>)
    ensures forwarded == before + messages
  {
    forwarded := before;
    for k := 0 to |messages|
      invariant forwarded == before + messages[..k]
    {
      forwarded := forwarded + [messages[k]];
    }
  }

  lemma Reassociate<T>(a: seq<T>, b: seq<T>, c: seq<T>, d: seq<T>)
    ensures a + b + (c + d) == a + (b + c) + d == a + b + c + d
  {
  }

  /** The loop of the background task. `arrivals[i]` is what the senders queued before the
      task asked for the i-th time; after the last one they are gone. Whatever the size of
      each batch, what is forwarded is what was sent: in order, complete, nothing twice. */
  method ForwardKeepAlives<T>(arrivals: seq<seq<T>>) returns (forwarded: seq<T>, batches: seq<nat>)
    ensures forwarded == Concat(arrivals)
    ensures forall i :: 0 <= i < |batches| ==> 1 <= batches[i] <= 256
  {
    forwarded, batches := [], [];
    var queue: seq<T>, i := [], 0;
    while true
      invariant 0 <= i <= |arrivals|
      invariant forwarded + queue + Concat(arrivals[i..]) == Concat(arrivals)
      invariant forall k :: 0 <= k < |batches| ==> 1 <= batches[k] <= RECV_MANY_LIMIT
      decreases |arrivals| - i, |queue|
    {
      if i < |arrivals| {
        assert arrivals[i..][1..] == arrivals[i + 1..];
        Reassociate(forwarded, queue, arrivals[i], Concat(arrivals[i + 1..]));
        queue, i := queue + arrivals[i], i + 1;
        if queue == [] {
          continue; // still waiting
        }
      } else if queue == [] {
        assert Concat(arrivals[i..]) == [];
        return; // the sender has been dropped
      }
      var size :| 1 <= size <= |queue| && size <= RECV_MANY_LIMIT;
      assert queue == queue[..size] + queue[size..];
      Reassociate(forwarded, queue[..size], queue[size..], Concat(arrivals[i..]));
      forwarded := ForwardBatch(forwarded, queue[..size]);
      queue, batches := queue[size..], batches + [size];
    }
  }

  // ------------------------------------------------- the report of an eviction

  /** Whatever the drain order, an eviction attempts every running operation exactly once. */
  lemma EvictionAttemptsEverything(p: Pool, w: WorkerId, err: Error, env: Env, op: OperationId)
    requires w in p.workers && Fits(p, env)
    ensures var o := Evict(p, w, err, env);
      && |o.events| == |env.listing(w)| + 2
      && (op in p.workers[w].running <==> Updated(w, op, WithError(err), env.answer(w, op).Ok?) in o.events)
      && NoDup(o.events[1..|o.events| - 1])
  {
    var o, ops := Evict(p, w, err, env), env.listing(w);
    assert Lists(ops, p.workers[w].running.Keys);
    var backs := HandBacks(w, err, ops, env);
    assert o.events[1..|o.events| - 1] == backs;
    if op in ops {
      var i :| 0 <= i < |ops| && ops[i] == op;
      assert o.events[i + 1] == backs[i];
    }
  }

  /** The eviction succeeds exactly if every attempt did; otherwise it has the code of the
      first failure and the messages of all failures in order, separated. */
  lemma EvictionReport(p: Pool, w: WorkerId, err: Error, env: Env)
    requires w in p.workers && Fits(p, env)
    ensures var r := Evict(p, w, err, env).result;
      r.Ok? <==> forall op :: op in p.workers[w].running ==> env.answer(w, op).Ok?
    ensures var failures := Failures(Attempts(w, env.listing(w), env));
      failures != [] ==> Evict(p, w, err, env).result == Err(Error(failures[0].code, Joined(failures)))
  {
    var ops := env.listing(w);
    var attempts := Attempts(w, ops, env);
    MergeAllReportsEveryFailure(attempts);
    assert Lists(ops, p.workers[w].running.Keys);
    if Failures(attempts) == [] {
      forall op | op in p.workers[w].running ensures env.answer(w, op).Ok? {
        var i :| 0 <= i < |ops| && ops[i] == op;
        assert attempts[i].Ok?;
      }
    } else {
      var i :| 0 <= i < |attempts| && attempts[i].Err?;
      assert ops[i] in p.workers[w].running;
    }
  }
}

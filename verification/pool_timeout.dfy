/** The timeout scan stops at the first worker that is recent enough. That finds every worker
    that timed out exactly if the recency order agrees with the timestamps, and the refresh
    of a timestamp does not maintain that agreement. */
module PoolTimeout {
  import opened Errors
  import opened PlatformProps
  import opened Sequences
  import opened WorkerPool
  import opened PoolInvariant
  import opened PoolWorkers

  /** Nothing was heard from the worker for the whole timeout. */
  predicate Unheard(p: Pool, v: WorkerId, now: U64, timeout: U64) {
    v in p.workers && p.workers[v].lastUpdate + timeout <= now
  }

  predicate Old(workers: map<WorkerId, Worker>, v: WorkerId, threshold: nat) {
    v in workers && workers[v].lastUpdate <= threshold
  }

  /** The scan collects exactly the maximal run of old workers at the least recent end. */
  lemma {:induction false} TailIsTheMaximalOldRun(order: seq<WorkerId>, workers: map<WorkerId, Worker>, threshold: nat)
    requires NoDup(order)
    ensures forall w :: w in TimedOutTail(order, workers, threshold) <==>
      w in order && Old(workers, w, threshold) && forall v :: v in After(order, w) ==> Old(workers, v, threshold)
  {
    if order != [] {
      var front, last := order[..|order| - 1], order[|order| - 1];
      assert order == front + [last];
      assert NoDup(front);
      assert last !in front;
      TailIsTheMaximalOldRun(front, workers, threshold);
      forall w ensures w in TimedOutTail(order, workers, threshold) <==>
        w in order && Old(workers, w, threshold) && forall v :: v in After(order, w) ==> Old(workers, v, threshold)
      {
        AfterSnoc(front, last, w);
        if w in front { assert last in After(order, w); }
      }
    }
  }

  /** It collects them from the least recent one on. */
  lemma {:induction false} TailIsReversed(order: seq<WorkerId>, workers: map<WorkerId, Worker>, threshold: nat)
    ensures var tail := TimedOutTail(order, workers, threshold);
      |tail| <= |order| && forall i :: 0 <= i < |tail| ==> tail[i] == order[|order| - 1 - i]
    decreases |order|
  {
    if order != [] { TailIsReversed(order[..|order| - 1], workers, threshold); }
  }

  lemma EvictsTheOldRun(p: Pool, threshold: nat, env: Env, v: WorkerId)
    requires Valid(p) && v in p.workers
    ensures v !in EvictEach(p, TimedOutTail(p.order, p.workers, threshold), env).pool.workers <==>
      Old(p.workers, v, threshold) && forall u :: u in After(p.order, v) ==> Old(p.workers, u, threshold)
  {
    TailIsTheMaximalOldRun(p.order, p.workers, threshold);
    EvictEachKeepsValid(p, TimedOutTail(p.order, p.workers, threshold), env);
  }

  /** With a clock that is past the timeout, a scan evicts a worker exactly if it and every
      less recent worker have been silent for the whole timeout. */
  lemma ScanEvictsTheSilentRun(p: Pool, now: U64, timeout: U64, env: Env, v: WorkerId)
    requires Valid(p) && timeout <= now && v in p.workers
    ensures v !in RemoveTimedOut(p, now, timeout, env).pool.workers <==>
      Unheard(p, v, now, timeout) && forall u :: u in After(p.order, v) ==> Unheard(p, u, now, timeout)
  {
    assert WrappingSub(now, timeout) == now - timeout;
    EvictsTheOldRun(p, now - timeout, env, v);
    assert forall u {:trigger Old(p.workers, u, now - timeout)} {:trigger Unheard(p, u, now, timeout)} ::
        Old(p.workers, u, now - timeout) <==> Unheard(p, u, now, timeout);
  }

  /** The scan does what a scan of the whole pool would do. */
  ghost predicate ScanIsComplete(p: Pool, now: U64, timeout: U64, env: Env) {
    forall v :: v in p.workers ==>
      (v in RemoveTimedOut(p, now, timeout, env).pool.workers <==> !Unheard(p, v, now, timeout))
  }

  /** A worker is never more recent in the order and older in its timestamp. */
  ghost predicate Agrees(p: Pool) {
    forall u, v :: u in p.workers && v in p.workers && v in After(p.order, u) ==>
      p.workers[v].lastUpdate <= p.workers[u].lastUpdate
  }

  /** For one scan past the timeout: complete exactly if no silent worker is more recent than
      one that is not. */
  ghost predicate SilentOnesAreLast(p: Pool, now: U64, timeout: U64) {
    forall u, v :: u in p.workers && v in After(p.order, u) && Unheard(p, u, now, timeout) ==>
      Unheard(p, v, now, timeout)
  }

  /** For one scan before the timeout, when the subtraction wraps in an unchecked build: the
      least recent worker has a timestamp that is almost at the end of time. */
  ghost predicate LastIsFarAhead(p: Pool, now: U64, timeout: U64)
    requires Shape(p) && now < timeout
  {
    p.order == [] || p.workers[p.order[|p.order| - 1]].lastUpdate > now + (U64_LIMIT - timeout)
  }

  lemma LastIsBehind(order: seq<WorkerId>, v: WorkerId)
    requires NoDup(order) && v in order
    ensures order[|order| - 1] == v || order[|order| - 1] in After(order, v)
  {
    var i :| 0 <= i < |order| && order[i] == v;
    AfterByIndex(order, i);
    if i < |order| - 1 { assert order[i + 1..][|order| - 2 - i] == order[|order| - 1]; }
  }

  /** Before the clock reaches the timeout no worker can have been silent for that long. A scan
      evicts a worker nevertheless, exactly if it and every less recent worker have a timestamp
      up to the wrapped difference, which is almost the end of time. */
  lemma EarlyScanEvictsExactly(p: Pool, now: U64, timeout: U64, env: Env, v: WorkerId)
    requires Valid(p) && now < timeout && v in p.workers
    ensures !Unheard(p, v, now, timeout)
    ensures v !in RemoveTimedOut(p, now, timeout, env).pool.workers <==>
      forall u :: u == v || u in After(p.order, v) ==>
        u in p.workers && p.workers[u].lastUpdate <= now + (0x1_0000_0000_0000_0000 - timeout)
  {
    var threshold := now + (U64_LIMIT - timeout);
    assert WrappingSub(now, timeout) == threshold;
    EvictsTheOldRun(p, threshold, env, v);
    assert forall u :: Old(p.workers, u, threshold) <==> u in p.workers && p.workers[u].lastUpdate <= threshold;
  }

  /** The scan does what a scan of the whole pool would do exactly under these conditions. */
  lemma CompleteExactly(p: Pool, now: U64, timeout: U64, env: Env)
    requires Valid(p)
    ensures ScanIsComplete(p, now, timeout, env) <==>
      if timeout <= now then SilentOnesAreLast(p, now, timeout) else LastIsFarAhead(p, now, timeout)
  {
    if timeout <= now {
      forall v | v in p.workers
        ensures v !in RemoveTimedOut(p, now, timeout, env).pool.workers <==>
          Unheard(p, v, now, timeout) && forall u :: u in After(p.order, v) ==> Unheard(p, u, now, timeout)
      {
        ScanEvictsTheSilentRun(p, now, timeout, env, v);
      }
    } else {
      forall v | v in p.workers
        ensures v !in RemoveTimedOut(p, now, timeout, env).pool.workers ==> !LastIsFarAhead(p, now, timeout)
      {
        EarlyScanEvictsExactly(p, now, timeout, env, v);
        LastIsBehind(p.order, v);
      }
      if !LastIsFarAhead(p, now, timeout) {
        var last := p.order[|p.order| - 1];
        EarlyScanEvictsExactly(p, now, timeout, env, last);
        AfterByIndex(p.order, |p.order| - 1);
        assert last in p.order;
      }
    }
  }

  /** So a worker that has just joined is evicted by a scan at the same moment. */
  lemma EarlyScanEvictsTheLiving(props: Properties, env: Env) returns (calls: seq<Call>, lost: WorkerId)
    requires forall w :: env.listing(w) == []
    ensures IsRun(EMPTY, calls)
    ensures var p := Exec(EMPTY, calls).pool;
      lost in p.workers && !Unheard(p, lost, 5, 60) && lost !in RemoveTimedOut(p, 5, 60, env).pool.workers
  {
    var join := Call(Add(1, props, 5, true), env);
    var p := Pool([1], map[1 := NewWorker(props, 5)]);
    assert Without<WorkerId>([], 1) == [];
    assert Apply(EMPTY, join).pool == p;
    RunCons(EMPTY, join, []);
    ReachableIsValid(EMPTY, [join] + []);
    calls, lost := [join] + [], 1;
    EarlyScanEvictsExactly(p, 5, 60, env, lost);
    assert After(p.order, lost) == [] by { assert p.order[1..] == []; }
  }

  /** Recency order and timestamps agree, as far as timestamps are concerned after which the
      timeout can still run out. */
  ghost predicate AgreesWithin(p: Pool, timeout: U64) {
    forall u, v :: u in p.workers && v in p.workers && v in After(p.order, u) ==>
      p.workers[u].lastUpdate + timeout < U64_LIMIT ==> p.workers[v].lastUpdate <= p.workers[u].lastUpdate
  }

  lemma AgreementIsEnough(p: Pool, now: U64, timeout: U64, env: Env)
    requires Valid(p) && AgreesWithin(p, timeout) && timeout <= now
    ensures ScanIsComplete(p, now, timeout, env)
  {
    CompleteExactly(p, now, timeout, env);
    forall u, v | u in p.workers && v in After(p.order, u) && Unheard(p, u, now, timeout)
      ensures Unheard(p, v, now, timeout)
    {
      AfterElements(p.order, u);
    }
  }

  lemma AgreementIsNeeded(p: Pool, timeout: U64, env: Env)
    requires Valid(p) && forall now: U64 :: timeout <= now ==> ScanIsComplete(p, now, timeout, env)
    ensures AgreesWithin(p, timeout)
  {
    forall u, v |
      u in p.workers && v in p.workers && v in After(p.order, u) && p.workers[u].lastUpdate + timeout < U64_LIMIT
      ensures p.workers[v].lastUpdate <= p.workers[u].lastUpdate
    {
      var now: U64 := p.workers[u].lastUpdate + timeout;
      assert ScanIsComplete(p, now, timeout, env);
      CompleteExactly(p, now, timeout, env);
      assert Unheard(p, u, now, timeout);
    }
  }

  /** For all scans past the timeout, the shortcut is right exactly if the recency order agrees
      with the timestamps. For all scans whatsoever it is right exactly if also nothing can
      wrap: the pool is empty or there is no timeout. */
  lemma ShortcutIsRightExactly(p: Pool, timeout: U64, env: Env)
    requires Valid(p)
    ensures (forall now: U64 :: timeout <= now ==> ScanIsComplete(p, now, timeout, env)) <==> AgreesWithin(p, timeout)
    ensures (forall now: U64 :: ScanIsComplete(p, now, timeout, env)) <==>
      AgreesWithin(p, timeout) && (timeout == 0 || p.order == [])
  {
    forall now: U64 | timeout <= now && AgreesWithin(p, timeout) ensures ScanIsComplete(p, now, timeout, env) {
      AgreementIsEnough(p, now, timeout, env);
    }
    if forall now: U64 :: timeout <= now ==> ScanIsComplete(p, now, timeout, env) {
      AgreementIsNeeded(p, timeout, env);
    }
    if timeout > 0 {
      forall now: U64 | now < timeout && p.order == [] ensures ScanIsComplete(p, now, timeout, env) {
        CompleteExactly(p, now, timeout, env);
      }
      var worst: U64 := timeout - 1;
      CompleteExactly(p, worst, timeout, env);
    }
  }

  // ------------------------------------------ which calls keep the agreement

  lemma AfterPromote(p: Pool, w: WorkerId, worker: Worker, u: WorkerId, v: WorkerId)
    requires Shape(p)
    ensures v in After(Promote(p, w, worker).order, u) <==>
      v != w && (if u == w then v in p.workers else v in After(p.order, u))
  {
    AfterCons(w, Without(p.order, w), u);
    if u == w {
      WithoutElements(p.order, w);
    } else {
      AfterWithout(p.order, u, w);
      WithoutElements(After(p.order, u), w);
    }
  }

  lemma PromoteAgreesExactly(p: Pool, w: WorkerId, worker: Worker)
    requires Valid(p) && Agrees(p)
    ensures Agrees(Promote(p, w, worker)) <==>
      forall v :: v in p.workers && v != w ==> p.workers[v].lastUpdate <= worker.lastUpdate
  {
    var q := Promote(p, w, worker);
    if Agrees(q) {
      forall v | v in p.workers && v != w ensures p.workers[v].lastUpdate <= worker.lastUpdate {
        AfterPromote(p, w, worker, w, v);
        assert w in q.workers && v in q.workers && q.workers[v] == p.workers[v];
      }
    } else {
      var u, v :|
        u in q.workers && v in q.workers && v in After(q.order, u) && q.workers[v].lastUpdate > q.workers[u].lastUpdate;
      AfterPromote(p, w, worker, u, v);
      assert u == w && v != w;
    }
  }

  lemma EvictAgrees(p: Pool, w: WorkerId, err: Error, env: Env)
    requires Valid(p) && Agrees(p)
    ensures Agrees(Evict(p, w, err, env).pool)
  {
    EvictKeepsValid(p, w, err, env);
    var q := Evict(p, w, err, env).pool;
    forall u, v | u in q.workers && v in q.workers && v in After(q.order, u) ensures v in After(p.order, u) {
      AfterWithout(p.order, u, w);
      WithoutElements(After(p.order, u), w);
    }
  }

  lemma {:induction false} EvictEachAgrees(p: Pool, ids: seq<WorkerId>, env: Env)
    requires Valid(p) && Agrees(p)
    ensures Agrees(EvictEach(p, ids, env).pool)
    decreases |ids|
  {
    if ids != [] {
      EvictKeepsValid(p, ids[0], TimeoutError(ids[0]), env);
      EvictAgrees(p, ids[0], TimeoutError(ids[0]), env);
      EvictEachAgrees(Evict(p, ids[0], TimeoutError(ids[0]), env).pool, ids[1..], env);
    }
  }

  /** A worker that is moved to the most recent end and evicted in the same call. */
  lemma EvictPromotedAgrees(p: Pool, w: WorkerId, worker: Worker, err: Error, env: Env)
    requires Valid(p) && Agrees(p)
    ensures Agrees(Evict(Promote(p, w, worker), w, err, env).pool)
  {
    var q := Promote(p, w, worker);
    var r := Evict(q, w, err, env).pool;
    forall u, v | u in r.workers && v in r.workers && v in After(r.order, u)
      ensures r.workers[v].lastUpdate <= r.workers[u].lastUpdate
    {
      AfterWithout(q.order, u, w);
      WithoutElements(After(q.order, u), w);
      AfterPromote(p, w, worker, u, v);
    }
  }

  /** Removing workers, one by one or by a scan, keeps the agreement. */
  lemma RemovalsAgree(p: Pool, c: Call)
    requires Valid(p) && Agrees(p) && (c.step.Remove? || c.step.Expire?)
    ensures Agrees(Apply(p, c).pool)
  {
    if c.step.Remove? {
      EvictAgrees(p, c.step.w, Error(Internal, [RemovalRequested]), c.env);
    } else {
      EvictEachAgrees(p, TimedOutTail(p.order, p.workers, WrappingSub(c.step.now, c.step.timeout)), c.env);
    }
  }

  /** The call moves its worker to the most recent end and leaves it in the pool, ... */
  predicate Promotes(p: Pool, step: Step) {
    match step
    case Add(_, _, _, sent) => sent
    case Drain(w, _) => w in p.workers
    case Report(w, op, _) => p.Runs(w, op)
    case Dispatch(w, _, _, sent) => w in p.workers && sent
    case _ => false
  }

  /** ... with this timestamp. */
  function PromotedAt(p: Pool, step: Step): U64
    requires Promotes(p, step)
  {
    if step.Add? then step.timestamp else p.workers[step.w].lastUpdate
  }

  /** The call is a heartbeat that is accepted. */
  predicate Beats(p: Pool, step: Step) {
    step.Beat? && step.w in p.workers && p.workers[step.w].lastUpdate <= step.timestamp
  }

  /** No worker is overtaken that has a later timestamp: neither by one that is moved to the
      most recent end, nor in time by the heartbeat of a less recent one. */
  ghost predicate OvertakesNobody(p: Pool, step: Step) {
    && (Promotes(p, step) ==>
        forall v :: v in p.workers && v != step.w ==> p.workers[v].lastUpdate <= PromotedAt(p, step))
    && (Beats(p, step) ==>
        forall u :: u in p.workers && step.w in After(p.order, u) ==> step.timestamp <= p.workers[u].lastUpdate)
  }

  lemma PromotedPool(p: Pool, c: Call)
    requires Valid(p) && Promotes(p, c.step)
    ensures var q, w := Apply(p, c).pool, c.step.w;
      w in q.workers && q == Promote(p, w, q.workers[w]) && q.workers[w].lastUpdate == PromotedAt(p, c.step)
  {
    if c.step.Report? { UpdateActionCases(p, c.step.w, c.step.op, c.step.update, c.env); }
  }

  lemma PromotionsAgreeExactly(p: Pool, c: Call)
    requires Valid(p) && Agrees(p) && Promotes(p, c.step)
    ensures Agrees(Apply(p, c).pool) <==>
      forall v :: v in p.workers && v != c.step.w ==> p.workers[v].lastUpdate <= PromotedAt(p, c.step)
  {
    PromotedPool(p, c);
    PromoteAgreesExactly(p, c.step.w, Apply(p, c).pool.workers[c.step.w]);
  }

  /** Calls about a worker that is not there, or that is evicted in the same call. */
  lemma NoPromotionAgrees(p: Pool, c: Call)
    requires Valid(p) && Agrees(p) && !Promotes(p, c.step)
    requires c.step.Add? || c.step.Drain? || c.step.Report? || c.step.Dispatch?
    ensures Agrees(Apply(p, c).pool)
  {
    var w := c.step.w;
    match c.step
    case Add(_, props, ts, _) => EvictPromotedAgrees(p, w, NewWorker(props, ts), CONNECTION_ERROR, c.env);
    case Drain(_, _) =>
    case Report(_, op, u) =>
      UpdateActionCases(p, w, op, u, c.env);
      if w in p.workers { EvictPromotedAgrees(p, w, p.workers[w], NotRunningError(op), c.env); }
    case Dispatch(_, op, demand, _) =>
      if w in p.workers { EvictPromotedAgrees(p, w, p.workers[w].Run(op, demand), CommandFailedError(w), c.env); }
  }

  /** An accepted heartbeat keeps the agreement exactly if the new timestamp is not later
      than that of any more recent worker. */
  lemma HeartbeatAgreesExactly(p: Pool, w: WorkerId, timestamp: U64, env: Env)
    requires Valid(p) && Agrees(p) && w in p.workers && p.workers[w].lastUpdate <= timestamp
    ensures Agrees(Refresh(p, w, timestamp, env).pool) <==>
      forall u :: u in p.workers && w in After(p.order, u) ==> timestamp <= p.workers[u].lastUpdate
  {
    var q := Refresh(p, w, timestamp, env).pool;
    AfterElements(p.order, w);
    if !Agrees(q) {
      var u, v :|
        u in q.workers && v in q.workers && v in After(q.order, u) && q.workers[v].lastUpdate > q.workers[u].lastUpdate;
      assert v in After(p.order, u) && p.workers[v].lastUpdate <= p.workers[u].lastUpdate;
      assert v == w && u != w;
    } else {
      forall u | u in p.workers && w in After(p.order, u) ensures timestamp <= p.workers[u].lastUpdate {
        assert w in After(q.order, u) && q.workers[w].lastUpdate == timestamp;
      }
    }
  }

  /** Every call keeps the agreement exactly if it overtakes nobody. */
  lemma AgreementKeptExactly(p: Pool, c: Call)
    requires Valid(p) && Agrees(p)
    ensures Agrees(Apply(p, c).pool) <==> OvertakesNobody(p, c.step)
  {
    if c.step.Remove? || c.step.Expire? {
      RemovalsAgree(p, c);
    } else if c.step.Beat? {
      if Beats(p, c.step) { HeartbeatAgreesExactly(p, c.step.w, c.step.timestamp, c.env); }
    } else if Promotes(p, c.step) {
      PromotionsAgreeExactly(p, c);
    } else {
      NoPromotionAgrees(p, c);
    }
  }

  ghost predicate NeverOvertakes(p: Pool, calls: seq<Call>)
    decreases |calls|
  {
    calls != [] ==> OvertakesNobody(p, calls[0].step) && NeverOvertakes(Apply(p, calls[0]).pool, calls[1..])
  }

  lemma {:induction false} RunKeepsAgreement(p: Pool, calls: seq<Call>)
    requires Valid(p) && Agrees(p) && IsRun(p, calls) && NeverOvertakes(p, calls)
    ensures Agrees(Exec(p, calls).pool)
    decreases |calls|
  {
    if calls != [] {
      ApplyKeepsValid(p, calls[0]);
      AgreementKeptExactly(p, calls[0]);
      RunKeepsAgreement(Apply(p, calls[0]).pool, calls[1..]);
    }
  }

  /** In a run from the empty pool in which nobody is overtaken, every scan past the timeout
      evicts exactly the workers that have been silent for that long. */
  lemma OrderlyRunsScanCompletely(calls: seq<Call>, now: U64, timeout: U64, env: Env)
    requires IsRun(EMPTY, calls) && NeverOvertakes(EMPTY, calls) && timeout <= now
    ensures ScanIsComplete(Exec(EMPTY, calls).pool, now, timeout, env)
  {
    ReachableIsValid(EMPTY, calls);
    RunKeepsAgreement(EMPTY, calls);
    AgreementIsEnough(Exec(EMPTY, calls).pool, now, timeout, env);
  }

  /** Two workers that joined at time 0; the less recent one sent a heartbeat at 100. */
  function BeatenPair(props: Properties): Pool {
    Pool([2, 1], map[1 := NewWorker(props, 100), 2 := NewWorker(props, 0)])
  }

  lemma BeatenPairIsReachable(props: Properties, env: Env) returns (calls: seq<Call>)
    requires forall w :: env.listing(w) == []
    ensures IsRun(EMPTY, calls) && Exec(EMPTY, calls).pool == BeatenPair(props)
  {
    var c1, c2, c3 := Call(Add(1, props, 0, true), env), Call(Add(2, props, 0, true), env), Call(Beat(1, 100), env);
    var w := NewWorker(props, 0);
    var p1, p2 := Pool([1], map[1 := w]), Pool([2, 1], map[1 := w, 2 := w]);
    assert Apply(EMPTY, c1).pool == p1;
    assert Without([1], 2) == [1] && [2] + [1] == [2, 1];
    assert Apply(p1, c2).pool == p2;
    assert Apply(p2, c3).pool == BeatenPair(props);
    RunCons(p2, c3, []);
    RunCons(p1, c2, [c3] + []);
    RunCons(EMPTY, c1, [c2] + ([c3] + []));
    calls := [c1] + ([c2] + ([c3] + []));
  }

  /** So the order that the scan relies on is lost in a reachable pool: two workers join, the
      less recent one sends a heartbeat, and the next scan spares the other one although it
      has been silent for the whole timeout. */
  lemma SilentWorkerSurvives(props: Properties, env: Env) returns (calls: seq<Call>, spared: WorkerId)
    requires forall w :: env.listing(w) == []
    ensures IsRun(EMPTY, calls)
    ensures var p := Exec(EMPTY, calls).pool;
      Unheard(p, spared, 100, 60) && spared in RemoveTimedOut(p, 100, 60, env).pool.workers
  {
    calls := BeatenPairIsReachable(props, env);
    spared := 2;
    var p := BeatenPair(props);
    assert TimedOutTail(p.order, p.workers, 40) == [];
    assert EvictEach(p, [], env).pool == p;
  }
}

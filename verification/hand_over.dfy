/** What may happen between finding a worker for an operation and handing the operation over,
    when the lock is free: the worker may leave, and it may be closed to work. The hand-over
    does not look again, so it starts the operation exactly if the worker has not left, and on
    a worker that is open exactly under a condition on the calls in between. */
module HandOvers {
  import opened Errors
  import opened PlatformProps
  import opened Sequences
  import opened WorkerPool
  import opened PoolInvariant
  import opened PoolWorkers
  import opened PoolAccounting
  import opened Matching

  // ---------------------------------------------------------------- one call

  /** The call takes the worker out of the pool. */
  predicate Evicts(p: Pool, c: Call, v: WorkerId) {
    match c.step
    case Add(w, _, _, sent) => w == v && !sent
    case Report(w, op, _) => w == v && !p.Runs(v, op)
    case Dispatch(w, _, _, sent) => w == v && !sent
    case Remove(w) => w == v
    case Expire(now, timeout) => v in TimedOutTail(p.order, p.workers, WrappingSub(now, timeout))
    case _ => false
  }

  lemma ReportLeavesExactly(p: Pool, c: Call, v: WorkerId)
    requires v in p.workers && c.step.Report?
    ensures v !in Apply(p, c).pool.workers <==> Evicts(p, c, v)
  {
    UpdateActionCases(p, c.step.w, c.step.op, c.step.update, c.env);
    if c.step.w in p.workers {
      EvictRemoves(Promote(p, c.step.w, p.workers[c.step.w]), c.step.w, NotRunningError(c.step.op), c.env);
    }
  }

  lemma HandOverLeavesExactly(p: Pool, c: Call, v: WorkerId)
    requires v in p.workers && (c.step.Add? || c.step.Dispatch?)
    ensures v !in Apply(p, c).pool.workers <==> Evicts(p, c, v)
  {
    var w := c.step.w;
    if c.step.Add? {
      EvictRemoves(Promote(p, w, NewWorker(c.step.props, c.step.timestamp)), w, CONNECTION_ERROR, c.env);
    } else if w in p.workers {
      EvictRemoves(Promote(p, w, p.workers[w].Run(c.step.op, c.step.demand)), w, CommandFailedError(w), c.env);
    }
  }

  lemma LeavesExactly(p: Pool, c: Call, v: WorkerId)
    requires Valid(p) && v in p.workers
    ensures v !in Apply(p, c).pool.workers <==> Evicts(p, c, v)
  {
    if c.step.Report? {
      ReportLeavesExactly(p, c, v);
    } else if c.step.Add? || c.step.Dispatch? {
      HandOverLeavesExactly(p, c, v);
    } else if c.step.Expire? {
      var ids := TimedOutTail(p.order, p.workers, WrappingSub(c.step.now, c.step.timeout));
      EvictEachKeepsValid(p, ids, c.env);
    } else if c.step.Remove? {
      EvictRemoves(p, c.step.w, Error(Internal, [RemovalRequested]), c.env);
    }
  }

  /** The call is a final report about an operation of the worker, and is accepted. */
  predicate Finishes(p: Pool, c: Call, v: WorkerId) {
    && c.step.Report? && c.step.w == v && p.Runs(v, c.step.op)
    && IsLast(c.step.update) && c.env.answer(v, c.step.op).Ok?
  }

  predicate LastOne(p: Pool, c: Call, v: WorkerId)
    requires Finishes(p, c, v)
  {
    p.workers[v].running - {c.step.op} == map[]
  }

  /** The call closes an open worker: draining is switched on, or the worker reports
      backpressure and has work left. */
  predicate Closes(p: Pool, c: Call, v: WorkerId) {
    || c.step == Drain(v, true)
    || (Finishes(p, c, v) && IsExhausted(c.step.update) && !LastOne(p, c, v))
  }

  /** The call opens a closed worker: draining is switched off and it is not paused, or it
      finishes its last operation and is not draining. */
  predicate Opens(p: Pool, c: Call, v: WorkerId)
    requires v in p.workers
  {
    || (c.step == Drain(v, false) && !p.workers[v].paused)
    || (Finishes(p, c, v) && LastOne(p, c, v) && !p.workers[v].draining)
  }

  /** Whether a worker accepts work after a call that gives it none and leaves it there. */
  lemma AcceptsExactly(p: Pool, c: Call, v: WorkerId)
    requires Valid(p) && Enabled(p, c) && Survives(p, c, v) && !c.step.Dispatch?
    ensures Apply(p, c).pool.workers[v].CanAcceptWork() <==>
      if p.workers[v].CanAcceptWork() then !Closes(p, c, v) else Opens(p, c, v)
  {
    SurvivorIsChanged(p, c, v);
  }

  /** An open worker that reports an error about one of its operations stays open exactly if
      the error is not that its resources are exhausted, or if it has nothing else to do. */
  lemma ExhaustedWorkerIsClosed(p: Pool, c: Call, e: Error)
    requires Valid(p) && Enabled(p, c) && c.step.Report? && c.step.update == WithError(e)
    requires p.Runs(c.step.w, c.step.op) && c.env.answer(c.step.w, c.step.op).Ok?
    requires p.workers[c.step.w].CanAcceptWork()
    ensures var v, q := c.step.w, Apply(p, c).pool;
      v in q.workers &&
      (q.workers[v].CanAcceptWork() <==>
        e.code != ResourceExhausted || p.workers[v].running.Keys == {c.step.op})
  {
    var v := c.step.w;
    LeavesExactly(p, c, v);
    AcceptsExactly(p, c, v);
    var running := p.workers[v].running;
    assert running - {c.step.op} == map[] <==> running.Keys == {c.step.op} by {
      assert (running - {c.step.op}).Keys == running.Keys - {c.step.op};
      assert c.step.op in running.Keys;
      if running.Keys - {c.step.op} == {} { assert running.Keys == {c.step.op}; }
    }
  }

  // ----------------------------------------------------- the calls in between

  /** The calls that others may make while a match with `v` is pending. */
  ghost predicate Between(calls: seq<Call>, v: WorkerId) {
    forall i :: 0 <= i < |calls| ==> !calls[i].step.Dispatch? && !(calls[i].step.Add? && calls[i].step.w == v)
  }

  ghost predicate NeverEvicts(p: Pool, calls: seq<Call>, v: WorkerId)
    decreases |calls|
  {
    calls != [] ==> !Evicts(p, calls[0], v) && NeverEvicts(Apply(p, calls[0]).pool, calls[1..], v)
  }

  /** Whether `v` is open after the calls, if it was or was not before. */
  ghost predicate OpenAfter(p: Pool, calls: seq<Call>, v: WorkerId, open: bool)
    decreases |calls|
  {
    if calls == [] then open else
      var next := if open then !Closes(p, calls[0], v) else v in p.workers && Opens(p, calls[0], v);
      OpenAfter(Apply(p, calls[0]).pool, calls[1..], v, next)
  }

  ghost predicate NeverCloses(p: Pool, calls: seq<Call>, v: WorkerId)
    decreases |calls|
  {
    calls != [] ==> !Closes(p, calls[0], v) && NeverCloses(Apply(p, calls[0]).pool, calls[1..], v)
  }

  lemma {:induction false} GoneStaysGone(p: Pool, calls: seq<Call>, v: WorkerId)
    requires Valid(p) && IsRun(p, calls) && Between(calls, v) && v !in p.workers
    ensures v !in Exec(p, calls).pool.workers
    decreases |calls|
  {
    if calls != [] {
      ApplyKeepsValid(p, calls[0]);
      NobodyElseJoins(p, calls[0], v);
      assert Between(calls[1..], v);
      GoneStaysGone(Apply(p, calls[0]).pool, calls[1..], v);
    }
  }

  /** The worker is still there exactly if no call evicted it. */
  lemma {:induction false} StillThereExactly(p: Pool, calls: seq<Call>, v: WorkerId)
    requires Valid(p) && IsRun(p, calls) && Between(calls, v) && v in p.workers
    ensures v in Exec(p, calls).pool.workers <==> NeverEvicts(p, calls, v)
    decreases |calls|
  {
    if calls != [] {
      ApplyKeepsValid(p, calls[0]);
      LeavesExactly(p, calls[0], v);
      assert Between(calls[1..], v);
      if Evicts(p, calls[0], v) {
        GoneStaysGone(Apply(p, calls[0]).pool, calls[1..], v);
      } else {
        StillThereExactly(Apply(p, calls[0]).pool, calls[1..], v);
      }
    }
  }

  lemma {:induction false} StillOpenExactly(p: Pool, calls: seq<Call>, v: WorkerId)
    requires Valid(p) && IsRun(p, calls) && Between(calls, v) && v in p.workers && NeverEvicts(p, calls, v)
    ensures v in Exec(p, calls).pool.workers
    ensures Exec(p, calls).pool.workers[v].CanAcceptWork() <==>
      OpenAfter(p, calls, v, p.workers[v].CanAcceptWork())
    decreases |calls|
  {
    if calls != [] {
      ApplyKeepsValid(p, calls[0]);
      LeavesExactly(p, calls[0], v);
      AcceptsExactly(p, calls[0], v);
      assert Between(calls[1..], v);
      StillOpenExactly(Apply(p, calls[0]).pool, calls[1..], v);
    }
  }

  lemma {:induction false} NeverClosedIsOpen(p: Pool, calls: seq<Call>, v: WorkerId)
    requires NeverCloses(p, calls, v)
    ensures OpenAfter(p, calls, v, true)
    decreases |calls|
  {
    if calls != [] { NeverClosedIsOpen(Apply(p, calls[0]).pool, calls[1..], v); }
  }

  /** Calls that give `v` nothing report nothing about an operation that it does not have. */
  lemma {:induction false} NothingIsReported(p: Pool, calls: seq<Call>, v: WorkerId, op: OperationId)
    requires Valid(p) && IsRun(p, calls) && Between(calls, v) && !p.Runs(v, op)
    ensures Finals(Exec(p, calls).events, v, op) == 0 && !Exec(p, calls).pool.Runs(v, op)
    decreases |calls|
  {
    if calls != [] {
      var first := Apply(p, calls[0]);
      ApplyKeepsValid(p, calls[0]);
      EveryCallAccounts(p, calls[0], v, op);
      OthersStartNothing(p, calls[0], v, op);
      assert Between(calls[1..], v);
      NothingIsReported(first.pool, calls[1..], v, op);
      FinalsAppend(first.events, Exec(first.pool, calls[1..]).events, v, op);
    }
  }

  // --------------------------------------------------------------- the plays

  function Others(calls: seq<Call>): seq<Move>
    decreases |calls|
  {
    if calls == [] then [] else [Other(calls[0])] + Others(calls[1..])
  }

  /** Moves of others leave the match pending and change the pool as the calls do. */
  lemma {:induction false} OthersPlay(s: Engine, strategy: Strategy, calls: seq<Call>, rest: seq<Move>)
    requires s.pending.Some? && IsPlay(s, strategy, Others(calls) + rest)
    ensures var t := Engine(Exec(s.pool, calls).pool, s.pending);
      && IsRun(s.pool, calls) && Between(calls, s.pending.value.worker)
      && IsPlay(t, strategy, rest) && Play(s, strategy, Others(calls) + rest) == Play(t, strategy, rest)
    decreases |calls|
  {
    if calls == [] {
      assert Others(calls) + rest == rest;
    } else {
      var next := Do(s, strategy, Other(calls[0]));
      assert Others(calls) + rest == [Other(calls[0])] + (Others(calls[1..]) + rest);
      assert (Others(calls) + rest)[1..] == Others(calls[1..]) + rest;
      OthersPlay(next, strategy, calls[1..], rest);
      var v := s.pending.value.worker;
      forall i | 0 <= i < |calls|
        ensures !calls[i].step.Dispatch? && !(calls[i].step.Add? && calls[i].step.w == v)
      {
        if i > 0 { assert calls[i] == calls[1..][i - 1]; }
      }
    }
  }

  /** An operation is looked for, others make calls, and the operation is handed over. */
  function Dispatching(op: OperationId, demand: Properties, calls: seq<Call>, sent: bool, env: Env): seq<Move> {
    [Look(op, demand)] + (Others(calls) + [Hand(sent, env)])
  }

  lemma DispatchingPlay(s: Engine, strategy: Strategy, op: OperationId, demand: Properties,
                        calls: seq<Call>, sent: bool, env: Env)
    requires Find(s.pool, strategy, demand).Some?
    requires IsPlay(s, strategy, Dispatching(op, demand, calls, sent, env))
    ensures var v, p := Find(s.pool, strategy, demand).value, Exec(s.pool, calls).pool;
      var c := HandOver(Match(v, op, demand), sent, env);
      && IsRun(s.pool, calls) && Between(calls, v) && Allowed(Engine(p, Some(Match(v, op, demand))), Hand(sent, env))
      && Play(s, strategy, Dispatching(op, demand, calls, sent, env)) == Engine(Apply(p, c).pool, None)
  {
    var looked := Do(s, strategy, Look(op, demand));
    var moves := Dispatching(op, demand, calls, sent, env);
    assert moves[1..] == Others(calls) + [Hand(sent, env)];
    OthersPlay(looked, strategy, calls, [Hand(sent, env)]);
    assert [Hand(sent, env)][1..] == [];
  }

  lemma {:induction false} PromiseIsKept(s: Engine, strategy: Strategy, calls: seq<Call>, rest: seq<Move>)
    requires Promise(s) && s.pending.Some? && IsPlay(s, strategy, Others(calls) + rest)
    ensures Promise(Engine(Exec(s.pool, calls).pool, s.pending))
    decreases |calls|
  {
    if calls != [] {
      assert Others(calls) + rest == [Other(calls[0])] + (Others(calls[1..]) + rest);
      assert (Others(calls) + rest)[1..] == Others(calls[1..]) + rest;
      MatcherMovesSafely(s, strategy, Other(calls[0]));
      PromiseIsKept(Do(s, strategy, Other(calls[0])), strategy, calls[1..], rest);
    }
  }

  lemma HandOverIsEnabled(s: Engine, strategy: Strategy, op: OperationId, demand: Properties,
                          calls: seq<Call>, sent: bool, env: Env)
    requires Promise(s) && Find(s.pool, strategy, demand).Some?
    requires IsPlay(s, strategy, Dispatching(op, demand, calls, sent, env))
    ensures var v, p := Find(s.pool, strategy, demand).value, Exec(s.pool, calls).pool;
      Enabled(p, HandOver(Match(v, op, demand), sent, env))
  {
    var looked := Do(s, strategy, Look(op, demand));
    var moves := Dispatching(op, demand, calls, sent, env);
    assert moves[1..] == Others(calls) + [Hand(sent, env)];
    MatcherMovesSafely(s, strategy, Look(op, demand));
    OthersPlay(looked, strategy, calls, [Hand(sent, env)]);
    PromiseIsKept(looked, strategy, calls, [Hand(sent, env)]);
    MatcherMovesSafely(Engine(Exec(s.pool, calls).pool, looked.pending), strategy, Hand(sent, env));
  }

  /** The whole dispatch. The operation is started exactly if no call in between evicted the
      worker that was found; then it runs there, or the hand-over itself reports it exactly
      once. Otherwise the hand-over succeeds without any effect, and the operation is neither
      started nor handed back. */
  lemma StartedExactly(s: Engine, strategy: Strategy, op: OperationId, demand: Properties,
                       calls: seq<Call>, sent: bool, env: Env)
    requires Promise(s) && Find(s.pool, strategy, demand).Some?
    requires IsPlay(s, strategy, Dispatching(op, demand, calls, sent, env))
    ensures var v, p := Find(s.pool, strategy, demand).value, Exec(s.pool, calls).pool;
      var o := Apply(p, HandOver(Match(v, op, demand), sent, env));
      && (Started(v, op) in o.events <==> NeverEvicts(s.pool, calls, v))
      && (NeverEvicts(s.pool, calls, v) ==> o.pool.Runs(v, op) || Finals(o.events, v, op) == 1)
      && (!NeverEvicts(s.pool, calls, v) ==> o == Outcome(p, [], Ok))
      && (!NeverEvicts(s.pool, calls, v) && !s.pool.Runs(v, op) ==>
            !o.pool.Runs(v, op) && Finals(Exec(s.pool, calls).events + o.events, v, op) == 0)
  {
    var v, p := Find(s.pool, strategy, demand).value, Exec(s.pool, calls).pool;
    var c := HandOver(Match(v, op, demand), sent, env);
    FindIsExtreme(s.pool, strategy, demand);
    DispatchingPlay(s, strategy, op, demand, calls, sent, env);
    StillThereExactly(s.pool, calls, v);
    if NeverEvicts(s.pool, calls, v) {
      HandOverIsEnabled(s, strategy, op, demand, calls, sent, env);
      ReachableIsValid(s.pool, calls);
      EveryCallAccounts(p, c, v, op);
      assert Apply(p, c).events[0] == Started(v, op);
    } else {
      var events := Exec(s.pool, calls).events;
      assert events + [] == events;
      if !s.pool.Runs(v, op) { NothingIsReported(s.pool, calls, v, op); }
    }
  }

  /** The worker that is handed the operation satisfies it, and it accepts work at that moment
      exactly if every call in between that closed it was followed by one that opened it. */
  lemma HandedToAnOpenWorkerExactly(s: Engine, strategy: Strategy, op: OperationId, demand: Properties,
                                    calls: seq<Call>, sent: bool, env: Env)
    requires Promise(s) && Find(s.pool, strategy, demand).Some?
    requires IsPlay(s, strategy, Dispatching(op, demand, calls, sent, env))
    requires NeverEvicts(s.pool, calls, Find(s.pool, strategy, demand).value)
    ensures var v, p := Find(s.pool, strategy, demand).value, Exec(s.pool, calls).pool;
      && v in p.workers && Satisfies(p.workers[v].props, demand)
      && (p.workers[v].CanAcceptWork() <==> OpenAfter(s.pool, calls, v, true))
      && (NeverCloses(s.pool, calls, v) ==> p.workers[v].CanAcceptWork())
  {
    var v := Find(s.pool, strategy, demand).value;
    FindIsExtreme(s.pool, strategy, demand);
    DispatchingPlay(s, strategy, op, demand, calls, sent, env);
    HandOverIsEnabled(s, strategy, op, demand, calls, sent, env);
    StillOpenExactly(s.pool, calls, v);
    if NeverCloses(s.pool, calls, v) { NeverClosedIsOpen(s.pool, calls, v); }
  }

  // ------------------------------------------------------------ the witnesses

  /** The pool of two idle workers is what two workers that join make of the empty pool. */
  lemma PairIsReachable() returns (calls: seq<Call>)
    ensures IsRun(EMPTY, calls) && Exec(EMPTY, calls).pool == PAIR.pool
  {
    var first, second := Join(2, map[]), Join(1, map[]);
    var one := Alone(2, NewWorker(map[], 0));
    JoinsAlone(2, map[]);
    assert Without([2], 1) == [2] by { assert [2][1..] == []; }
    assert [1] + [2] == [1, 2];
    assert Apply(one, second).pool == PAIR.pool;
    RunCons(one, second, []);
    RunCons(EMPTY, first, [second] + []);
    calls := [first] + ([second] + []);
  }

  function IdleEnv(): Env { Env(w => [], (w, o) => Ok) }

  /** The pair after draining of worker 1 has been switched on, and after its removal. */
  const DRAINING := Pool([1, 2], map[1 := NewWorker(map[], 0).(draining := true), 2 := NewWorker(map[], 0)])
  const LEFT := Pool([2], map[2 := NewWorker(map[], 0)])

  lemma DrainedPair()
    ensures var c := Call(Drain(1, true), IdleEnv());
      Enabled(PAIR.pool, c) && Apply(PAIR.pool, c).pool == DRAINING && Closes(PAIR.pool, c, 1)
  {
    assert Without([1, 2], 1) == [2] by { assert [1, 2][1..] == [2] && [2][1..] == []; }
    assert PAIR.pool.workers[1 := NewWorker(map[], 0).(draining := true)] == DRAINING.workers;
  }

  lemma LeftPair()
    ensures var c := Call(Remove(1), IdleEnv());
      Enabled(PAIR.pool, c) && Apply(PAIR.pool, c).pool == LEFT && Evicts(PAIR.pool, c, 1)
  {
    assert Without([1, 2], 1) == [2] by { assert [1, 2][1..] == [2] && [2][1..] == []; }
    assert PAIR.pool.workers - {1} == LEFT.workers;
  }

  lemma OneCallBetween(op: OperationId, c: Call, env: Env)
    requires !c.step.Dispatch? && !c.step.Add? && Enabled(PAIR.pool, c)
    requires Fits(Iterated(Apply(PAIR.pool, c).pool, Dispatch(1, op, map[], true)), env)
    ensures IsPlay(PAIR, MostRecentlyUsed, Dispatching(op, map[], [c], true, env))
    ensures Find(PAIR.pool, MostRecentlyUsed, map[]) == Some(1) && Exec(PAIR.pool, [c]).pool == Apply(PAIR.pool, c).pool
  {
    FrontIsDispatched(op);
    var looked := Do(PAIR, MostRecentlyUsed, Look(op, map[]));
    var hand := Hand(true, env);
    assert [c][1..] == [] && Others([c]) == [Other(c)] + Others([]) == [Other(c)];
    assert Others([c]) + [hand] == [Other(c)] + ([hand] + []);
    PlayCons(Do(looked, MostRecentlyUsed, Other(c)), MostRecentlyUsed, hand, [], 2);
    PlayCons(looked, MostRecentlyUsed, Other(c), [hand] + [], 2);
    PlayCons(PAIR, MostRecentlyUsed, Look(op, map[]), [Other(c)] + ([hand] + []), 2);
  }

  /** A play that starts an operation on a worker that is draining. */
  lemma StartedOnADrainingWorker(op: OperationId) returns (c: Call, env: Env)
    ensures IsPlay(PAIR, MostRecentlyUsed, Dispatching(op, map[], [c], true, env))
    ensures Find(PAIR.pool, MostRecentlyUsed, map[]) == Some(1)
    ensures var p := Exec(PAIR.pool, [c]).pool;
      var o := Apply(p, HandOver(Match(1, op, map[]), true, env));
      && 1 in p.workers && p.workers[1].draining && Started(1, op) in o.events && o.pool.Runs(1, op)
  {
    c, env := Call(Drain(1, true), IdleEnv()), PairEnv(op);
    DrainedPair();
    OneCallBetween(op, c, env);
    assert Apply(DRAINING, HandOver(Match(1, op, map[]), true, env)).events[0] == Started(1, op);
  }

  lemma LeavingReportsNothing(op: OperationId, c: Call)
    requires c.step == Remove(1) && Enabled(PAIR.pool, c)
    ensures Finals(Exec(PAIR.pool, [c]).events, 1, op) == 0
  {
    var joins := PairIsReachable();
    ReachableIsValid(EMPTY, joins);
    assert [c][1..] == [];
    NothingIsReported(PAIR.pool, [c], 1, op);
  }

  /** A play in which the worker leaves, and the operation is neither started nor handed back. */
  lemma AssignedAndLost(op: OperationId) returns (c: Call, env: Env)
    ensures IsPlay(PAIR, MostRecentlyUsed, Dispatching(op, map[], [c], true, env))
    ensures Find(PAIR.pool, MostRecentlyUsed, map[]) == Some(1)
    ensures var p := Exec(PAIR.pool, [c]).pool;
      && Apply(p, HandOver(Match(1, op, map[]), true, env)) == Outcome(p, [], Ok)
      && Finals(Exec(PAIR.pool, [c]).events, 1, op) == 0
  {
    c, env := Call(Remove(1), IdleEnv()), IdleEnv();
    LeftPair();
    OneCallBetween(op, c, env);
    LeavingReportsNothing(op, c);
  }
}

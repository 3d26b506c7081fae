/** Every operation given to a worker is accounted for: it leaves the worker with exactly one
    final report to the state manager, and each start is finally accepted at most once. */
module PoolAccounting {
  import opened Errors
  import opened PlatformProps
  import opened Sequences
  import opened WorkerPool
  import opened PoolInvariant
  import opened PoolWorkers

  predicate IsFinal(e: Event, w: WorkerId, op: OperationId) {
    e.Updated? && e.worker == w && e.op == op && e.update.Terminal()
  }

  predicate IsAccepted(e: Event, w: WorkerId, op: OperationId) {
    IsFinal(e, w, op) && e.accepted
  }

  /** How many final reports about `op` on `w` were made. */
  function Finals(events: seq<Event>, w: WorkerId, op: OperationId): nat {
    if events == [] then 0 else (if IsFinal(events[0], w, op) then 1 else 0) + Finals(events[1..], w, op)
  }

  lemma {:induction false} FinalsAppend(a: seq<Event>, b: seq<Event>, w: WorkerId, op: OperationId)
    ensures Finals(a + b, w, op) == Finals(a, w, op) + Finals(b, w, op)
    decreases |a|
  {
    if a == [] {
      assert a + b == b;
    } else {
      assert (a + b)[1..] == a[1..] + b;
      FinalsAppend(a[1..], b, w, op);
    }
  }

  /** Follows one operation on one worker through a trace: `open` is whether a start has not
      been finally accepted yet, `None` that something was accepted that was not open. */
  function Track(open: bool, events: seq<Event>, w: WorkerId, op: OperationId): Option<bool>
    decreases |events|
  {
    if events == [] then Some(open)
    else if events[0] == Started(w, op) then Track(true, events[1..], w, op)
    else if IsAccepted(events[0], w, op) then if open then Track(false, events[1..], w, op) else None
    else Track(open, events[1..], w, op)
  }

  lemma {:induction false} TrackAppend(open: bool, a: seq<Event>, b: seq<Event>, w: WorkerId, op: OperationId)
    requires Track(open, a, w, op).Some?
    ensures Track(open, a + b, w, op) == Track(Track(open, a, w, op).value, b, w, op)
    decreases |a|
  {
    if a == [] {
      assert a + b == b;
    } else {
      assert (a + b)[1..] == a[1..] + b;
      var next := if a[0] == Started(w, op) then true else if IsAccepted(a[0], w, op) then false else open;
      TrackAppend(next, a[1..], b, w, op);
    }
  }

  /** Handing back the operations of `v`: one final report each, and none for another. */
  lemma {:induction false} HandBacksAccount(v: WorkerId, err: Error, ops: seq<OperationId>, env: Env,
                                            open: bool, w: WorkerId, op: OperationId)
    requires NoDup(ops) && (v == w && op in ops ==> open)
    ensures Finals(HandBacks(v, err, ops, env), w, op) == if v == w && op in ops then 1 else 0
    ensures Track(open, HandBacks(v, err, ops, env), w, op).Some?
    ensures !(v == w && op in ops) ==> Track(open, HandBacks(v, err, ops, env), w, op) == Some(open)
    decreases |ops|
  {
    if ops != [] {
      var events := HandBacks(v, err, ops, env);
      NoDupTail(ops);
      assert events[1..] == HandBacks(v, err, ops[1..], env);
      var next := if IsAccepted(events[0], w, op) then false else open;
      HandBacksAccount(v, err, ops[1..], env, next, w, op);
      assert ops == [ops[0]] + ops[1..];
    }
  }

  /** The worker had the operation at some moment of a call that ends in `o`. */
  predicate Had(before: bool, o: Outcome, w: WorkerId, op: OperationId) {
    before || Started(w, op) in o.events
  }

  predicate Accepts(events: seq<Event>, w: WorkerId, op: OperationId) {
    exists i :: 0 <= i < |events| && IsAccepted(events[i], w, op)
  }

  /** What a call that ends in `o` owes for an operation that was running, or not, before. It
      leaves with exactly one final report, and only together with its worker or because the
      report was accepted; if it stays, nothing was accepted; if it was never there, nothing
      is reported. */
  ghost predicate Accounts(before: bool, o: Outcome, w: WorkerId, op: OperationId) {
    if !Had(before, o, w, op) then !o.pool.Runs(w, op) && Finals(o.events, w, op) == 0
    else if o.pool.Runs(w, op) then !Accepts(o.events, w, op)
    else Finals(o.events, w, op) == 1 && (w !in o.pool.workers || Accepts(o.events, w, op))
  }

  /** A start that is running is open, and whatever the trace accepts was open. */
  ghost predicate Tracks(before: bool, o: Outcome, w: WorkerId, op: OperationId) {
    forall open: bool {:trigger Track(open, o.events, w, op)} :: (before ==> open) ==>
      Track(open, o.events, w, op).Some? && (o.pool.Runs(w, op) ==> Track(open, o.events, w, op).value)
  }

  lemma EvictTracks(p: Pool, v: WorkerId, err: Error, env: Env, w: WorkerId, op: OperationId)
    requires Fits(p, env)
    ensures Tracks(p.Runs(w, op), Evict(p, v, err, env), w, op)
  {
    var o := Evict(p, v, err, env);
    forall open: bool | p.Runs(w, op) ==> open
      ensures Track(open, o.events, w, op).Some? && (o.pool.Runs(w, op) ==> Track(open, o.events, w, op).value)
    {
      assert Track(open, [Notified], w, op) == Some(open);
      if v in p.workers {
        var backs := HandBacks(v, err, env.listing(v), env);
        HandBacksAccount(v, err, env.listing(v), env, open, w, op);
        TrackAppend(open, [Notified], backs, w, op);
        TrackAppend(open, [Notified] + backs, [Notified], w, op);
      } else {
        assert [Notified, Notified] == [Notified] + [Notified];
        TrackAppend(open, [Notified], [Notified], w, op);
      }
    }
  }

  /** Evictions report an operation exactly if they remove its worker. */
  ghost predicate Settles(before: bool, o: Outcome, w: WorkerId, op: OperationId) {
    && (o.pool.Runs(w, op) <==> before && w in o.pool.workers)
    && Finals(o.events, w, op) == (if before && !o.pool.Runs(w, op) then 1 else 0)
    && Started(w, op) !in o.events
  }

  lemma {:induction false} NoFinalsNoneAccepted(events: seq<Event>, w: WorkerId, op: OperationId)
    requires Finals(events, w, op) == 0
    ensures !Accepts(events, w, op)
  {
    if events != [] {
      NoFinalsNoneAccepted(events[1..], w, op);
      forall i | 0 < i < |events| ensures !IsAccepted(events[i], w, op) { assert events[i] == events[1..][i - 1]; }
    }
  }

  lemma EvictSettles(p: Pool, v: WorkerId, err: Error, env: Env, w: WorkerId, op: OperationId)
    requires Fits(p, env)
    ensures Settles(p.Runs(w, op), Evict(p, v, err, env), w, op)
  {
    if v in p.workers {
      var backs := HandBacks(v, err, env.listing(v), env);
      HandBacksAccount(v, err, env.listing(v), env, true, w, op);
      FinalsAppend([Notified], backs, w, op);
      FinalsAppend([Notified] + backs, [Notified], w, op);
    } else {
      FinalsAppend([Notified], [Notified], w, op);
      assert [Notified, Notified] == [Notified] + [Notified];
    }
  }

  lemma {:induction false} EvictEachAddsNobody(p: Pool, ids: seq<WorkerId>, env: Env)
    ensures EvictEach(p, ids, env).pool.workers.Keys <= p.workers.Keys
    decreases |ids|
  {
    if ids != [] { EvictEachAddsNobody(Evict(p, ids[0], TimeoutError(ids[0]), env).pool, ids[1..], env); }
  }

  lemma ThenTracks(before: bool, a: Outcome, b: Outcome, w: WorkerId, op: OperationId)
    requires Tracks(before, a, w, op) && Tracks(a.pool.Runs(w, op), b, w, op)
    ensures forall r :: Tracks(before, Outcome(b.pool, a.events + b.events, r), w, op)
  {
    forall open: bool | before ==> open
      ensures Track(open, a.events + b.events, w, op).Some?
      ensures b.pool.Runs(w, op) ==> Track(open, a.events + b.events, w, op).value
    {
      TrackAppend(open, a.events, b.events, w, op);
    }
  }

  lemma {:induction false} EvictEachAccounts(p: Pool, ids: seq<WorkerId>, env: Env, w: WorkerId, op: OperationId)
    requires Fits(p, env)
    ensures Settles(p.Runs(w, op), EvictEach(p, ids, env), w, op)
    ensures Tracks(p.Runs(w, op), EvictEach(p, ids, env), w, op)
    decreases |ids|
  {
    if ids != [] {
      var err := TimeoutError(ids[0]);
      var first := Evict(p, ids[0], err, env);
      EvictSettles(p, ids[0], err, env, w, op);
      EvictTracks(p, ids[0], err, env, w, op);
      assert Fits(first.pool, env);
      EvictEachAccounts(first.pool, ids[1..], env, w, op);
      EvictEachAddsNobody(first.pool, ids[1..], env);
      ThenTracks(p.Runs(w, op), first, EvictEach(first.pool, ids[1..], env), w, op);
      FinalsAppend(first.events, EvictEach(first.pool, ids[1..], env).events, w, op);
    }
  }

  /** The call replaces the worker `w` while it runs `op`, which happens only if an id that
      is still in the pool is added again. */
  predicate Replaces(p: Pool, c: Call, w: WorkerId, op: OperationId) {
    c.step.Add? && c.step.w == w && p.Runs(w, op)
  }

  lemma NoneAcceptedWhenSettled(before: bool, o: Outcome, w: WorkerId, op: OperationId)
    requires Settles(before, o, w, op)
    ensures Accounts(before, o, w, op)
  {
    if before && o.pool.Runs(w, op) { NoFinalsNoneAccepted(o.events, w, op); }
  }

  lemma AddAccounts(p: Pool, c: Call, w: WorkerId, op: OperationId)
    requires c.step.Add? && Enabled(p, c) && !Replaces(p, c, w, op)
    ensures Accounts(p.Runs(w, op), Apply(p, c), w, op) && Tracks(p.Runs(w, op), Apply(p, c), w, op)
  {
    var v := c.step.w;
    var q := Promote(p, v, NewWorker(c.step.props, c.step.timestamp));
    var a := Outcome(q, [Notified], Ok);
    assert q.Runs(w, op) <==> p.Runs(w, op);
    assert forall open: bool :: Track(open, [Notified], w, op) == Some(open);
    assert Tracks(p.Runs(w, op), a, w, op);
    EvictSettles(q, v, CONNECTION_ERROR, c.env, w, op);
    EvictTracks(q, v, CONNECTION_ERROR, c.env, w, op);
    ThenTracks(p.Runs(w, op), a, Evict(q, v, CONNECTION_ERROR, c.env), w, op);
    FinalsAppend([Notified], Evict(q, v, CONNECTION_ERROR, c.env).events, w, op);
    assert Finals([Notified], w, op) == 0;
    NoneAcceptedWhenSettled(p.Runs(w, op), Apply(p, c), w, op);
  }

  lemma DispatchAccounts(p: Pool, c: Call, w: WorkerId, op: OperationId)
    requires c.step.Dispatch? && Enabled(p, c)
    ensures Accounts(p.Runs(w, op), Apply(p, c), w, op) && Tracks(p.Runs(w, op), Apply(p, c), w, op)
  {
    var v := c.step.w;
    if v in p.workers {
      var q := Promote(p, v, p.workers[v].Run(c.step.op, c.step.demand));
      var a := Outcome(q, [Started(v, c.step.op)], Ok);
      assert a.events[1..] == [];
      assert Tracks(p.Runs(w, op), a, w, op);
      if !c.step.sent {
        EvictSettles(q, v, CommandFailedError(v), c.env, w, op);
        EvictTracks(q, v, CommandFailedError(v), c.env, w, op);
        var e := Evict(q, v, CommandFailedError(v), c.env);
        ThenTracks(p.Runs(w, op), a, e, w, op);
        FinalsAppend(a.events, e.events, w, op);
        assert Apply(p, c).events[0] == Started(v, c.step.op);
        if e.pool.Runs(w, op) { NoFinalsNoneAccepted(Apply(p, c).events, w, op); }
      }
    }
  }

  /** A report about an operation that is not running on the worker evicts the worker. */
  lemma StrayReportAccounts(p: Pool, c: Call, w: WorkerId, op: OperationId)
    requires c.step.Report? && Enabled(p, c) && c.step.w in p.workers && c.step.op !in p.workers[c.step.w].running
    ensures Accounts(p.Runs(w, op), Apply(p, c), w, op) && Tracks(p.Runs(w, op), Apply(p, c), w, op)
  {
    var v := c.step.w;
    var o := Apply(p, c);
    UpdateActionCases(p, v, c.step.op, c.step.update, c.env);
    var q := Promote(p, v, p.workers[v]);
    var err := NotRunningError(c.step.op);
    assert Fits(q, c.env);
    EvictSettles(q, v, err, c.env, w, op);
    EvictTracks(q, v, err, c.env, w, op);
    assert o.events == Evict(q, v, err, c.env).events;
    NoneAcceptedWhenSettled(p.Runs(w, op), o, w, op);
  }

  lemma OneUpdate(open: bool, e: Event, notified: bool, w: WorkerId, op: OperationId)
    requires e.Updated?
    ensures var events := [e] + if notified then [Notified] else [];
      && Finals(events, w, op) == (if IsFinal(e, w, op) then 1 else 0)
      && Started(w, op) !in events && (Accepts(events, w, op) <==> IsAccepted(e, w, op))
      && Track(open, events, w, op) == if !IsAccepted(e, w, op) then Some(open) else if open then Some(false) else None
  {
    var rest := if notified then [Notified] else [];
    var events := [e] + rest;
    assert events[0] == e && events[1..] == rest;
    assert [Notified][1..] == [];
    assert Finals(rest, w, op) == 0;
    assert Track(true, rest, w, op) == Some(true) && Track(false, rest, w, op) == Some(false);
    assert Finals(events, w, op) == (if IsFinal(e, w, op) then 1 else 0) + Finals(rest, w, op);
  }

  lemma OwnReportAccounts(p: Pool, c: Call, w: WorkerId, op: OperationId)
    requires c.step.Report? && p.Runs(c.step.w, c.step.op)
    ensures Accounts(p.Runs(w, op), Apply(p, c), w, op) && Tracks(p.Runs(w, op), Apply(p, c), w, op)
  {
    var v, o := c.step.w, Apply(p, c);
    var accepted := c.env.answer(v, c.step.op).Ok?;
    var e := Updated(v, c.step.op, c.step.update, accepted);
    var finished := accepted && c.step.update.Terminal();
    UpdateActionCases(p, v, c.step.op, c.step.update, c.env);
    assert o.events == [e] + if finished then [Notified] else [];
    assert o.pool.Runs(w, op) <==> p.Runs(w, op) && !IsAccepted(e, w, op);
    OneUpdate(true, e, finished, w, op);
    forall open: bool | p.Runs(w, op) ==> open
      ensures Track(open, o.events, w, op).Some? && (o.pool.Runs(w, op) ==> Track(open, o.events, w, op).value)
    {
      OneUpdate(open, e, finished, w, op);
    }
  }

  lemma ReportAccounts(p: Pool, c: Call, w: WorkerId, op: OperationId)
    requires c.step.Report? && Enabled(p, c)
    ensures Accounts(p.Runs(w, op), Apply(p, c), w, op) && Tracks(p.Runs(w, op), Apply(p, c), w, op)
  {
    var v := c.step.w;
    if v in p.workers && c.step.op !in p.workers[v].running {
      StrayReportAccounts(p, c, w, op);
    } else if v in p.workers {
      OwnReportAccounts(p, c, w, op);
    }
  }

  lemma {:induction false} SendsAreNeutral(v: WorkerId, ops: seq<OperationId>, open: bool, w: WorkerId, op: OperationId)
    ensures Finals(Sends(v, ops), w, op) == 0 && Track(open, Sends(v, ops), w, op) == Some(open)
    decreases |ops|
  {
    if ops != [] {
      assert Sends(v, ops)[1..] == Sends(v, ops[1..]);
      SendsAreNeutral(v, ops[1..], open, w, op);
    }
  }

  lemma BeatAccounts(p: Pool, c: Call, w: WorkerId, op: OperationId)
    requires c.step.Beat?
    ensures Accounts(p.Runs(w, op), Apply(p, c), w, op) && Tracks(p.Runs(w, op), Apply(p, c), w, op)
  {
    var o := Apply(p, c);
    forall open: bool ensures Finals(o.events, w, op) == 0 && Track(open, o.events, w, op) == Some(open) {
      SendsAreNeutral(c.step.w, c.env.listing(c.step.w), open, w, op);
    }
    assert Finals(o.events, w, op) == 0 by { assert Track(true, o.events, w, op) == Some(true); }
    assert Started(w, op) !in o.events;
    NoFinalsNoneAccepted(o.events, w, op);
  }

  lemma EveryCallAccounts(p: Pool, c: Call, w: WorkerId, op: OperationId)
    requires Valid(p) && Enabled(p, c) && !Replaces(p, c, w, op)
    ensures Accounts(p.Runs(w, op), Apply(p, c), w, op) && Tracks(p.Runs(w, op), Apply(p, c), w, op)
  {
    match c.step
    case Add(_, _, _, _) => AddAccounts(p, c, w, op);
    case Dispatch(_, _, _, _) => DispatchAccounts(p, c, w, op);
    case Report(_, _, _) => ReportAccounts(p, c, w, op);
    case Remove(v) =>
      EvictSettles(p, v, Error(Internal, [RemovalRequested]), c.env, w, op);
      EvictTracks(p, v, Error(Internal, [RemovalRequested]), c.env, w, op);
      NoneAcceptedWhenSettled(p.Runs(w, op), Apply(p, c), w, op);
    case Expire(now, timeout) =>
      EvictEachAccounts(p, TimedOutTail(p.order, p.workers, WrappingSub(now, timeout)), c.env, w, op);
      NoneAcceptedWhenSettled(p.Runs(w, op), Apply(p, c), w, op);
    case Beat(v, ts) => BeatAccounts(p, c, w, op);
    case Drain(v, d) =>
      assert [Notified][1..] == [];
  }

  /** If a present id is added again, the operations of the replaced worker vanish without
      any report. */
  lemma ReplacementReportsNothing(p: Pool, c: Call, w: WorkerId, op: OperationId)
    requires Valid(p) && Enabled(p, c) && Replaces(p, c, w, op)
    ensures !Apply(p, c).pool.Runs(w, op) && Finals(Apply(p, c).events, w, op) == 0
  {
    var q := Promote(p, w, NewWorker(c.step.props, c.step.timestamp));
    EvictSettles(q, w, CONNECTION_ERROR, c.env, w, op);
    FinalsAppend([Notified], Evict(q, w, CONNECTION_ERROR, c.env).events, w, op);
    assert Finals([Notified], w, op) == 0;
  }

  /** Every call accounts for every operation on every worker, unless it adds an id again whose
      worker runs the operation; that worker is replaced and its operations vanish. */
  lemma AccountsExactly(p: Pool, c: Call, w: WorkerId, op: OperationId)
    requires Valid(p) && Enabled(p, c)
    ensures Accounts(p.Runs(w, op), Apply(p, c), w, op) <==> !Replaces(p, c, w, op)
  {
    if Replaces(p, c, w, op) {
      ReplacementReportsNothing(p, c, w, op);
    } else {
      EveryCallAccounts(p, c, w, op);
    }
  }

  /** A report about a running operation takes that operation off its worker exactly if it is
      final and the state manager accepts it, and takes nothing else off any worker. */
  lemma ReportRemovesExactly(p: Pool, c: Call, w: WorkerId, op: OperationId)
    requires Valid(p) && Enabled(p, c) && c.step.Report? && p.Runs(c.step.w, c.step.op)
    ensures Apply(p, c).pool.workers.Keys == p.workers.Keys
    ensures var taken := w == c.step.w && op == c.step.op && IsLast(c.step.update) && c.env.answer(w, op).Ok?;
      Apply(p, c).pool.Runs(w, op) <==> p.Runs(w, op) && !taken
  {
    UpdateActionCases(p, c.step.w, c.step.op, c.step.update, c.env);
  }

  // -------------------------------------------------------------- whole runs

  /** No call of the run adds an id again that is in the pool at that moment. */
  ghost predicate FreshIds(p: Pool, calls: seq<Call>)
    decreases |calls|
  {
    calls != [] ==>
      (calls[0].step.Add? ==> calls[0].step.w !in p.workers) && FreshIds(Apply(p, calls[0]).pool, calls[1..])
  }

  lemma {:induction false} RunTracks(p: Pool, calls: seq<Call>, w: WorkerId, op: OperationId)
    requires Valid(p) && IsRun(p, calls) && FreshIds(p, calls)
    ensures Tracks(p.Runs(w, op), Exec(p, calls), w, op)
    decreases |calls|
  {
    if calls != [] {
      var first := Apply(p, calls[0]);
      ApplyKeepsValid(p, calls[0]);
      EveryCallAccounts(p, calls[0], w, op);
      RunTracks(first.pool, calls[1..], w, op);
      ThenTracks(p.Runs(w, op), first, Exec(first.pool, calls[1..]), w, op);
    }
  }

  /** `events[k]` starts the operation and nothing is accepted for it between `k` and `i`. */
  ghost predicate StartedFor(events: seq<Event>, k: int, i: int, w: WorkerId, op: OperationId) {
    0 <= k < i <= |events| && events[k] == Started(w, op) && forall j :: k < j < i ==> !IsAccepted(events[j], w, op)
  }

  lemma {:induction false} AcceptedWasStarted(open: bool, events: seq<Event>, i: nat, w: WorkerId, op: OperationId)
    requires Track(open, events, w, op).Some? && i < |events| && IsAccepted(events[i], w, op)
    ensures (exists k :: StartedFor(events, k, i, w, op))
         || (open && forall j :: 0 <= j < i ==> !IsAccepted(events[j], w, op))
    decreases |events|
  {
    if i > 0 {
      var rest, m := events[1..], i - 1;
      var next := if events[0] == Started(w, op) then true else if IsAccepted(events[0], w, op) then false else open;
      AcceptedWasStarted(next, rest, m, w, op);
      if k :| StartedFor(rest, k, m, w, op) {
        assert StartedFor(events, k + 1, i, w, op) by {
          forall j | k + 1 < j < i ensures !IsAccepted(events[j], w, op) { assert events[j] == rest[j - 1]; }
        }
      } else {
        forall j | 0 < j < i ensures !IsAccepted(events[j], w, op) { assert events[j] == rest[j - 1]; }
        if events[0] == Started(w, op) { assert StartedFor(events, 0, i, w, op); }
      }
    }
  }

  /** In every run from an empty pool, a final report that the state manager accepts is the
      first one accepted since the operation was last started on that worker. So between two
      starts at most one is accepted, and none before the first start. */
  lemma AcceptedOncePerStart(calls: seq<Call>, w: WorkerId, op: OperationId, i: nat)
    requires IsRun(EMPTY, calls) && FreshIds(EMPTY, calls)
    requires i < |Exec(EMPTY, calls).events| && IsAccepted(Exec(EMPTY, calls).events[i], w, op)
    ensures exists k :: StartedFor(Exec(EMPTY, calls).events, k, i, w, op)
  {
    RunTracks(EMPTY, calls, w, op);
    assert Track(false, Exec(EMPTY, calls).events, w, op).Some?;
    AcceptedWasStarted(false, Exec(EMPTY, calls).events, i, w, op);
  }

  // ------------------------------------------------- no operation vanishes

  /** Whether a start has not been followed by any final report, accepted or not. */
  function Owed(open: bool, events: seq<Event>, w: WorkerId, op: OperationId): bool
    decreases |events|
  {
    if events == [] then open
    else Owed(events[0] == Started(w, op) || (open && !IsFinal(events[0], w, op)), events[1..], w, op)
  }

  lemma {:induction false} OwedAppend(open: bool, a: seq<Event>, b: seq<Event>, w: WorkerId, op: OperationId)
    ensures Owed(open, a + b, w, op) == Owed(Owed(open, a, w, op), b, w, op)
    decreases |a|
  {
    if a == [] {
      assert a + b == b;
    } else {
      assert (a + b)[1..] == a[1..] + b;
      OwedAppend(a[0] == Started(w, op) || (open && !IsFinal(a[0], w, op)), a[1..], b, w, op);
    }
  }

  lemma {:induction false} FinalsPayOff(open: bool, events: seq<Event>, w: WorkerId, op: OperationId)
    requires Started(w, op) !in events
    ensures Owed(open, events, w, op) <==> open && Finals(events, w, op) == 0
    decreases |events|
  {
    if events != [] {
      assert Started(w, op) !in events[1..];
      FinalsPayOff(open && !IsFinal(events[0], w, op), events[1..], w, op);
    }
  }

  lemma OthersStartNothing(p: Pool, c: Call, w: WorkerId, op: OperationId)
    requires Enabled(p, c) && !c.step.Dispatch?
    ensures Started(w, op) !in Apply(p, c).events
  {
    match c.step
    case Add(_, _, _, _) =>
    case Report(v, o, u) => UpdateActionCases(p, v, o, u, c.env);
    case Remove(_) =>
    case Expire(now, timeout) =>
      EvictEachAccounts(p, TimedOutTail(p.order, p.workers, WrappingSub(now, timeout)), c.env, w, op);
    case Beat(_, _) =>
    case Drain(_, _) =>
  }

  /** A call that starts an operation does so before anything else. */
  lemma StartsComeFirst(p: Pool, c: Call, w: WorkerId, op: OperationId)
    requires Enabled(p, c) && Started(w, op) in Apply(p, c).events
    ensures var events := Apply(p, c).events;
      events[0] == Started(w, op) && Started(w, op) !in events[1..]
  {
    if c.step.Dispatch? {
      var v := c.step.w;
      var q := Promote(p, v, p.workers[v].Run(c.step.op, c.step.demand));
      var rest := if c.step.sent then [] else Evict(q, v, CommandFailedError(v), c.env).events;
      assert Apply(p, c).events == [Started(v, c.step.op)] + rest;
    } else {
      OthersStartNothing(p, c, w, op);
    }
  }

  lemma CallPaysOff(p: Pool, c: Call, w: WorkerId, op: OperationId, open: bool)
    requires Valid(p) && Enabled(p, c) && !Replaces(p, c, w, op) && (open ==> p.Runs(w, op))
    requires !Apply(p, c).pool.Runs(w, op)
    ensures !Owed(open, Apply(p, c).events, w, op)
  {
    var events := Apply(p, c).events;
    EveryCallAccounts(p, c, w, op);
    if Started(w, op) in events {
      StartsComeFirst(p, c, w, op);
      FinalsPayOff(true, events[1..], w, op);
    } else {
      FinalsPayOff(open, events, w, op);
    }
  }

  lemma {:induction false} RunPaysOff(p: Pool, calls: seq<Call>, w: WorkerId, op: OperationId, open: bool)
    requires Valid(p) && IsRun(p, calls) && FreshIds(p, calls) && (open ==> p.Runs(w, op))
    requires !Exec(p, calls).pool.Runs(w, op)
    ensures !Owed(open, Exec(p, calls).events, w, op)
    decreases |calls|
  {
    if calls != [] {
      var first := Apply(p, calls[0]);
      ApplyKeepsValid(p, calls[0]);
      if !first.pool.Runs(w, op) { CallPaysOff(p, calls[0], w, op, open); }
      RunPaysOff(first.pool, calls[1..], w, op, Owed(open, first.events, w, op));
      OwedAppend(open, first.events, Exec(first.pool, calls[1..]).events, w, op);
    }
  }

  lemma {:induction false} PaidOffSomewhere(events: seq<Event>, w: WorkerId, op: OperationId)
    requires !Owed(true, events, w, op)
    ensures exists j :: 0 <= j < |events| && IsFinal(events[j], w, op)
    decreases |events|
  {
    if !IsFinal(events[0], w, op) {
      PaidOffSomewhere(events[1..], w, op);
      var j :| 0 <= j < |events[1..]| && IsFinal(events[1..][j], w, op);
      assert IsFinal(events[j + 1], w, op);
    }
  }

  lemma {:induction false} PaidOffLater(open: bool, events: seq<Event>, i: nat, w: WorkerId, op: OperationId)
    requires !Owed(open, events, w, op) && i < |events| && events[i] == Started(w, op)
    ensures exists j :: i < j < |events| && IsFinal(events[j], w, op)
    decreases |events|
  {
    var next := events[0] == Started(w, op) || (open && !IsFinal(events[0], w, op));
    if i > 0 {
      PaidOffLater(next, events[1..], i - 1, w, op);
      var j :| i - 1 < j < |events[1..]| && IsFinal(events[1..][j], w, op);
      assert IsFinal(events[j + 1], w, op);
    } else {
      PaidOffSomewhere(events[1..], w, op);
      var j :| 0 <= j < |events[1..]| && IsFinal(events[1..][j], w, op);
      assert IsFinal(events[j + 1], w, op);
    }
  }

  /** In every run from an empty pool, an operation that was started on a worker and is not
      running there at the end was finally reported in between: none is lost. */
  lemma NoOperationVanishes(calls: seq<Call>, w: WorkerId, op: OperationId, i: nat)
    requires IsRun(EMPTY, calls) && FreshIds(EMPTY, calls) && !Exec(EMPTY, calls).pool.Runs(w, op)
    requires i < |Exec(EMPTY, calls).events| && Exec(EMPTY, calls).events[i] == Started(w, op)
    ensures exists j :: i < j < |Exec(EMPTY, calls).events| && IsFinal(Exec(EMPTY, calls).events[j], w, op)
  {
    RunPaysOff(EMPTY, calls, w, op, false);
    PaidOffLater(false, Exec(EMPTY, calls).events, i, w, op);
  }
}

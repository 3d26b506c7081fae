/** The matching engine is never left asleep: whatever could let it match an operation is
    followed by a wakeup, even if it was woken half way through the call. */
module PoolWakeup {
  import opened PlatformProps
  import opened Sequences
  import opened WorkerPool
  import opened PoolInvariant

  /** The state manager accepted a final report, which is how an operation goes back to the
      queue or ends. */
  predicate HandsBack(e: Event) { e.Updated? && e.update.Terminal() && e.accepted }

  /** Some worker can take a request afterwards that it could not take before. */
  ghost predicate GainsAWorker(before: Pool, after: Pool) {
    exists v, demand :: after.Eligible(v, demand) && !before.Eligible(v, demand)
  }

  ghost predicate Silent(events: seq<Event>) {
    forall e :: e in events ==> e != Notified && !HandsBack(e)
  }

  predicate EndsInWakeup(events: seq<Event>) {
    events != [] && events[|events| - 1] == Notified
  }

  lemma {:induction false} EvictEachEnds(p: Pool, ids: seq<WorkerId>, env: Env)
    requires ids != []
    ensures EndsInWakeup(EvictEach(p, ids, env).events)
    decreases |ids|
  {
    var first := Evict(p, ids[0], TimeoutError(ids[0]), env);
    if ids[1..] == [] {
      assert EvictEach(first.pool, ids[1..], env).events == [];
    } else {
      EvictEachEnds(first.pool, ids[1..], env);
    }
  }

  /** Taking a satisfied demand opens a worker to nothing new. */
  lemma ReduceGainsNothing(worker: Properties, taken: Properties, demand: Properties)
    requires Satisfies(worker, taken) && Satisfies(Reduce(worker, taken), demand)
    ensures Satisfies(worker, demand)
  {
    assert AtLeast(worker, Reduce(worker, taken)) by {
      forall k | k in worker && k in taken && taken[k].Minimum?
        ensures worker[k].Minimum? && worker[k].amount >= taken[k].amount
      {
        assert taken[k].SatisfiedBy(worker[k]);
      }
    }
    SatisfactionIsMonotone(worker, Reduce(worker, taken), demand);
  }

  lemma DispatchGainsNothing(p: Pool, c: Call)
    requires Enabled(p, c) && c.step.Dispatch? && (c.step.w in p.workers ==> c.step.sent)
    ensures !GainsAWorker(p, Apply(p, c).pool)
  {
    forall v, demand | Apply(p, c).pool.Eligible(v, demand) ensures p.Eligible(v, demand) {
      if c.step.w == v && v in p.workers {
        ReduceGainsNothing(p.workers[v].props, c.step.demand, demand);
      }
    }
  }

  lemma SilentReportGainsNothing(p: Pool, c: Call)
    requires c.step.Report?
    ensures Silent(Apply(p, c).events) ==> !GainsAWorker(p, Apply(p, c).pool)
  {
    var w, op, u := c.step.w, c.step.op, c.step.update;
    var o := Apply(p, c);
    UpdateActionCases(p, w, op, u, c.env);
    if w in p.workers && op !in p.workers[w].running {
      assert o.events[0] == Notified && Notified in o.events;
    } else if p.Runs(w, op) && c.env.answer(w, op).Ok? && u.Terminal() {
      assert o.events[1] == Notified && Notified in o.events;
    }
  }

  lemma ReportIsSilentOrEnds(p: Pool, c: Call)
    requires c.step.Report?
    ensures Silent(Apply(p, c).events) || EndsInWakeup(Apply(p, c).events)
  {
  }

  /** A call either ends in a wakeup, after everything else it did, or it hands nothing back
      and lets no worker take anything new. */
  lemma WakeupComesLast(p: Pool, c: Call)
    requires Valid(p) && Enabled(p, c)
    ensures EndsInWakeup(Apply(p, c).events)
         || (Silent(Apply(p, c).events) && !GainsAWorker(p, Apply(p, c).pool))
  {
    match c.step
    case Add(w, props, ts, sent) =>
    case Beat(w, ts) =>
    case Drain(w, d) =>
    case Report(w, op, u) =>
      ReportIsSilentOrEnds(p, c);
      SilentReportGainsNothing(p, c);
    case Dispatch(w, op, demand, sent) =>
      if w !in p.workers || sent { DispatchGainsNothing(p, c); }
    case Remove(w) =>
    case Expire(now, timeout) =>
      var ids := TimedOutTail(p.order, p.workers, WrappingSub(now, timeout));
      if ids != [] { EvictEachEnds(p, ids, c.env); }
  }

  // -------------------------------------------------------------- whole runs

  /** Every hand-back has a wakeup behind it. */
  ghost predicate AllAnnounced(events: seq<Event>) {
    events != [] ==> (HandsBack(events[0]) ==> Notified in events[1..]) && AllAnnounced(events[1..])
  }

  lemma {:induction false} AnnouncedAppend(a: seq<Event>, b: seq<Event>)
    requires (Silent(a) || EndsInWakeup(a)) && AllAnnounced(b)
    ensures AllAnnounced(a + b)
    decreases |a|
  {
    if a == [] {
      assert a + b == b;
    } else {
      assert (a + b)[1..] == a[1..] + b;
      assert forall e :: e in a[1..] ==> e in a;
      if EndsInWakeup(a) && |a| > 1 { assert a[1..][|a| - 2] == Notified; }
      AnnouncedAppend(a[1..], b);
    }
  }

  /** Over a whole run: every hand-back is followed by a wakeup; and a run without a single
      wakeup handed nothing back and left no worker able to take a request it could not take
      at the start. */
  lemma {:induction false} NoLostWakeup(p: Pool, calls: seq<Call>)
    requires Valid(p) && IsRun(p, calls)
    ensures AllAnnounced(Exec(p, calls).events)
    ensures Notified !in Exec(p, calls).events ==>
      Silent(Exec(p, calls).events) && !GainsAWorker(p, Exec(p, calls).pool)
    decreases |calls|
  {
    if calls != [] {
      var first := Apply(p, calls[0]);
      ApplyKeepsValid(p, calls[0]);
      WakeupComesLast(p, calls[0]);
      NoLostWakeup(first.pool, calls[1..]);
      AnnouncedAppend(first.events, Exec(first.pool, calls[1..]).events);
      if EndsInWakeup(first.events) {
        assert Exec(p, calls).events[|first.events| - 1] == Notified;
      }
    }
  }

  /** A trace in which the matching engine takes its permit (`None`) at arbitrary moments. */
  function Erase(t: seq<Option<Event>>): seq<Event> {
    if t == [] then [] else (if t[0].Some? then [t[0].value] else []) + Erase(t[1..])
  }

  /** Whether a permit is there after the trace, if there was none before. */
  function Permit(t: seq<Option<Event>>): bool {
    if t == [] then false
    else match t[|t| - 1]
      case None => false
      case Some(Notified) => true
      case Some(_) => Permit(t[..|t| - 1])
  }

  lemma {:induction false} EraseAppend(a: seq<Option<Event>>, b: seq<Option<Event>>)
    ensures Erase(a + b) == Erase(a) + Erase(b)
    decreases |a|
  {
    if a == [] {
      assert a + b == b;
    } else {
      assert (a + b)[1..] == a[1..] + b && (a + b)[0] == a[0];
      EraseAppend(a[1..], b);
      var own := if a[0].Some? then [a[0].value] else [];
      assert own + (Erase(a[1..]) + Erase(b)) == own + Erase(a[1..]) + Erase(b);
    }
  }

  /** Where the permit was last taken, if none is left. */
  lemma {:induction false} LastTaken(t: seq<Option<Event>>) returns (cut: nat)
    requires !Permit(t)
    ensures cut <= |t| && (cut == 0 || t[cut - 1] == None)
    ensures forall i :: cut <= i < |t| ==> t[i].Some? && t[i] != Some(Notified)
    decreases |t|
  {
    if t == [] || t[|t| - 1] == None {
      cut := |t|;
    } else {
      cut := LastTaken(t[..|t| - 1]);
    }
  }

  lemma {:induction false} EraseKeepsEvents(t: seq<Option<Event>>)
    requires forall i :: 0 <= i < |t| ==> t[i].Some?
    ensures |Erase(t)| == |t| && forall i :: 0 <= i < |t| ==> Erase(t)[i] == t[i].value
  {
    if t != [] { EraseKeepsEvents(t[1..]); }
  }

  lemma {:induction false} QuietTail(a: seq<Event>, b: seq<Event>)
    requires AllAnnounced(a + b) && Notified !in b
    ensures forall e :: e in b ==> !HandsBack(e)
    decreases |a| + |b|
  {
    if a != [] {
      assert (a + b)[1..] == a[1..] + b;
      QuietTail(a[1..], b);
    } else if b != [] {
      assert a + b == b && b == [b[0]] + b[1..] && [] + b[1..] == b[1..];
      QuietTail([], b[1..]);
    }
  }

  lemma {:induction false} NothingAfterLastTaken(t: seq<Option<Event>>, cut: nat, i: nat)
    requires AllAnnounced(Erase(t)) && cut <= i < |t|
    requires forall j :: cut <= j < |t| ==> t[j].Some? && t[j] != Some(Notified)
    ensures !HandsBack(t[i].value)
  {
    var a, b := t[..cut], t[cut..];
    assert t == a + b;
    EraseAppend(a, b);
    EraseKeepsEvents(b);
    QuietTail(Erase(a), Erase(b));
    assert Erase(b)[i - cut] == t[i].value;
  }

  lemma {:induction false} ExecSplit(p: Pool, calls: seq<Call>, n: nat)
    requires IsRun(p, calls) && n <= |calls|
    ensures IsRun(p, calls[..n])
    ensures var q := Exec(p, calls[..n]).pool;
      && IsRun(q, calls[n..]) && Exec(p, calls).pool == Exec(q, calls[n..]).pool
      && Exec(p, calls).events == Exec(p, calls[..n]).events + Exec(q, calls[n..]).events
    decreases n
  {
    if n == 0 {
      assert calls[..0] == [] && calls[0..] == calls;
      assert [] + Exec(p, calls).events == Exec(p, calls).events;
    } else {
      var first := Apply(p, calls[0]);
      assert calls[..n][1..] == calls[1..][..n - 1] && calls[1..][n - 1..] == calls[n..];
      ExecSplit(first.pool, calls[1..], n - 1);
      var q := Exec(first.pool, calls[1..][..n - 1]);
      assert first.events + (q.events + Exec(q.pool, calls[n..]).events) ==
             first.events + q.events + Exec(q.pool, calls[n..]).events;
    }
  }

  /** The turn of the matching engine that came after so many events came after the first `n`
      calls, and before or during the next one. */
  ghost predicate TurnAfter(p: Pool, calls: seq<Call>, n: nat, turn: nat)
    requires n <= |calls|
  {
    var before := |Exec(p, calls[..n]).events|;
    before == turn || (n < |calls| && before < turn < |Exec(p, calls[..n + 1]).events|)
  }

  lemma TurnExists(p: Pool, calls: seq<Call>, turn: nat) returns (n: nat)
    requires turn <= |Exec(p, calls).events|
    ensures n <= |calls| && TurnAfter(p, calls, n, turn)
  {
    n := |calls|;
    assert calls[..n] == calls && calls[..0] == [];
    while |Exec(p, calls[..n]).events| > turn
      invariant n <= |calls|
      invariant if n < |calls| then turn < |Exec(p, calls[..n + 1]).events| else turn <= |Exec(p, calls[..n]).events|
      decreases n
    {
      n := n - 1;
    }
  }

  lemma ExecOne(p: Pool, c: Call)
    ensures Exec(p, [c]).events == Apply(p, c).events
  {
    assert [c][1..] == [];
  }

  lemma OneMoreCall(p: Pool, calls: seq<Call>, n: nat)
    requires IsRun(p, calls) && n < |calls|
    ensures var q := Exec(p, calls[..n]).pool;
      var next := Apply(q, calls[n]).events;
      && Enabled(q, calls[n]) && next <= Exec(q, calls[n..]).events
      && Exec(p, calls[..n + 1]).events == Exec(p, calls[..n]).events + next
  {
    var q := Exec(p, calls[..n]).pool;
    ExecSplit(p, calls, n);
    ExecSplit(p, calls, n + 1);
    ExecSplit(p, calls[..n + 1], n);
    assert calls[..n + 1][..n] == calls[..n] && calls[..n + 1][n..] == [calls[n]];
    ExecOne(q, calls[n]);
    assert calls[n..][0] == calls[n];
  }

  /** If a call's events are silent or end in a wakeup, and there is no wakeup from some point
      inside of them on, then there is none from their start on. */
  lemma QuietFromInside(a: seq<Event>, next: seq<Event>, rest: seq<Event>, turn: nat)
    requires |a| < turn < |a| + |next| && (EndsInWakeup(next) || Silent(next))
    requires Notified !in (a + (next + rest))[turn..]
    ensures Notified !in next + rest
  {
    var events := a + (next + rest);
    forall i | turn <= i < |events| ensures events[i] != Notified {
      assert events[i] == events[turn..][i - turn];
    }
    assert events[|a| + |next| - 1] == next[|next| - 1];
    forall i | 0 <= i < |rest| ensures rest[i] != Notified {
      assert events[|a| + |next| + i] == rest[i];
    }
  }

  lemma NothingGainedSince(p: Pool, calls: seq<Call>, n: nat, turn: nat)
    requires Valid(p) && IsRun(p, calls) && n <= |calls| && TurnAfter(p, calls, n, turn)
    requires turn <= |Exec(p, calls).events| && Notified !in Exec(p, calls).events[turn..]
    ensures !GainsAWorker(Exec(p, calls[..n]).pool, Exec(p, calls).pool)
  {
    var before := Exec(p, calls[..n]);
    var rest := Exec(before.pool, calls[n..]).events;
    ExecSplit(p, calls, n);
    ReachableIsValid(p, calls[..n]);
    if |before.events| < turn {
      OneMoreCall(p, calls, n);
      WakeupComesLast(before.pool, calls[n]);
      var next := Apply(before.pool, calls[n]).events;
      QuietFromInside(before.events, next, rest[|next|..], turn);
      assert rest == next + rest[|next|..];
    } else {
      assert (before.events + rest)[turn..] == rest;
    }
    NoLostWakeup(before.pool, calls[n..]);
  }

  lemma EraseFrom(t: seq<Option<Event>>, cut: nat)
    requires cut <= |t| && forall i :: cut <= i < |t| ==> t[i].Some? && t[i] != Some(Notified)
    ensures |Erase(t[..cut])| <= |Erase(t)| && Notified !in Erase(t)[|Erase(t[..cut])|..]
  {
    assert t == t[..cut] + t[cut..];
    EraseAppend(t[..cut], t[cut..]);
    EraseKeepsEvents(t[cut..]);
    assert Erase(t)[|Erase(t[..cut])|..] == Erase(t[cut..]);
  }

  /** However the matching engine's wakeups interleave with the calls, also inside an
      eviction: if no permit is left, then since it last woke, which was before or during the
      call that followed the first `n` calls, nothing was handed back, and no worker became
      able to take a request that it could not take then. */
  lemma NoPermitMeansNothingMissed(p: Pool, calls: seq<Call>, t: seq<Option<Event>>)
    returns (cut: nat, n: nat)
    requires Valid(p) && IsRun(p, calls) && Erase(t) == Exec(p, calls).events && !Permit(t)
    ensures cut <= |t| && (cut == 0 || t[cut - 1] == None)
    ensures forall i :: cut <= i < |t| ==> t[i].Some? && !HandsBack(t[i].value)
    ensures n <= |calls| && TurnAfter(p, calls, n, |Erase(t[..cut])|)
    ensures !GainsAWorker(Exec(p, calls[..n]).pool, Exec(p, calls).pool)
    ensures forall m :: 0 <= m <= |calls| && TurnAfter(p, calls, m, |Erase(t[..cut])|) ==>
      !GainsAWorker(Exec(p, calls[..m]).pool, Exec(p, calls).pool)
  {
    NoLostWakeup(p, calls);
    cut := LastTaken(t);
    forall i | cut <= i < |t| ensures !HandsBack(t[i].value) {
      NothingAfterLastTaken(t, cut, i);
    }
    var turn := |Erase(t[..cut])|;
    EraseFrom(t, cut);
    forall m | 0 <= m <= |calls| && TurnAfter(p, calls, m, turn)
      ensures !GainsAWorker(Exec(p, calls[..m]).pool, Exec(p, calls).pool)
    {
      NothingGainedSince(p, calls, m, turn);
    }
    n := TurnExists(p, calls, turn);
  }
}

/** The matching engine finds a worker, assigns the operation and then hands it over, and the
    pool may change in between. Two promises survive that: the worker still satisfies the
    action when it is handed over, and under the least-recently-used strategy no eligible
    worker is passed over more often than there are workers behind it. */
module Matching {
  import opened Errors
  import opened PlatformProps
  import opened Sequences
  import opened WorkerPool
  import opened PoolInvariant
  import opened PoolWorkers

  datatype Strategy = LeastRecentlyUsed | MostRecentlyUsed

  /** `iter().rfind(..)`: the least recent worker that can take the demand. */
  function LeastRecent(order: seq<WorkerId>, workers: map<WorkerId, Worker>, demand: Properties): Option<WorkerId> {
    if order == [] then None else
      var last := order[|order| - 1];
      if last in workers && workers[last].Eligible(demand) then Some(last)
      else LeastRecent(order[..|order| - 1], workers, demand)
  }

  /** `iter().find(..)`: the most recent one. */
  function MostRecent(order: seq<WorkerId>, workers: map<WorkerId, Worker>, demand: Properties): Option<WorkerId> {
    if order == [] then None
    else if order[0] in workers && workers[order[0]].Eligible(demand) then Some(order[0])
    else MostRecent(order[1..], workers, demand)
  }

  /** `inner_find_worker_for_action`. */
  function Find(p: Pool, strategy: Strategy, demand: Properties): Option<WorkerId> {
    match strategy
    case LeastRecentlyUsed => LeastRecent(p.order, p.workers, demand)
    case MostRecentlyUsed => MostRecent(p.order, p.workers, demand)
  }

  lemma {:induction false} LeastRecentIsLast(order: seq<WorkerId>, workers: map<WorkerId, Worker>, demand: Properties)
    ensures var r := LeastRecent(order, workers, demand);
      && (r.Some? ==> r.value in order && r.value in workers && workers[r.value].Eligible(demand))
      && forall u :: u in order && u in workers && workers[u].Eligible(demand) ==>
          r.Some? && (u == r.value || r.value in After(order, u))
  {
    if order != [] {
      var front, last := order[..|order| - 1], order[|order| - 1];
      assert order == front + [last];
      LeastRecentIsLast(front, workers, demand);
      forall u ensures u in front ==> After(order, u) == After(front, u) + [last] { AfterSnoc(front, last, u); }
    }
  }

  lemma {:induction false} MostRecentIsFirst(order: seq<WorkerId>, workers: map<WorkerId, Worker>, demand: Properties)
    ensures var r := MostRecent(order, workers, demand);
      && (r.Some? ==> r.value in order && r.value in workers && workers[r.value].Eligible(demand))
      && forall u :: u in order && u in workers && workers[u].Eligible(demand) ==>
          r.Some? && (u == r.value || u in After(order, r.value))
  {
    if order != [] {
      MostRecentIsFirst(order[1..], workers, demand);
      assert order == [order[0]] + order[1..];
    }
  }

  /** The choice is eligible and no eligible worker is behind it (least recently used) or in
      front of it (most recently used); there is no choice only if nobody is eligible. */
  lemma FindIsExtreme(p: Pool, strategy: Strategy, demand: Properties)
    requires Shape(p)
    ensures match Find(p, strategy, demand)
      case None => forall u :: !p.Eligible(u, demand)
      case Some(v) => p.Eligible(v, demand) && forall u :: u != v && p.Eligible(u, demand) ==>
        if strategy.LeastRecentlyUsed? then v in After(p.order, u) else u in After(p.order, v)
  {
    LeastRecentIsLast(p.order, p.workers, demand);
    MostRecentIsFirst(p.order, p.workers, demand);
  }

  /** A worker that joins is open at once to exactly the requests its properties satisfy: it is
      the choice under most recently used, and under least recently used if nobody else is. */
  lemma JoiningWorkerIsOpen(p: Pool, w: WorkerId, props: Properties, timestamp: U64, env: Env, demand: Properties)
    requires Shape(p)
    ensures var q := AddWorker(p, w, props, timestamp, true, env).pool;
      && (q.Eligible(w, demand) <==> Satisfies(props, demand))
      && (Satisfies(props, demand) ==> Find(q, MostRecentlyUsed, demand) == Some(w))
      && (Satisfies(props, demand) && (forall v :: v != w ==> !p.Eligible(v, demand)) ==>
            Find(q, LeastRecentlyUsed, demand) == Some(w))
  {
    var q := AddWorker(p, w, props, timestamp, true, env).pool;
    WithoutElements(p.order, w);
    assert Shape(q);
    assert q.order[0] == w;
    FindIsExtreme(q, LeastRecentlyUsed, demand);
    assert forall v :: v != w ==> q.Eligible(v, demand) == p.Eligible(v, demand);
  }

  /** A search succeeds exactly if some open worker has what is demanded; in particular if one
      offers exactly that. */
  lemma FindSucceedsExactly(p: Pool, strategy: Strategy, demand: Properties)
    requires Shape(p)
    ensures Find(p, strategy, demand).Some? <==>
      exists w ::
        w in p.workers && !p.workers[w].paused && !p.workers[w].draining && Satisfies(p.workers[w].props, demand)
    ensures forall w :: w in p.workers && p.workers[w].CanAcceptWork() && p.workers[w].props == demand ==>
      Find(p, strategy, demand).Some?
  {
    FindIsExtreme(p, strategy, demand);
    assert forall w :: p.Eligible(w, demand) <==>
        w in p.workers && !p.workers[w].paused && !p.workers[w].draining && Satisfies(p.workers[w].props, demand);
    MeetsItsOwnOffer(demand);
    forall w | w in p.workers && p.workers[w].CanAcceptWork() && p.workers[w].props == demand
      ensures Find(p, strategy, demand).Some?
    {
      assert p.Eligible(w, demand);
    }
  }

  // ------------------------------------------------------------ the matcher

  datatype Match = Match(worker: WorkerId, op: OperationId, demand: Properties)

  /** The pool and the match that the engine is about to hand over. */
  datatype Engine = Engine(pool: Pool, pending: Option<Match>)

  datatype Move =
    | Look(op: OperationId, demand: Properties) // find a worker for a queued operation
    | Drop                                      // the assignment was refused
    | Hand(sent: bool, env: Env)                // hand the operation to the worker found
    | Other(call: Call)                         // anything else that takes the lock

  /** The call that hands a match over. */
  function HandOver(m: Match, sent: bool, env: Env): Call {
    Call(Dispatch(m.worker, m.op, m.demand, sent), env)
  }

  function Do(s: Engine, strategy: Strategy, m: Move): Engine {
    match m
    case Look(op, demand) =>
      var found := Find(s.pool, strategy, demand);
      s.(pending := if found.None? then None else Some(Match(found.value, op, demand)))
    case Drop => s.(pending := None)
    case Hand(sent, env) =>
      if s.pending.None? then s else Engine(Apply(s.pool, HandOver(s.pending.value, sent, env)).pool, None)
    case Other(c) => s.(pool := Apply(s.pool, c).pool)
  }

  /** Only the engine dispatches, one match at a time, and worker ids are not reused while a
      match is pending. Nothing is demanded of the properties at hand-over. */
  ghost predicate Allowed(s: Engine, m: Move) {
    match m
    case Look(_, _) => true
    case Drop => true
    case Hand(sent, env) => s.pending.Some? && Fits(Iterated(s.pool, HandOver(s.pending.value, sent, env).step), env)
    case Other(c) =>
      && !c.step.Dispatch? && Enabled(s.pool, c)
      && (c.step.Add? && s.pending.Some? ==> c.step.w != s.pending.value.worker)
  }

  /** The pending match could still be run if its worker is still there. */
  ghost predicate Promise(s: Engine) {
    && Valid(s.pool)
    && (s.pending.Some? && s.pending.value.worker in s.pool.workers ==>
          Satisfies(s.pool.workers[s.pending.value.worker].props, s.pending.value.demand))
  }

  lemma CompletionOffersMore(w: Worker, op: OperationId)
    requires WorkerOk(w) && op in w.running
    ensures AtLeast(w.Complete(op).0.props, w.props)
  {
    var after := w.Complete(op).0.props;
    forall k | k in w.props
      ensures after[k] == w.props[k] ||
        (after[k].Minimum? && w.props[k].Minimum? && after[k].amount >= w.props[k].amount)
    {
      CompleteCapacity(w, op, k);
    }
  }

  /** Unless it is given an action, a surviving worker offers at least what it offered. */
  lemma OtherCallsOfferMore(p: Pool, c: Call, v: WorkerId)
    requires Valid(p) && Survives(p, c, v) && !c.step.Dispatch?
    ensures AtLeast(Apply(p, c).pool.workers[v].props, p.workers[v].props)
  {
    SurvivorIsChanged(p, c, v);
    if c.step.Report? && c.step.w == v && c.step.op in p.workers[v].running {
      CompletionOffersMore(p.workers[v], c.step.op);
    }
  }

  lemma NobodyElseJoins(p: Pool, c: Call, v: WorkerId)
    requires Valid(p) && v !in p.workers && !(c.step.Add? && c.step.w == v)
    ensures v !in Apply(p, c).pool.workers
  {
    match c.step
    case Report(w, op, u) => UpdateActionCases(p, w, op, u, c.env);
    case Expire(now, timeout) =>
      EvictEachKeepsValid(p, TimedOutTail(p.order, p.workers, WrappingSub(now, timeout)), c.env);
    case _ =>
  }

  lemma MatcherMovesSafely(s: Engine, strategy: Strategy, m: Move)
    requires Promise(s) && Allowed(s, m)
    ensures Promise(Do(s, strategy, m))
    ensures m.Hand? ==> Enabled(s.pool, HandOver(s.pending.value, m.sent, m.env))
  {
    match m
    case Look(op, demand) => FindIsExtreme(s.pool, strategy, demand);
    case Drop =>
    case Hand(sent, env) => ApplyKeepsValid(s.pool, HandOver(s.pending.value, sent, env));
    case Other(c) =>
      ApplyKeepsValid(s.pool, c);
      if s.pending.Some? && s.pending.value.worker in Apply(s.pool, c).pool.workers {
        var v := s.pending.value.worker;
        if v in s.pool.workers {
          OtherCallsOfferMore(s.pool, c, v);
          var more, less := Apply(s.pool, c).pool.workers[v].props, s.pool.workers[v].props;
          SatisfactionIsMonotone(more, less, s.pending.value.demand);
        } else {
          NobodyElseJoins(s.pool, c, v);
        }
      }
  }

  function Play(s: Engine, strategy: Strategy, moves: seq<Move>): Engine
    decreases |moves|
  {
    if moves == [] then s else Play(Do(s, strategy, moves[0]), strategy, moves[1..])
  }

  ghost predicate IsPlay(s: Engine, strategy: Strategy, moves: seq<Move>)
    decreases |moves|
  {
    moves != [] ==> Allowed(s, moves[0]) && IsPlay(Do(s, strategy, moves[0]), strategy, moves[1..])
  }

  /** In every play, the worker that an action is handed to satisfies it at that moment, so
      the assertion in `reduce_platform_properties` holds and no amount underflows. */
  lemma {:induction false} HandedOverOnlyIfSatisfied(s: Engine, strategy: Strategy, moves: seq<Move>)
    requires Promise(s) && IsPlay(s, strategy, moves)
    ensures Promise(Play(s, strategy, moves))
    ensures moves != [] && moves[|moves| - 1].Hand? ==>
      var before := Play(s, strategy, moves[..|moves| - 1]);
      var m := moves[|moves| - 1];
      before.pending.Some? && Enabled(before.pool, HandOver(before.pending.value, m.sent, m.env))
    decreases |moves|
  {
    if moves != [] {
      MatcherMovesSafely(s, strategy, moves[0]);
      var rest := moves[1..];
      HandedOverOnlyIfSatisfied(Do(s, strategy, moves[0]), strategy, rest);
      if rest != [] {
        assert moves[..|moves| - 1][1..] == rest[..|rest| - 1];
      }
    }
  }

  // -------------------------------------------------------------- fairness

  function Behind(p: Pool, w: WorkerId): nat { |After(p.order, w)| }

  /** Nothing but a hand-over moves `w` in the recency order or takes it out of the pool. */
  ghost predicate LeftAlone(s: Engine, m: Move, w: WorkerId) {
    m.Other? ==> (Targets(m.call.step, w) ==> m.call.step.Beat?) && w in Apply(s.pool, m.call).pool.workers
  }

  /** A match is pending for a worker that is no longer behind `w`. */
  function Settled(s: Engine, w: WorkerId): nat {
    if s.pending.Some? && s.pending.value.worker !in After(s.pool.order, w) then 1 else 0
  }

  lemma {:induction false} WithoutShorter(s: seq<WorkerId>, x: WorkerId)
    ensures |Without(s, x)| <= |s| && (x in s ==> |Without(s, x)| < |s|)
  {
    if s != [] {
      WithoutShorter(s[1..], x);
      assert s == [s[0]] + s[1..];
    }
  }

  lemma Shrinks(small: seq<WorkerId>, big: seq<WorkerId>)
    requires NoDup(small) && forall v :: v in small ==> v in big
    ensures |small| <= |big|
    ensures forall v :: v in big && v !in small ==> |small| < |big|
    decreases |small|
  {
    if small != [] {
      var x, rest := small[0], small[1..];
      NoDupTail(small);
      assert small == [x] + rest;
      WithoutShorter(big, x);
      assert forall v :: v in rest ==> v != x && v in big;
      WithoutElements(big, x);
      Shrinks(rest, Without(big, x));
      assert forall v :: v in big && v !in small ==> v in Without(big, x) && v !in rest;
    }
  }

  /** What is behind `w` after `u` was moved to the front or taken out. */
  lemma BehindOthers(order: seq<WorkerId>, u: WorkerId, w: WorkerId)
    requires u != w
    ensures After(Without(order, u), w) == Without(After(order, w), u)
    ensures After([u] + Without(order, u), w) == Without(After(order, w), u)
  {
    AfterCons(u, Without(order, u), w);
    AfterWithout(order, w, u);
  }

  lemma {:induction false} EvictEachBehind(p: Pool, ids: seq<WorkerId>, env: Env, w: WorkerId)
    requires Valid(p) && w in p.workers && w !in ids
    ensures forall v :: v in After(EvictEach(p, ids, env).pool.order, w) ==> v in After(p.order, w)
    decreases |ids|
  {
    if ids != [] {
      var first := Evict(p, ids[0], TimeoutError(ids[0]), env).pool;
      assert ids == [ids[0]] + ids[1..];
      EvictKeepsValid(p, ids[0], TimeoutError(ids[0]), env);
      BehindOthers(p.order, ids[0], w);
      WithoutElements(After(p.order, w), ids[0]);
      EvictEachBehind(first, ids[1..], env, w);
    }
  }

  /** The order after a call about `u` that is not a heartbeat. */
  lemma OrderAfterCall(p: Pool, c: Call)
    requires Valid(p) && !c.step.Expire? && !c.step.Beat?
    ensures var w, others := c.step.w, Without(p.order, c.step.w);
      Apply(p, c).pool.order in {p.order, [w] + others, others, Without([w] + others, w)}
  {
    if c.step.Report? { UpdateActionCases(p, c.step.w, c.step.op, c.step.update, c.env); }
  }

  /** No call puts a worker behind `w` that was not there. */
  lemma NobodyFallsBehind(p: Pool, c: Call, w: WorkerId)
    requires Valid(p) && w in p.workers && w in Apply(p, c).pool.workers
    requires Targets(c.step, w) ==> c.step.Beat?
    ensures forall v :: v in After(Apply(p, c).pool.order, w) ==> v in After(p.order, w)
  {
    if c.step.Expire? {
      var ids := TimedOutTail(p.order, p.workers, WrappingSub(c.step.now, c.step.timeout));
      EvictEachKeepsValid(p, ids, c.env);
      EvictEachBehind(p, ids, c.env, w);
    } else if !c.step.Beat? {
      var u := c.step.w;
      OrderAfterCall(p, c);
      BehindOthers(p.order, u, w);
      BehindOthers([u] + Without(p.order, u), u, w);
      WithoutElements(After(p.order, w), u);
      WithoutElements(After([u] + Without(p.order, u), w), u);
    }
  }

  /** If nobody falls behind `w`, whoever leaves makes room. */
  lemma LeavingMakesRoom(p: Pool, q: Pool, w: WorkerId, v: WorkerId)
    requires Shape(q) && forall u :: u in After(q.order, w) ==> u in After(p.order, w)
    ensures Behind(q, w) <= Behind(p, w)
    ensures v in After(p.order, w) && v !in After(q.order, w) ==> Behind(q, w) < Behind(p, w)
  {
    AfterElements(q.order, w);
    Shrinks(After(q.order, w), After(p.order, w));
  }

  /** A hand-over to another worker takes it out from behind `w`. */
  lemma HandOverMovesAhead(p: Pool, c: Call, w: WorkerId)
    requires Valid(p) && c.step.Dispatch? && c.step.w != w
    ensures c.step.w !in After(Apply(p, c).pool.order, w)
  {
    var u := c.step.w;
    BehindOthers(p.order, u, w);
    BehindOthers([u] + Without(p.order, u), u, w);
    WithoutElements(After(p.order, w), u);
    WithoutElements(After([u] + Without(p.order, u), w), u);
    AfterElements(p.order, w);
  }

  /** Every completed dispatch that passes over `w` costs one of the workers behind it. */
  lemma DispatchCostsOneBehind(s: Engine, m: Move, w: WorkerId)
    requires Promise(s) && Allowed(s, m) && w in s.pool.workers && LeftAlone(s, m, w)
    requires s.pending.Some? ==> s.pending.value.worker != w
    requires m.Look? ==> s.pool.Eligible(w, m.demand) && Find(s.pool, LeastRecentlyUsed, m.demand) != Some(w)
    ensures var t := Do(s, LeastRecentlyUsed, m);
      && w in t.pool.workers && (t.pending.Some? ==> t.pending.value.worker != w)
      && Behind(t.pool, w) + Settled(t, w) + (if m.Hand? then 1 else 0) <= Behind(s.pool, w) + Settled(s, w)
  {
    MatcherMovesSafely(s, LeastRecentlyUsed, m);
    match m
    case Look(op, demand) => FindIsExtreme(s.pool, LeastRecentlyUsed, demand);
    case Drop =>
    case Hand(sent, env) =>
      var v := s.pending.value.worker;
      var c := HandOver(s.pending.value, sent, env);
      assert w in Apply(s.pool, c).pool.workers;
      NobodyFallsBehind(s.pool, c, w);
      HandOverMovesAhead(s.pool, c, w);
      LeavingMakesRoom(s.pool, Apply(s.pool, c).pool, w, v);
    case Other(c) =>
      NobodyFallsBehind(s.pool, c, w);
      var v := if s.pending.Some? then s.pending.value.worker else w;
      LeavingMakesRoom(s.pool, Apply(s.pool, c).pool, w, v);
  }

  function Hands(moves: seq<Move>): nat {
    if moves == [] then 0 else (if moves[0].Hand? then 1 else 0) + Hands(moves[1..])
  }

  /** Throughout the play, `w` can take whatever the engine looks for and is only moved by
      being dispatched to. */
  ghost predicate Waits(s: Engine, strategy: Strategy, moves: seq<Move>, w: WorkerId)
    decreases |moves|
  {
    moves != [] ==>
      && LeftAlone(s, moves[0], w)
      && (moves[0].Look? ==> s.pool.Eligible(w, moves[0].demand))
      && Waits(Do(s, strategy, moves[0]), strategy, moves[1..], w)
  }

  /** The engine finds `w` at some moment of the play. */
  ghost predicate Picks(s: Engine, strategy: Strategy, moves: seq<Move>, w: WorkerId)
    decreases |moves|
  {
    moves != [] &&
      ((moves[0].Look? && Find(s.pool, strategy, moves[0].demand) == Some(w))
       || Picks(Do(s, strategy, moves[0]), strategy, moves[1..], w))
  }

  lemma {:induction false} BypassesAreBounded(s: Engine, moves: seq<Move>, w: WorkerId)
    requires Promise(s) && IsPlay(s, LeastRecentlyUsed, moves) && w in s.pool.workers
    requires s.pending.Some? ==> s.pending.value.worker != w
    requires Waits(s, LeastRecentlyUsed, moves, w) && !Picks(s, LeastRecentlyUsed, moves, w)
    ensures Hands(moves) <= Behind(s.pool, w) + Settled(s, w)
    decreases |moves|
  {
    if moves != [] {
      DispatchCostsOneBehind(s, moves[0], w);
      MatcherMovesSafely(s, LeastRecentlyUsed, moves[0]);
      BypassesAreBounded(Do(s, LeastRecentlyUsed, moves[0]), moves[1..], w);
    }
  }

  /** Bounded bypass: a worker that stays eligible and untouched is picked within as many
      completed dispatches as there are workers behind it, plus one, whatever joins, leaves,
      reports, drains or refreshes in between. */
  lemma EligibleWorkerIsPicked(s: Engine, moves: seq<Move>, w: WorkerId)
    requires Promise(s) && IsPlay(s, LeastRecentlyUsed, moves) && w in s.pool.workers && s.pending.None?
    requires Waits(s, LeastRecentlyUsed, moves, w) && Hands(moves) >= Behind(s.pool, w) + 1
    ensures Picks(s, LeastRecentlyUsed, moves, w)
  {
    if !Picks(s, LeastRecentlyUsed, moves, w) {
      BypassesAreBounded(s, moves, w);
      assert false;
    }
  }

  /** Two idle workers with nothing to run out of, and the same pool while worker 1 runs
      `op`. */
  const PAIR := Engine(Pool([1, 2], map[1 := NewWorker(map[], 0), 2 := NewWorker(map[], 0)]), None)

  function BusyPair(op: OperationId): Engine {
    var busy := Worker(map[], map[op := map[]], 0, false, false);
    Engine(Pool([1, 2], map[1 := busy, 2 := NewWorker(map[], 0)]), None)
  }

  /** The environment of the busy pair. */
  function PairEnv(op: OperationId): Env {
    Env(w => if w == 1 then [op] else [], (w, o) => Ok)
  }

  function Finished(op: OperationId): Move {
    Other(Call(Report(1, op, WithStage(Completed)), PairEnv(op)))
  }

  /** Worker 1 is found for an operation, is given it ... */
  lemma FrontIsDispatched(op: OperationId)
    ensures var looked := Do(PAIR, MostRecentlyUsed, Look(op, map[]));
      && Find(PAIR.pool, MostRecentlyUsed, map[]) == Some(1) && PAIR.pool.Eligible(2, map[])
      && looked == Engine(PAIR.pool, Some(Match(1, op, map[])))
      && Allowed(looked, Hand(true, PairEnv(op)))
      && Do(looked, MostRecentlyUsed, Hand(true, PairEnv(op))) == BusyPair(op)
  {
    assert Without([1, 2], 1) == [2] by { assert [1, 2][1..] == [2] && [2][1..] == []; }
    assert Reduce(map[], map[]) == map[];
    assert NewWorker(map[], 0).Run(op, map[]) == BusyPair(op).pool.workers[1];
    assert PAIR.pool.workers[1 := BusyPair(op).pool.workers[1]] == BusyPair(op).pool.workers;
  }

  /** ... and completes it, which leads back to the same state. */
  lemma FrontCompletes(op: OperationId)
    ensures var s := BusyPair(op);
      Allowed(s, Finished(op)) && LeftAlone(s, Finished(op), 2) && Do(s, MostRecentlyUsed, Finished(op)) == PAIR
  {
    var s := BusyPair(op);
    assert Without([1, 2], 1) == [2] by { assert [1, 2][1..] == [2] && [2][1..] == []; }
    UpdateActionCases(s.pool, 1, op, WithStage(Completed), PairEnv(op));
    assert Restore(map[], map[]) == map[] && s.pool.workers[1].running - {op} == map[];
    assert s.pool.workers[1].Finish(op, false).0 == NewWorker(map[], 0);
    assert s.pool.workers[1 := NewWorker(map[], 0)] == PAIR.pool.workers;
  }

  /** No operation is looked for twice. */
  predicate FreshOperations(moves: seq<Move>) {
    forall i, j :: 0 <= i < j < |moves| && moves[i].Look? && moves[j].Look? ==> moves[i].op != moves[j].op
  }

  predicate OperationsBelow(moves: seq<Move>, n: nat) {
    forall i :: 0 <= i < |moves| && moves[i].Look? ==> (moves[i].op as int) < n
  }

  lemma PlayCons(s: Engine, strategy: Strategy, m: Move, rest: seq<Move>, w: WorkerId)
    ensures var moves, t := [m] + rest, Do(s, strategy, m);
      && (IsPlay(s, strategy, moves) <==> Allowed(s, m) && IsPlay(t, strategy, rest))
      && Hands(moves) == (if m.Hand? then 1 else 0) + Hands(rest)
      && (Waits(s, strategy, moves, w) <==>
            LeftAlone(s, m, w) && (m.Look? ==> s.pool.Eligible(w, m.demand)) && Waits(t, strategy, rest, w))
      && (Picks(s, strategy, moves, w) <==>
            (m.Look? && Find(s.pool, strategy, m.demand) == Some(w)) || Picks(t, strategy, rest, w))
  {
    assert ([m] + rest)[1..] == rest;
  }

  lemma RoundIsFresh(op: OperationId, a: Move, b: Move, rest: seq<Move>, n: nat)
    requires n == op as int + 1 && !a.Look? && !b.Look? && FreshOperations(rest) && OperationsBelow(rest, n - 1)
    ensures var moves := [Look(op, map[])] + ([a] + ([b] + rest));
      FreshOperations(moves) && OperationsBelow(moves, n)
  {
    var moves := [Look(op, map[])] + ([a] + ([b] + rest));
    assert forall i :: 3 <= i < |moves| ==> moves[i] == rest[i - 3];
  }

  /** Under the most-recently-used strategy there is no such bound: for every `n` there is a
      play of `n` dispatches of new operations, each completed before the next one, throughout
      which worker 2 is eligible and never picked. */
  lemma {:induction false} MostRecentlyUsedStarves(n: nat) returns (moves: seq<Move>)
    ensures IsPlay(PAIR, MostRecentlyUsed, moves) && Hands(moves) == n
    ensures FreshOperations(moves) && OperationsBelow(moves, n)
    ensures Waits(PAIR, MostRecentlyUsed, moves, 2) && !Picks(PAIR, MostRecentlyUsed, moves, 2)
  {
    moves := [];
    if n > 0 {
      var op := (n - 1) as OperationId;
      var rest := MostRecentlyUsedStarves(n - 1);
      var hand := Hand(true, PairEnv(op));
      FrontIsDispatched(op);
      FrontCompletes(op);
      PlayCons(BusyPair(op), MostRecentlyUsed, Finished(op), rest, 2);
      PlayCons(Do(PAIR, MostRecentlyUsed, Look(op, map[])), MostRecentlyUsed, hand, [Finished(op)] + rest, 2);
      PlayCons(PAIR, MostRecentlyUsed, Look(op, map[]), [hand] + ([Finished(op)] + rest), 2);
      moves := [Look(op, map[])] + ([hand] + ([Finished(op)] + rest));
      RoundIsFresh(op, hand, Finished(op), rest, n);
    }
  }
}

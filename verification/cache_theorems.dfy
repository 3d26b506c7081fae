/** What callers of the coalescing cache lookup can rely on over whole runs, and the one
    interleaving in which they cannot. */
module CacheTheorems {
  import opened Sequences
  import opened CacheLookup
  import opened CacheInvariant

  ghost predicate IsRun(s: State, steps: seq<Step>)
    decreases |steps|
  {
    steps != [] ==> Enabled(s, steps[0]) && IsRun(Apply(s, steps[0]), steps[1..])
  }

  ghost function Exec(s: State, steps: seq<Step>): State
    requires IsRun(s, steps)
    decreases |steps|
  {
    if steps == [] then s else Exec(Apply(s, steps[0]), steps[1..])
  }

  lemma InitialInv()
    ensures Inv(INITIAL)
  {
    assert forall at :: ListAt(INITIAL.prog, at) == [];
    assert forall at :: FiledAt(INITIAL, at);
  }

  lemma {:induction false} RunKeepsInv(s: State, steps: seq<Step>)
    requires Inv(s) && IsRun(s, steps)
    ensures Inv(Exec(s, steps))
    decreases |steps|
  {
    if steps != [] {
      EveryStepKeepsInv(s, steps[0]);
      RunKeepsInv(Apply(s, steps[0]), steps[1..]);
    }
  }

  // ------------------------------------------------------ nobody is orphaned

  ghost predicate AllEnded(s: State) {
    forall g :: 0 <= g < |s.prog.tasks| ==> s.prog.tasks[g].phase.Ended?
  }

  lemma AnEntryHasALiveTask(p: Program)
    requires Owned(p)
    ensures p.inflight != map[] ==> exists g :: 0 <= g < |p.tasks| && !p.tasks[g].phase.Ended?
  {
    if p.inflight != map[] {
      var k :| k in p.inflight;
      assert EntryOwned(p, k);
    }
  }

  /** In every interleaving, tasks that die included: once all tasks have ended, the map is
      empty and every request was answered or saw its channel close. */
  lemma NobodyIsOrphaned(steps: seq<Step>)
    requires IsRun(INITIAL, steps) && AllEnded(Exec(INITIAL, steps))
    ensures var s := Exec(INITIAL, steps);
      && s.prog.inflight == map[]
      && forall c :: c in s.hist.requests ==> c in s.hist.place && (c in s.hist.answered) != (s.hist.place[c] == HungUp)
  {
    InitialInv();
    RunKeepsInv(INITIAL, steps);
    var s := Exec(INITIAL, steps);
    AnEntryHasALiveTask(s.prog);
    forall c | c in s.hist.requests ensures c in s.hist.place && (c in s.hist.answered) != (s.hist.place[c] == HungUp) {
      assert Fair(s, c) && IsFound(s, c);
    }
  }

  lemma NotPending(s: State, g: nat, c: Chan)
    requires Inv(s) && g < |s.prog.tasks| && c in s.hist.place && !s.hist.place[c].InMap?
    ensures !Holds(Pending(s.prog, g), c)
  {
    var at := InMap(s.prog.tasks[g].key);
    assert FiledAt(s, at);
    Elsewhere(s, at, c);
  }

  /** A reply, and the closing of a channel, is final: nobody is answered twice. */
  lemma RepliesAreFinal(s: State, step: Step, c: Chan)
    requires Inv(s) && Enabled(s, step) && c in s.hist.place && (s.hist.place[c].Answered? || s.hist.place[c].HungUp?)
    ensures var t := Apply(s, step);
      && c in t.hist.place && t.hist.place[c] == s.hist.place[c]
      && (c in t.hist.answered <==> c in s.hist.answered)
      && (c in s.hist.answered ==> t.hist.answered[c] == s.hist.answered[c])
  {
    match step
    case DoTake(g, lookup) => NotPending(s, g, c);
    case DoDropGuard(g) => NotPending(s, g, c);
    case DoSend(g, answer) =>
      assert FiledAt(s, Drained(g));
      assert IsFiled(s, Drained(g), s.prog.tasks[g].phase.left[0]);
    case DoDie(g, f) =>
      assert FiledAt(s, Drained(g));
      Elsewhere(s, Drained(g), c);
    case DoEnlist(_, _, _) =>
    case DoBypass(_, _, _) =>
    case DoReturn(_) =>
  }

  // ----------------------------------------------------- who is never answered

  predicate NobodyHungUp(s: State) {
    forall c :: c in s.hist.place ==> !s.hist.place[c].HungUp?
  }

  /** A guard is dropped while the map has an entry for its key. */
  predicate Steals(s: State, step: Step) {
    step.DoDropGuard? && step.g < |s.prog.tasks| && s.prog.tasks[step.g].key in s.prog.inflight
  }

  /** A task dies while it still has somebody to answer. */
  predicate Abandons(s: State, step: Step) {
    && step.DoDie? && step.g < |s.prog.tasks|
    && s.prog.tasks[step.g].phase.Replying? && s.prog.tasks[step.g].phase.left != []
  }

  ghost predicate EverLoses(s: State, steps: seq<Step>)
    requires IsRun(s, steps)
    decreases |steps|
  {
    steps != [] &&
      (Steals(s, steps[0]) || Abandons(s, steps[0]) || EverLoses(Apply(s, steps[0]), steps[1..]))
  }

  predicate Deathless(steps: seq<Step>) {
    forall i :: 0 <= i < |steps| ==> !steps[i].DoDie?
  }

  lemma StepHangsUpExactly(s: State, step: Step)
    requires Inv(s) && Enabled(s, step) && NobodyHungUp(s)
    ensures NobodyHungUp(Apply(s, step)) <==> !Steals(s, step) && !Abandons(s, step)
  {
    if Abandons(s, step) {
      var w := s.prog.tasks[step.g].phase.left[0];
      assert FiledAt(s, Drained(step.g));
      assert IsFiled(s, Drained(step.g), ListAt(s.prog, Drained(step.g))[0]);
      assert Apply(s, step).hist.place[w.chan] == HungUp;
    }
    if Steals(s, step) {
      var k := s.prog.tasks[step.g].key;
      assert EntryOwned(s.prog, k);
      var w := s.prog.inflight[k].waiters[0];
      assert FiledAt(s, InMap(k));
      assert IsFiled(s, InMap(k), ListAt(s.prog, InMap(k))[0]);
      assert Apply(s, step).hist.place[w.chan] == HungUp;
    }
  }

  lemma {:induction false} HungUpStays(s: State, steps: seq<Step>)
    requires Inv(s) && IsRun(s, steps) && !NobodyHungUp(s)
    ensures !NobodyHungUp(Exec(s, steps))
    decreases |steps|
  {
    if steps != [] {
      var c :| c in s.hist.place && s.hist.place[c].HungUp?;
      RepliesAreFinal(s, steps[0], c);
      EveryStepKeepsInv(s, steps[0]);
      HungUpStays(Apply(s, steps[0]), steps[1..]);
    }
  }

  /** Over all runs: some caller is left without a reply exactly if at some moment a guard is
      dropped while the map has an entry for its key, or a task dies with somebody left to
      answer. */
  lemma {:induction false} UnansweredExactly(s: State, steps: seq<Step>)
    requires Inv(s) && IsRun(s, steps) && NobodyHungUp(s)
    ensures NobodyHungUp(Exec(s, steps)) <==> !EverLoses(s, steps)
    decreases |steps|
  {
    if steps != [] {
      var next := Apply(s, steps[0]);
      StepHangsUpExactly(s, steps[0]);
      EveryStepKeepsInv(s, steps[0]);
      if NobodyHungUp(next) {
        UnansweredExactly(next, steps[1..]);
      } else {
        HungUpStays(next, steps[1..]);
      }
    }
  }

  /** Every entry belongs to the last task for its key, and tasks leave their lookup with an
      outcome. */
  ghost predicate InTurn(p: Program) {
    && (forall k, g :: k in p.inflight && 0 <= g < |p.tasks| && p.tasks[g].key == k ==> g <= p.inflight[k].task)
    && (forall g :: 0 <= g < |p.tasks| && !p.tasks[g].phase.Looking? ==> p.tasks[g].lookup.Some?)
  }

  lemma StepKeepsTurn(s: State, step: Step)
    requires Inv(s) && Enabled(s, step) && !step.DoDie? && InTurn(s.prog)
    ensures InTurn(Apply(s, step).prog)
  {
    var p, q := s.prog, Apply(s, step).prog;
    forall k, g | k in q.inflight && 0 <= g < |q.tasks| && q.tasks[g].key == k ensures g <= q.inflight[k].task {
      if k in p.inflight { assert EntryOwned(p, k); }
    }
  }

  lemma {:induction false} DeathlessIsInTurn(s: State, steps: seq<Step>)
    requires Inv(s) && IsRun(s, steps) && Deathless(steps) && InTurn(s.prog)
    ensures InTurn(Exec(s, steps).prog)
    decreases |steps|
  {
    if steps != [] {
      EveryStepKeepsInv(s, steps[0]);
      assert !steps[0].DoDie? && Deathless(steps[1..]);
      StepKeepsTurn(s, steps[0]);
      DeathlessIsInTurn(Apply(s, steps[0]), steps[1..]);
    }
  }

  /** If no task dies, an entry that a guard finds under its key is always that of a later
      request, whose own task is still looking. */
  lemma StolenEntryIsLater(steps: seq<Step>, g: nat)
    requires IsRun(INITIAL, steps) && Deathless(steps)
    requires Enabled(Exec(INITIAL, steps), DoDropGuard(g)) && Steals(Exec(INITIAL, steps), DoDropGuard(g))
    ensures var p := Exec(INITIAL, steps).prog;
      var later := p.inflight[p.tasks[g].key].task;
      g < later < |p.tasks| && p.tasks[later].phase.Looking?
  {
    InitialInv();
    RunKeepsInv(INITIAL, steps);
    DeathlessIsInTurn(INITIAL, steps);
    var p := Exec(INITIAL, steps).prog;
    assert EntryOwned(p, p.tasks[g].key);
  }

  /** A new entry is inserted for a key whose earlier task has removed its entry and still
      has to drop its guard. */
  predicate InWindow(s: State, step: Step) {
    step.DoEnlist? && step.k !in s.prog.inflight &&
    exists g ::
      && 0 <= g < |s.prog.tasks| && s.prog.tasks[g].key == step.k
      && (s.prog.tasks[g].phase.Replying? || s.prog.tasks[g].phase.Unwinding?)
  }

  ghost predicate Calm(s: State, steps: seq<Step>)
    requires IsRun(s, steps)
    decreases |steps|
  {
    steps != [] ==> !InWindow(s, steps[0]) && !steps[0].DoDie? && Calm(Apply(s, steps[0]), steps[1..])
  }

  /** In calm runs, a task that is looking still owns the entry of its key, and no task that
      is past its removal has its key in the map. */
  ghost predicate Exclusive(p: Program) {
    forall g :: 0 <= g < |p.tasks| ==>
      && (p.tasks[g].phase.Looking? ==> p.tasks[g].key in p.inflight && p.inflight[p.tasks[g].key].task == g)
      && (p.tasks[g].phase.Replying? || p.tasks[g].phase.Unwinding? ==> p.tasks[g].key !in p.inflight)
  }

  lemma CalmKeepsExclusive(s: State, step: Step)
    requires Inv(s) && Exclusive(s.prog) && Enabled(s, step) && !InWindow(s, step) && !step.DoDie?
    ensures Exclusive(Apply(s, step).prog) && !Steals(s, step)
  {
    match step
    case DoEnlist(c, op, k) =>
      var q := EnlistIn(s.prog, Waiter(c, op), k);
      forall g | 0 <= g < |q.tasks|
        ensures q.tasks[g].phase.Looking? ==> q.tasks[g].key in q.inflight && q.inflight[q.tasks[g].key].task == g
        ensures q.tasks[g].phase.Replying? || q.tasks[g].phase.Unwinding? ==> q.tasks[g].key !in q.inflight
      {
        if g < |s.prog.tasks| { assert q.tasks[g] == s.prog.tasks[g]; }
      }
    case _ =>
  }

  /** Exactly-once reply: if no request arrives between a task's removal and the drop of its
      guard, and no task dies, then nobody is left without a reply; once all tasks have ended
      every cachable request has its one reply. */
  lemma {:induction false} CalmRunsAnswerEveryone(s: State, steps: seq<Step>)
    requires Inv(s) && Exclusive(s.prog) && NobodyHungUp(s) && IsRun(s, steps) && Calm(s, steps)
    ensures var t := Exec(s, steps);
      NobodyHungUp(t) && (AllEnded(t) ==> t.hist.answered.Keys == t.hist.requests.Keys)
    decreases |steps|
  {
    if steps == [] {
      AnEntryHasALiveTask(s.prog);
      if AllEnded(s) {
        forall c ensures c in s.hist.answered <==> c in s.hist.requests {
          assert Fair(s, c);
          if c in s.hist.requests {
            assert IsFound(s, c);
          }
        }
      }
    } else {
      StepHangsUpExactly(s, steps[0]);
      CalmKeepsExclusive(s, steps[0]);
      EveryStepKeepsInv(s, steps[0]);
      CalmRunsAnswerEveryone(Apply(s, steps[0]), steps[1..]);
    }
  }

  /** The first task has answered its only caller and not dropped its guard. */
  ghost predicate HalfWay(s: State, k: Key, result: int) {
    && s.prog == Program(map[], [Task(k, Some(Hit(result)), Replying([]))])
    && 2 !in s.hist.requests && 2 !in s.hist.direct && 2 !in s.hist.answered
  }

  lemma FirstHalf(k: Key, op1: ClientOperation, result: int, answer: Upstream)
    ensures var a, b, c := DoEnlist(1, op1, k), DoTake(0, Hit(result)), DoSend(0, answer);
      && Enabled(INITIAL, a)
      && Enabled(Apply(INITIAL, a), b)
      && Enabled(Apply(Apply(INITIAL, a), b), c)
      && HalfWay(Apply(Apply(Apply(INITIAL, a), b), c), k, result)
  {
    var s1 := Apply(INITIAL, DoEnlist(1, op1, k));
    assert s1.prog == Program(map[k := Entry(0, [Waiter(1, op1)])], [Task(k, None, Looking)]);
    var s2 := Apply(s1, DoTake(0, Hit(result)));
    assert s2.prog.inflight == map[] && s2.prog.tasks == [Task(k, Some(Hit(result)), Replying([Waiter(1, op1)]))];
    assert [Waiter(1, op1)][1..] == [];
  }

  lemma Then(s: State, step: Step, rest: seq<Step>)
    requires Enabled(s, step) && IsRun(Apply(s, step), rest)
    ensures IsRun(s, [step] + rest) && Exec(s, [step] + rest) == Exec(Apply(s, step), rest)
  {
    assert ([step] + rest)[1..] == rest;
  }

  lemma LastHalf(s3: State, k: Key, op2: ClientOperation, result: int)
    requires HalfWay(s3, k, result)
    ensures var steps := [DoEnlist(2, op2, k)] + ([DoReturn(0)] + ([DoDropGuard(0)] + []));
      IsRun(s3, steps) &&
      var s := Exec(s3, steps);
      && 2 in s.hist.place && s.hist.place[2] == HungUp && 2 !in s.hist.answered
      && |s.prog.tasks| == 2 && s.prog.tasks[1] == Task(k, None, Looking)
  {
    var d, e, f := DoEnlist(2, op2, k), DoReturn(0), DoDropGuard(0);
    var s4 := Apply(s3, d);
    var s5 := Apply(s4, e);
    assert s5.prog.inflight[k].waiters[0].chan == 2;
    assert Holds(Pending(s5.prog, 0), 2);
    Then(s5, f, []);
    Then(s4, e, [f] + []);
    Then(s3, d, [e] + ([f] + []));
  }

  /** The interleaving that loses a reply: a request for the key arrives after the first task
      has removed its entry and before it drops its guard. Its caller sees the channel close
      although no task died and its own lookup is still under way. */
  lemma GuardStealsALaterRequest(k: Key, op1: ClientOperation, op2: ClientOperation, result: int, answer: Upstream)
    returns (steps: seq<Step>)
    ensures IsRun(INITIAL, steps) && Deathless(steps)
    ensures var s := Exec(INITIAL, steps);
      && 2 in s.hist.place && s.hist.place[2] == HungUp && 2 !in s.hist.answered
      && |s.prog.tasks| == 2 && s.prog.tasks[1] == Task(k, None, Looking)
  {
    var a, b, c := DoEnlist(1, op1, k), DoTake(0, Hit(result)), DoSend(0, answer);
    var d, e, f := DoEnlist(2, op2, k), DoReturn(0), DoDropGuard(0);
    steps := [a] + ([b] + ([c] + ([d] + ([e] + ([f] + [])))));
    FirstHalf(k, op1, result, answer);
    var s1 := Apply(INITIAL, a);
    var s2 := Apply(s1, b);
    LastHalf(Apply(s2, c), k, op2, result);
    Then(s2, c, [d] + ([e] + ([f] + [])));
    Then(s1, b, [c] + ([d] + ([e] + ([f] + []))));
    Then(INITIAL, a, [b] + ([c] + ([d] + ([e] + ([f] + [])))));
  }

  // ---------------------------------------------------------------- fidelity

  /** In every interleaving: a reply carries the caller's own operation id and is about the
      key it asked for; callers drained by the same removal get the same outcome (the same
      cached result, the same error, or each its own forwarded action); an action is forwarded
      at most once, and that of an answered caller exactly if its reply says so. */
  lemma RepliesAreFaithful(steps: seq<Step>, c: Chan, d: Chan)
    requires IsRun(INITIAL, steps) && c in Exec(INITIAL, steps).hist.answered && d in Exec(INITIAL, steps).hist.answered
    ensures var s := Exec(INITIAL, steps); var r := s.hist.answered[c];
      && c in s.hist.requests && c in s.hist.taker && s.hist.taker[c] < |s.prog.tasks|
      && s.prog.tasks[s.hist.taker[c]].key == s.hist.requests[c].key
      && (r.FromCache? || r.Forwarded? ==> r.op == s.hist.requests[c].op)
    ensures var s := Exec(INITIAL, steps); var q, r := s.hist.answered[c], s.hist.answered[d];
      c in s.hist.taker && d in s.hist.taker && s.hist.taker[c] == s.hist.taker[d] ==>
        && (q.FromCache? ==> r.FromCache? && r.result == q.result)
        && (q.Failure? ==> r == q)
        && (q.Forwarded? ==> r.Forwarded?)
    ensures var s := Exec(INITIAL, steps);
      NoDup(s.hist.forwards) && (c in s.hist.forwards <==> s.hist.answered[c].Forwarded?)
  {
    InitialInv();
    RunKeepsInv(INITIAL, steps);
    var s := Exec(INITIAL, steps);
    assert Fair(s, c) && Fair(s, d);
  }

  /** What the steps of a run say: what a caller asked for, and what a task's lookup gave. */
  function Asked(steps: seq<Step>, c: Chan): Option<Request>
    decreases |steps|
  {
    if steps == [] then None
    else if steps[0].DoEnlist? && steps[0].c == c then Some(Request(steps[0].op, steps[0].k))
    else Asked(steps[1..], c)
  }

  function Looked(steps: seq<Step>, g: nat): Option<Lookup>
    decreases |steps|
  {
    if steps == [] then None
    else if steps[0].DoTake? && steps[0].g == g then Some(steps[0].lookup)
    else Looked(steps[1..], g)
  }

  /** The step answers `c`. */
  predicate SendsTo(s: State, step: Step, c: Chan) {
    step.DoSend? && CanSend(s.prog, step.g) && s.prog.tasks[step.g].phase.left[0].chan == c
  }

  /** The answer of the scheduler behind the cache in the step that answers `c`. */
  ghost function Given(s: State, steps: seq<Step>, c: Chan): Option<Upstream>
    requires IsRun(s, steps)
    decreases |steps|
  {
    if steps == [] then None
    else if SendsTo(s, steps[0], c) then Some(steps[0].answer)
    else Given(Apply(s, steps[0]), steps[1..], c)
  }

  lemma {:induction false} RequestsAreAsked(s: State, steps: seq<Step>, c: Chan)
    requires IsRun(s, steps)
    ensures var asked := if c in s.hist.requests then Some(s.hist.requests[c]) else Asked(steps, c);
      var requests := Exec(s, steps).hist.requests;
      if c in requests then asked == Some(requests[c]) else asked == None
    decreases |steps|
  {
    if steps != [] { RequestsAreAsked(Apply(s, steps[0]), steps[1..], c); }
  }

  lemma {:induction false} LookupsAreLooked(s: State, steps: seq<Step>, g: nat)
    requires Inv(s) && IsRun(s, steps) && g < |Exec(s, steps).prog.tasks|
    ensures Exec(s, steps).prog.tasks[g].lookup ==
      if g < |s.prog.tasks| && s.prog.tasks[g].lookup.Some? then s.prog.tasks[g].lookup else Looked(steps, g)
    decreases |steps|
  {
    if steps != [] {
      EveryStepKeepsInv(s, steps[0]);
      LookupsAreLooked(Apply(s, steps[0]), steps[1..], g);
    } else {
      assert TaskOk(s.prog.tasks[g]);
    }
  }

  /** What is known about an answered request does not change. */
  ghost predicate KeepsAnswer(s: State, t: State, c: Chan)
    requires c in s.hist.answered
  {
    && c in t.hist.answered && t.hist.answered[c] == s.hist.answered[c]
    && c in s.hist.taker && c in t.hist.taker && t.hist.taker[c] == s.hist.taker[c]
    && s.hist.taker[c] < |s.prog.tasks| && s.prog.tasks[s.hist.taker[c]].lookup.Some?
    && s.hist.taker[c] < |t.prog.tasks| && t.prog.tasks[s.hist.taker[c]].lookup == s.prog.tasks[s.hist.taker[c]].lookup
    && c in s.hist.requests && c in t.hist.requests && t.hist.requests[c] == s.hist.requests[c]
  }

  lemma StepKeepsAnswer(s: State, step: Step, c: Chan)
    requires Inv(s) && Enabled(s, step) && c in s.hist.answered
    ensures KeepsAnswer(s, Apply(s, step), c)
  {
    assert Fair(s, c);
    RepliesAreFinal(s, step, c);
    if step.DoTake? { NotPending(s, step.g, c); }
    assert TaskOk(s.prog.tasks[s.hist.taker[c]]);
  }

  lemma {:induction false} AnswerStays(s: State, steps: seq<Step>, c: Chan)
    requires Inv(s) && IsRun(s, steps) && c in s.hist.answered
    ensures KeepsAnswer(s, Exec(s, steps), c)
    decreases |steps|
  {
    if steps == [] {
      assert Fair(s, c);
    } else {
      StepKeepsAnswer(s, steps[0], c);
      EveryStepKeepsInv(s, steps[0]);
      AnswerStays(Apply(s, steps[0]), steps[1..], c);
    }
  }

  ghost predicate ToldBy(s: State, c: Chan, answer: Upstream) {
    && c in s.hist.answered && c in s.hist.taker && c in s.hist.requests && s.hist.taker[c] < |s.prog.tasks|
    && s.prog.tasks[s.hist.taker[c]].lookup.Some?
    && Tells(s.hist.answered[c], s.prog.tasks[s.hist.taker[c]].lookup.value, s.hist.requests[c].op, answer)
  }

  lemma SendTells(s: State, step: Step, c: Chan)
    requires Inv(s) && Enabled(s, step) && SendsTo(s, step, c)
    ensures ToldBy(Apply(s, step), c, step.answer)
  {
    assert FiledAt(s, Drained(step.g));
    assert IsFiled(s, Drained(step.g), ListAt(s.prog, Drained(step.g))[0]);
    assert Fair(s, c);
  }

  lemma {:induction false} AnsweredIsTold(s: State, steps: seq<Step>, c: Chan)
    requires Inv(s) && IsRun(s, steps) && c !in s.hist.answered && c in Exec(s, steps).hist.answered
    ensures Given(s, steps, c).Some? && ToldBy(Exec(s, steps), c, Given(s, steps, c).value)
    decreases |steps|
  {
    var t := Apply(s, steps[0]);
    EveryStepKeepsInv(s, steps[0]);
    if SendsTo(s, steps[0], c) {
      SendTells(s, steps[0], c);
      AnswerStays(t, steps[1..], c);
    } else {
      AnsweredIsTold(t, steps[1..], c);
    }
  }

  /** In every interleaving, what an answered caller is told is determined by the steps: by what
      it asked for, by the outcome of the lookup that took its request, which was for its key,
      and by the answer to the action that was forwarded for it. */
  lemma ToldAsAsked(steps: seq<Step>, c: Chan)
    requires IsRun(INITIAL, steps) && c in Exec(INITIAL, steps).hist.answered
    ensures var s := Exec(INITIAL, steps);
      && Asked(steps, c).Some? && c in s.hist.taker && s.hist.taker[c] < |s.prog.tasks|
      && s.prog.tasks[s.hist.taker[c]].key == Asked(steps, c).value.key
      && Looked(steps, s.hist.taker[c]).Some? && Given(INITIAL, steps, c).Some?
      && Tells(s.hist.answered[c], Looked(steps, s.hist.taker[c]).value, Asked(steps, c).value.op,
               Given(INITIAL, steps, c).value)
  {
    var s := Exec(INITIAL, steps);
    InitialInv();
    RunKeepsInv(INITIAL, steps);
    AnsweredIsTold(INITIAL, steps, c);
    RequestsAreAsked(INITIAL, steps, c);
    LookupsAreLooked(INITIAL, steps, s.hist.taker[c]);
    assert Fair(s, c);
  }

  /** Nothing but the record of uncachable requests knows the request. */
  ghost predicate Apart(s: State, c: Chan) {
    && c !in s.hist.requests && c !in s.hist.place && c !in s.hist.taker
    && c !in s.hist.answered && c !in s.hist.forwards
    && forall at :: !Holds(ListAt(s.prog, at), c)
  }

  lemma UnknownIsApart(s: State, c: Chan)
    requires Inv(s) && c !in s.hist.requests
    ensures Apart(s, c)
  {
    assert Fair(s, c);
    forall at ensures !Holds(ListAt(s.prog, at), c) {
      assert FiledAt(s, at);
      forall i | 0 <= i < |ListAt(s.prog, at)| ensures ListAt(s.prog, at)[i].chan != c {
        assert IsFiled(s, at, ListAt(s.prog, at)[i]);
      }
    }
  }

  /** What the steps of a run say about an uncachable request: the answer to its own action. */
  function DirectReply(steps: seq<Step>, c: Chan): Option<Reply>
    decreases |steps|
  {
    if steps == [] then None
    else if steps[0].DoBypass? && steps[0].c == c then Some(Forwarded(steps[0].op, steps[0].answer))
    else DirectReply(steps[1..], c)
  }

  predicate Separate(s: State) { s.hist.direct.Keys !! s.hist.requests.Keys }

  lemma {:induction false} DirectOverARun(s: State, steps: seq<Step>, c: Chan)
    requires IsRun(s, steps) && Separate(s)
    ensures var direct := Exec(s, steps).hist.direct;
      var reply := if c in s.hist.direct then Some(s.hist.direct[c]) else DirectReply(steps, c);
      if c in direct then reply == Some(direct[c]) else reply == None
    ensures Separate(Exec(s, steps))
    decreases |steps|
  {
    if steps != [] { DirectOverARun(Apply(s, steps[0]), steps[1..], c); }
  }

  /** In every interleaving: exactly the uncachable requests are on the record of such requests,
      each for good with the answer to its own action, and no other part of the state ever
      knows them. */
  lemma UncachableIsNeverCoalesced(steps: seq<Step>, c: Chan)
    requires IsRun(INITIAL, steps)
    ensures var s, reply := Exec(INITIAL, steps), DirectReply(steps, c);
      if c in s.hist.direct then reply == Some(s.hist.direct[c]) && Apart(s, c) else reply == None
  {
    var s := Exec(INITIAL, steps);
    InitialInv();
    RunKeepsInv(INITIAL, steps);
    DirectOverARun(INITIAL, steps, c);
    if c in s.hist.direct { UnknownIsApart(s, c); }
  }

  /** The run without its uncachable requests. */
  function Cachable(steps: seq<Step>): seq<Step>
    decreases |steps|
  {
    if steps == [] then [] else (if steps[0].DoBypass? then [] else [steps[0]]) + Cachable(steps[1..])
  }

  function Forgetting(s: State): State { s.(hist := s.hist.(direct := map[])) }

  /** Uncachable requests do not disturb the others: without them there is the same run, and it
      ends in the same state except for their record. */
  lemma {:induction false} UncachableDisturbsNobody(s: State, steps: seq<Step>)
    requires IsRun(s, steps)
    ensures IsRun(Forgetting(s), Cachable(steps))
    ensures Exec(Forgetting(s), Cachable(steps)) == Forgetting(Exec(s, steps))
    decreases |steps|
  {
    if steps != [] {
      var rest := Cachable(steps[1..]);
      UncachableDisturbsNobody(Apply(s, steps[0]), steps[1..]);
      if steps[0].DoBypass? {
        assert Cachable(steps) == rest;
        assert Forgetting(Apply(s, steps[0])) == Forgetting(s);
      } else {
        assert Enabled(Forgetting(s), steps[0]);
        assert Apply(Forgetting(s), steps[0]) == Forgetting(Apply(s, steps[0]));
        Then(Forgetting(s), steps[0], rest);
      }
    }
  }
}

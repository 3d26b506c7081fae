/** `CacheLookupScheduler` as an object: the shared map is pushed to, inserted into and removed
    from in place, and a task answers its waiters in a loop. */
module CacheSchedulers {
  import opened Sequences
  import opened CacheLookup
  import opened CacheInvariant

  /** All replies of a task in a row; `answers` are those of the scheduler behind the cache. */
  function SendAll(s: State, g: nat, answers: seq<Upstream>): (t: State)
    requires g < |s.prog.tasks| && s.prog.tasks[g].phase.Replying? && s.prog.tasks[g].lookup.Some?
    requires |answers| == |s.prog.tasks[g].phase.left|
    ensures |t.prog.tasks| == |s.prog.tasks| && t.prog.tasks[g].phase == Replying([])
    decreases |answers|
  {
    if answers == [] then s else SendAll(Send(s, g, answers[0]), g, answers[1..])
  }

  /** Neither the replies nor the places tell the two states apart for this request. */
  predicate SameFor(s: State, t: State, c: Chan) {
    var g, h := s.hist, t.hist;
    && (if c in g.answered then c in h.answered && h.answered[c] == g.answered[c] else c !in h.answered)
    && (if c in g.place then c in h.place && h.place[c] == g.place[c] else c !in h.place)
  }

  lemma SameForTransitive(s: State, t: State, u: State, c: Chan)
    requires SameFor(s, t, c) && SameFor(t, u, c)
    ensures SameFor(s, u, c)
  {
  }

  /** The i-th waiter has the reply for the i-th answer. */
  predicate AllAnswered(t: State, ws: seq<Waiter>, lookup: Lookup, answers: seq<Upstream>)
    requires |answers| == |ws|
  {
    forall i :: 0 <= i < |ws| ==>
      ws[i].chan in t.hist.answered && Tells(t.hist.answered[ws[i].chan], lookup, ws[i].op, answers[i])
  }

  /** The fan-out answers exactly the waiters that were left, the i-th with the reply for the
      i-th answer, and changes nothing about anybody else. */
  lemma {:induction false} SendAllAnswersEveryone(s: State, g: nat, answers: seq<Upstream>)
    requires g < |s.prog.tasks| && s.prog.tasks[g].phase.Replying? && s.prog.tasks[g].lookup.Some?
    requires Distinct(s.prog.tasks[g].phase.left) && |answers| == |s.prog.tasks[g].phase.left|
    ensures var t, left, lookup := SendAll(s, g, answers), s.prog.tasks[g].phase.left, s.prog.tasks[g].lookup;
      && t.prog == SetPhase(s.prog, g, Replying([]))
      && AllAnswered(t, left, lookup.value, answers)
      && (forall c :: !Holds(left, c) ==> SameFor(s, t, c))
      && |t.hist.forwards| == |s.hist.forwards| + (if lookup.value.Missing? then |left| else 0)
    decreases |answers|
  {
    var left := s.prog.tasks[g].phase.left;
    if answers == [] {
      assert left == [];
      assert s.prog.tasks[g := s.prog.tasks[g]] == s.prog.tasks;
    } else {
      var next := Send(s, g, answers[0]);
      assert next.prog.tasks[g].phase.left == left[1..];
      SendAllAnswersEveryone(next, g, answers[1..]);
      assert !Holds(left[1..], left[0].chan);
      assert forall c :: !Holds(left, c) ==> !Holds(left[1..], c) && c != left[0].chan by {
        forall c | !Holds(left, c) ensures !Holds(left[1..], c) && c != left[0].chan {
          forall i | 0 <= i < |left[1..]| ensures left[1..][i].chan != c { assert left[i + 1].chan != c; }
        }
      }
    }
  }

  lemma NothingMoves(h: History, g: nat)
    ensures forall to :: Moved(h.place, [], to) == h.place
    ensures Assigned(h.taker, [], g) == h.taker
  {
  }

  lemma ReturnIsAnEmptyDeath(s: State, g: nat)
    requires g < |s.prog.tasks| && s.prog.tasks[g].phase == Replying([])
    ensures Die(s, g, false) == Return(s, g)
  {
    assert Moved(s.hist.place, [], HungUp) == s.hist.place;
  }

  /** The states that an uninterrupted task goes through. */
  function Through(s: State, g: nat, lookup: Lookup, answers: seq<Upstream>): State
    requires Enabled(s, DoTake(g, lookup)) && |answers| == |Pending(s.prog, g)|
  {
    var taken := Take(s, g, lookup);
    DropGuard(if s.prog.tasks[g].key in s.prog.inflight then Return(SendAll(taken, g, answers), g) else taken, g)
  }

  lemma TakeChangesNobodyElse(s: State, g: nat, lookup: Lookup, c: Chan)
    requires Enabled(s, DoTake(g, lookup)) && !Holds(Pending(s.prog, g), c)
    ensures SameFor(s, Take(s, g, lookup), c)
  {
  }

  /** If the map has no entry for the key any more, dropping the guard just ends the lookup task. */
  lemma LastDropEnds(s: State, g: nat)
    requires g < |s.prog.tasks| && s.prog.tasks[g].key !in s.prog.inflight
    ensures DropGuard(s, g) == State(SetPhase(s.prog, g, Ended), s.hist)
  {
    assert Moved(s.hist.place, [], HungUp) == s.hist.place;
    assert s.prog.inflight - {s.prog.tasks[g].key} == s.prog.inflight;
  }

  lemma {:induction false} SendAllKeepsInv(s: State, g: nat, answers: seq<Upstream>)
    requires Inv(s) && g < |s.prog.tasks| && s.prog.tasks[g].phase.Replying? && s.prog.tasks[g].lookup.Some?
    requires |answers| == |s.prog.tasks[g].phase.left|
    ensures Inv(SendAll(s, g, answers))
    decreases |answers|
  {
    if answers != [] {
      EveryStepKeepsInv(s, DoSend(g, answers[0]));
      SendAllKeepsInv(Send(s, g, answers[0]), g, answers[1..]);
    }
  }

  lemma TakenIsAnswered(s: State, g: nat, lookup: Lookup, answers: seq<Upstream>)
    requires Inv(s) && Enabled(s, DoTake(g, lookup)) && |answers| == |Pending(s.prog, g)|
    requires s.prog.tasks[g].key in s.prog.inflight
    ensures var k := s.prog.tasks[g].key;
      var t := Return(SendAll(Take(s, g, lookup), g, answers), g);
      && Inv(t) && t.prog == Program(s.prog.inflight - {k}, s.prog.tasks[g := Task(k, Some(lookup), Unwinding)])
      && AllAnswered(t, Pending(s.prog, g), lookup, answers)
      && forall c :: !Holds(Pending(s.prog, g), c) ==> SameFor(s, t, c)
  {
    var taken := Take(s, g, lookup);
    var sent := SendAll(taken, g, answers);
    assert Distinct(Pending(s.prog, g)) by { assert FiledAt(s, InMap(s.prog.tasks[g].key)); }
    SendAllAnswersEveryone(taken, g, answers);
    assert Inv(Return(sent, g)) by {
      EveryStepKeepsInv(s, DoTake(g, lookup));
      SendAllKeepsInv(taken, g, answers);
      EveryStepKeepsInv(sent, DoReturn(g));
    }
    forall c | !Holds(Pending(s.prog, g), c) ensures SameFor(s, sent, c) {
      TakeChangesNobodyElse(s, g, lookup, c);
      SameForTransitive(s, taken, sent, c);
    }
  }

  lemma RunsThrough(s: State, g: nat, lookup: Lookup, answers: seq<Upstream>)
    requires Inv(s) && Enabled(s, DoTake(g, lookup)) && |answers| == |Pending(s.prog, g)|
    ensures var t, k := Through(s, g, lookup, answers), s.prog.tasks[g].key;
      && Inv(t) && t.prog == Program(s.prog.inflight - {k}, s.prog.tasks[g := Task(k, Some(lookup), Ended)])
      && AllAnswered(t, Pending(s.prog, g), lookup, answers)
      && forall c :: !Holds(Pending(s.prog, g), c) ==> SameFor(s, t, c)
  {
    var taken := Take(s, g, lookup);
    var over := taken;
    if s.prog.tasks[g].key in s.prog.inflight {
      TakenIsAnswered(s, g, lookup, answers);
      over := Return(SendAll(taken, g, answers), g);
    } else {
      EveryStepKeepsInv(s, DoTake(g, lookup));
      forall c | !Holds(Pending(s.prog, g), c) ensures SameFor(s, taken, c) {
        TakeChangesNobodyElse(s, g, lookup, c);
      }
    }
    LastDropEnds(over, g);
    EveryStepKeepsInv(over, DoDropGuard(g));
  }

  class CacheLookupScheduler {
    /** `inflight_cache_checks`. */
    var inflight: map<Key, Entry>
    /** The background tasks spawned so far. */
    var tasks: seq<Task>
    /** What callers asked for and what they were told. */
    var hist: History

    ghost function View(): State reads this { State(Program(inflight, tasks), hist) }

    constructor ()
      ensures View() == INITIAL
    {
      inflight, tasks, hist := map[], [], INITIAL.hist;
    }

    /** The locked part of `inner_add_action`: `subscribe_to_existing_action`, or insert. The
        caller that created the entry gets to spawn its task. */
    method SubscribeOrInsert(c: Chan, op: ClientOperation, k: Key) returns (created: bool)
      modifies this
      ensures View() == Enlist(old(View()), c, op, k) && created == (k !in old(inflight))
    {
      var w := Waiter(c, op);
      created := k !in inflight;
      if created {
        inflight := inflight[k := Entry(|tasks|, [w])];
        tasks := tasks + [Task(k, None, Looking)];
      } else {
        inflight := inflight[k := Entry(inflight[k].task, inflight[k].waiters + [w])];
      }
      hist := hist.(requests := hist.requests[c := Request(op, k)], place := hist.place[c := InMap(k)]);
    }

    /** The uncachable branch of `inner_add_action`. */
    method AddUncachable(c: Chan, op: ClientOperation, answer: Upstream) returns (reply: Reply)
      modifies `hist
      ensures View() == Bypass(old(View()), c, op, answer) && reply == Forwarded(op, answer)
    {
      reply := Forwarded(op, answer);
      hist := hist.(direct := hist.direct[c := reply]);
    }

    /** The lookup task removes the entry for its key when it knows the outcome of its lookup. */
    method RemovePending(g: nat, lookup: Lookup) returns (pending: Option<seq<Waiter>>)
      requires Enabled(View(), DoTake(g, lookup))
      modifies this
      ensures View() == Take(old(View()), g, lookup)
      ensures var k := old(tasks)[g].key;
        pending == if k in old(inflight) then Some(old(inflight)[k].waiters) else None
    {
      var k := tasks[g].key;
      if k in inflight {
        var ws := inflight[k].waiters;
        pending := Some(ws);
        hist := hist.(place := Moved(hist.place, ws, Drained(g)), taker := Assigned(hist.taker, ws, g));
        tasks := tasks[g := Task(k, Some(lookup), Replying(ws))];
      } else {
        pending := None;
        NothingMoves(hist, g);
        tasks := tasks[g := Task(k, Some(lookup), Unwinding)];
      }
      inflight := inflight - {k};
    }

    /** One round of the loops over the pending senders. */
    method ReplyToNext(g: nat, answer: Upstream)
      requires CanSend(View().prog, g)
      modifies `tasks, `hist
      ensures View() == Send(old(View()), g, answer)
    {
      var lookup, left := tasks[g].lookup.value, tasks[g].phase.left;
      var w := left[0];
      if lookup.Missing? {
        hist := hist.(forwards := hist.forwards + [w.chan]);
      }
      hist := hist.(
        answered := hist.answered[w.chan := ReplyFor(lookup, w.op, answer)],
        place := hist.place[w.chan := Answered]);
      tasks := tasks[g := Task(tasks[g].key, tasks[g].lookup, Replying(left[1..]))];
    }

    /** The loops over the pending senders. */
    method ReplyToAll(g: nat, answers: seq<Upstream>)
      requires g < |tasks| && tasks[g].phase.Replying? && tasks[g].lookup.Some? && |answers| == |tasks[g].phase.left|
      modifies `tasks, `hist
      ensures View() == SendAll(old(View()), g, answers)
    {
      var i := 0;
      assert answers[0..] == answers;
      while tasks[g].phase.left != []
        invariant 0 <= i <= |answers| && g < |tasks| && tasks[g].phase.Replying? && tasks[g].lookup.Some?
        invariant |tasks[g].phase.left| == |answers| - i && inflight == old(inflight)
        invariant SendAll(View(), g, answers[i..]) == SendAll(old(View()), g, answers)
        decreases |answers| - i
      {
        assert answers[i..][1..] == answers[i + 1..];
        ReplyToNext(g, answers[i]);
        i := i + 1;
      }
      assert answers[i..] == [];
    }

    /** The end of the lookup task's body, or its death with senders left: they are dropped. */
    method LeaveBody(g: nat, forwarding: bool)
      requires g < |tasks|
      modifies `tasks, `hist
      ensures View() == Die(old(View()), g, forwarding)
    {
      var left := if tasks[g].phase.Replying? then tasks[g].phase.left else [];
      if forwarding && left != [] && tasks[g].lookup == Some(Missing) {
        hist := hist.(forwards := hist.forwards + [left[0].chan]);
      }
      hist := hist.(place := Moved(hist.place, left, HungUp));
      tasks := tasks[g := Task(tasks[g].key, tasks[g].lookup, Unwinding)];
    }

    /** The scope guard. */
    method DropScopeGuard(g: nat)
      requires g < |tasks|
      modifies this
      ensures View() == DropGuard(old(View()), g)
    {
      var k := tasks[g].key;
      hist := hist.(place := Moved(hist.place, if k in inflight then inflight[k].waiters else [], HungUp));
      inflight := inflight - {k};
      tasks := tasks[g := Task(k, tasks[g].lookup, Ended)];
    }

    /** Any step of any interleaving, on the object: it does what `Apply` says and keeps the
        invariant, so the theorems about runs are theorems about the object. */
    method Perform(step: Step)
      requires Inv(View()) && Enabled(View(), step)
      modifies this
      ensures Inv(View()) && View() == Apply(old(View()), step)
    {
      EveryStepKeepsInv(View(), step);
      match step
      case DoEnlist(c, op, k) => var _ := SubscribeOrInsert(c, op, k);
      case DoBypass(c, op, answer) => var _ := AddUncachable(c, op, answer);
      case DoTake(g, lookup) => var _ := RemovePending(g, lookup);
      case DoSend(g, answer) => ReplyToNext(g, answer);
      case DoReturn(g) =>
        ReturnIsAnEmptyDeath(View(), g);
        LeaveBody(g, false);
      case DoDie(g, forwarding) => LeaveBody(g, forwarding);
      case DoDropGuard(g) => DropScopeGuard(g);
    }

    /** The whole body of a background task that nothing interrupts: whoever waits for the key
        gets exactly one reply, for this lookup; nobody else is affected; the entry is
        gone and the lookup task has ended. */
    method RunTask(g: nat, lookup: Lookup, answers: seq<Upstream>)
      requires Inv(View()) && Enabled(View(), DoTake(g, lookup)) && |answers| == |Pending(View().prog, g)|
      modifies this
      ensures Inv(View()) && |tasks| == |old(tasks)| && tasks[g].phase.Ended? && tasks[g].key == old(tasks[g].key)
      ensures inflight == old(inflight) - {tasks[g].key}
      ensures AllAnswered(View(), old(Pending(View().prog, g)), lookup, answers)
      ensures forall c :: !Holds(old(Pending(View().prog, g)), c) ==> SameFor(old(View()), View(), c)
    {
      RunsThrough(View(), g, lookup, answers);
      ghost var through := Through(View(), g, lookup, answers);
      var pending := RemovePending(g, lookup);
      if pending.Some? {
        ReplyToAll(g, answers);
        ReturnIsAnEmptyDeath(View(), g);
        LeaveBody(g, false);
      }
      DropScopeGuard(g);
      assert View() == through;
    }
  }
}

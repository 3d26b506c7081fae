/** First come, first served: callers whose requests are answered by the same lookup are
    answered, and their actions forwarded, in the order in which they asked. */
module CacheOrder {
  import opened Sequences
  import opened CacheLookup
  import opened CacheInvariant
  import opened CacheTheorems

  /** The cachable requests of a run in the order of their arrival. */
  function Arrived(steps: seq<Step>): seq<Chan>
    decreases |steps|
  {
    if steps == [] then []
    else (if steps[0].DoEnlist? then [steps[0].c] else []) + Arrived(steps[1..])
  }

  ghost predicate Before(a: seq<Chan>, c: Chan, d: Chan) {
    exists i, j :: 0 <= i < j < |a| && a[i] == c && a[j] == d
  }

  lemma BeforeSnoc(a: seq<Chan>, x: Chan, c: Chan, d: Chan)
    requires x !in a
    ensures Before(a + [x], c, d) <==> Before(a, c, d) || (c in a && d == x)
  {
    var b := a + [x];
    if Before(b, c, d) {
      var i, j :| 0 <= i < j < |b| && b[i] == c && b[j] == d;
      if j < |a| { assert a[i] == c && a[j] == d; }
    }
    if Before(a, c, d) {
      var i, j :| 0 <= i < j < |a| && a[i] == c && a[j] == d;
      assert b[i] == c && b[j] == d;
    }
    if c in a && d == x {
      var i :| 0 <= i < |a| && a[i] == c;
      assert b[i] == c && b[|a|] == d;
    }
  }

  lemma BeforeIsStrict(a: seq<Chan>, c: Chan, d: Chan)
    requires NoDup(a)
    ensures !(Before(a, c, d) && Before(a, d, c))
    ensures c in a && d in a && c != d ==> Before(a, c, d) || Before(a, d, c)
  {
    if c in a && d in a && c != d {
      var i :| 0 <= i < |a| && a[i] == c;
      var j :| 0 <= j < |a| && a[j] == d;
      assert i < j || j < i;
    }
  }

  ghost predicate InOrder(ws: seq<Waiter>, a: seq<Chan>) {
    forall i, j :: 0 <= i < j < |ws| ==> Before(a, ws[i].chan, ws[j].chan)
  }

  ghost predicate SameTaker(s: State, c: Chan, d: Chan) {
    c in s.hist.taker && d in s.hist.taker && s.hist.taker[c] == s.hist.taker[d]
  }

  /** Of two callers taken by the same task, the later one is not answered before the other,
      and their actions are not forwarded in the other order. */
  ghost predicate IsServed(s: State, a: seq<Chan>, c: Chan, d: Chan) {
    SameTaker(s, c, d) && Before(a, c, d) ==>
      (d in s.hist.answered ==> c in s.hist.answered) && !Before(s.hist.forwards, d, c)
  }

  /** A request that was taken left the map, and hears nothing only from a task that is over. */
  ghost predicate IsTaken(s: State, c: Chan) {
    c in s.hist.taker ==>
      && c in s.hist.place && !s.hist.place[c].InMap? && s.hist.taker[c] < |s.prog.tasks|
      && (s.hist.place[c].HungUp? ==> !s.prog.tasks[s.hist.taker[c]].phase.Replying?)
  }

  ghost predicate Ordered(s: State, a: seq<Chan>) {
    && NoDup(a) && (forall c :: c in a <==> c in s.hist.requests)
    && (forall at :: InOrder(ListAt(s.prog, at), a))
    && (forall c :: IsTaken(s, c))
    && (forall c, d :: IsServed(s, a, c, d))
  }

  // ------------------------------------------------------------------- steps

  lemma EnlistOrdered(s: State, a: seq<Chan>, c: Chan, op: ClientOperation, k: Key)
    requires Inv(s) && Ordered(s, a) && c !in s.hist.requests
    ensures Ordered(Enlist(s, c, op, k), a + [c])
  {
    var t, b := Enlist(s, c, op, k), a + [c];
    NoDupSnoc(a, c);
    forall at ensures InOrder(ListAt(t.prog, at), b) {
      EnlistLists(s, c, op, k, at);
      var before, after := ListAt(s.prog, at), ListAt(t.prog, at);
      assert FiledAt(s, at);
      forall i, j | 0 <= i < j < |after| ensures Before(b, after[i].chan, after[j].chan) {
        BeforeSnoc(a, c, after[i].chan, after[j].chan);
        assert IsFiled(s, at, before[i]);
        if j < |before| { assert Before(a, before[i].chan, before[j].chan); }
      }
    }
    forall x ensures IsTaken(t, x) { assert IsTaken(s, x) && Fair(s, x); }
    forall x, y ensures IsServed(t, b, x, y) {
      assert IsServed(s, a, x, y) && Fair(s, y);
      BeforeSnoc(a, c, x, y);
    }
  }

  /** Whoever a task takes was not answered or forwarded, and whoever it did not take was not
      taken by it before. */
  lemma TakenIsNew(s: State, g: nat, c: Chan)
    requires Inv(s) && g < |s.prog.tasks| && s.prog.tasks[g].phase.Looking?
    ensures Holds(Pending(s.prog, g), c) ==> c !in s.hist.answered && c !in s.hist.forwards
    ensures c in s.hist.taker ==> s.hist.taker[c] != g
  {
    var at := InMap(s.prog.tasks[g].key);
    assert FiledAt(s, at) && Fair(s, c) && TaskOk(s.prog.tasks[g]);
    if Holds(Pending(s.prog, g), c) {
      var i :| 0 <= i < |ListAt(s.prog, at)| && ListAt(s.prog, at)[i].chan == c;
      assert IsFiled(s, at, ListAt(s.prog, at)[i]);
    }
  }

  lemma TakeOrdered(s: State, a: seq<Chan>, g: nat, lookup: Lookup)
    requires Inv(s) && Ordered(s, a) && Enabled(s, DoTake(g, lookup))
    ensures Ordered(Take(s, g, lookup), a)
  {
    var t := Take(s, g, lookup);
    var ws := Pending(s.prog, g);
    assert TaskOk(s.prog.tasks[g]);
    forall at ensures InOrder(ListAt(t.prog, at), a) {
      assert InOrder(ListAt(s.prog, at), a) && InOrder(ListAt(s.prog, InMap(s.prog.tasks[g].key)), a);
    }
    assert FiledAt(s, InMap(s.prog.tasks[g].key));
    forall x ensures IsTaken(t, x) {
      assert IsTaken(s, x) && Fair(s, x);
      if Holds(ws, x) {
        var i :| 0 <= i < |ws| && ws[i].chan == x;
        assert IsFiled(s, InMap(s.prog.tasks[g].key), ws[i]);
      }
    }
    forall x, y ensures IsServed(t, a, x, y) {
      assert IsServed(s, a, x, y) && Fair(s, x) && Fair(s, y);
      TakenIsNew(s, g, x);
      TakenIsNew(s, g, y);
    }
  }

  /** Everybody who asked before the next one to be answered, and was taken with it, has been
      answered; nobody who asked later has been. */
  lemma NextIsFirst(s: State, a: seq<Chan>, g: nat, c: Chan)
    requires Inv(s) && Ordered(s, a) && CanSend(s.prog, g)
    ensures var d := s.prog.tasks[g].phase.left[0].chan;
      && d in s.hist.taker && s.hist.taker[d] == g && d !in s.hist.answered && d !in s.hist.forwards
      && (c in s.hist.taker && s.hist.taker[c] == g && Before(a, c, d) ==> c in s.hist.answered)
      && (c in s.hist.taker && s.hist.taker[c] == g && Before(a, d, c) ==>
            c !in s.hist.answered && c !in s.hist.forwards)
  {
    var left := s.prog.tasks[g].phase.left;
    var d := left[0].chan;
    assert FiledAt(s, Drained(g)) && IsFiled(s, Drained(g), ListAt(s.prog, Drained(g))[0]);
    assert Fair(s, d) && Fair(s, c) && IsTaken(s, c) && IsServed(s, a, c, d) && IsServed(s, a, d, c);
    BeforeIsStrict(a, c, d);
    if c in s.hist.taker && s.hist.taker[c] == g && s.hist.place[c].Drained? {
      assert IsFound(s, c);
      var i :| 0 <= i < |left| && left[i].chan == c;
      assert InOrder(ListAt(s.prog, Drained(g)), a);
      assert i > 0 ==> Before(a, d, c);
    }
  }

  lemma SendServes(s: State, a: seq<Chan>, g: nat, answer: Upstream, x: Chan, y: Chan)
    requires Inv(s) && Ordered(s, a) && CanSend(s.prog, g)
    ensures IsServed(Send(s, g, answer), a, x, y)
  {
    var t, d := Send(s, g, answer), s.prog.tasks[g].phase.left[0].chan;
    assert IsServed(s, a, x, y);
    NextIsFirst(s, a, g, x);
    NextIsFirst(s, a, g, y);
    BeforeSnoc(s.hist.forwards, d, y, x);
  }

  lemma SendOrdered(s: State, a: seq<Chan>, g: nat, answer: Upstream)
    requires Inv(s) && Ordered(s, a) && CanSend(s.prog, g)
    ensures Ordered(Send(s, g, answer), a)
  {
    var t, left := Send(s, g, answer), s.prog.tasks[g].phase.left;
    forall at ensures InOrder(ListAt(t.prog, at), a) {
      assert InOrder(ListAt(s.prog, at), a);
      if at == Drained(g) {
        assert ListAt(t.prog, at) == left[1..];
        forall i, j | 0 <= i < j < |left[1..]| ensures Before(a, left[1..][i].chan, left[1..][j].chan) {
          assert Before(a, left[i + 1].chan, left[j + 1].chan);
        }
      }
    }
    forall x ensures IsTaken(t, x) { assert IsTaken(s, x); NextIsFirst(s, a, g, x); }
    forall x, y ensures IsServed(t, a, x, y) { SendServes(s, a, g, answer, x, y); }
  }

  lemma DieServes(s: State, a: seq<Chan>, g: nat, forwarding: bool, x: Chan, y: Chan)
    requires Inv(s) && Ordered(s, a) && Enabled(s, DoDie(g, forwarding))
    ensures IsServed(Die(s, g, forwarding), a, x, y)
  {
    assert IsServed(s, a, x, y);
    if CanSend(s.prog, g) {
      NextIsFirst(s, a, g, x);
      NextIsFirst(s, a, g, y);
      BeforeSnoc(s.hist.forwards, s.prog.tasks[g].phase.left[0].chan, y, x);
    }
    assert s.hist.forwards + [] == s.hist.forwards;
    assert TaskOk(s.prog.tasks[g]);
  }

  lemma DieOrdered(s: State, a: seq<Chan>, g: nat, forwarding: bool)
    requires Inv(s) && Ordered(s, a) && Enabled(s, DoDie(g, forwarding))
    ensures Ordered(Die(s, g, forwarding), a)
  {
    var t := Die(s, g, forwarding);
    var left := if s.prog.tasks[g].phase.Replying? then s.prog.tasks[g].phase.left else [];
    forall at ensures InOrder(ListAt(t.prog, at), a) { assert InOrder(ListAt(s.prog, at), a); }
    assert FiledAt(s, Drained(g));
    forall x ensures IsTaken(t, x) {
      assert IsTaken(s, x) && Fair(s, x);
      if Holds(left, x) {
        var i :| 0 <= i < |left| && left[i].chan == x;
        assert IsFiled(s, Drained(g), ListAt(s.prog, Drained(g))[i]);
      }
    }
    forall x, y ensures IsServed(t, a, x, y) { DieServes(s, a, g, forwarding, x, y); }
  }

  lemma QuietOrdered(s: State, a: seq<Chan>, step: Step)
    requires Inv(s) && Ordered(s, a) && Enabled(s, step)
    requires step.DoBypass? || step.DoReturn? || step.DoDropGuard?
    ensures Ordered(Apply(s, step), a)
  {
    var t := Apply(s, step);
    forall at ensures InOrder(ListAt(t.prog, at), a) { assert InOrder(ListAt(s.prog, at), a); }
    forall x ensures IsTaken(t, x) {
      assert IsTaken(s, x);
      if step.DoDropGuard? && x in s.hist.taker { NotPending(s, step.g, x); }
    }
    forall x, y ensures IsServed(t, a, x, y) { assert IsServed(s, a, x, y); }
  }

  // -------------------------------------------------------------- whole runs

  function Extended(a: seq<Chan>, step: Step): seq<Chan> {
    if step.DoEnlist? then a + [step.c] else a
  }

  lemma StepOrdered(s: State, a: seq<Chan>, step: Step)
    requires Inv(s) && Ordered(s, a) && Enabled(s, step)
    ensures Ordered(Apply(s, step), Extended(a, step))
  {
    match step
    case DoEnlist(c, op, k) => EnlistOrdered(s, a, c, op, k);
    case DoTake(g, lookup) => TakeOrdered(s, a, g, lookup);
    case DoSend(g, answer) => SendOrdered(s, a, g, answer);
    case DoDie(g, forwarding) => DieOrdered(s, a, g, forwarding);
    case _ => QuietOrdered(s, a, step);
  }

  lemma ArrivedCons(a: seq<Chan>, steps: seq<Step>)
    requires steps != []
    ensures Extended(a, steps[0]) + Arrived(steps[1..]) == a + Arrived(steps)
  {
    if steps[0].DoEnlist? {
      Associate(a, [steps[0].c], Arrived(steps[1..]));
    } else {
      assert Arrived(steps) == Arrived(steps[1..]);
    }
  }

  lemma {:induction false} RunIsOrdered(s: State, a: seq<Chan>, steps: seq<Step>)
    requires Inv(s) && Ordered(s, a) && IsRun(s, steps)
    ensures Ordered(Exec(s, steps), a + Arrived(steps))
    decreases |steps|
  {
    if steps == [] {
      assert a + [] == a;
    } else {
      EveryStepKeepsInv(s, steps[0]);
      StepOrdered(s, a, steps[0]);
      ArrivedCons(a, steps);
      RunIsOrdered(Apply(s, steps[0]), Extended(a, steps[0]), steps[1..]);
    }
  }

  lemma OrderedIsServed(s: State, a: seq<Chan>, c: Chan, d: Chan)
    requires Ordered(s, a) && SameTaker(s, c, d) && Before(a, c, d)
    ensures (d in s.hist.answered ==> c in s.hist.answered) && !Before(s.hist.forwards, d, c)
  {
    assert IsServed(s, a, c, d);
  }

  lemma InitialIsOrdered()
    ensures Ordered(INITIAL, [])
  {
    assert forall at :: ListAt(INITIAL.prog, at) == [];
  }

  lemma ServedOverARun(s: State, a: seq<Chan>, steps: seq<Step>, c: Chan, d: Chan)
    requires Inv(s) && Ordered(s, a) && IsRun(s, steps)
    requires SameTaker(Exec(s, steps), c, d) && Before(a + Arrived(steps), c, d)
    ensures var h := Exec(s, steps).hist;
      (d in h.answered ==> c in h.answered) && !Before(h.forwards, d, c)
  {
    RunIsOrdered(s, a, steps);
    OrderedIsServed(Exec(s, steps), a + Arrived(steps), c, d);
  }

  /** In every interleaving: of two callers that the same lookup takes, the one that asked first
      is answered first, and its action is forwarded first. */
  lemma FirstComeFirstServed(steps: seq<Step>, c: Chan, d: Chan)
    requires IsRun(INITIAL, steps) && SameTaker(Exec(INITIAL, steps), c, d) && Before(Arrived(steps), c, d)
    ensures var h := Exec(INITIAL, steps).hist;
      (d in h.answered ==> c in h.answered) && !Before(h.forwards, d, c)
  {
    InitialInv();
    InitialIsOrdered();
    assert [] + Arrived(steps) == Arrived(steps);
    ServedOverARun(INITIAL, [], steps, c, d);
  }
}

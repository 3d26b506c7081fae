/** What every interleaving of the coalescing protocol keeps. */
module CacheInvariant {
  import opened Errors
  import opened Sequences
  import opened CacheLookup

  /** The waiters kept at a place. */
  function ListAt(p: Program, at: Place): seq<Waiter> {
    match at
    case InMap(k) => if k in p.inflight then p.inflight[k].waiters else []
    case Drained(g) => if g < |p.tasks| && p.tasks[g].phase.Replying? then p.tasks[g].phase.left else []
    case _ => []
  }

  predicate KeyAt(p: Program, at: Place, k: Key) {
    match at
    case InMap(key) => key == k
    case Drained(g) => g < |p.tasks| && p.tasks[g].key == k
    case _ => true
  }

  // ---------------------------------------------------------- the program

  /** The lookup task that created a present entry still has its guard and has not reached its
      removal step; no entry is empty. */
  ghost predicate EntryOwned(p: Program, k: Key)
    requires k in p.inflight
  {
    var g := p.inflight[k].task;
    && p.inflight[k].waiters != [] && g < |p.tasks| && p.tasks[g].key == k
    && p.tasks[g].lookup.None? && !p.tasks[g].phase.Ended?
  }

  ghost predicate TaskOk(t: Task) {
    (t.phase.Looking? ==> t.lookup.None?) && (t.phase.Replying? ==> t.lookup.Some?)
  }

  ghost predicate Owned(p: Program) {
    && (forall k :: k in p.inflight ==> EntryOwned(p, k))
    && (forall g :: 0 <= g < |p.tasks| ==> TaskOk(p.tasks[g]))
  }

  lemma EnlistOwned(p: Program, w: Waiter, k: Key)
    requires Owned(p)
    ensures Owned(EnlistIn(p, w, k))
  {
    var q := EnlistIn(p, w, k);
    forall j | j in q.inflight ensures EntryOwned(q, j) {
      if j in p.inflight { assert EntryOwned(p, j); }
    }
  }

  lemma TakeOwned(p: Program, g: nat, lookup: Lookup)
    requires Owned(p) && g < |p.tasks| && p.tasks[g].phase.Looking?
    ensures Owned(TakeFrom(p, g, lookup))
  {
    var q := TakeFrom(p, g, lookup);
    forall j | j in q.inflight ensures EntryOwned(q, j) { assert EntryOwned(p, j); }
  }

  lemma PhaseOwned(p: Program, g: nat, phase: Phase)
    requires Owned(p) && g < |p.tasks| && !phase.Looking? && !phase.Ended?
    requires phase.Replying? ==> p.tasks[g].lookup.Some?
    ensures Owned(SetPhase(p, g, phase))
  {
    var q := SetPhase(p, g, phase);
    forall j | j in q.inflight ensures EntryOwned(q, j) { assert EntryOwned(p, j); }
  }

  lemma DropOwned(s: State, g: nat)
    requires Owned(s.prog) && g < |s.prog.tasks|
    ensures Owned(DropGuard(s, g).prog)
  {
    var q := DropGuard(s, g).prog;
    forall j | j in q.inflight ensures EntryOwned(q, j) { assert EntryOwned(s.prog, j); }
  }

  // ------------------------------------------- each request in one place

  /** The waiter is the request it says it is, and is said to be here. */
  ghost predicate IsFiled(s: State, at: Place, w: Waiter) {
    var h := s.hist;
    && w.chan in h.place && h.place[w.chan] == at && w.chan in h.requests
    && h.requests[w.chan].op == w.op && KeyAt(s.prog, at, h.requests[w.chan].key)
  }

  ghost predicate FiledAt(s: State, at: Place) {
    var ws := ListAt(s.prog, at);
    Distinct(ws) && forall i :: 0 <= i < |ws| ==> IsFiled(s, at, ws[i])
  }

  /** A request that is said to be in the map, or in a task's hands, is kept there. */
  ghost predicate IsFound(s: State, c: Chan)
    requires c in s.hist.place
  {
    s.hist.place[c].InMap? || s.hist.place[c].Drained? ==> Holds(ListAt(s.prog, s.hist.place[c]), c)
  }

  /** So every request is in exactly one place, and the places hold nothing else. */
  ghost predicate Located(s: State) {
    && s.hist.place.Keys == s.hist.requests.Keys
    && (forall at :: FiledAt(s, at))
    && (forall c :: c in s.hist.place ==> IsFound(s, c))
  }

  lemma Elsewhere(s: State, from: Place, c: Chan)
    requires FiledAt(s, from) && c in s.hist.place && s.hist.place[c] != from
    ensures !Holds(ListAt(s.prog, from), c)
  {
    var ws := ListAt(s.prog, from);
    forall i | 0 <= i < |ws| ensures ws[i].chan != c { assert IsFiled(s, from, ws[i]); }
  }

  lemma EnlistLists(s: State, c: Chan, op: ClientOperation, k: Key, at: Place)
    ensures ListAt(Enlist(s, c, op, k).prog, at) ==
      ListAt(s.prog, at) + if at == InMap(k) then [Waiter(c, op)] else []
  {
  }

  lemma EnlistKeepsFiled(s: State, c: Chan, op: ClientOperation, k: Key, at: Place, w: Waiter)
    requires IsFiled(s, at, w) && c !in s.hist.place
    ensures w.chan != c && IsFiled(Enlist(s, c, op, k), at, w)
  {
  }

  lemma EnlistFiled(s: State, c: Chan, op: ClientOperation, k: Key, at: Place)
    requires FiledAt(s, at) && c !in s.hist.place
    ensures FiledAt(Enlist(s, c, op, k), at)
  {
    var t := Enlist(s, c, op, k);
    var before, after := ListAt(s.prog, at), ListAt(t.prog, at);
    EnlistLists(s, c, op, k, at);
    forall i | 0 <= i < |before| ensures before[i].chan != c && IsFiled(t, at, before[i]) {
      EnlistKeepsFiled(s, c, op, k, at, before[i]);
    }
    forall i | |before| <= i < |after| ensures after[i] == Waiter(c, op) && IsFiled(t, at, after[i]) { }
  }

  lemma EnlistFound(s: State, c: Chan, op: ClientOperation, k: Key, d: Chan)
    requires c !in s.hist.place && (d != c ==> d in s.hist.place && IsFound(s, d))
    ensures IsFound(Enlist(s, c, op, k), d)
  {
    var t := Enlist(s, c, op, k);
    var at := t.hist.place[d];
    var before, after := ListAt(s.prog, at), ListAt(t.prog, at);
    EnlistLists(s, c, op, k, at);
    if d == c {
      assert after[|before|].chan == c;
    } else if at.InMap? || at.Drained? {
      var i :| 0 <= i < |before| && before[i].chan == d;
      assert after[i].chan == d;
    }
  }

  lemma EnlistLocated(s: State, c: Chan, op: ClientOperation, k: Key)
    requires Located(s) && c !in s.hist.requests
    ensures Located(Enlist(s, c, op, k))
  {
    var t := Enlist(s, c, op, k);
    forall at ensures FiledAt(t, at) { EnlistFiled(s, c, op, k, at); }
    forall d | d in t.hist.place ensures IsFound(t, d) { EnlistFound(s, c, op, k, d); }
  }

  /** A step that empties the list at `from`, and hands it to `to` unless that is a place
      without a list. */
  ghost predicate Relocates(s: State, t: State, from: Place, to: Place) {
    && (from.InMap? || from.Drained?) && from != to && !to.InMap?
    && t.hist.requests == s.hist.requests
    && t.hist.place == Moved(s.hist.place, ListAt(s.prog, from), to)
    && (forall at :: ListAt(t.prog, at) ==
          if at == to && to.Drained? then ListAt(s.prog, from) else if at == from then [] else ListAt(s.prog, at))
    && (forall at, k :: KeyAt(t.prog, at, k) == KeyAt(s.prog, at, k))
    && (forall k :: KeyAt(s.prog, from, k) ==> KeyAt(s.prog, to, k))
  }

  lemma MoveFiled(s: State, t: State, from: Place, to: Place, at: Place)
    requires FiledAt(s, from) && FiledAt(s, at) && (to.Drained? ==> ListAt(s.prog, to) == [])
    requires Relocates(s, t, from, to)
    ensures FiledAt(t, at)
  {
    var ws := ListAt(s.prog, from);
    if at == to {
      forall i | 0 <= i < |ListAt(t.prog, to)| ensures IsFiled(t, to, ListAt(t.prog, to)[i]) {
        assert IsFiled(s, from, ws[i]);
      }
    } else if at != from {
      var list := ListAt(s.prog, at);
      forall i | 0 <= i < |list| ensures IsFiled(t, at, list[i]) {
        assert IsFiled(s, at, list[i]);
        Elsewhere(s, from, list[i].chan);
      }
    }
  }

  lemma MoveFound(s: State, t: State, from: Place, to: Place, c: Chan)
    requires FiledAt(s, from) && c in s.hist.place && IsFound(s, c) && Relocates(s, t, from, to)
    requires to.Drained? ==> ListAt(s.prog, to) == []
    ensures IsFound(t, c)
  {
    if s.hist.place[c] != from { Elsewhere(s, from, c); }
  }

  lemma MoveLocated(s: State, t: State, from: Place, to: Place)
    requires Located(s) && Relocates(s, t, from, to) && (to.Drained? ==> ListAt(s.prog, to) == [])
    ensures Located(t)
  {
    forall at ensures FiledAt(t, at) { MoveFiled(s, t, from, to, at); }
    forall c | c in t.hist.place ensures IsFound(t, c) { MoveFound(s, t, from, to, c); }
  }

  lemma TakeLocated(s: State, g: nat, lookup: Lookup)
    requires Located(s) && g < |s.prog.tasks| && s.prog.tasks[g].phase.Looking?
    ensures Located(Take(s, g, lookup))
  {
    MoveLocated(s, Take(s, g, lookup), InMap(s.prog.tasks[g].key), Drained(g));
  }

  lemma DieLocated(s: State, g: nat, forwarding: bool)
    requires Located(s) && Enabled(s, DoDie(g, forwarding))
    ensures Located(Die(s, g, forwarding))
  {
    MoveLocated(s, Die(s, g, forwarding), Drained(g), HungUp);
  }

  lemma DropLocated(s: State, g: nat)
    requires Located(s) && Enabled(s, DoDropGuard(g))
    ensures Located(DropGuard(s, g))
  {
    MoveLocated(s, DropGuard(s, g), InMap(s.prog.tasks[g].key), HungUp);
  }

  lemma ReturnLocated(s: State, g: nat)
    requires Located(s) && Enabled(s, DoReturn(g))
    ensures Located(Return(s, g))
  {
    var t := Return(s, g);
    assert forall at :: ListAt(t.prog, at) == ListAt(s.prog, at);
    forall at ensures FiledAt(t, at) {
      assert FiledAt(s, at);
      forall i | 0 <= i < |ListAt(s.prog, at)| ensures IsFiled(t, at, ListAt(t.prog, at)[i]) {
        assert IsFiled(s, at, ListAt(s.prog, at)[i]);
      }
    }
    forall c | c in t.hist.place ensures IsFound(t, c) { assert IsFound(s, c); }
  }

  lemma SendFiled(s: State, g: nat, answer: Upstream, at: Place)
    requires FiledAt(s, Drained(g)) && FiledAt(s, at) && CanSend(s.prog, g)
    ensures FiledAt(Send(s, g, answer), at)
  {
    var t, left := Send(s, g, answer), s.prog.tasks[g].phase.left;
    assert IsFiled(s, Drained(g), left[0]);
    var before, after := ListAt(s.prog, at), ListAt(t.prog, at);
    assert after == if at == Drained(g) then left[1..] else before;
    forall i | 0 <= i < |after| ensures IsFiled(t, at, after[i]) {
      assert IsFiled(s, at, before[if at == Drained(g) then i + 1 else i]);
    }
  }

  lemma SendFound(s: State, g: nat, answer: Upstream, c: Chan)
    requires FiledAt(s, Drained(g)) && CanSend(s.prog, g) && c in s.hist.place && IsFound(s, c)
    ensures IsFound(Send(s, g, answer), c)
  {
    var t, left := Send(s, g, answer), s.prog.tasks[g].phase.left;
    if c != left[0].chan && (s.hist.place[c].InMap? || s.hist.place[c].Drained?) {
      var before, after := ListAt(s.prog, s.hist.place[c]), ListAt(t.prog, s.hist.place[c]);
      var i :| 0 <= i < |before| && before[i].chan == c;
      if s.hist.place[c] == Drained(g) { assert after[i - 1].chan == c; } else { assert after[i].chan == c; }
    }
  }

  lemma SendLocated(s: State, g: nat, answer: Upstream)
    requires Located(s) && CanSend(s.prog, g)
    ensures Located(Send(s, g, answer))
  {
    var t := Send(s, g, answer);
    assert IsFiled(s, Drained(g), s.prog.tasks[g].phase.left[0]) by { assert FiledAt(s, Drained(g)); }
    forall at ensures FiledAt(t, at) { SendFiled(s, g, answer, at); }
    forall c | c in t.hist.place ensures IsFound(t, c) { SendFound(s, g, answer, c); }
  }

  // ---------------------------------------------------------- the replies

  /** What a caller is told: a found result under its own operation id, an error with the code
      and messages of the lookup and where it happened, or the answer to its forwarded action. */
  predicate Tells(r: Reply, lookup: Lookup, op: ClientOperation, answer: Upstream) {
    match lookup
    case Hit(result) => r.FromCache? && r.op == op && r.result == result
    case Broken(e) => r.Failure? && r.error.code == e.code && r.error.messages == e.messages + [InAddAction]
    case Missing => r.Forwarded? && r.op == op && r.answer == answer
  }

  ghost predicate IsReply(r: Reply, lookup: Lookup, op: ClientOperation) {
    exists answer :: r == ReplyFor(lookup, op, answer)
  }

  /** `g` removed the entry that `c` was in: it looked up the key that `c` asked for. */
  ghost predicate TakenBy(s: State, c: Chan, g: nat) {
    && c in s.hist.requests && g < |s.prog.tasks|
    && s.prog.tasks[g].lookup.Some? && s.prog.tasks[g].key == s.hist.requests[c].key
  }

  /** What was recorded about `c` fits what it asked for: if a task took it, that task looked
      up its key; if it was answered, then by that task, for the outcome of that lookup and
      with its own operation id. */
  ghost predicate Fair(s: State, c: Chan) {
    var h := s.hist;
    && (c in h.taker ==> TakenBy(s, c, h.taker[c]))
    && (c in h.place && h.place[c].Drained? ==> c in h.taker && h.taker[c] == h.place[c].task)
    && (c in h.answered <==> c in h.place && h.place[c].Answered?)
    && (c in h.answered ==>
          c in h.taker && IsReply(h.answered[c], s.prog.tasks[h.taker[c]].lookup.value, h.requests[c].op))
    && (c in h.answered && h.answered[c].Forwarded? ==> c in h.forwards)
    && (c in h.forwards ==> c in h.place && (h.place[c].Answered? || h.place[c].HungUp?)
                            && c in h.taker && s.prog.tasks[h.taker[c]].lookup == Some(Missing))
  }

  ghost predicate Replied(s: State) {
    NoDup(s.hist.forwards) && forall c :: Fair(s, c)
  }

  ghost predicate Inv(s: State) {
    Owned(s.prog) && Located(s) && Replied(s)
  }

  lemma EnlistFair(s: State, c: Chan, op: ClientOperation, k: Key, d: Chan)
    requires Fair(s, d) && c !in s.hist.requests && s.hist.place.Keys == s.hist.requests.Keys
    ensures Fair(Enlist(s, c, op, k), d)
  {
  }

  lemma TakeFair(s: State, g: nat, lookup: Lookup, d: Chan)
    requires Enabled(s, DoTake(g, lookup)) && Owned(s.prog) && Fair(s, d) && FiledAt(s, InMap(s.prog.tasks[g].key))
    ensures Fair(Take(s, g, lookup), d)
  {
    var ws := Pending(s.prog, g);
    assert TaskOk(s.prog.tasks[g]);
    if Holds(ws, d) {
      var i :| 0 <= i < |ws| && ws[i].chan == d;
      assert IsFiled(s, InMap(s.prog.tasks[g].key), ws[i]);
    } else {
      assert d !in (set w | w in ws :: w.chan);
    }
  }

  lemma SendFair(s: State, g: nat, answer: Upstream, d: Chan)
    requires Fair(s, d) && FiledAt(s, Drained(g)) && CanSend(s.prog, g)
    ensures Fair(Send(s, g, answer), d)
  {
    var w := s.prog.tasks[g].phase.left[0];
    assert IsFiled(s, Drained(g), w);
    if d == w.chan {
      assert IsReply(ReplyFor(s.prog.tasks[g].lookup.value, w.op, answer), s.prog.tasks[g].lookup.value, w.op);
    }
  }

  lemma DieFair(s: State, g: nat, forwarding: bool, d: Chan)
    requires Fair(s, d) && FiledAt(s, Drained(g)) && Enabled(s, DoDie(g, forwarding))
    ensures Fair(Die(s, g, forwarding), d)
  {
    var t := s.prog.tasks[g];
    var left := if t.phase.Replying? then t.phase.left else [];
    if Holds(left, d) {
      var i :| 0 <= i < |left| && left[i].chan == d;
      assert IsFiled(s, Drained(g), left[i]);
    }
  }

  lemma DropFair(s: State, g: nat, d: Chan)
    requires Enabled(s, DoDropGuard(g)) && Fair(s, d) && FiledAt(s, InMap(s.prog.tasks[g].key))
    ensures Fair(DropGuard(s, g), d)
  {
    var ws := Pending(s.prog, g);
    if Holds(ws, d) {
      var i :| 0 <= i < |ws| && ws[i].chan == d;
      assert IsFiled(s, InMap(s.prog.tasks[g].key), ws[i]);
    }
  }

  // -------------------------------------------------- the steps, together

  lemma BypassInv(s: State, c: Chan, op: ClientOperation, answer: Upstream)
    requires Inv(s)
    ensures Inv(Bypass(s, c, op, answer))
  {
    var t := Bypass(s, c, op, answer);
    forall at ensures FiledAt(t, at) {
      assert FiledAt(s, at);
      forall i | 0 <= i < |ListAt(s.prog, at)| ensures IsFiled(t, at, ListAt(t.prog, at)[i]) {
        assert IsFiled(s, at, ListAt(s.prog, at)[i]);
      }
    }
    forall d | d in t.hist.place ensures IsFound(t, d) { assert IsFound(s, d); }
    forall d ensures Fair(t, d) { assert Fair(s, d); }
  }

  lemma SendOnce(s: State, g: nat, answer: Upstream)
    requires Inv(s) && CanSend(s.prog, g)
    ensures Replied(Send(s, g, answer))
  {
    var t, w := Send(s, g, answer), s.prog.tasks[g].phase.left[0];
    assert FiledAt(s, Drained(g)) && IsFiled(s, Drained(g), w);
    assert Fair(s, w.chan);
    NoDupSnoc(s.hist.forwards, w.chan);
    forall d ensures Fair(t, d) { SendFair(s, g, answer, d); }
  }

  lemma DieOnce(s: State, g: nat, forwarding: bool)
    requires Inv(s) && Enabled(s, DoDie(g, forwarding))
    ensures Replied(Die(s, g, forwarding))
  {
    var t, task := Die(s, g, forwarding), s.prog.tasks[g];
    assert FiledAt(s, Drained(g));
    if task.phase.Replying? && task.phase.left != [] {
      var w := task.phase.left[0];
      assert IsFiled(s, Drained(g), w);
      assert Fair(s, w.chan);
      NoDupSnoc(s.hist.forwards, w.chan);
    }
    forall d ensures Fair(t, d) { DieFair(s, g, forwarding, d); }
  }

  /** No interleaving, deaths of tasks included, breaks the invariant. */
  lemma EveryStepKeepsInv(s: State, step: Step)
    requires Inv(s) && Enabled(s, step)
    ensures Inv(Apply(s, step))
  {
    var t := Apply(s, step);
    match step
    case DoEnlist(c, op, k) =>
      EnlistOwned(s.prog, Waiter(c, op), k);
      EnlistLocated(s, c, op, k);
      forall d ensures Fair(t, d) { EnlistFair(s, c, op, k, d); }
    case DoBypass(c, op, answer) =>
      BypassInv(s, c, op, answer);
    case DoTake(g, lookup) =>
      TakeOwned(s.prog, g, lookup);
      TakeLocated(s, g, lookup);
      forall d ensures Fair(t, d) { TakeFair(s, g, lookup, d); }
    case DoSend(g, answer) =>
      PhaseOwned(s.prog, g, Replying(s.prog.tasks[g].phase.left[1..]));
      SendLocated(s, g, answer);
      SendOnce(s, g, answer);
    case DoReturn(g) =>
      PhaseOwned(s.prog, g, Unwinding);
      ReturnLocated(s, g);
      forall d ensures Fair(t, d) { assert Fair(s, d); }
    case DoDie(g, forwarding) =>
      PhaseOwned(s.prog, g, Unwinding);
      DieLocated(s, g, forwarding);
      DieOnce(s, g, forwarding);
    case DoDropGuard(g) =>
      DropOwned(s, g);
      DropLocated(s, g);
      forall d ensures Fair(t, d) { DropFair(s, g, d); }
  }
}

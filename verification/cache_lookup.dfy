/** In-flight coalescing of action cache lookups in `CacheLookupScheduler`, as interleaved
    steps: the check-or-insert under the lock, the background task of each map entry, its
    removal by key, the replies one by one, and the scope guard that removes by key again. */
module CacheLookup {
  import opened Errors
  import opened Sequences

  newtype Key = n: int | 0 <= n
  /** A request, identified by the one-shot channel its caller listens on. */
  newtype Chan = n: int | 0 <= n
  newtype ClientOperation = n: int | 0 <= n

  datatype Waiter = Waiter(chan: Chan, op: ClientOperation)
  datatype Request = Request(op: ClientOperation, key: Key)

  /** A map entry, with the number of the lookup task that was created for it. */
  datatype Entry = Entry(task: nat, waiters: seq<Waiter>)

  /** What the action cache said. */
  datatype Lookup = Hit(result: int) | Broken(error: Error) | Missing

  /** What the scheduler behind the cache answers to a forwarded action. */
  datatype Upstream = Accepted(state: int) | Refused(error: Error)

  datatype Reply =
    | FromCache(op: ClientOperation, result: int)
    | Failure(error: Error)
    | Forwarded(op: ClientOperation, answer: Upstream)

  datatype Phase =
    | Looking                      // the cache lookup is under way
    | Replying(left: seq<Waiter>)  // the entry was removed; these still wait for a reply
    | Unwinding                    // the body is over, the guard is still to be dropped
    | Ended

  datatype Task = Task(key: Key, lookup: Option<Lookup>, phase: Phase)

  /** Where a request is. */
  datatype Place = InMap(key: Key) | Drained(task: nat) | Answered | HungUp

  /** The shared map and the background tasks. */
  datatype Program = Program(inflight: map<Key, Entry>, tasks: seq<Task>)

  /** Who asked for what, where each request is, which task removed its entry, the replies,
      the forwarded requests in order, and the uncachable requests with their replies. */
  datatype History = History(
    requests: map<Chan, Request>,
    place: map<Chan, Place>,
    taker: map<Chan, nat>,
    answered: map<Chan, Reply>,
    forwards: seq<Chan>,
    direct: map<Chan, Reply>)

  datatype State = State(prog: Program, hist: History)

  const INITIAL := State(Program(map[], []), History(map[], map[], map[], map[], [], map[]))

  predicate Holds(ws: seq<Waiter>, c: Chan) { exists i :: 0 <= i < |ws| && ws[i].chan == c }

  predicate Distinct(ws: seq<Waiter>) { forall i, j :: 0 <= i < j < |ws| ==> ws[i].chan != ws[j].chan }

  /** Every request among `ws` moves to `to`. */
  function Moved(place: map<Chan, Place>, ws: seq<Waiter>, to: Place): map<Chan, Place> {
    map c | c in place :: if Holds(ws, c) then to else place[c]
  }

  function Assigned(taker: map<Chan, nat>, ws: seq<Waiter>, task: nat): map<Chan, nat> {
    map c | c in taker.Keys + (set w | w in ws :: w.chan) :: if Holds(ws, c) then task else taker[c]
  }

  // ------------------------------------------------------------------ steps

  /** Join the entry for the key, or insert one and spawn its task. */
  function EnlistIn(p: Program, w: Waiter, k: Key): Program {
    if k in p.inflight
    then Program(p.inflight[k := Entry(p.inflight[k].task, p.inflight[k].waiters + [w])], p.tasks)
    else Program(p.inflight[k := Entry(|p.tasks|, [w])], p.tasks + [Task(k, None, Looking)])
  }

  /** A cachable action. */
  function Enlist(s: State, c: Chan, op: ClientOperation, k: Key): State {
    var h := s.hist;
    State(EnlistIn(s.prog, Waiter(c, op), k),
          History(h.requests[c := Request(op, k)], h.place[c := InMap(k)], h.taker, h.answered, h.forwards, h.direct))
  }

  /** An uncachable action goes straight to the scheduler behind the cache. */
  function Bypass(s: State, c: Chan, op: ClientOperation, answer: Upstream): State {
    s.(hist := s.hist.(direct := s.hist.direct[c := Forwarded(op, answer)]))
  }

  /** The waiters that a removal by this task's key finds. */
  function Pending(p: Program, g: nat): seq<Waiter>
    requires g < |p.tasks|
  {
    if p.tasks[g].key in p.inflight then p.inflight[p.tasks[g].key].waiters else []
  }

  function TakeFrom(p: Program, g: nat, lookup: Lookup): Program
    requires g < |p.tasks|
  {
    var k := p.tasks[g].key;
    var next := if k in p.inflight then Replying(p.inflight[k].waiters) else Unwinding;
    Program(p.inflight - {k}, p.tasks[g := Task(k, Some(lookup), next)])
  }

  /** The lookup task knows the outcome of its lookup and removes the entry for its key, if any. */
  function Take(s: State, g: nat, lookup: Lookup): State
    requires g < |s.prog.tasks|
  {
    var h, ws := s.hist, Pending(s.prog, g);
    State(TakeFrom(s.prog, g, lookup),
          History(h.requests, Moved(h.place, ws, Drained(g)), Assigned(h.taker, ws, g),
                  h.answered, h.forwards, h.direct))
  }

  function ReplyFor(lookup: Lookup, op: ClientOperation, answer: Upstream): Reply {
    match lookup
    case Hit(result) => FromCache(op, result)
    case Broken(error) => Failure(error.Append(InAddAction))
    case Missing => Forwarded(op, answer)
  }

  predicate CanSend(p: Program, g: nat) {
    g < |p.tasks| && p.tasks[g].phase.Replying? && p.tasks[g].phase.left != [] && p.tasks[g].lookup.Some?
  }

  function SetPhase(p: Program, g: nat, phase: Phase): Program
    requires g < |p.tasks|
  {
    Program(p.inflight, p.tasks[g := Task(p.tasks[g].key, p.tasks[g].lookup, phase)])
  }

  /** The lookup task answers its next waiter, after forwarding the action if the cache had none. */
  function Send(s: State, g: nat, answer: Upstream): State
    requires CanSend(s.prog, g)
  {
    var h, t := s.hist, s.prog.tasks[g];
    var w := t.phase.left[0];
    State(SetPhase(s.prog, g, Replying(t.phase.left[1..])),
          History(h.requests, h.place[w.chan := Answered], h.taker,
                  h.answered[w.chan := ReplyFor(t.lookup.value, w.op, answer)],
                  if t.lookup.value.Missing? then h.forwards + [w.chan] else h.forwards, h.direct))
  }

  function Return(s: State, g: nat): State
    requires g < |s.prog.tasks|
  {
    State(SetPhase(s.prog, g, Unwinding), s.hist)
  }

  /** The lookup task is dropped before it returns: whoever it still had to answer hears nothing. It
      may just have forwarded the action of the next one. */
  function Die(s: State, g: nat, forwarding: bool): State
    requires g < |s.prog.tasks|
  {
    var h, t := s.hist, s.prog.tasks[g];
    var left := if t.phase.Replying? then t.phase.left else [];
    var forwarded := if forwarding && left != [] && t.lookup == Some(Missing) then [left[0].chan] else [];
    State(SetPhase(s.prog, g, Unwinding),
          History(h.requests, Moved(h.place, left, HungUp), h.taker, h.answered, h.forwards + forwarded, h.direct))
  }

  /** The scope guard removes whatever entry the map has for the key now; the channels of its
      waiters close. */
  function DropGuard(s: State, g: nat): State
    requires g < |s.prog.tasks|
  {
    var h := s.hist;
    State(Program(s.prog.inflight - {s.prog.tasks[g].key}, SetPhase(s.prog, g, Ended).tasks),
          History(h.requests, Moved(h.place, Pending(s.prog, g), HungUp), h.taker, h.answered, h.forwards, h.direct))
  }

  datatype Step =
    | DoEnlist(c: Chan, op: ClientOperation, k: Key)
    | DoBypass(c: Chan, op: ClientOperation, answer: Upstream)
    | DoTake(g: nat, lookup: Lookup)
    | DoSend(g: nat, answer: Upstream)
    | DoReturn(g: nat)
    | DoDie(g: nat, forwarding: bool)
    | DoDropGuard(g: nat)

  predicate Enabled(s: State, step: Step) {
    var tasks := s.prog.tasks;
    match step
    case DoEnlist(c, _, _) => c !in s.hist.requests && c !in s.hist.direct
    case DoBypass(c, _, _) => c !in s.hist.requests && c !in s.hist.direct
    case DoTake(g, _) => g < |tasks| && tasks[g].phase.Looking?
    case DoSend(g, _) => CanSend(s.prog, g)
    case DoReturn(g) => g < |tasks| && tasks[g].phase == Replying([])
    case DoDie(g, _) => g < |tasks| && (tasks[g].phase.Looking? || tasks[g].phase.Replying?)
    case DoDropGuard(g) => g < |tasks| && tasks[g].phase.Unwinding?
  }

  function Apply(s: State, step: Step): State
    requires Enabled(s, step)
  {
    match step
    case DoEnlist(c, op, k) => Enlist(s, c, op, k)
    case DoBypass(c, op, answer) => Bypass(s, c, op, answer)
    case DoTake(g, lookup) => Take(s, g, lookup)
    case DoSend(g, answer) => Send(s, g, answer)
    case DoReturn(g) => Return(s, g)
    case DoDie(g, f) => Die(s, g, f)
    case DoDropGuard(g) => DropGuard(s, g)
  }
}

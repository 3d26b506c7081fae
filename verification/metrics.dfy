/** The metrics pipeline: nested collections are published as spans and events, the events are
    folded into a tree of nested maps, and the tree is flattened into counters. */
module Metrics {
  import opened Sequences

  newtype byte = n: int | 0 <= n < 256
  /** A string as its bytes, which is what lengths are measured in. */
  type Name = seq<byte>
  type Path = seq<Name>

  const UNDERSCORE: byte := 95

  /** `CollectedMetricPrimitiveValue`. */
  datatype Value = Counter(count: nat) | Text(text: Name)

  /** A value and the names that lead to it. */
  datatype Leaf = Leaf(path: Path, value: Value)

  /** What implements `MetricsComponent` here: numbers, strings, an absent option, and hash
      maps, whose entries are listed in the order in which the map happens to be iterated. */
  datatype Metric = Number(n: nat) | Str(s: Name) | Absent | Table(entries: Entries)
  datatype Entries = End | Entry(key: Name, item: Metric, rest: Entries)

  function Keys(entries: Entries): set<Name> {
    if entries.End? then {} else {entries.key} + Keys(entries.rest)
  }

  /** A hash map has no key twice. */
  predicate Proper(m: Metric) {
    m.Table? ==> ProperEntries(m.entries)
  }

  predicate ProperEntries(entries: Entries) {
    entries.Entry? ==> entries.key !in Keys(entries.rest) && Proper(entries.item) && ProperEntries(entries.rest)
  }

  function Under(name: Name, leaves: seq<Leaf>): seq<Leaf> {
    if leaves == [] then [] else [Leaf([name] + leaves[0].path, leaves[0].value)] + Under(name, leaves[1..])
  }

  /** The values in a metric, each with the keys that lead to it. */
  function Leaves(m: Metric): seq<Leaf> {
    match m
    case Number(n) => [Leaf([], Counter(n))]
    case Str(s) => [Leaf([], Text(s))]
    case Absent => []
    case Table(entries) => LeavesOf(entries)
  }

  function LeavesOf(entries: Entries): seq<Leaf> {
    if entries.End? then [] else Under(entries.key, Leaves(entries.item)) + LeavesOf(entries.rest)
  }

  /** The value at the end of some keys, found by following the keys through the maps. */
  function At(m: Metric, path: Path): Option<Value>
    decreases m, 1
  {
    match m
    case Number(n) => if path == [] then Some(Counter(n)) else None
    case Str(s) => if path == [] then Some(Text(s)) else None
    case Absent => None
    case Table(entries) => if path == [] then None else AtIn(entries, path)
  }

  function AtIn(entries: Entries, path: Path): Option<Value>
    requires path != []
    decreases entries, 0
  {
    if entries.End? then None
    else if entries.key == path[0] then At(entries.item, path[1..])
    else AtIn(entries.rest, path)
  }

  /** No path is another one or leads to it. */
  ghost predicate PrefixFree(leaves: seq<Leaf>) {
    forall i, j :: 0 <= i < |leaves| && 0 <= j < |leaves| && i != j ==> !(leaves[i].path <= leaves[j].path)
  }

  lemma {:induction false} UnderAt(name: Name, leaves: seq<Leaf>)
    ensures |Under(name, leaves)| == |leaves|
    ensures forall i :: 0 <= i < |leaves| ==> Under(name, leaves)[i] == Leaf([name] + leaves[i].path, leaves[i].value)
    decreases |leaves|
  {
    if leaves != [] { UnderAt(name, leaves[1..]); }
  }

  lemma ConsPrefix(name: Name, a: Path, b: Path)
    ensures [name] + a <= [name] + b <==> a <= b
  {
    assert ([name] + b)[1..] == b && ([name] + a)[1..] == a;
    if [name] + a <= [name] + b {
      assert b[..|a|] == ([name] + b)[1..|a| + 1];
    }
  }

  lemma {:induction false} UnderIsPrefixFree(name: Name, leaves: seq<Leaf>)
    requires PrefixFree(leaves)
    ensures PrefixFree(Under(name, leaves))
  {
    UnderAt(name, leaves);
    var u := Under(name, leaves);
    forall i, j | 0 <= i < |u| && 0 <= j < |u| && i != j ensures !(u[i].path <= u[j].path) {
      ConsPrefix(name, leaves[i].path, leaves[j].path);
    }
  }

  /** Every leaf below a list of entries starts with one of their keys. */
  lemma {:induction false} LeavesStartWithAKey(entries: Entries)
    ensures forall l :: l in LeavesOf(entries) ==> |l.path| > 0 && l.path[0] in Keys(entries)
  {
    if entries.Entry? {
      LeavesStartWithAKey(entries.rest);
      UnderAt(entries.key, Leaves(entries.item));
    }
  }

  lemma {:induction false} ConcatIsPrefixFree(a: seq<Leaf>, b: seq<Leaf>, key: Name)
    requires PrefixFree(a) && PrefixFree(b)
    requires forall l :: l in a ==> |l.path| > 0 && l.path[0] == key
    requires forall l :: l in b ==> |l.path| > 0 && l.path[0] != key
    ensures PrefixFree(a + b)
  {
    var c := a + b;
    forall i, j | 0 <= i < |c| && 0 <= j < |c| && i != j ensures !(c[i].path <= c[j].path) {
      if (i < |a|) != (j < |a|) {
        assert c[i] in c && c[j] in c;
        assert (i < |a| ==> c[i] in a && c[j] in b) && (i >= |a| ==> c[i] in b && c[j] in a);
      }
    }
  }

  lemma {:induction false} UnderFinds(name: Name, leaves: seq<Leaf>, l: Leaf)
    ensures l in Under(name, leaves) <==> l.path != [] && l.path[0] == name && Leaf(l.path[1..], l.value) in leaves
  {
    UnderAt(name, leaves);
    var u := Under(name, leaves);
    if l in u {
      var i :| 0 <= i < |u| && u[i] == l;
      assert l.path[1..] == leaves[i].path;
      assert leaves[i] == Leaf(l.path[1..], l.value);
    }
    if l.path != [] && l.path[0] == name && Leaf(l.path[1..], l.value) in leaves {
      var i :| 0 <= i < |leaves| && leaves[i] == Leaf(l.path[1..], l.value);
      assert [name] + l.path[1..] == l.path;
      assert u[i] == l;
    }
  }

  /** The leaves of a nest of hash maps are exactly the values that its keys lead to. */
  lemma {:induction false} LeavesAreTheValues(entries: Entries, l: Leaf)
    requires ProperEntries(entries)
    ensures l in LeavesOf(entries) <==> l.path != [] && AtIn(entries, l.path) == Some(l.value)
    decreases entries
  {
    if entries.Entry? {
      var item := entries.item;
      UnderFinds(entries.key, Leaves(item), l);
      LeavesAreTheValues(entries.rest, l);
      LeavesStartWithAKey(entries.rest);
      if l.path != [] {
        var below := Leaf(l.path[1..], l.value);
        if item.Table? { LeavesAreTheValues(item.entries, below); }
        assert below in Leaves(item) <==> At(item, below.path) == Some(below.value);
      }
    }
  }

  /** The leaves of a nest of hash maps have pairwise incomparable paths. */
  lemma {:induction false} LeavesArePrefixFree(entries: Entries)
    requires ProperEntries(entries)
    ensures PrefixFree(LeavesOf(entries))
  {
    if entries.Entry? {
      if entries.item.Table? { LeavesArePrefixFree(entries.item.entries); }
      LeavesArePrefixFree(entries.rest);
      UnderIsPrefixFree(entries.key, Leaves(entries.item));
      UnderAt(entries.key, Leaves(entries.item));
      LeavesStartWithAKey(entries.rest);
      ConcatIsPrefixFree(Under(entries.key, Leaves(entries.item)), LeavesOf(entries.rest), entries.key);
    }
  }

  // ------------------------------------------------------------- publishing

  /** A span is entered or left, or an event is emitted in the current span. */
  datatype Signal = Enter(name: Name) | Exit | Emit(name: Name, value: Value)

  /** What `publish` returns to its caller, who then emits it. */
  datatype Known = KnownValue(value: Value) | KnownComponent

  /** The returned value under the default kind: numbers become counters. */
  function Returned(m: Metric): Known {
    match m
    case Number(n) => KnownValue(Counter(n))
    case Str(s) => KnownValue(Text(s))
    case _ => KnownComponent
  }

  function Emission(key: Name, known: Known): seq<Signal> {
    if known.KnownValue? then [Emit(key, known.value)] else []
  }

  /** The signals of `HashMap::publish`: a span around each item, and after it the event. */
  function Signals(m: Metric): seq<Signal> {
    if m.Table? then SignalsOf(m.entries) else []
  }

  function SignalsOf(entries: Entries): seq<Signal> {
    if entries.End? then [] else
      [Enter(entries.key)] + Signals(entries.item) + [Exit] + Emission(entries.key, Returned(entries.item)) +
        SignalsOf(entries.rest)
  }

  /** The current span, from the root, and the events so far. */
  datatype Scope = Scope(stack: Path, events: seq<Leaf>)

  function Signalled(s: Scope, signal: Signal): Scope {
    match signal
    case Enter(name) => Scope(s.stack + [name], s.events)
    case Exit => Scope(if s.stack == [] then [] else s.stack[..|s.stack| - 1], s.events)
    case Emit(name, value) => Scope(s.stack, s.events + [Leaf(s.stack + [name], value)])
  }

  /** What the tracing library makes of the signals: events with the names of the spans they
      were emitted in. */
  function Traced(s: Scope, signals: seq<Signal>): Scope
    decreases |signals|
  {
    if signals == [] then s else Traced(Signalled(s, signals[0]), signals[1..])
  }

  lemma {:induction false} TracedAppend(s: Scope, a: seq<Signal>, b: seq<Signal>)
    ensures Traced(s, a + b) == Traced(Traced(s, a), b)
    decreases |a|
  {
    if a == [] {
      assert a + b == b;
    } else {
      assert (a + b)[1..] == a[1..] + b;
      TracedAppend(Signalled(s, a[0]), a[1..], b);
    }
  }

  lemma TracedOne(s: Scope, signal: Signal)
    ensures Traced(s, [signal]) == Signalled(s, signal)
  {
    assert [signal][1..] == [];
  }

  function Below(stack: Path, leaves: seq<Leaf>): seq<Leaf> {
    if leaves == [] then [] else [Leaf(stack + leaves[0].path, leaves[0].value)] + Below(stack, leaves[1..])
  }

  lemma {:induction false} BelowAppend(stack: Path, a: seq<Leaf>, b: seq<Leaf>)
    ensures Below(stack, a + b) == Below(stack, a) + Below(stack, b)
    decreases |a|
  {
    if a == [] {
      assert a + b == b;
    } else {
      assert (a + b)[1..] == a[1..] + b;
      BelowAppend(stack, a[1..], b);
    }
  }

  lemma {:induction false} BelowUnder(stack: Path, name: Name, leaves: seq<Leaf>)
    ensures Below(stack, Under(name, leaves)) == Below(stack + [name], leaves)
    decreases |leaves|
  {
    if leaves != [] {
      BelowUnder(stack, name, leaves[1..]);
      assert stack + ([name] + leaves[0].path) == stack + [name] + leaves[0].path;
    }
  }

  /** A span that is entered and left again, with something traced in between and after. */
  lemma {:induction false} TracedSpan(s: Scope, key: Name, body: seq<Signal>, emission: seq<Signal>, rest: seq<Signal>)
    requires Traced(Scope(s.stack + [key], s.events), body).stack == s.stack + [key]
    ensures Traced(s, [Enter(key)] + body + [Exit] + emission + rest) ==
      Traced(Traced(Scope(s.stack, Traced(Scope(s.stack + [key], s.events), body).events), emission), rest)
  {
    TracedAppend(s, [Enter(key)] + body + [Exit] + emission, rest);
    TracedAppend(s, [Enter(key)] + body + [Exit], emission);
    TracedAppend(s, [Enter(key)] + body, [Exit]);
    TracedAppend(s, [Enter(key)], body);
    TracedOne(s, Enter(key));
    TracedOne(Traced(Scope(s.stack + [key], s.events), body), Exit);
    assert (s.stack + [key])[..|s.stack|] == s.stack;
  }

  lemma {:induction false} ValueMeansLeaf(s: Scope, key: Name, item: Metric)
    ensures !item.Table? ==>
      Traced(s, Emission(key, Returned(item))) == Scope(s.stack, s.events + Below(s.stack + [key], Leaves(item)))
  {
    if item.Number? || item.Str? {
      TracedOne(s, Emission(key, Returned(item))[0]);
      assert Leaves(item)[1..] == [] && s.stack + [key] + [] == s.stack + [key];
    }
  }

  /** The events of one item: those of its own entries, or the one emitted for its value. */
  lemma {:induction false} ItemMeansLeaves(s: Scope, key: Name, item: Metric, rest: seq<Signal>)
    requires item.Table? ==> Traced(Scope(s.stack + [key], s.events), SignalsOf(item.entries)) ==
                             Scope(s.stack + [key], s.events + Below(s.stack + [key], LeavesOf(item.entries)))
    ensures Traced(s, [Enter(key)] + Signals(item) + [Exit] + Emission(key, Returned(item)) + rest) ==
            Traced(Scope(s.stack, s.events + Below(s.stack + [key], Leaves(item))), rest)
  {
    var emission := Emission(key, Returned(item));
    TracedSpan(s, key, Signals(item), emission, rest);
    ValueMeansLeaf(s, key, item);
    assert Scope(s.stack, s.events) == s;
  }

  /** Spans nest: whatever is published, the events are the leaves with their full paths, in
      order, and the current span is what it was before. */
  lemma {:induction false} SignalsMeanLeaves(s: Scope, entries: Entries)
    ensures Traced(s, SignalsOf(entries)) == Scope(s.stack, s.events + Below(s.stack, LeavesOf(entries)))
    decreases entries
  {
    if entries.Entry? {
      var key, item := entries.key, entries.item;
      var leaves := Below(s.stack + [key], Leaves(item));
      if item.Table? { SignalsMeanLeaves(Scope(s.stack + [key], s.events), item.entries); }
      ItemMeansLeaves(s, key, item, SignalsOf(entries.rest));
      SignalsMeanLeaves(Scope(s.stack, s.events + leaves), entries.rest);
      BelowUnder(s.stack, key, Leaves(item));
      BelowAppend(s.stack, Under(key, Leaves(item)), LeavesOf(entries.rest));
      var others := Below(s.stack, LeavesOf(entries.rest));
      assert s.events + leaves + others == s.events + (leaves + others);
    }
  }

  /** The publishing side as the code has it: a loop over the entries of each map that enters
      a span, publishes the item, leaves the span, and emits what the item returned. */
  class Publisher {
    var signals: seq<Signal>

    constructor ()
      ensures signals == []
    {
      signals := [];
    }

    method Publish(m: Metric) returns (known: Known)
      modifies this
      ensures signals == old(signals) + Signals(m) && known == Returned(m)
      decreases m
    {
      match m
      case Number(n) => known := KnownValue(Counter(n));
      case Str(s) => known := KnownValue(Text(s));
      case Absent => known := KnownComponent;
      case Table(entries) =>
        var todo := entries;
        while todo.Entry?
          invariant todo.Entry? ==> todo.item < m
          invariant todo.End? || todo < m
          invariant old(signals) + SignalsOf(entries) == signals + SignalsOf(todo)
          decreases todo
        {
          ghost var before := signals;
          signals := signals + [Enter(todo.key)];
          var r := Publish(todo.item);
          signals := signals + [Exit];
          signals := signals + Emission(todo.key, r);
          Regroup(before, [Enter(todo.key)], Signals(todo.item), [Exit], Emission(todo.key, r), SignalsOf(todo.rest));
          todo := todo.rest;
        }
        known := KnownComponent;
    }
  }
}

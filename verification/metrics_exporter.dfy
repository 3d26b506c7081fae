/** `otel_export`: a recursive walk over the collected tree that builds every metric name in one
    shared buffer, and the whole pipeline from published maps to exported counters. */
module MetricsExporter {
  import opened Sequences
  import opened Metrics
  import opened MetricsCollector

  const MAX_METRIC_NAME_LENGTH := 256

  /** One counter handed to the meter. */
  datatype Sample = Sample(name: Name, count: nat)

  /** The names of a path with an underscore between neighbours. */
  function JoinedName(path: Path): Name {
    if path == [] then [] else if |path| == 1 then path[0] else path[0] + [UNDERSCORE] + JoinedName(path[1..])
  }

  /** What is exported for one value: only counters, and only under names that fit. */
  function Exported(prefix: Name, leaf: Leaf): seq<Sample> {
    var name := prefix + JoinedName(leaf.path);
    if leaf.value.Counter? && |name| <= MAX_METRIC_NAME_LENGTH then [Sample(name, leaf.value.count)] else []
  }

  function ExportedAll(prefix: Name, leaves: seq<Leaf>): seq<Sample> {
    if leaves == [] then [] else Exported(prefix, leaves[0]) + ExportedAll(prefix, leaves[1..])
  }

  lemma {:induction false} ExportedAppend(prefix: Name, a: seq<Leaf>, b: seq<Leaf>)
    ensures ExportedAll(prefix, a + b) == ExportedAll(prefix, a) + ExportedAll(prefix, b)
    decreases |a|
  {
    if a == [] {
      assert a + b == b;
    } else {
      assert (a + b)[1..] == a[1..] + b;
      ExportedAppend(prefix, a[1..], b);
    }
  }

  /** Walking below a name is walking with that name and an underscore in the buffer. */
  lemma {:induction false} ExportedUnder(prefix: Name, name: Name, leaves: seq<Leaf>)
    requires forall l :: l in leaves ==> l.path != []
    ensures ExportedAll(prefix, Under(name, leaves)) == ExportedAll(prefix + name + [UNDERSCORE], leaves)
    decreases |leaves|
  {
    if leaves != [] {
      var l := leaves[0];
      assert l in leaves && ([name] + l.path)[1..] == l.path;
      assert prefix + JoinedName([name] + l.path) == prefix + name + [UNDERSCORE] + JoinedName(l.path);
      ExportedUnder(prefix, name, leaves[1..]);
    }
  }

  /** `visits` lists the values below some names of a tree, each exactly once. */
  ghost predicate Enumerates(visits: seq<Leaf>, children: Children, names: set<Name>) {
    && NoDup(visits)
    && (forall l :: l in visits <==> l.path != [] && l.path[0] in names && Lookup(children, l.path) == Some(l.value))
  }

  lemma PrimitiveVisited(children: Children, name: Name)
    requires name in children && children[name].Primitive?
    ensures Enumerates([Leaf([name], children[name].value)], children, {name})
  {
    forall l: Leaf | l.path != [] && l.path[0] == name && Lookup(children, l.path) == Some(l.value)
      ensures l == Leaf([name], children[name].value)
    {
      assert l.path == [name];
    }
  }

  lemma ComponentVisited(children: Children, name: Name, inner: seq<Leaf>)
    requires name in children && children[name].Component?
    requires Enumerates(inner, children[name].children, children[name].children.Keys)
    ensures Enumerates(Under(name, inner), children, {name})
  {
    UnderAt(name, inner);
    var u, c := Under(name, inner), children[name].children;
    forall i, j | 0 <= i < j < |u| ensures u[i] != u[j] {
      assert u[i].path[1..] == inner[i].path && u[j].path[1..] == inner[j].path;
    }
    forall l: Leaf | l.path != [] && l.path[0] == name && Lookup(children, l.path) == Some(l.value) ensures l in u {
      var below := Leaf(l.path[1..], l.value);
      assert Lookup(c, below.path) == Some(l.value);
      assert below.path != [] && below.path[0] in c && below in inner;
      var i :| 0 <= i < |inner| && inner[i] == below;
      assert l.path == [name] + below.path && u[i] == l;
    }
    forall l | l in u ensures l.path != [] && l.path[0] == name && Lookup(children, l.path) == Some(l.value) {
      var i :| 0 <= i < |u| && u[i] == l;
      assert inner[i] in inner && l.path[1..] == inner[i].path;
    }
  }

  lemma VisitsAppend(a: seq<Leaf>, b: seq<Leaf>, children: Children, names: set<Name>, name: Name)
    requires Enumerates(a, children, names) && Enumerates(b, children, {name}) && name !in names
    ensures Enumerates(a + b, children, names + {name})
  {
    var c := a + b;
    forall i, j | 0 <= i < j < |c| ensures c[i] != c[j] {
      if i < |a| <= j {
        assert a[i] in a && b[j - |a|] in b;
      }
    }
  }

  /** One round of the loop over the children of which `todo` are left. */
  lemma OneMoreChild(prefix: Name, children: Children, todo: set<Name>, name: Name, visits: seq<Leaf>, one: seq<Leaf>)
    requires name in todo && todo <= children.Keys
    requires Enumerates(visits, children, children.Keys - todo) && Enumerates(one, children, {name})
    ensures Enumerates(visits + one, children, children.Keys - (todo - {name}))
    ensures ExportedAll(prefix, visits + one) == ExportedAll(prefix, visits) + ExportedAll(prefix, one)
  {
    ExportedAppend(prefix, visits, one);
    VisitsAppend(visits, one, children, children.Keys - todo, name);
    assert children.Keys - (todo - {name}) == (children.Keys - todo) + {name};
  }

  function RootPrefix(prefix: Name): Name {
    if prefix == [] then [] else prefix + [UNDERSCORE]
  }

  /** The name under which a value is exported: its keys, below the name of the root if that is
      not empty. */
  function FullName(root: Name, path: Path): Name {
    JoinedName(if root == [] then path else [root] + path)
  }

  lemma PrefixedIsJoined(root: Name, path: Path)
    requires path != []
    ensures RootPrefix(root) + JoinedName(path) == FullName(root, path)
  {
    if root == [] {
      assert [] + JoinedName(path) == JoinedName(path);
    } else {
      assert ([root] + path)[1..] == path;
    }
  }

  /** How often a counter is expected: once for each number that has its value and its name, if
      the name has at most 256 bytes. */
  function Times(root: Name, leaves: seq<Leaf>, s: Sample): nat {
    if leaves == [] then 0 else
      var l := leaves[0];
      (if l.value == Counter(s.count) && FullName(root, l.path) == s.name && |s.name| <= 256 then 1 else 0) +
        Times(root, leaves[1..], s)
  }

  lemma {:induction false} ExportedTimes(root: Name, leaves: seq<Leaf>, s: Sample)
    requires forall i :: 0 <= i < |leaves| ==> leaves[i].path != []
    ensures multiset(ExportedAll(RootPrefix(root), leaves))[s] == Times(root, leaves, s)
    decreases |leaves|
  {
    if leaves != [] {
      PrefixedIsJoined(root, leaves[0].path);
      ExportedTimes(root, leaves[1..], s);
    }
  }

  lemma AllTimes(root: Name, leaves: seq<Leaf>)
    requires forall i :: 0 <= i < |leaves| ==> leaves[i].path != []
    ensures forall s :: multiset(ExportedAll(RootPrefix(root), leaves))[s] == Times(root, leaves, s)
  {
    forall s ensures multiset(ExportedAll(RootPrefix(root), leaves))[s] == Times(root, leaves, s) {
      ExportedTimes(root, leaves, s);
    }
  }

  /** The bytes of a name between its underscores. */
  function SplitName(name: Name): (path: Path)
    ensures path != []
  {
    if name == [] then [[]] else
      var rest := SplitName(name[1..]);
      if name[0] as int == '_' as int then [[]] + rest else [[name[0]] + rest[0]] + rest[1..]
  }

  lemma {:induction false} SplitNameAt(a: Name, b: Name)
    requires forall i :: 0 <= i < |a| ==> a[i] as int != '_' as int
    ensures SplitName(a) == [a] && SplitName(a + [UNDERSCORE] + b) == [a] + SplitName(b)
    decreases |a|
  {
    var s := a + [UNDERSCORE] + b;
    if a == [] {
      assert s[1..] == b;
    } else {
      assert s[1..] == a[1..] + [UNDERSCORE] + b && s[0] == a[0];
      SplitNameAt(a[1..], b);
      assert a == [a[0]] + a[1..];
      assert ([a[1..]] + SplitName(b))[1..] == SplitName(b);
    }
  }

  /** Names without underscores can be read off the joined name, so different values have
      different counters. */
  lemma {:induction false} JoinedNamesSplit(path: Path)
    requires path != []
    requires forall i, j :: 0 <= i < |path| && 0 <= j < |path[i]| ==> path[i][j] as int != '_' as int
    ensures SplitName(JoinedName(path)) == path
    decreases |path|
  {
    SplitNameAt(path[0], if |path| > 1 then JoinedName(path[1..]) else []);
    if |path| > 1 {
      forall i, j | 0 <= i < |path[1..]| && 0 <= j < |path[1..][i]| ensures path[1..][i][j] as int != '_' as int {
        assert path[1..][i] == path[i + 1];
      }
      JoinedNamesSplit(path[1..]);
      assert path == [path[0]] + path[1..];
    }
  }

  class Exporter {
    /** The buffer in which names are built. */
    var prefix: Name
    /** The counters added to the meter so far. */
    var samples: seq<Sample>

    constructor ()
      ensures prefix == [] && samples == []
    {
      prefix, samples := [], [];
    }

    /** `process_primitive`. */
    method ProcessPrimitive(value: Value)
      modifies `samples
      ensures samples == old(samples) +
        if value.Counter? && |prefix| <= 256 then [Sample(prefix, value.count)] else []
    {
      match value
      case Counter(count) =>
        if |prefix| > MAX_METRIC_NAME_LENGTH {
          return;
        }
        samples := samples + [Sample(prefix, count)];
      case Text(_) =>
    }

    /** `Truncate` as the buffer's own method: it never grows. The caller owes that the buffer
        is not cut below `floor`. */
    method Truncate(length: nat, ghost floor: nat)
      requires floor <= length <= |prefix|
      modifies `prefix
      ensures prefix == old(prefix)[..length]
    {
      prefix := prefix[..length];
    }

    /** `process_children`: whatever the iteration order, the buffer is left exactly as it was
        found, is never cut below any length that it has at entry, and every value of the tree
        is visited once, under its joined path. */
    method ProcessChildren(children: Children, ghost floor: nat) returns (ghost visits: seq<Leaf>)
      requires floor <= |prefix|
      modifies this
      ensures prefix == old(prefix)
      ensures Enumerates(visits, children, children.Keys)
      ensures samples == old(samples) + ExportedAll(old(prefix), visits)
      decreases Component(children)
    {
      visits := [];
      var todo := children.Keys;
      while todo != {}
        invariant todo <= children.Keys && prefix == old(prefix)
        invariant Enumerates(visits, children, children.Keys - todo)
        invariant samples == old(samples) + ExportedAll(old(prefix), visits)
        decreases todo
      {
        var name :| name in todo;
        ghost var one := ProcessChild(children, name, floor);
        OneMoreChild(prefix, children, todo, name, visits, one);
        visits := visits + one;
        todo := todo - {name};
      }
      assert children.Keys - {} == children.Keys;
    }

    /** The body of that loop. */
    method ProcessChild(children: Children, name: Name, ghost floor: nat) returns (ghost visits: seq<Leaf>)
      requires name in children && floor <= |prefix|
      modifies this
      ensures prefix == old(prefix)
      ensures Enumerates(visits, children, {name})
      ensures samples == old(samples) + ExportedAll(old(prefix), visits)
      decreases Component(children), 0
    {
      prefix := prefix + name;
      var added := |name|;
      match children[name] {
        case Primitive(value) =>
          PrimitiveVisited(children, name);
          visits := [Leaf([name], value)];
          assert visits[1..] == [] && JoinedName([name]) == name;
          ProcessPrimitive(value);
        case Component(inner) =>
          prefix := prefix + [UNDERSCORE];
          added := added + 1;
          ghost var below := ProcessChildren(inner, |prefix|);
          ComponentVisited(children, name, below);
          visits := Under(name, below);
          ExportedUnder(old(prefix), name, below);
      }
      Truncate(|prefix| - added, floor);
    }

    /** `otel_export`. */
    method OtelExport(rootPrefix: Name, children: Children) returns (ghost visits: seq<Leaf>)
      modifies this
      ensures prefix == RootPrefix(rootPrefix)
      ensures Enumerates(visits, children, children.Keys)
      ensures samples == old(samples) + ExportedAll(prefix, visits)
      ensures forall l :: l in visits ==> prefix + JoinedName(l.path) == FullName(rootPrefix, l.path)
    {
      prefix := rootPrefix;
      if prefix != [] {
        prefix := prefix + [UNDERSCORE];
      }
      visits := ProcessChildren(children, |prefix|);
      forall l | l in visits ensures prefix + JoinedName(l.path) == FullName(rootPrefix, l.path) {
        PrefixedIsJoined(rootPrefix, l.path);
      }
    }
  }

  // --------------------------------------------------------------- end to end

  lemma NothingInNothing(a: seq<Leaf>, b: seq<Leaf>)
    requires forall l :: l in b ==> l in a
    ensures a == [] ==> b == []
  {
    if b != [] { assert b[0] in a; }
  }

  lemma ExportedCons(prefix: Name, x: Leaf, rest: seq<Leaf>)
    ensures ExportedAll(prefix, [x] + rest) == Exported(prefix, x) + ExportedAll(prefix, rest)
  {
    assert ([x] + rest)[1..] == rest;
  }

  lemma {:induction false} ExportWithout(prefix: Name, b: seq<Leaf>, x: Leaf)
    requires NoDup(b) && x in b
    ensures multiset(ExportedAll(prefix, b)) ==
      multiset(Exported(prefix, x)) + multiset(ExportedAll(prefix, Without(b, x)))
    decreases |b|
  {
    var head, tail := b[0], b[1..];
    NoDupTail(b);
    assert b == [head] + tail;
    WithoutElements(tail, x);
    if head == x {
      assert Without(b, x) == tail;
    } else {
      ExportWithout(prefix, tail, x);
      ExportedCons(prefix, head, Without(tail, x));
    }
  }

  /** Which values are exported does not depend on the order of the visits. */
  lemma {:induction false} ExportIgnoresOrder(prefix: Name, a: seq<Leaf>, b: seq<Leaf>)
    requires NoDup(a) && NoDup(b) && forall l :: l in a <==> l in b
    ensures multiset(ExportedAll(prefix, a)) == multiset(ExportedAll(prefix, b))
    decreases |a|
  {
    NothingInNothing(a, b);
    if a != [] {
      var x, rest := a[0], a[1..];
      NoDupTail(a);
      assert a == [x] + rest;
      WithoutElements(b, x);
      ExportIgnoresOrder(prefix, rest, Without(b, x));
      ExportWithout(prefix, b, x);
    }
  }

  /** The path-value pairs that a prefix-free sequence of events leaves behind are the events. */
  lemma {:induction false} LastWriteOfPrefixFree(events: seq<Leaf>, l: Leaf)
    requires PrefixFree(events)
    ensures l in events <==> LastWrite(events, l.path) == Some(l.value)
    decreases |events|
  {
    if events != [] {
      var front, last := events[..|events| - 1], events[|events| - 1];
      assert events == front + [last];
      assert PrefixFree(front) by {
        forall i, j | 0 <= i < |front| && 0 <= j < |front| && i != j ensures !(front[i].path <= front[j].path) {
          assert front[i] == events[i] && front[j] == events[j];
        }
      }
      LastWriteOfPrefixFree(front, l);
    }
  }

  /** Events below the root keep their paths. */
  lemma {:induction false} BelowRoot(leaves: seq<Leaf>)
    ensures Below([], leaves) == leaves
    decreases |leaves|
  {
    if leaves != [] {
      BelowRoot(leaves[1..]);
      assert [] + leaves[0].path == leaves[0].path;
    }
  }

  /** The events of a published nest of hash maps are its leaves. */
  lemma {:induction false} PublishedAreTheLeaves(entries: Entries)
    ensures Traced(Scope([], []), SignalsOf(entries)).events == LeavesOf(entries)
  {
    var leaves := LeavesOf(entries);
    SignalsMeanLeaves(Scope([], []), entries);
    BelowRoot(leaves);
    assert [] + leaves == leaves;
  }

  /** Collecting leaves with incomparable paths does not panic, and the tree holds exactly the
      leaves. */
  lemma {:induction false} LeavesAreCollected(leaves: seq<Leaf>)
    requires PrefixFree(leaves) && forall i :: 0 <= i < |leaves| ==> leaves[i].path != []
    ensures NoDup(leaves) && Collect(leaves).Some?
    ensures forall l :: l in leaves <==> Lookup(Collect(leaves).value, l.path) == Some(l.value)
  {
    CollectedTreeIsTheFlatMap(leaves);
    forall l ensures l in leaves <==> Lookup(Collect(leaves).value, l.path) == Some(l.value) {
      LastWriteOfPrefixFree(leaves, l);
    }
  }

  lemma PrefixOrLeadsTo(a: Path, b: Path)
    ensures a <= b ==> a == b || LeadsTo(a, b)
  {
    if a <= b && |a| == |b| { assert b[..|a|] == b; }
  }

  lemma EnumeratedIsLookedUp(tree: Children, visits: seq<Leaf>, l: Leaf)
    requires Enumerates(visits, tree, tree.Keys)
    ensures l in visits <==> Lookup(tree, l.path) == Some(l.value)
  {
  }

  lemma CountOf(s: seq<Leaf>, l: Leaf)
    requires NoDup(s)
    ensures multiset(s)[l] == if l in s then 1 else 0
  {
    if l in s {
      var i :| 0 <= i < |s| && s[i] == l;
      assert s == s[..i] + [l] + s[i + 1..];
      assert l !in s[..i] && l !in s[i + 1..];
    }
  }

  lemma CountTwice(s: seq<Leaf>, i: nat, j: nat)
    requires i < |s| && j < |s| && i != j && s[i] == s[j]
    ensures multiset(s)[s[i]] >= 2
  {
    var a, b := if i < j then i else j, if i < j then j else i;
    assert s == s[..a] + [s[a]] + s[a + 1..b] + [s[b]] + s[b + 1..];
  }

  lemma VisitedAreIncomparable(leaves: seq<Leaf>, tree: Children, visits: seq<Leaf>, i: nat, j: nat)
    requires Enumerates(visits, tree, tree.Keys) && multiset(visits) == multiset(leaves)
    requires i < |leaves| && j < |leaves| && i != j
    ensures !(leaves[i].path <= leaves[j].path)
  {
    var a, b := leaves[i], leaves[j];
    assert a in multiset(leaves) && b in multiset(leaves);
    assert a in multiset(visits) && b in multiset(visits);
    EnumeratedIsLookedUp(tree, visits, a);
    EnumeratedIsLookedUp(tree, visits, b);
    CountOf(visits, a);
    if a == b { CountTwice(leaves, i, j); }
    if LeadsTo(a.path, b.path) { TreeIsPrefixFree(tree, a.path, b.path); }
    PrefixOrLeadsTo(a.path, b.path);
  }

  /** The leaves of a nest are visited after collecting them, each once and nothing else,
      exactly if their paths are incomparable. Hash maps whose keys have different texts
      guarantee that. */
  lemma VisitedExactly(leaves: seq<Leaf>, tree: Children, visits: seq<Leaf>)
    requires forall i :: 0 <= i < |leaves| ==> leaves[i].path != []
    requires Collect(leaves) == Some(tree) && Enumerates(visits, tree, tree.Keys)
    ensures multiset(visits) == multiset(leaves) <==> PrefixFree(leaves)
  {
    if PrefixFree(leaves) {
      LeavesAreCollected(leaves);
      forall l ensures multiset(visits)[l] == multiset(leaves)[l] {
        CountOf(visits, l);
        CountOf(leaves, l);
        EnumeratedIsLookedUp(tree, visits, l);
      }
    }
    if multiset(visits) == multiset(leaves) {
      forall i, j | 0 <= i < |leaves| && 0 <= j < |leaves| && i != j ensures !(leaves[i].path <= leaves[j].path) {
        VisitedAreIncomparable(leaves, tree, visits, i, j);
      }
    }
  }

  /** Two keys of one map that have the same text: a number, and a map with a number. */
  function SameText(key: Name, below: Name): Entries {
    Entry(key, Number(1), Entry(key, Table(Entry(below, Number(2), End)), End))
  }

  lemma SameTextLeaves(key: Name, below: Name)
    ensures LeavesOf(SameText(key, below)) == [Leaf([key], Counter(1)), Leaf([key, below], Counter(2))]
  {
    var inner := Entry(below, Number(2), End);
    assert LeavesOf(inner) == [Leaf([below], Counter(2))] by {
      assert [below] + [] == [below] && Under(below, [Leaf([], Counter(2))]) == [Leaf([below], Counter(2))];
    }
    assert [key] + [] == [key] && [key] + [below] == [key, below];
    assert Under(key, LeavesOf(inner)) == [Leaf([key, below], Counter(2))];
    assert Under(key, [Leaf([], Counter(1))]) == [Leaf([key], Counter(1))];
    var second := Entry(key, Table(inner), End);
    assert LeavesOf(second) == Under(key, LeavesOf(inner)) + LeavesOf(End);
    assert LeavesOf(SameText(key, below)) == Under(key, Leaves(Number(1))) + LeavesOf(second);
  }

  lemma SameTextPanics(key: Name, below: Name)
    ensures Blocked(LeavesOf(SameText(key, below))) && !PrefixFree(LeavesOf(SameText(key, below)))
  {
    var leaves := [Leaf([key], Counter(1)), Leaf([key, below], Counter(2))];
    SameTextLeaves(key, below);
    assert leaves[..1][..0] == [] && leaves[1].path[..1] == [key];
    assert Live(leaves[..1], leaves[1].path[..1]) == Some(Counter(1));
    assert BlockedAt(leaves, 1);
    assert leaves[0].path <= leaves[1].path;
  }

  /** From published maps to exported counters: for every nest, every iteration order of the
      maps when publishing, and every iteration order of the collected tree when exporting, the
      meter gets, as a multiset, one counter per number, under its joined keys, except those
      whose name is too long. */
  lemma {:induction false} EndToEnd(leaves: seq<Leaf>, prefix: Name, tree: Children, visits: seq<Leaf>)
    requires PrefixFree(leaves) && Enumerates(visits, tree, tree.Keys)
    requires forall i :: 0 <= i < |leaves| ==> leaves[i].path != []
    requires Collect(leaves) == Some(tree)
    ensures multiset(ExportedAll(prefix, visits)) == multiset(ExportedAll(prefix, leaves))
  {
    LeavesAreCollected(leaves);
    forall l ensures l in visits <==> l in leaves { EnumeratedIsLookedUp(tree, visits, l); }
    ExportIgnoresOrder(prefix, visits, leaves);
  }

  lemma {:induction false} TracedPaths(s: Scope, signals: seq<Signal>)
    requires forall i :: 0 <= i < |s.events| ==> s.events[i].path != []
    ensures forall i :: 0 <= i < |Traced(s, signals).events| ==> Traced(s, signals).events[i].path != []
    decreases |signals|
  {
    if signals != [] {
      TracedPaths(Signalled(s, signals[0]), signals[1..]);
      assert Traced(s, signals) == Traced(Signalled(s, signals[0]), signals[1..]);
    }
  }

  lemma {:induction false} EventsOnlyGrow(s: Scope, signals: seq<Signal>)
    ensures s.events <= Traced(s, signals).events
    decreases |signals|
  {
    if signals != [] { EventsOnlyGrow(Signalled(s, signals[0]), signals[1..]); }
  }

  /** If a sequence of events can be collected, so can every prefix of it. */
  lemma {:induction false} PrefixCollects(events: seq<Leaf>, n: nat)
    requires n <= |events| && forall i :: 0 <= i < |events| ==> events[i].path != []
    requires Collect(events).Some?
    ensures Collect(events[..n]).Some?
    decreases |events|
  {
    if n == |events| {
      assert events[..n] == events;
    } else {
      assert events[..|events| - 1][..n] == events[..n];
      PrefixCollects(events[..|events| - 1], n);
    }
  }

  /** The tracing library and the layer at work: the current span follows the signals, and
      every event goes into the tree, until one panics. */
  method CollectSignals(signals: seq<Signal>) returns (root: Option<Children>)
    ensures var events := Traced(Scope([], []), signals).events;
      (forall i :: 0 <= i < |events| ==> events[i].path != []) && root == Collect(events)
  {
    var scope := Scope([], []);
    ghost var final := Traced(scope, signals);
    TracedPaths(scope, signals);
    var layer := new MetricsCollectorLayer();
    var i := 0;
    assert signals[0..] == signals;
    while i < |signals|
      invariant 0 <= i <= |signals|
      invariant Traced(scope, signals[i..]) == final
      invariant layer.Valid() && layer.seen == scope.events && scope.events <= final.events && fresh(layer)
    {
      var signal := signals[i];
      assert signals[i..][1..] == signals[i + 1..];
      EventsOnlyGrow(Signalled(scope, signal), signals[i + 1..]);
      if signal.Emit? {
        ghost var events := scope.events + [Leaf(scope.stack + [signal.name], signal.value)];
        assert final.events[..|events|] == events && events[..|events| - 1] == scope.events;
        PanicsExactly(layer.root, scope.stack + [signal.name], signal.value);
        var panicked := layer.OnEvent(scope.stack, signal.name, signal.value);
        if panicked {
          if Collect(final.events).Some? { PrefixCollects(final.events, |events|); }
          return None;
        }
      }
      scope := Signalled(scope, signal);
      i := i + 1;
    }
    assert signals[i..] == [];
    root := Some(layer.root);
  }

  /** The whole pipeline, for any nest. It panics exactly if a value is published on the way to
      another one that follows; otherwise the meter gets the counters of the values that are
      left at the end. If the paths of all values are incomparable, which is exactly when all
      are left, these are the counters of all values. */
  method PublishCollectExport(rootPrefix: Name, entries: Entries)
    returns (samples: Option<seq<Sample>>, ghost visits: seq<Leaf>)
    ensures samples.None? <==> Blocked(LeavesOf(entries))
    ensures samples.Some? ==>
      && samples.value == ExportedAll(RootPrefix(rootPrefix), visits) && NoDup(visits)
      && (forall s :: multiset(samples.value)[s] == Times(rootPrefix, visits, s))
      && (forall l :: l in visits <==> Live(LeavesOf(entries), l.path) == Some(l.value))
      && (multiset(visits) == multiset(LeavesOf(entries)) <==> PrefixFree(LeavesOf(entries)))
    ensures PrefixFree(LeavesOf(entries)) ==> samples.Some?
    ensures PrefixFree(LeavesOf(entries)) ==>
      && multiset(samples.value) == multiset(ExportedAll(RootPrefix(rootPrefix), LeavesOf(entries)))
      && forall s :: multiset(samples.value)[s] == Times(rootPrefix, LeavesOf(entries), s)
  {
    ghost var leaves := LeavesOf(entries);
    PublishedAreTheLeaves(entries);
    var publisher := new Publisher();
    var known := publisher.Publish(Table(entries));
    assert publisher.signals == SignalsOf(entries);
    var root := CollectSignals(publisher.signals);
    CollectsExactly(leaves);
    if PrefixFree(leaves) { LeavesAreCollected(leaves); }
    if root.None? {
      return None, [];
    }
    var exporter := new Exporter();
    visits := exporter.OtelExport(rootPrefix, root.value);
    forall l ensures l in visits <==> Live(leaves, l.path) == Some(l.value) {
      EnumeratedIsLookedUp(root.value, visits, l);
    }
    VisitedExactly(leaves, root.value, visits);
    AllTimes(rootPrefix, visits);
    AllTimes(rootPrefix, leaves);
    if PrefixFree(leaves) { EndToEnd(leaves, RootPrefix(rootPrefix), root.value, visits); }
    samples := Some(exporter.samples);
  }

  /** Hash maps whose keys have different texts have all their numbers exported. */
  method ExportHashMaps(rootPrefix: Name, entries: Entries) returns (samples: seq<Sample>)
    requires ProperEntries(entries)
    ensures forall s :: multiset(samples)[s] == Times(rootPrefix, LeavesOf(entries), s)
    ensures forall l :: l in LeavesOf(entries) <==> l.path != [] && AtIn(entries, l.path) == Some(l.value)
  {
    LeavesArePrefixFree(entries);
    forall l ensures l in LeavesOf(entries) <==> l.path != [] && AtIn(entries, l.path) == Some(l.value) {
      LeavesAreTheValues(entries, l);
    }
    var exported, _ := PublishCollectExport(rootPrefix, entries);
    samples := exported.value;
  }
}

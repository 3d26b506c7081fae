/** `MetricsCollectorLayer`: every event is inserted into a tree of nested maps. The tree behaves
    like one flat map from paths to values. */
module MetricsCollector {
  import opened Sequences
  import opened Metrics

  datatype Tree = Primitive(value: Value) | Component(children: Children)
  type Children = map<Name, Tree>

  /** `find_component` for all names but the last, creating components on the way, and the
      insertion of the last one. `None` is the panic on a primitive in the way. */
  function Put(children: Children, path: Path, value: Value): Option<Children>
    requires path != []
    decreases |path|
  {
    var name := path[0];
    if |path| == 1 then Some(children[name := Primitive(value)])
    else if name in children && children[name].Primitive? then None
    else
      var inner := if name in children then children[name].children else map[];
      match Put(inner, path[1..], value)
      case None => None
      case Some(c) => Some(children[name := Component(c)])
  }

  /** The value at a path of the tree. */
  function Lookup(children: Children, path: Path): Option<Value>
    decreases |path|
  {
    if path == [] || path[0] !in children then None
    else match children[path[0]]
      case Primitive(v) => if |path| == 1 then Some(v) else None
      case Component(c) => Lookup(c, path[1..])
  }

  /** `path` leads to `longer` and is not it. */
  predicate LeadsTo(path: Path, longer: Path) { path < longer }

  /** The panic happens exactly if a value is stored on the way to the path. */
  lemma {:induction false} PanicsExactly(children: Children, path: Path, value: Value)
    requires path != []
    ensures Put(children, path, value).None? <==> exists n :: 0 < n < |path| && Lookup(children, path[..n]).Some?
    decreases |path|
  {
    if |path| > 1 {
      var name, rest := path[0], path[1..];
      assert forall n :: 0 < n <= |path| ==> path[..n][0] == name && path[..n][1..] == rest[..n - 1];
      if name in children && children[name].Primitive? {
        assert Lookup(children, path[..1]).Some?;
      } else {
        var inner := if name in children then children[name].children else map[];
        PanicsExactly(inner, rest, value);
        forall n | 0 < n < |rest| ensures Lookup(children, path[..n + 1]) == Lookup(inner, rest[..n]) {
          assert path[..n + 1][1..] == rest[..n];
        }
        if n :| 0 < n < |rest| && Lookup(inner, rest[..n]).Some? {
          assert Lookup(children, path[..n + 1]).Some?;
        }
        assert Lookup(children, path[..1]).None? by { assert path[..1] == [name] && [name][1..] == []; }
        if n :| 0 < n < |path| && Lookup(children, path[..n]).Some? {
          var m := n - 1;
          assert Lookup(inner, rest[..m]).Some?;
        }
      }
    }
  }

  /** An insertion that does not panic is a write to the flat map: its own path gets the
      value, whatever was below that path is gone, and every other path is as before. */
  lemma {:induction false} PutIsAFlatWrite(children: Children, path: Path, value: Value, at: Path)
    requires path != [] && Put(children, path, value).Some?
    ensures Lookup(Put(children, path, value).value, at) ==
      if at == path then Some(value) else if LeadsTo(path, at) then None else Lookup(children, at)
    decreases |path|
  {
    if at == [] || at[0] != path[0] {
      assert !(path <= at);
    } else if |path| == 1 {
      assert path == [path[0]] && path <= at;
      assert |at| == 1 ==> at == path;
    } else {
      var name, rest := path[0], path[1..];
      assert path == [name] + rest && at == [name] + at[1..];
      var inner := if name in children then children[name].children else map[];
      PutIsAFlatWrite(inner, rest, value, at[1..]);
      assert at == path <==> at[1..] == rest;
      ConsPrefix(name, rest, at[1..]);
    }
  }

  // ------------------------------------------------------------ event sequences

  /** The tree after a sequence of events, starting from an empty one. */
  function Collect(events: seq<Leaf>): Option<Children>
    requires forall i :: 0 <= i < |events| ==> events[i].path != []
    decreases |events|
  {
    if events == [] then Some(map[]) else
      var last := events[|events| - 1];
      match Collect(events[..|events| - 1])
      case None => None
      case Some(c) => Put(c, last.path, last.value)
  }

  /** The value last written to a path. */
  function LastWrite(events: seq<Leaf>, at: Path): Option<Value>
    decreases |events|
  {
    if events == [] then None
    else if events[|events| - 1].path == at then Some(events[|events| - 1].value)
    else LastWrite(events[..|events| - 1], at)
  }

  /** No event writes to a path that leads to the path of another one. */
  ghost predicate Compatible(events: seq<Leaf>) {
    forall i, j :: 0 <= i < |events| && 0 <= j < |events| ==> !LeadsTo(events[i].path, events[j].path)
  }

  lemma {:induction false} LastWriteIsAnEvent(events: seq<Leaf>, at: Path)
    requires LastWrite(events, at).Some?
    ensures exists i :: 0 <= i < |events| && events[i].path == at
    decreases |events|
  {
    if events[|events| - 1].path != at {
      LastWriteIsAnEvent(events[..|events| - 1], at);
      var i :| 0 <= i < |events| - 1 && events[..|events| - 1][i].path == at;
      assert events[i].path == at;
    }
  }

  /** A path that leads to the path of an event, or that an event's path leads to, is not
      written by the others. */
  lemma {:induction false} NotWritten(events: seq<Leaf>, n: nat, at: Path)
    requires Compatible(events) && n < |events|
    requires LeadsTo(at, events[n].path) || LeadsTo(events[n].path, at)
    ensures LastWrite(events[..n], at).None?
  {
    if LastWrite(events[..n], at).Some? {
      LastWriteIsAnEvent(events[..n], at);
      assert false;
    }
  }

  /** For every sequence of compatible events, repeated paths included, the panic is never
      reached and the tree holds at each path the value last written there, and no other. */
  lemma {:induction false} CollectedTreeIsTheFlatMap(events: seq<Leaf>)
    requires Compatible(events) && forall i :: 0 <= i < |events| ==> events[i].path != []
    ensures Collect(events).Some?
    ensures forall at :: Lookup(Collect(events).value, at) == LastWrite(events, at)
    decreases |events|
  {
    if events != [] {
      var front, last := events[..|events| - 1], events[|events| - 1];
      assert forall i :: 0 <= i < |front| ==> front[i] == events[i];
      assert Compatible(front);
      CollectedTreeIsTheFlatMap(front);
      var tree := Collect(front).value;
      PanicsExactly(tree, last.path, last.value);
      forall n | 0 < n < |last.path| ensures Lookup(tree, last.path[..n]).None? {
        assert LeadsTo(last.path[..n], last.path);
        NotWritten(events, |events| - 1, last.path[..n]);
      }
      forall at ensures Lookup(Collect(events).value, at) == LastWrite(events, at) {
        PutIsAFlatWrite(tree, last.path, last.value, at);
        if LeadsTo(last.path, at) { NotWritten(events, |events| - 1, at); }
      }
    }
  }

  /** The value at a path after any events: the last one written there, unless a path that
      leads there was written later. */
  function Live(events: seq<Leaf>, at: Path): Option<Value>
    decreases |events|
  {
    if events == [] then None else
      var last := events[|events| - 1];
      if last.path == at then Some(last.value)
      else if LeadsTo(last.path, at) then None
      else Live(events[..|events| - 1], at)
  }

  /** An event finds a value on the way to its path. */
  ghost predicate BlockedAt(events: seq<Leaf>, j: int) {
    0 <= j < |events| && exists n :: 0 < n < |events[j].path| && Live(events[..j], events[j].path[..n]).Some?
  }

  ghost predicate Blocked(events: seq<Leaf>) {
    exists j :: BlockedAt(events, j)
  }

  lemma BlockedSnoc(events: seq<Leaf>)
    requires events != []
    ensures Blocked(events) <==> Blocked(events[..|events| - 1]) || BlockedAt(events, |events| - 1)
  {
    var front := events[..|events| - 1];
    forall j | 0 <= j < |front| ensures BlockedAt(events, j) <==> BlockedAt(front, j) {
      assert front[..j] == events[..j] && front[j] == events[j];
    }
    if Blocked(front) {
      var j :| BlockedAt(front, j);
      assert BlockedAt(events, j);
    }
  }

  /** For every sequence of events whatsoever: the panic is reached exactly if an event finds a
      value on the way to its path; otherwise the tree is the flat map. */
  lemma {:induction false} CollectsExactly(events: seq<Leaf>)
    requires forall i :: 0 <= i < |events| ==> events[i].path != []
    ensures Collect(events).None? <==> Blocked(events)
    ensures Collect(events).Some? ==> forall at :: Lookup(Collect(events).value, at) == Live(events, at)
    decreases |events|
  {
    if events != [] {
      var front, last := events[..|events| - 1], events[|events| - 1];
      CollectsExactly(front);
      BlockedSnoc(events);
      if Collect(front).Some? {
        var tree := Collect(front).value;
        PanicsExactly(tree, last.path, last.value);
        if Collect(events).Some? {
          forall at ensures Lookup(Collect(events).value, at) == Live(events, at) {
            PutIsAFlatWrite(tree, last.path, last.value, at);
          }
        }
      }
    }
  }

  /** No value of a tree is on the way to another one. */
  lemma {:induction false} TreeIsPrefixFree(children: Children, a: Path, b: Path)
    requires Lookup(children, a).Some? && LeadsTo(a, b)
    ensures Lookup(children, b).None?
    decreases |a|
  {
    assert b[0] == a[0];
    if children[a[0]].Component? {
      assert a == [a[0]] + a[1..] && b == [b[0]] + b[1..];
      ConsPrefix(a[0], a[1..], b[1..]);
      TreeIsPrefixFree(children[a[0]].children, a[1..], b[1..]);
    }
  }

  /** The layer: events arrive one by one and change the tree in place. */
  class MetricsCollectorLayer {
    var root: Children
    ghost var seen: seq<Leaf>

    ghost predicate Valid() reads this {
      (forall i :: 0 <= i < |seen| ==> seen[i].path != []) && Collect(seen) == Some(root)
    }

    constructor ()
      ensures Valid() && seen == [] && root == map[]
    {
      root, seen := map[], [];
    }

    /** `find_component` and the insertion: one map per span is entered, from the root. */
    static method InsertAt(children: Children, spans: Path, name: Name, value: Value) returns (r: Option<Children>)
      ensures r == Put(children, spans + [name], value)
      decreases |spans|
    {
      var path := spans + [name];
      if spans == [] {
        return Some(children[name := Primitive(value)]);
      }
      assert path[1..] == spans[1..] + [name];
      var c := children;
      if spans[0] !in c {
        c := c[spans[0] := Component(map[])];
      }
      if c[spans[0]].Primitive? {
        return None;
      }
      var inner := InsertAt(c[spans[0]].children, spans[1..], name, value);
      if inner.None? {
        return None;
      }
      r := Some(c[spans[0] := Component(inner.value)]);
      assert r.value == children[spans[0] := Component(inner.value)];
    }

    /** `on_event`. It panics exactly if a value is stored on the way, and then changes
        nothing; otherwise the tree is that of all events seen so far. */
    method OnEvent(spans: Path, name: Name, value: Value) returns (panicked: bool)
      requires Valid()
      modifies this
      ensures panicked <==> exists n :: 0 < n <= |spans| && Lookup(old(root), (spans + [name])[..n]).Some?
      ensures panicked ==> root == old(root) && seen == old(seen)
      ensures !panicked ==> Valid() && seen == old(seen) + [Leaf(spans + [name], value)]
    {
      PanicsExactly(root, spans + [name], value);
      var r := InsertAt(root, spans, name, value);
      panicked := r.None?;
      if !panicked {
        seen := seen + [Leaf(spans + [name], value)];
        assert seen[..|seen| - 1] == old(seen);
        root := r.value;
      }
    }
  }
}

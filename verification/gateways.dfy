/** Waiting for the gateways of a cluster (native-cli/components/loadbalancer.go): one poller
    per required gateway, all writing to one list under a mutex. A poll lists the cluster's
    gateways, which may fail, and then holds the mutex until it returns. */
module Gateways {

  import opened Sequences

  /** A gateway as the cluster lists it. Several namespaces may use the same name. */
  datatype Listed = Listed(name: string, addresses: seq<string>)

  datatype InternalGateway = InternalGateway(name: string, ip: string, http2: bool)

  predicate UsesHttp2(name: string) {
    name == "nativelink-gateway"
  }

  /** What the mutex protects. */
  datatype Board = Board(list: seq<InternalGateway>, added: set<string>, required: map<string, bool>) {
    predicate AllFound() {
      forall k :: k in required ==> required[k]
    }
  }

  /** The first address of the first gateway of that name that has any. */
  function FirstAddress(name: string, items: seq<Listed>): Option<string>
    decreases |items|
  {
    if items == [] then None
    else if items[0].name == name && items[0].addresses != [] then Some(items[0].addresses[0])
    else FirstAddress(name, items[1..])
  }

  /** A listed gateway that a poll for `name` can add. */
  predicate IsAddressed(l: Listed, name: string) {
    l.name == name && |l.addresses| > 0
  }

  /** The listing has a gateway of that name with addresses, and `address` is the first one of
      the first such gateway. */
  ghost predicate Shows(items: seq<Listed>, name: string, address: string) {
    exists i :: 0 <= i < |items| && IsAddressed(items[i], name) && items[i].addresses[0] == address &&
      forall j :: 0 <= j < i ==> !IsAddressed(items[j], name)
  }

  lemma {:induction false} FirstAddressExactly(name: string, items: seq<Listed>)
    ensures match FirstAddress(name, items)
      case None => forall i :: 0 <= i < |items| ==> !IsAddressed(items[i], name)
      case Some(address) => Shows(items, name, address)
    decreases |items|
  {
    if items != [] {
      var rest := items[1..];
      FirstAddressExactly(name, rest);
      assert forall i :: 0 < i < |items| ==> items[i] == rest[i - 1];
      if !IsAddressed(items[0], name) && FirstAddress(name, rest).Some? {
        var address := FirstAddress(name, rest).value;
        var i :| 0 <= i < |rest| && IsAddressed(rest[i], name) && rest[i].addresses[0] == address &&
          forall j :: 0 <= j < i ==> !IsAddressed(rest[j], name);
        assert IsAddressed(items[i + 1], name) && items[i + 1].addresses[0] == address;
      }
    }
  }

  /** The board after a poll for `name` that got `items`. */
  function Visit(b: Board, name: string, items: seq<Listed>): Board {
    var address := FirstAddress(name, items);
    if address.None? || name in b.added then b
    else
      var gateway := InternalGateway(name, address.value, UsesHttp2(name));
      Board(b.list + [gateway], b.added + {name}, b.required[name := true])
  }

  class GatewayBoard {
    var gatewaysList: seq<InternalGateway>
    var addedGateways: map<string, bool>
    var requiredGateways: map<string, bool>

    function Snapshot(): Board
      reads this
    {
      Board(gatewaysList, (set k | k in addedGateways && addedGateways[k]), requiredGateways)
    }

    constructor (required: map<string, bool>)
      ensures Snapshot() == Board([], {}, required)
    {
      gatewaysList, addedGateways, requiredGateways := [], map[], required;
    }

    /** The second loop of `gatewayAdded`, over the table in any order. */
    method EveryRequiredIsFound() returns (found: bool)
      ensures found <==> Snapshot().AllFound()
    {
      var keys := requiredGateways.Keys;
      while keys != {}
        invariant keys <= requiredGateways.Keys
        invariant forall k :: k in requiredGateways && k !in keys ==> requiredGateways[k]
        decreases |keys|
      {
        var k :| k in keys;
        if !requiredGateways[k] {
          return false;
        }
        keys := keys - {k};
      }
      found := true;
    }

    /** `gatewayAdded`; `None` is a listing that failed. */
    method GatewayAdded(name: string, listing: Option<seq<Listed>>) returns (done: bool)
      modifies this
      ensures listing.None? ==> !done && Snapshot() == old(Snapshot())
      ensures listing.Some? ==> Snapshot() == Visit(old(Snapshot()), name, listing.value)
      ensures listing.Some? ==> (done <==> Snapshot().AllFound())
    {
      if listing.None? {
        return false;
      }
      var items := listing.value;
      var i := 0;
      while i < |items|
        invariant 0 <= i <= |items|
        invariant Visit(Snapshot(), name, items[i..]) == Visit(old(Snapshot()), name, items)
      {
        assert items[i..][1..] == items[i + 1..];
        ghost var before := Snapshot();
        if items[i].name == name && items[i].addresses != [] && !(name in addedGateways && addedGateways[name]) {
          var gateway := InternalGateway(name, items[i].addresses[0], UsesHttp2(name));
          gatewaysList := gatewaysList + [gateway];
          addedGateways := addedGateways[name := true];
          requiredGateways := requiredGateways[name := true];
          assert Snapshot().added == before.added + {name};
        }
        i := i + 1;
      }
      done := EveryRequiredIsFound();
    }
  }

  // ------------------------------------------------------------- the pollers

  datatype Poller = Running | Returned | Stopped

  datatype Polling = Polling(board: Board, pollers: map<string, Poller>, cancelled: bool)

  /** The context is cancelled; a poller runs `gatewayAdded` once; a poller sees that the
      context is cancelled. */
  datatype Step = Cancel | Poll(name: string, listing: Option<seq<Listed>>) | Stop(name: string)

  function Start(required: map<string, bool>): Polling {
    Polling(Board([], {}, required), map k | k in required :: Running, false)
  }

  predicate IsRunning(p: Polling, name: string) {
    name in p.pollers && p.pollers[name].Running?
  }

  predicate Enabled(p: Polling, step: Step) {
    match step
    case Cancel => true
    case Poll(name, _) => IsRunning(p, name)
    case Stop(name) => p.cancelled && IsRunning(p, name)
  }

  function Apply(p: Polling, step: Step): Polling {
    match step
    case Cancel => p.(cancelled := true)
    case Stop(name) => p.(pollers := p.pollers[name := Stopped])
    case Poll(name, listing) =>
      if listing.None? then p else
        var b := Visit(p.board, name, listing.value);
        Polling(b, if b.AllFound() then p.pollers[name := Returned] else p.pollers, p.cancelled)
  }

  function Exec(p: Polling, steps: seq<Step>): Polling
    decreases |steps|
  {
    if steps == [] then p else Apply(Exec(p, steps[..|steps| - 1]), steps[|steps| - 1])
  }

  predicate IsRun(p: Polling, steps: seq<Step>)
    decreases |steps|
  {
    steps != [] ==>
      && IsRun(p, steps[..|steps| - 1])
      && Enabled(Exec(p, steps[..|steps| - 1]), steps[|steps| - 1])
  }

  // ---------------------------------------------------------- what is found

  /** What one step learns about the address of a gateway. */
  function Learned(step: Step, name: string): Option<string> {
    if step.Poll? && step.name == name && step.listing.Some? then FirstAddress(name, step.listing.value) else None
  }

  /** The address of a gateway in the earliest poll for it that got one. */
  function Discovered(steps: seq<Step>, name: string): Option<string>
    decreases |steps|
  {
    if steps == [] then None else
      var earlier := Discovered(steps[..|steps| - 1], name);
      if earlier.Some? then earlier else Learned(steps[|steps| - 1], name)
  }

  /** A poll for `name` whose listing has a gateway of that name with an address. */
  ghost predicate Sees(step: Step, name: string) {
    && step.Poll? && step.name == name && step.listing.Some?
    && exists i :: 0 <= i < |step.listing.value| && IsAddressed(step.listing.value[i], name)
  }

  ghost predicate Seen(steps: seq<Step>, name: string) {
    exists i :: 0 <= i < |steps| && Sees(steps[i], name)
  }

  /** The earliest poll that saw the gateway shows this address. */
  ghost predicate SeenFirst(steps: seq<Step>, name: string, address: string) {
    exists i :: 0 <= i < |steps| && Sees(steps[i], name) && Shows(steps[i].listing.value, name, address) &&
      forall j :: 0 <= j < i ==> !Sees(steps[j], name)
  }

  lemma LearnedExactly(step: Step, name: string)
    ensures match Learned(step, name)
      case None => !Sees(step, name)
      case Some(address) => Sees(step, name) && Shows(step.listing.value, name, address)
  {
    if step.Poll? && step.listing.Some? { FirstAddressExactly(name, step.listing.value); }
  }

  lemma {:induction false} DiscoveredExactly(steps: seq<Step>, name: string)
    ensures match Discovered(steps, name)
      case None => !Seen(steps, name)
      case Some(address) => Seen(steps, name) && SeenFirst(steps, name, address)
    decreases |steps|
  {
    if steps != [] {
      var before, last := steps[..|steps| - 1], steps[|steps| - 1];
      DiscoveredExactly(before, name);
      LearnedExactly(last, name);
      assert forall i :: 0 <= i < |before| ==> before[i] == steps[i];
      if Discovered(before, name).Some? {
        var address := Discovered(before, name).value;
        var i :| 0 <= i < |before| && Sees(before[i], name) && Shows(before[i].listing.value, name, address) &&
          forall j :: 0 <= j < i ==> !Sees(before[j], name);
        assert Sees(steps[i], name) && Shows(steps[i].listing.value, name, address);
      } else {
        assert forall i :: 0 <= i < |before| ==> !Sees(steps[i], name);
      }
    }
  }

  function Names(list: seq<InternalGateway>): seq<string> {
    seq(|list|, i requires 0 <= i < |list| => list[i].name)
  }

  /** The list has one entry per discovered gateway, with the address found first. */
  ghost predicate ListIsRight(b: Board, steps: seq<Step>) {
    && NoDup(Names(b.list))
    && (forall k :: k in b.added <==> Discovered(steps, k).Some?)
    && (forall k :: k in b.added <==> k in Names(b.list))
    && (forall g :: g in b.list ==>
          Discovered(steps, g.name) == Some(g.ip) && (g.http2 <==> g.name == "nativelink-gateway"))
  }

  /** Found are the gateways that were marked from the start and the added ones. */
  ghost predicate MarksAreRight(b: Board, required: map<string, bool>) {
    && b.added <= required.Keys
    && b.required.Keys == required.Keys
    && forall k :: k in required ==> (b.required[k] <==> required[k] || k in b.added)
  }

  ghost predicate PollersAreRight(p: Polling, required: map<string, bool>) {
    && p.pollers.Keys == required.Keys
    && (forall k :: k in p.pollers && p.pollers[k].Returned? ==> p.board.AllFound())
    && forall k :: k in p.pollers && p.pollers[k].Stopped? ==> p.cancelled
  }

  ghost predicate Inv(p: Polling, required: map<string, bool>, steps: seq<Step>) {
    ListIsRight(p.board, steps) && MarksAreRight(p.board, required) && PollersAreRight(p, required)
  }

  lemma VisitIsRight(b: Board, required: map<string, bool>, steps: seq<Step>)
    requires steps != [] && steps[|steps| - 1].Poll? && steps[|steps| - 1].listing.Some?
    requires ListIsRight(b, steps[..|steps| - 1]) && MarksAreRight(b, required)
    requires steps[|steps| - 1].name in required
    ensures var last := steps[|steps| - 1];
      var c := Visit(b, last.name, last.listing.value);
      && ListIsRight(c, steps) && MarksAreRight(c, required)
      && (b.AllFound() ==> c.AllFound())
  {
    var last := steps[|steps| - 1];
    var c := Visit(b, last.name, last.listing.value);
    if c != b {
      var names := Names(c.list);
      assert names == Names(b.list) + [last.name];
      assert last.name !in Names(b.list);
    }
  }

  /** In every interleaving the list, the added set and the found marks agree, with each other
      and with what the polls so far have seen. */
  lemma {:induction false} RunIsRight(required: map<string, bool>, steps: seq<Step>)
    requires IsRun(Start(required), steps)
    ensures Inv(Exec(Start(required), steps), required, steps)
    decreases |steps|
  {
    if steps != [] {
      var before, last := steps[..|steps| - 1], steps[|steps| - 1];
      var p := Exec(Start(required), before);
      RunIsRight(required, before);
      if last.Poll? && last.listing.Some? {
        VisitIsRight(p.board, required, steps);
      }
    }
  }

  /** In every interleaving the list has exactly the gateways that some poll for them saw, each
      with the first address that the earliest such poll showed. */
  lemma ListIsWhatWasSeen(required: map<string, bool>, steps: seq<Step>)
    requires IsRun(Start(required), steps)
    ensures var list := Exec(Start(required), steps).board.list;
      && (forall k :: k in Names(list) <==> Seen(steps, k))
      && (forall g :: g in list ==> SeenFirst(steps, g.name, g.ip) && (g.http2 <==> g.name == "nativelink-gateway"))
  {
    RunIsRight(required, steps);
    var list := Exec(Start(required), steps).board.list;
    forall k ensures k in Names(list) <==> Seen(steps, k) { DiscoveredExactly(steps, k); }
    forall g | g in list ensures SeenFirst(steps, g.name, g.ip) { DiscoveredExactly(steps, g.name); }
  }

  /** A poll returns exactly if it has an answer and every required gateway that was not marked
      from the start has been seen with an address, by it or by an earlier poll. */
  lemma PollReturnsExactly(required: map<string, bool>, steps: seq<Step>)
    requires IsRun(Start(required), steps) && steps != [] && steps[|steps| - 1].Poll?
    ensures var last := steps[|steps| - 1];
      var p := Exec(Start(required), steps);
      last.name in p.pollers &&
      (p.pollers[last.name].Returned? <==>
        last.listing.Some? && forall k :: k in required ==> required[k] || Seen(steps, k))
  {
    forall k ensures Discovered(steps, k).Some? <==> Seen(steps, k) { DiscoveredExactly(steps, k); }
    var before := steps[..|steps| - 1];
    RunIsRight(required, before);
    RunIsRight(required, steps);
  }

  lemma {:induction false} OnlyCancelCancels(required: map<string, bool>, steps: seq<Step>)
    requires IsRun(Start(required), steps) && Cancel !in steps
    ensures !Exec(Start(required), steps).cancelled
    decreases |steps|
  {
    if steps != [] { OnlyCancelCancels(required, steps[..|steps| - 1]); }
  }

  /** If polling ends without cancellation, the list has every required gateway that was not
      marked from the start, nothing that is not required, and nothing twice. */
  lemma PollingCoversTheRequired(required: map<string, bool>, steps: seq<Step>)
    requires IsRun(Start(required), steps) && Cancel !in steps
    requires forall k :: k in required ==> !IsRunning(Exec(Start(required), steps), k)
    ensures var names := Names(Exec(Start(required), steps).board.list);
      && NoDup(names)
      && (forall k :: k in names ==> k in required)
      && (forall k :: k in required && !required[k] ==> k in names)
  {
    var p := Exec(Start(required), steps);
    RunIsRight(required, steps);
    OnlyCancelCancels(required, steps);
    if k :| k in required {
      assert !IsRunning(p, k);
      assert p.pollers[k].Returned?;
    }
  }

  /** As the installer calls it, with nothing marked, the list is exactly the required set. */
  lemma PollingListsExactlyTheRequired(required: map<string, bool>, steps: seq<Step>)
    requires IsRun(Start(required), steps) && Cancel !in steps
    requires forall k :: k in required ==> !required[k] && !IsRunning(Exec(Start(required), steps), k)
    ensures Lists(Names(Exec(Start(required), steps).board.list), required.Keys)
  {
    PollingCoversTheRequired(required, steps);
  }
}

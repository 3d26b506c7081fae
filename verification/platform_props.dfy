/** Platform properties: what an action demands, what a worker still has to offer, and the
    bookkeeping that moves `Minimum` amounts between the two. */
module PlatformProps {

  const U64_LIMIT: nat := 0x1_0000_0000_0000_0000
  type U64 = n: nat | n < U64_LIMIT

  datatype PropValue = Exact(text: string) | Minimum(amount: U64) | Priority(text: string) | Unknown(text: string) {
    /** `PlatformPropertyValue::is_satisfied_by`. */
    predicate SatisfiedBy(worker: PropValue) {
      this == worker || match this
      case Minimum(v) => worker.Minimum? && worker.amount >= v
      case Priority(_) => true
      case _ => false
    }
  }

  type Properties = map<string, PropValue>

  /** `PlatformProperties::is_satisfied_by`. */
  predicate Satisfies(worker: Properties, demand: Properties) {
    forall k :: k in demand ==> k in worker && demand[k].SatisfiedBy(worker[k])
  }

  /** The amount of a property that is being demanded or is still available. */
  function Amount(p: Properties, k: string): nat {
    if k in p && p[k].Minimum? then p[k].amount else 0
  }

  function WrappingSub(a: U64, b: U64): U64 {
    if a >= b then a - b else a + U64_LIMIT - b
  }

  function WrappingAdd(a: U64, b: U64): U64 {
    if a + b < U64_LIMIT then a + b else a + b - U64_LIMIT
  }

  /** `reduce_platform_properties`. The arithmetic is that of an unchecked build. */
  function Reduce(worker: Properties, demand: Properties): (r: Properties) {
    map k | k in worker ::
      if k in demand && demand[k].Minimum? && worker[k].Minimum?
      then Minimum(WrappingSub(worker[k].amount, demand[k].amount)) else worker[k]
  }

  /** `restore_platform_properties`. */
  function Restore(worker: Properties, demand: Properties): (r: Properties) {
    map k | k in worker ::
      if k in demand && demand[k].Minimum? && worker[k].Minimum?
      then Minimum(WrappingAdd(worker[k].amount, demand[k].amount)) else worker[k]
  }

  /** Every key that either loop looks up with `unwrap` is there, with a `Minimum` value. */
  predicate Carries(worker: Properties, demand: Properties) {
    forall k :: k in demand && demand[k].Minimum? ==> k in worker && worker[k].Minimum?
  }

  /** A satisfied demand can be taken and given back: nothing wraps, no key is missing, and
      afterwards the worker offers exactly what it offered before. */
  lemma ReduceThenRestore(worker: Properties, demand: Properties)
    requires Satisfies(worker, demand)
    ensures Carries(worker, demand)
    ensures forall k :: Amount(Reduce(worker, demand), k) == Amount(worker, k) - Amount(demand, k)
    ensures Restore(Reduce(worker, demand), demand) == worker
  {
  }

  /** A demand is met exactly if the worker has every property that is demanded: with the same
      value, or with at least the amount if an amount is demanded, or with any value if the
      property only expresses a preference. */
  lemma SatisfiedExactly(worker: Properties, demand: Properties)
    ensures Satisfies(worker, demand) <==>
      && demand.Keys <= worker.Keys
      && (forall k :: k in demand && (demand[k].Exact? || demand[k].Unknown?) ==> worker[k] == demand[k])
      && (forall k :: k in demand && demand[k].Minimum? ==>
            worker[k].Minimum? && worker[k].amount >= demand[k].amount)
  {
    assert forall k :: k in demand ==> k in demand.Keys && (k in worker <==> k in worker.Keys);
  }

  /** So a worker meets every demand for what it offers itself. */
  lemma MeetsItsOwnOffer(offer: Properties)
    ensures Satisfies(offer, offer)
  {
    SatisfiedExactly(offer, offer);
  }

  /** Offering at least as much, and the same elsewhere, never turns an action away. */
  predicate AtLeast(more: Properties, less: Properties) {
    && more.Keys == less.Keys
    && forall k :: k in less ==>
         more[k] == less[k] || (more[k].Minimum? && less[k].Minimum? && more[k].amount >= less[k].amount)
  }

  lemma SatisfactionIsMonotone(more: Properties, less: Properties, demand: Properties)
    requires AtLeast(more, less)
    ensures Satisfies(less, demand) ==> Satisfies(more, demand)
  {
  }

  /** The loop of `reduce_platform_properties`, which subtracts one demanded amount at a
      time in an arbitrary key order. The precondition is the source's own assertion. */
  method ReduceInPlace(worker: Properties, demand: Properties) returns (r: Properties)
    requires Satisfies(worker, demand)
    ensures r == Reduce(worker, demand)
    ensures forall k :: Amount(r, k) == Amount(worker, k) - Amount(demand, k)
  {
    r := worker;
    var todo := demand.Keys;
    while todo != {}
      invariant todo <= demand.Keys && r.Keys == worker.Keys
      invariant forall k :: k in worker ==> r[k] == if k in todo then worker[k] else Reduce(worker, demand)[k]
      decreases todo
    {
      var k :| k in todo;
      if demand[k].Minimum? {
        r := r[k := Minimum(WrappingSub(r[k].amount, demand[k].amount))];
      }
      todo := todo - {k};
    }
  }

  /** The loop of `restore_platform_properties`. */
  method RestoreInPlace(worker: Properties, demand: Properties) returns (r: Properties)
    requires Carries(worker, demand)
    ensures r == Restore(worker, demand)
  {
    r := worker;
    var todo := demand.Keys;
    while todo != {}
      invariant todo <= demand.Keys && r.Keys == worker.Keys
      invariant forall k :: k in worker ==> r[k] == if k in todo then worker[k] else Restore(worker, demand)[k]
      decreases todo
    {
      var k :| k in todo;
      if demand[k].Minimum? {
        r := r[k := Minimum(WrappingAdd(r[k].amount, demand[k].amount))];
      }
      todo := todo - {k};
    }
  }
}

/**
 The bounded least-recently-used store: a map of values plus a recency queue,
 oldest key first. `Store` is the abstract value of one store; the class
 `BoundedLruStore` updates the map and the queue in place and is proved against
 the functions on `Store`.
 */
module Lru {
  import opened Queues
  import opened Wrappers

  datatype Store<K, V> = Store(capacity: nat, values: map<K, V>, order: seq<K>)

  // ---------------------------------------------------------------- operations

  /** Every store reachable through the operations: the queue holds each stored key once. */
  ghost predicate Valid<K(!new), V>(st: Store<K, V>) {
    && Distinct(st.order)
    && (forall k :: k in st.order <==> k in st.values)
    && |st.order| <= st.capacity
  }

  function New<K, V>(capacity: nat): Store<K, V> {
    Store(capacity, map[], [])
  }

  function Lookup<K, V>(st: Store<K, V>, key: K): Option<V> {
    if key in st.values then Some(st.values[key]) else None
  }

  function Inserted<K(==, !new), V>(st: Store<K, V>, key: K, value: V): Store<K, V> {
    var rest := Without(st.order, key);
    if st.capacity == 0 then Store(0, st.values - {key}, rest)
    else if |rest| < st.capacity then Store(st.capacity, st.values[key := value], rest + [key])
    else Store(st.capacity, st.values[key := value] - {(rest + [key])[0]}, (rest + [key])[1..])
  }

  function Touched<K(==, !new), V>(st: Store<K, V>, key: K): Store<K, V> {
    if key in st.values then st.(order := Without(st.order, key) + [key]) else st
  }

  /** A mutable lookup whose caller writes `update` of the value through the reference. */
  function Updated<K(==, !new), V>(st: Store<K, V>, key: K, update: V -> V): Store<K, V> {
    if key in st.values
    then Touched(st, key).(values := st.values[key := update(st.values[key])])
    else st
  }

  function Removed<K(==, !new), V>(st: Store<K, V>, key: K): Store<K, V> {
    Store(st.capacity, st.values - {key}, Without(st.order, key))
  }

  function Retained<K(==, !new), V>(st: Store<K, V>, keep: (K, V) -> bool): Store<K, V> {
    var values := map k | k in st.values && keep(k, st.values[k]) :: st.values[k];
    Store(st.capacity, values, KeepOnly(st.order, values.Keys))
  }

  datatype Op<!K, !V> =
    | Insert(key: K, value: V)
    | GetMut(key: K, update: V -> V)
    | Remove(key: K)
    | Retain(keep: (K, V) -> bool)

  function Step<K(==, !new), V>(st: Store<K, V>, op: Op<K, V>): Store<K, V> {
    match op
    case Insert(key, value) => Inserted(st, key, value)
    case GetMut(key, update) => Updated(st, key, update)
    case Remove(key) => Removed(st, key)
    case Retain(keep) => Retained(st, keep)
  }

  function Run<K(==, !new), V>(st: Store<K, V>, ops: seq<Op<K, V>>): Store<K, V> {
    if ops == [] then st
    else Step(Run(st, ops[..|ops| - 1]), ops[|ops| - 1])
  }

  lemma ValidSize<K(!new), V>(st: Store<K, V>)
    requires Valid(st)
    ensures |st.values| == |st.order| <= st.capacity
  {
    DistinctSize(st.order);
    assert Elements(st.order) == st.values.Keys;
  }

  lemma StepValid<K(!new), V>(st: Store<K, V>, op: Op<K, V>)
    requires Valid(st)
    ensures Valid(Step(st, op)) && Step(st, op).capacity == st.capacity
  {
    if op.Retain? {
      var kept := Retained(st, op.keep);
      KeepOnlyDistinct(st.order, kept.values.Keys);
      KeepOnlyMembers(st.order, kept.values.Keys);
    } else {
      WithoutDistinct(st.order, op.key);
      WithoutMembers(st.order, op.key);
      DistinctSnoc(Without(st.order, op.key), op.key);
      DistinctTail(Without(st.order, op.key) + [op.key]);
    }
  }

  /** In every run the queue and the map agree and the capacity is respected. */
  lemma {:induction false} RunValid<K(!new), V>(st: Store<K, V>, ops: seq<Op<K, V>>)
    requires Valid(st)
    ensures Valid(Run(st, ops)) && Run(st, ops).capacity == st.capacity
  {
    if ops != [] {
      RunValid(st, ops[..|ops| - 1]);
      StepValid(Run(st, ops[..|ops| - 1]), ops[|ops| - 1]);
    }
  }

  /**
   An insert drops at most one key, the oldest one, never the key it stores, and
   leaves the value of every other key alone.
   */
  lemma InsertEvictsAtMostTheOldest<K(!new), V>(st: Store<K, V>, key: K, value: V)
    requires Valid(st) && st.capacity > 0
    ensures var after := Inserted(st, key, value);
            && Lookup(after, key) == Some(value)
            && (key in st.values || |st.order| < st.capacity
                ==> after.values == st.values[key := value])
            && (key !in st.values && |st.order| == st.capacity
                ==> after.values == st.values[key := value] - {st.order[0]} && st.order[0] != key)
  {
    WithoutDistinct(st.order, key);
    if key !in st.values {
      WithoutAbsent(st.order, key);
    }
  }

  // ---------------------------------------------------------------- what lookups see

  /** Retaining keeps an entry exactly if it is accepted, with its value and its place among the kept ones. */
  lemma RetainedLooksUp<K(!new), V(!new)>(st: Store<K, V>, keep: (K, V) -> bool, a: K, b: K)
    requires Valid(st)
    ensures var after := Retained(st, keep);
            && (forall v :: Lookup(after, a) == Some(v) <==> Lookup(st, a) == Some(v) && keep(a, v))
            && (Precedes(after.order, a, b) <==>
                  Precedes(st.order, a, b) && Lookup(after, a).Some? && Lookup(after, b).Some?)
  {
    KeepOnlyPrecedes(st.order, Retained(st, keep).values.Keys, a, b);
  }

  /** Removing takes that key and nothing else. */
  lemma RemovedLooksUp<K(!new), V>(st: Store<K, V>, key: K, a: K, b: K)
    ensures var after := Removed(st, key);
            && Lookup(after, a) == (if a == key then None else Lookup(st, a))
            && (Precedes(after.order, a, b) <==> Precedes(st.order, a, b) && a != key && b != key)
  {
    WithoutPrecedes(st.order, key, a, b);
  }

  /** A mutable lookup changes the value of its key, if there is one, and no other. */
  lemma UpdatedLooksUp<K(!new), V>(st: Store<K, V>, key: K, update: V -> V, a: K)
    ensures var after, found := Updated(st, key, update), Lookup(st, key);
            Lookup(after, a) == if a == key && found.Some? then Some(update(found.value)) else Lookup(st, a)
  {
  }

  // ---------------------------------------------------------------- the store in place

  lemma {:induction false} TouchLast<K(!new)>(s: seq<K>, key: K)
    requires Distinct(s) && s != [] && s[|s| - 1] == key
    ensures Without(s, key) + [key] == s
  {
    if |s| > 1 {
      assert s[1..][|s| - 2] == key;
      TouchLast(s[1..], key);
    }
  }

  /** What the eviction loop leaves of a map and a queue. */
  function Evicted<K(==, !new), V>(st: Store<K, V>): Store<K, V>
    decreases |st.order|
  {
    if |st.values| > st.capacity && st.order != []
    then Evicted(Store(st.capacity, st.values - {st.order[0]}, st.order[1..]))
    else st
  }

  lemma InsertedIsEvicted<K(!new), V>(st: Store<K, V>, key: K, value: V)
    requires Valid(st) && st.capacity > 0
    ensures Evicted(Store(st.capacity, st.values[key := value], Without(st.order, key) + [key]))
         == Inserted(st, key, value)
  {
    var moved := Without(st.order, key) + [key];
    WithoutDistinct(st.order, key);
    WithoutMembers(st.order, key);
    DistinctSnoc(Without(st.order, key), key);
    DistinctSize(moved);
    assert Elements(moved) == st.values[key := value].Keys;
    StepValid(st, Insert(key, value));
    ValidSize(Inserted(st, key, value));
  }

  class BoundedLruStore<K(==, !new), V> {
    const capacity: nat
    var values: map<K, V>
    var order: seq<K>

    ghost function Contents(): Store<K, V>
      reads this
    {
      Store(capacity, values, order)
    }

    constructor (capacity: nat)
      ensures Contents() == New(capacity)
    {
      this.capacity := capacity;
      values := map[];
      order := [];
    }

    method Peek(key: K) returns (found: Option<V>)
      ensures found == Lookup(Contents(), key)
    {
      found := if key in values then Some(values[key]) else None;
    }

    /** A mutable lookup; `update` is what the caller writes through the reference. */
    method GetMut(key: K, update: V -> V) returns (found: Option<V>)
      requires Valid(Contents())
      modifies this
      ensures Contents() == Updated(old(Contents()), key, update)
      ensures found == Lookup(Contents(), key)
    {
      if key !in values {
        return None;
      }
      TouchKey(key);
      values := values[key := update(values[key])];
      found := Some(values[key]);
    }

    method Insert(key: K, value: V) returns (previous: Option<V>)
      requires Valid(Contents())
      modifies this
      ensures Contents() == Inserted(old(Contents()), key, value)
      ensures previous == Lookup(old(Contents()), key)
    {
      RemoveFromLru(key);
      previous := if key in values then Some(values[key]) else None;
      if capacity == 0 {
        values := values - {key};
        return;
      }
      InsertedIsEvicted(old(Contents()), key, value);
      values := values[key := value];
      order := order + [key];
      EvictToCapacity();
    }

    method Remove(key: K) returns (removed: Option<V>)
      modifies this
      ensures Contents() == Removed(old(Contents()), key)
      ensures removed == Lookup(old(Contents()), key)
    {
      RemoveFromLru(key);
      removed := if key in values then Some(values[key]) else None;
      values := values - {key};
    }

    method Retain(keep: (K, V) -> bool)
      requires Valid(Contents())
      modifies this
      ensures Contents() == Retained(old(Contents()), keep)
    {
      var toRemove := set k | k in values && !keep(k, values[k]);
      KeepOnlyAll(order, values.Keys);
      while toRemove != {}
        invariant toRemove <= values.Keys
        invariant values == map k | k in old(values) && (keep(k, old(values)[k]) || k in toRemove) :: old(values)[k]
        invariant order == KeepOnly(old(order), values.Keys)
      {
        var key :| key in toRemove;
        toRemove := toRemove - {key};
        KeepOnlyMembers(old(order), values.Keys);
        WithoutIsKeepOnly(order, key, values.Keys - {key});
        KeepOnlyTwice(old(order), values.Keys, values.Keys - {key}, values.Keys - {key});
        var _ := Remove(key);
      }
      assert values == Retained(old(Contents()), keep).values;
    }

    method Clear()
      modifies this
      ensures Contents() == New(capacity)
    {
      values := map[];
      order := [];
    }

    method TouchKey(key: K)
      requires Valid(Contents()) && key in values
      modifies this`order
      ensures Contents() == Touched(old(Contents()), key)
    {
      if order != [] && order[|order| - 1] == key {
        TouchLast(order, key);
        return;
      }
      RemoveFromLru(key);
      order := order + [key];
    }

    method EvictToCapacity()
      modifies this
      ensures Contents() == Evicted(old(Contents()))
    {
      while |values| > capacity
        invariant Evicted(Contents()) == Evicted(old(Contents()))
        decreases |order|
      {
        if order == [] {
          break;
        }
        var oldest := order[0];
        order := order[1..];
        values := values - {oldest};
      }
    }

    method RemoveFromLru(key: K)
      modifies this`order
      ensures order == Without(old(order), key)
    {
      var retained := [];
      while order != []
        invariant retained + Without(order, key) == Without(old(order), key)
        decreases |order|
      {
        var candidate := order[0];
        order := order[1..];
        if candidate != key {
          retained := retained + [candidate];
        }
      }
      order := retained;
    }
  }
}

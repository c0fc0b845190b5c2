/**
 The sharded store: independent LRU stores behind one lock each, with the
 requested capacity split over them. Every critical section is one atomic step,
 so a run is any interleaving of the calls in flight; a `get_or_insert` call is
 two critical sections, one under the read lock and one under the write lock.
 */
module Sharded {
  import opened Division
  import opened Lru
  import opened Wrappers

  const DEFAULT_SHARD_COUNT: nat := 32

  function RecommendedShardCount(capacity: nat): nat {
    if capacity < 1 then 1 else if capacity > DEFAULT_SHARD_COUNT then DEFAULT_SHARD_COUNT else capacity
  }

  function ShardIndex<K>(hash: K -> nat, key: K, shardCount: nat): nat {
    hash(key) % (if shardCount == 0 then 1 else shardCount)
  }

  function ShardCapacity(capacity: nat, index: nat): nat {
    var count := RecommendedShardCount(capacity);
    capacity / count + if index < capacity % count then 1 else 0
  }

  /** The capacity of the first `n` shards together. */
  function CapacitySum(capacity: nat, n: nat): nat {
    if n == 0 then 0 else CapacitySum(capacity, n - 1) + ShardCapacity(capacity, n - 1)
  }

  lemma {:induction false} CapacityPrefix(capacity: nat, count: nat, n: nat)
    requires count == RecommendedShardCount(capacity)
    ensures CapacitySum(capacity, n)
         == (capacity / count) * n + (if n < capacity % count then n else capacity % count)
  {
    if n > 0 {
      CapacityPrefix(capacity, count, n - 1);
      TimesSuccessor(capacity / count, n - 1);
    }
  }

  lemma TimesSuccessor(base: nat, n: nat)
    ensures base * (n + 1) == base * n + base
  {
  }

  lemma DivisionSplits(a: nat, n: nat)
    requires n > 0
    ensures a == (a / n) * n + a % n && a % n < n
    ensures a >= n ==> a / n > 0
  {
  }

  /**
   There is a shard for each entry, up to 32; no capacity is lost or invented,
   shards differ by at most one, and none is empty unless all are.
   */
  lemma CapacitySplit(capacity: nat, i: nat, j: nat)
    ensures 1 <= RecommendedShardCount(capacity) <= 32
    ensures 1 <= capacity <= 32 ==> RecommendedShardCount(capacity) == capacity
    ensures capacity > 32 ==> RecommendedShardCount(capacity) == 32
    ensures CapacitySum(capacity, RecommendedShardCount(capacity)) == capacity
    ensures ShardCapacity(capacity, i) <= ShardCapacity(capacity, j) + 1
    ensures capacity > 0 ==> ShardCapacity(capacity, i) > 0
  {
    var count := RecommendedShardCount(capacity);
    CapacityPrefix(capacity, count, count);
    DivisionSplits(capacity, count);
  }

  /** Keys go to the shard their hash names, and every shard gets keys. */
  lemma ShardOfHash<K>(hash: K -> nat, key: K, laps: nat, index: nat, shardCount: nat)
    requires index < shardCount && hash(key) == laps * shardCount + index
    ensures ShardIndex(hash, key, shardCount) == index
  {
    Quotient(hash(key), shardCount, laps, index);
  }

  // ---------------------------------------------------------------- interleaved calls

  /** The shards, and the calls that missed under the read lock and await the write lock. */
  datatype State<K, V> = State(shards: seq<Store<K, V>>, waiting: map<nat, K>)

  datatype Call<K, V> =
    | ReadPhase(call: nat, key: K)
    | WritePhase(call: nat, created: V)
    | Put(key: K, value: V)
    | Peek(key: K)
    | ClearShard(index: nat)

  function Fresh<K, V>(capacity: nat): State<K, V> {
    State(seq(RecommendedShardCount(capacity), i requires i >= 0 => New(ShardCapacity(capacity, i))), map[])
  }

  ghost predicate Inv<K(!new), V>(hash: K -> nat, s: State<K, V>) {
    && s.shards != []
    && (forall i :: 0 <= i < |s.shards| ==> Valid(s.shards[i]))
    && (forall i, k :: 0 <= i < |s.shards| && k in s.shards[i].values ==> ShardIndex(hash, k, |s.shards|) == i)
  }

  function Find<K, V>(hash: K -> nat, s: State<K, V>, key: K): Option<V>
    requires s.shards != []
  {
    Lookup(s.shards[ShardIndex(hash, key, |s.shards|)], key)
  }

  function PutAt<K(==, !new), V>(hash: K -> nat, s: State<K, V>, key: K, value: V): State<K, V>
    requires s.shards != []
  {
    var i := ShardIndex(hash, key, |s.shards|);
    s.(shards := s.shards[i := Inserted(s.shards[i], key, value)])
  }

  /** One critical section: the new state, and the key and value a finished `get_or_insert` returns. */
  function Apply<K(==, !new), V>(hash: K -> nat, s: State<K, V>, step: Call<K, V>): (State<K, V>, Option<(K, V)>)
    requires s.shards != []
  {
    match step
    case ReadPhase(call, key) =>
      (match Find(hash, s, key)
       case Some(existing) => (s, Some((key, existing)))
       case None => (s.(waiting := s.waiting[call := key]), None))
    case WritePhase(call, created) =>
      if call !in s.waiting then (s, None)
      else
        var key := s.waiting[call];
        var next := s.(waiting := s.waiting - {call});
        (match Find(hash, s, key)
         case Some(existing) => (next, Some((key, existing)))
         case None => (PutAt(hash, next, key, created), Some((key, created))))
    case Put(key, value) => (PutAt(hash, s, key, value), None)
    case Peek(_) => (s, None)
    case ClearShard(index) =>
      (if index < |s.shards| then s.(shards := s.shards[index := New(s.shards[index].capacity)]) else s, None)
  }

  function RunCalls<K(==, !new), V>(hash: K -> nat, s: State<K, V>, steps: seq<Call<K, V>>): (r: State<K, V>)
    requires s.shards != []
    ensures |r.shards| == |s.shards|
    decreases |steps|
  {
    if steps == [] then s else RunCalls(hash, Apply(hash, s, steps[0]).0, steps[1..])
  }

  /** What each step of a run returned. */
  function Returns<K(==, !new), V>(hash: K -> nat, s: State<K, V>, steps: seq<Call<K, V>>)
    : (r: seq<Option<(K, V)>>)
    requires s.shards != []
    ensures |r| == |steps|
    decreases |steps|
  {
    if steps == [] then []
    else
      var (next, result) := Apply(hash, s, steps[0]);
      [result] + Returns(hash, next, steps[1..])
  }

  ghost predicate SameCapacities<K, V>(a: seq<Store<K, V>>, b: seq<Store<K, V>>) {
    |a| == |b| && forall i :: 0 <= i < |a| ==> a[i].capacity == b[i].capacity
  }

  lemma PutKeepsInv<K(!new), V>(hash: K -> nat, s: State<K, V>, key: K, value: V)
    requires Inv(hash, s)
    ensures Inv(hash, PutAt(hash, s, key, value))
    ensures SameCapacities(PutAt(hash, s, key, value).shards, s.shards)
  {
    StepValid(s.shards[ShardIndex(hash, key, |s.shards|)], Insert(key, value));
  }

  lemma ApplyKeepsInv<K(!new), V>(hash: K -> nat, s: State<K, V>, step: Call<K, V>)
    requires Inv(hash, s)
    ensures Inv(hash, Apply(hash, s, step).0)
    ensures SameCapacities(Apply(hash, s, step).0.shards, s.shards)
  {
    match step
    case WritePhase(call, created) =>
      if call in s.waiting {
        PutKeepsInv(hash, s.(waiting := s.waiting - {call}), s.waiting[call], created);
      }
    case Put(key, value) => PutKeepsInv(hash, s, key, value);
    case _ =>
  }

  lemma {:induction false} RunKeepsInv<K(!new), V>(hash: K -> nat, s: State<K, V>, steps: seq<Call<K, V>>)
    requires Inv(hash, s)
    ensures Inv(hash, RunCalls(hash, s, steps))
    ensures SameCapacities(RunCalls(hash, s, steps).shards, s.shards)
    decreases |steps|
  {
    if steps != [] {
      ApplyKeepsInv(hash, s, steps[0]);
      RunKeepsInv(hash, Apply(hash, s, steps[0]).0, steps[1..]);
    }
  }

  /** The entries of the first `n` shards together. */
  function EntrySum<K, V>(shards: seq<Store<K, V>>, n: nat): nat
    requires n <= |shards|
  {
    if n == 0 then 0 else EntrySum(shards, n - 1) + |shards[n - 1].values|
  }

  lemma {:induction false} EntriesBounded<K(!new), V>(hash: K -> nat, s: State<K, V>, capacity: nat, n: nat)
    requires Inv(hash, s) && n <= |s.shards|
    requires forall i :: 0 <= i < |s.shards| ==> s.shards[i].capacity == ShardCapacity(capacity, i)
    ensures EntrySum(s.shards, n) <= CapacitySum(capacity, n)
  {
    if n > 0 {
      EntriesBounded(hash, s, capacity, n - 1);
      ValidSize(s.shards[n - 1]);
    }
  }

  /**
   In every interleaving the store holds at most the requested number of entries
   and a key can only be found in the one shard its hash names.
   */
  lemma ShardedBound<K(!new), V>(hash: K -> nat, capacity: nat, steps: seq<Call<K, V>>)
    ensures var s := RunCalls(hash, Fresh(capacity), steps);
            && EntrySum(s.shards, |s.shards|) <= capacity
            && (forall i, k :: 0 <= i < |s.shards| && k in s.shards[i].values ==>
                  i == ShardIndex(hash, k, |s.shards|))
  {
    var start := Fresh<K, V>(capacity);
    RunKeepsInv(hash, start, steps);
    var s := RunCalls(hash, start, steps);
    EntriesBounded(hash, s, capacity, |s.shards|);
    CapacitySplit(capacity, 0, 0);
  }

  /** A put stores its value; another key keeps its own or is evicted, and only from the same shard. */
  lemma PutStores<K(!new), V>(hash: K -> nat, s: State<K, V>, key: K, value: V, other: K)
    requires Inv(hash, s) && NoEmptyShard(s) && other != key
    ensures var after := Apply(hash, s, Put(key, value)).0;
            && Find(hash, after, key) == Some(value)
            && (Find(hash, after, other) == Find(hash, s, other)
                || (Find(hash, after, other) == None
                    && ShardIndex(hash, other, |s.shards|) == ShardIndex(hash, key, |s.shards|)))
  {
    InsertEvictsAtMostTheOldest(s.shards[ShardIndex(hash, key, |s.shards|)], key, value);
  }

  /**
   A get-or-insert finishes at its first phase exactly if the key is there, and
   otherwise at its second, with the value stored by then or else its own.
   */
  lemma CallsFinish<K(!new), V>(hash: K -> nat, s: State<K, V>, call: nat, key: K, created: V)
    requires s.shards != []
    ensures var (after, result) := Apply(hash, s, ReadPhase(call, key));
            if Find(hash, s, key).Some? then result == Some((key, Find(hash, s, key).value)) && after == s
            else result == None && call in after.waiting && after.waiting[call] == key && after.shards == s.shards
    ensures call in s.waiting ==>
              var (after, result) := Apply(hash, s, WritePhase(call, created));
              var stored := Find(hash, s, s.waiting[call]);
              && result == Some((s.waiting[call], if stored.Some? then stored.value else created))
              && call !in after.waiting && forall c :: c in s.waiting && c != call ==>
                   c in after.waiting && after.waiting[c] == s.waiting[c]
  {
  }

  /** Clearing a shard forgets its keys and no others; a peek changes nothing. */
  lemma ClearForgets<K(!new), V>(hash: K -> nat, s: State<K, V>, index: nat, key: K)
    requires Inv(hash, s)
    ensures var after := Apply(hash, s, ClearShard(index)).0;
            && Find(hash, after, key)
               == (if ShardIndex(hash, key, |s.shards|) == index then None else Find(hash, s, key))
            && SameCapacities(after.shards, s.shards)
    ensures Apply(hash, s, Peek(key)).0 == s
  {
  }

  // ---------------------------------------------------------------- one value per key

  /** The step overwrites `key`, or evicts or clears it. */
  ghost predicate Displaces<K(!new), V>(hash: K -> nat, s: State<K, V>, step: Call<K, V>, key: K)
    requires s.shards != []
  {
    || (step.Put? && step.key == key)
    || (Find(hash, s, key).Some? && Find(hash, Apply(hash, s, step).0, key).None?)
  }

  ghost predicate Undisturbed<K(!new), V>(hash: K -> nat, s: State<K, V>, steps: seq<Call<K, V>>, key: K)
    requires s.shards != []
    decreases |steps|
  {
    steps == [] || (&& !Displaces(hash, s, steps[0], key)
                    && Undisturbed(hash, Apply(hash, s, steps[0]).0, steps[1..], key))
  }

  ghost predicate NoEmptyShard<K, V>(s: State<K, V>) {
    forall i :: 0 <= i < |s.shards| ==> s.shards[i].capacity > 0
  }

  /** A value that is returned is the stored one, and a stored value stays until it is displaced. */
  lemma ApplyHolds<K(!new), V>(hash: K -> nat, s: State<K, V>, step: Call<K, V>, key: K)
    requires Inv(hash, s) && NoEmptyShard(s) && !Displaces(hash, s, step, key)
    ensures var (after, result) := Apply(hash, s, step);
            && (result.Some? && result.value.0 == key ==> Find(hash, after, key) == Some(result.value.1))
            && (Find(hash, s, key).Some? ==> Find(hash, after, key) == Find(hash, s, key))
  {
  }

  /** Step `i` of the run is a `get_or_insert` on `key` that returns `value`. */
  ghost predicate ReturnsAt<K(!new), V>(
    hash: K -> nat, s: State<K, V>, steps: seq<Call<K, V>>, i: nat, key: K, value: V)
    requires s.shards != []
  {
    i < |steps| && Returns(hash, s, steps)[i] == Some((key, value))
  }

  lemma {:induction false} HeldValue<K(!new), V>(
    hash: K -> nat, s: State<K, V>, steps: seq<Call<K, V>>, i: nat, key: K, held: V, value: V)
    requires Inv(hash, s) && NoEmptyShard(s) && Undisturbed(hash, s, steps, key)
    requires Find(hash, s, key) == Some(held) && ReturnsAt(hash, s, steps, i, key, value)
    ensures value == held
    decreases |steps|
  {
    ApplyKeepsInv(hash, s, steps[0]);
    ApplyHolds(hash, s, steps[0], key);
    if i > 0 {
      HeldValue(hash, Apply(hash, s, steps[0]).0, steps[1..], i - 1, key, held, value);
    }
  }

  lemma {:induction false} OneValueFrom<K(!new), V>(
    hash: K -> nat, s: State<K, V>, steps: seq<Call<K, V>>, key: K, i: nat, v: V, j: nat, w: V)
    requires Inv(hash, s) && NoEmptyShard(s) && Undisturbed(hash, s, steps, key)
    requires i < j && ReturnsAt(hash, s, steps, i, key, v) && ReturnsAt(hash, s, steps, j, key, w)
    ensures v == w
    decreases |steps|
  {
    var next := Apply(hash, s, steps[0]).0;
    ApplyKeepsInv(hash, s, steps[0]);
    if i == 0 {
      ApplyHolds(hash, s, steps[0], key);
      HeldValue(hash, next, steps[1..], j - 1, key, v, w);
    } else {
      OneValueFrom(hash, next, steps[1..], key, i - 1, v, j - 1, w);
    }
  }

  lemma ReachableShards<K(!new), V>(hash: K -> nat, capacity: nat, before: seq<Call<K, V>>)
    requires capacity > 0
    ensures Inv(hash, RunCalls(hash, Fresh(capacity), before))
    ensures NoEmptyShard(RunCalls(hash, Fresh(capacity), before))
  {
    RunKeepsInv(hash, Fresh<K, V>(capacity), before);
    var s := RunCalls(hash, Fresh<K, V>(capacity), before);
    forall i | 0 <= i < |s.shards| ensures s.shards[i].capacity > 0 {
      CapacitySplit(capacity, i, i);
    }
  }

  /**
   In any stretch of any interleaved run in which `key` is not overwritten,
   evicted or cleared, all `get_or_insert` calls on `key` return one value,
   provided the store was made with a capacity of at least one.
   */
  lemma OneValue<K(!new), V>(hash: K -> nat, capacity: nat, before: seq<Call<K, V>>, steps: seq<Call<K, V>>, key: K,
                             i: nat, v: V, j: nat, w: V)
    requires capacity > 0 && i < j
    requires var s := RunCalls(hash, Fresh(capacity), before);
             && Undisturbed(hash, s, steps, key)
             && ReturnsAt(hash, s, steps, i, key, v) && ReturnsAt(hash, s, steps, j, key, w)
    ensures v == w
  {
    ReachableShards(hash, capacity, before);
    OneValueFrom(hash, RunCalls(hash, Fresh(capacity), before), steps, key, i, v, j, w);
  }

  /** With capacity zero the law fails: nothing is kept, so two calls return what each created. */
  lemma ZeroCapacityKeepsNothing(hash: int -> nat)
    ensures var steps := [ReadPhase(0, 7), WritePhase(0, 1), ReadPhase(1, 7), WritePhase(1, 2)];
            && Undisturbed(hash, Fresh<int, int>(0), steps, 7)
            && Returns(hash, Fresh<int, int>(0), steps) == [None, Some((7, 1)), None, Some((7, 2))]
  {
  }

  // ---------------------------------------------------------------- the store in place

  class ShardedRwLruStore<K(==, !new), V> {
    const hash: K -> nat
    const shards: seq<BoundedLruStore<K, V>>

    ghost predicate Ok()
      reads this, shards
    {
      && (forall i, j :: 0 <= i < j < |shards| ==> shards[i] != shards[j])
      && Inv(hash, Abstract())
    }

    ghost function Abstract(): State<K, V>
      reads this, shards
    {
      State(seq(|shards|, i requires 0 <= i < |shards| reads shards => shards[i].Contents()), map[])
    }

    constructor (capacity: nat, hash: K -> nat)
      ensures Ok() && this.hash == hash
      ensures Abstract() == Fresh(capacity)
      ensures fresh(shards)
    {
      var count := RecommendedShardCount(capacity);
      var built: seq<BoundedLruStore<K, V>> := [];
      for index := 0 to count
        invariant |built| == index
        invariant forall i :: 0 <= i < index ==> fresh(built[i])
        invariant forall i :: 0 <= i < index ==> built[i].Contents() == New(ShardCapacity(capacity, i))
        invariant forall i, j :: 0 <= i < j < index ==> built[i] != built[j]
      {
        var shard := new BoundedLruStore<K, V>(ShardCapacity(capacity, index));
        built := built + [shard];
      }
      this.hash := hash;
      shards := built;
      new;
      assert Abstract().shards == Fresh<K, V>(capacity).shards;
    }

    method PeekCloned(key: K) returns (found: Option<V>)
      requires Ok()
      ensures found == Find(hash, Abstract(), key)
    {
      var shard := shards[ShardIndex(hash, key, |shards|)];
      found := shard.Peek(key);
    }

    method Insert(key: K, value: V) returns (previous: Option<V>)
      requires Ok()
      modifies shards
      ensures Ok()
      ensures Abstract() == PutAt(hash, old(Abstract()), key, value)
      ensures previous == Find(hash, old(Abstract()), key)
    {
      var shard := shards[ShardIndex(hash, key, |shards|)];
      assert Valid(Abstract().shards[ShardIndex(hash, key, |shards|)]);
      previous := shard.Insert(key, value);
      assert Abstract().shards == PutAt(hash, old(Abstract()), key, value).shards;
      PutKeepsInv(hash, old(Abstract()), key, value);
    }

    /** The critical section under the write lock. */
    method InsertIfAbsent(key: K, create: () -> V) returns (value: V)
      requires Ok()
      modifies shards
      ensures Ok()
      ensures match Find(hash, old(Abstract()), key)
              case Some(existing) => value == existing && Abstract() == old(Abstract())
              case None => value == create() && Abstract() == PutAt(hash, old(Abstract()), key, value)
    {
      var existing := PeekCloned(key);
      if existing.Some? {
        return existing.value;
      }
      value := create();
      var _ := Insert(key, value);
    }

    /** Both critical sections, with no other call in between. */
    method GetOrInsertWithCloned(key: K, create: () -> V) returns (value: V)
      requires Ok()
      modifies shards
      ensures Ok()
      ensures match Find(hash, old(Abstract()), key)
              case Some(existing) => value == existing && Abstract() == old(Abstract())
              case None => value == create() && Abstract() == PutAt(hash, old(Abstract()), key, value)
    {
      var existing := PeekCloned(key);
      if existing.Some? {
        return existing.value;
      }
      value := InsertIfAbsent(key, create);
    }

    method Clear()
      requires Ok()
      modifies shards
      ensures Ok()
      ensures forall key :: Find(hash, Abstract(), key) == None
      ensures SameCapacities(Abstract().shards, old(Abstract()).shards)
    {
      for i := 0 to |shards|
        invariant forall j :: 0 <= j < i ==> shards[j].Contents() == New(shards[j].capacity)
        invariant forall j :: i <= j < |shards| ==> shards[j].Contents() == old(shards[j].Contents())
      {
        shards[i].Clear();
      }
    }
  }
}

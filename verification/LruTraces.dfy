/**
 What whole traces of operations leave in a store: cache inclusion between stores
 of different capacity, and the exact set of keys a store holds.
 */
module LruTraces {
  import opened Lru
  import opened Queues
  import opened Wrappers

  // ---------------------------------------------------------------- inclusion

  /** `small` is `large` with nothing missing, or with exactly the key `extra` missing. */
  ghost predicate Thinned<K(!new)>(small: seq<K>, large: seq<K>, extra: Option<K>) {
    match extra
    case None => small == large
    case Some(x) => x in large && small == Without(large, x)
  }

  lemma ThinnedMembers<K(!new)>(small: seq<K>, large: seq<K>, extra: Option<K>)
    requires Thinned(small, large, extra)
    ensures forall k :: k in small ==> k in large
    ensures forall k :: k in large && k !in small ==> extra == Some(k)
    ensures extra.Some? ==> extra.value !in small
  {
    if extra.Some? {
      WithoutMembers(large, extra.value);
    }
  }

  /** The queue an insert leaves in a store of capacity `c`. */
  function Pushed<K(==, !new)>(s: seq<K>, key: K, c: nat): seq<K> {
    var moved := Without(s, key) + [key];
    if |moved| > c then moved[1..] else moved
  }

  lemma PushedThinned<K(!new)>(small: seq<K>, large: seq<K>, extra: Option<K>, key: K, c: nat)
    returns (extra': Option<K>)
    requires Distinct(large) && |small| <= c && |large| <= c + 1 && Thinned(small, large, extra)
    ensures Thinned(Pushed(small, key, c), Pushed(large, key, c + 1), extra')
  {
    var s, l := Without(small, key), Without(large, key);
    WithoutDistinct(large, key);
    WithoutLength(small, key);
    WithoutMembers(small, key);
    WithoutMembers(large, key);
    if extra.Some? && extra.value != key {
      var x := extra.value;
      WithoutCommutes(large, x, key);
      WithoutDistinct(l, x);
      WithoutAppend(l, [key], x);
      extra' := extra;
      if |s| == c {
        assert (l + [key])[1..] == l[1..] + [key];
        if l[0] == x {
          WithoutAbsent(l[1..], x);
          extra' := EvictsHead(s, key);
        } else {
          WithoutAppend(l[1..], [key], x);
          assert (s + [key])[1..] == s[1..] + [key];
        }
      }
    } else {
      if extra.Some? {
        WithoutAbsent(l, key);
      }
      if |s| < c {
        extra' := None;
      } else {
        extra' := EvictsHead(s, key);
      }
    }
  }

  /** Dropping the head of a queue that ends in a fresh key is dropping one key. */
  lemma EvictsHead<K(!new)>(s: seq<K>, key: K) returns (extra: Option<K>)
    requires Distinct(s) && key !in s
    ensures Thinned((s + [key])[1..], s + [key], extra)
  {
    var moved := s + [key];
    extra := Some(moved[0]);
    WithoutAbsent(moved[1..], moved[0]);
  }

  lemma TouchedThinned<K(!new)>(small: seq<K>, large: seq<K>, extra: Option<K>, key: K)
    requires Thinned(small, large, extra) && key in large
    ensures Thinned(if key in small then Without(small, key) + [key] else small,
                    Without(large, key) + [key], extra)
  {
    if extra.Some? {
      var x := extra.value;
      WithoutMembers(large, x);
      WithoutMembers(large, key);
      WithoutAppend(Without(large, key), [key], x);
      WithoutCommutes(large, x, key);
      WithoutAbsent(Without(large, key), key);
    }
  }

  lemma RemovedThinned<K(!new)>(small: seq<K>, large: seq<K>, extra: Option<K>, key: K)
    requires Thinned(small, large, extra)
    ensures Thinned(Without(small, key), Without(large, key), if extra == Some(key) then None else extra)
  {
    if extra.Some? {
      WithoutCommutes(large, extra.value, key);
      WithoutMembers(large, key);
      if extra.value == key {
        WithoutAbsent(small, key);
      }
    }
  }

  lemma RetainedThinned<K(!new)>(small: seq<K>, large: seq<K>, extra: Option<K>, a: set<K>, b: set<K>)
    requires Thinned(small, large, extra)
    requires forall k :: k in small ==> (k in a <==> k in b)
    ensures Thinned(KeepOnly(small, a), KeepOnly(large, b),
                    if extra.Some? && extra.value !in b then None else extra)
  {
    KeepOnlySame(small, a, b);
    if extra.Some? {
      var x := extra.value;
      WithoutKeepOnlyCommute(large, x, b);
      KeepOnlyMembers(large, b);
      if x !in b {
        WithoutAbsent(KeepOnly(large, b), x);
      }
    }
  }

  /** The two stores agree on every key they share. */
  ghost predicate Agree<K(!new), V>(small: Store<K, V>, large: Store<K, V>) {
    forall k :: k in small.values && k in large.values ==> small.values[k] == large.values[k]
  }

  ghost predicate Covers<K(!new), V>(small: Store<K, V>, large: Store<K, V>, extra: Option<K>) {
    && Valid(small) && Valid(large)
    && large.capacity == small.capacity + 1
    && Thinned(small.order, large.order, extra)
    && Agree(small, large)
  }

  lemma InsertedOrder<K(!new), V>(st: Store<K, V>, key: K, value: V)
    requires Valid(st)
    ensures Inserted(st, key, value).order == Pushed(st.order, key, st.capacity)
  {
  }

  lemma GetMutCovers<K(!new), V>(small: Store<K, V>, large: Store<K, V>, extra: Option<K>, op: Op<K, V>)
    requires Covers(small, large, extra) && op.GetMut?
    ensures Covers(Step(small, op), Step(large, op), extra)
  {
    StepValid(small, op);
    StepValid(large, op);
    ThinnedMembers(small.order, large.order, extra);
    if op.key in large.order {
      TouchedThinned(small.order, large.order, extra, op.key);
    }
  }

  lemma RetainCovers<K(!new), V>(small: Store<K, V>, large: Store<K, V>, extra: Option<K>, op: Op<K, V>)
    returns (extra': Option<K>)
    requires Covers(small, large, extra) && op.Retain?
    ensures Covers(Step(small, op), Step(large, op), extra')
  {
    StepValid(small, op);
    StepValid(large, op);
    ThinnedMembers(small.order, large.order, extra);
    var a, b := Step(small, op).values.Keys, Step(large, op).values.Keys;
    RetainedThinned(small.order, large.order, extra, a, b);
    extra' := if extra.Some? && extra.value !in b then None else extra;
  }

  lemma StepCovers<K(!new), V>(small: Store<K, V>, large: Store<K, V>, extra: Option<K>, op: Op<K, V>)
    returns (extra': Option<K>)
    requires Covers(small, large, extra)
    ensures Covers(Step(small, op), Step(large, op), extra')
  {
    match op
    case Insert(key, value) =>
      StepValid(small, op);
      StepValid(large, op);
      InsertedOrder(small, key, value);
      InsertedOrder(large, key, value);
      extra' := PushedThinned(small.order, large.order, extra, key, small.capacity);
    case GetMut(_, _) =>
      GetMutCovers(small, large, extra, op);
      extra' := extra;
    case Remove(key) =>
      StepValid(small, op);
      StepValid(large, op);
      RemovedThinned(small.order, large.order, extra, key);
      extra' := if extra == Some(key) then None else extra;
    case Retain(_) =>
      extra' := RetainCovers(small, large, extra, op);
  }

  lemma {:induction false} RunCovers<K(!new), V>(c: nat, ops: seq<Op<K, V>>) returns (extra: Option<K>)
    ensures Covers(Run(New(c), ops), Run(New(c + 1), ops), extra)
  {
    if ops == [] {
      extra := None;
    } else {
      var before := RunCovers(c, ops[..|ops| - 1]);
      extra := StepCovers(Run(New(c), ops[..|ops| - 1]), Run(New(c + 1), ops[..|ops| - 1]), before,
                          ops[|ops| - 1]);
    }
  }

  /**
   `small` holds part of `large`: its queue is the larger one's restricted to its
   own keys, with the same values, and at most `d` keys are missing.
   */
  ghost predicate Included<K(!new), V>(small: Store<K, V>, large: Store<K, V>, d: nat) {
    && small.order == KeepOnly(large.order, small.values.Keys)
    && (forall k :: k in small.values ==> Lookup(large, k) == Lookup(small, k))
    && |small.order| <= |large.order| <= |small.order| + d
  }

  lemma IncludedSelf<K(!new), V>(st: Store<K, V>)
    requires Valid(st)
    ensures Included(st, st, 0)
  {
    KeepOnlyAll(st.order, st.values.Keys);
  }

  lemma IncludedStep<K(!new), V>(small: Store<K, V>, middle: Store<K, V>, large: Store<K, V>, extra: Option<K>, d: nat)
    requires Included(small, middle, d) && Covers(middle, large, extra)
    ensures Included(small, large, d + 1)
  {
    ThinnedMembers(middle.order, large.order, extra);
    KeepOnlyMembers(middle.order, small.values.Keys);
    if extra.Some? {
      WithoutIsKeepOnly(large.order, extra.value, middle.values.Keys);
      WithoutDistinct(large.order, extra.value);
      KeepOnlyTwice(large.order, middle.values.Keys, small.values.Keys, small.values.Keys);
    }
    forall k | k in small.values ensures Lookup(large, k) == Lookup(small, k) {
      assert k in middle.order;
      assert k in large.order;
    }
  }

  lemma InclusionStep<K(!new), V>(c: nat, e: nat, ops: seq<Op<K, V>>)
    requires c <= e && Included(Run(New(c), ops), Run(New(e), ops), e - c)
    ensures Included(Run(New(c), ops), Run(New(e + 1), ops), e + 1 - c)
  {
    var extra := RunCovers(e, ops);
    IncludedStep(Run(New(c), ops), Run(New(e), ops), Run(New(e + 1), ops), extra, e - c);
  }

  lemma InclusionBase<K(!new), V>(c: nat, ops: seq<Op<K, V>>)
    ensures Included(Run(New(c), ops), Run(New(c), ops), 0)
  {
    RunValid(New<K, V>(c), ops);
    IncludedSelf(Run(New(c), ops));
  }

  /**
   Cache inclusion, for any two capacities: after the same trace, the smaller
   store's queue is a subsequence of the larger one's in the same recency order,
   shared keys hold equal values, and the larger store has at most the capacity
   difference in extra keys.
   */
  lemma {:induction false} Inclusion<K(!new), V>(c: nat, e: nat, ops: seq<Op<K, V>>)
    requires c <= e
    ensures Included(Run(New(c), ops), Run(New(e), ops), e - c)
  {
    InclusionBase(c, ops);
    var d := c;
    while d < e
      invariant c <= d <= e
      invariant Included(Run(New(c), ops), Run(New(d), ops), d - c)
    {
      InclusionStep(c, d, ops);
      d := d + 1;
    }
  }

  // ---------------------------------------------------------------- exactness

  /** Only inserts and mutable lookups. */
  predicate OnlyUses<K, V>(ops: seq<Op<K, V>>) {
    forall i :: 0 <= i < |ops| ==> ops[i].Insert? || ops[i].GetMut?
  }

  /** The keys used by a run, one entry per insert and per lookup that hits. */
  function UseLog<K(==, !new), V>(c: nat, ops: seq<Op<K, V>>): seq<K> {
    if ops == [] then []
    else
      var log := UseLog(c, ops[..|ops| - 1]);
      match ops[|ops| - 1]
      case Insert(key, _) => log + [key]
      case GetMut(key, _) => if key in Run(New<K, V>(c), ops[..|ops| - 1]).values then log + [key] else log
      case _ => log
  }

  /** The position of the last entry for `key`. */
  function LastUse<K(==, !new)>(log: seq<K>, key: K): (i: nat)
    requires key in log
    ensures i < |log| && log[i] == key
  {
    if log[|log| - 1] == key then |log| - 1
    else
      assert key in log[..|log| - 1];
      LastUse(log[..|log| - 1], key)
  }

  /** The distinct keys of a log, least recently used first. */
  function Recency<K(==, !new)>(log: seq<K>): seq<K> {
    if log == [] then []
    else Without(Recency(log[..|log| - 1]), log[|log| - 1]) + [log[|log| - 1]]
  }

  /** The part of a queue from `key` on. */
  function From<K(==, !new)>(s: seq<K>, key: K): seq<K> {
    if s == [] || s[0] == key then s else From(s[1..], key)
  }

  function LastN<K(!new)>(s: seq<K>, n: nat): seq<K> {
    if |s| <= n then s else s[|s| - n..]
  }

  lemma {:induction false} FromMoved<K(!new)>(s: seq<K>, moved: K, key: K)
    requires Distinct(s) && key in s && key != moved
    ensures From(Without(s, moved) + [moved], key) == Without(From(s, key), moved) + [moved]
  {
    if s[0] != key {
      FromMoved(s[1..], moved, key);
      if s[0] != moved {
        assert (Without(s, moved) + [moved])[1..] == Without(s[1..], moved) + [moved];
      }
    }
  }

  lemma {:induction false} FromLast<K(!new)>(s: seq<K>, key: K)
    requires key !in s
    ensures From(s + [key], key) == [key]
  {
    if s != [] {
      assert (s + [key])[1..] == s[1..] + [key];
      FromLast(s[1..], key);
    }
  }

  lemma {:induction false} FromInLastN<K(!new)>(s: seq<K>, key: K, n: nat)
    requires Distinct(s)
    ensures key in LastN(s, n) <==> key in s && |From(s, key)| <= n
    ensures Distinct(From(s, key)) && |From(s, key)| <= |s|
    ensures key in s ==> From(s, key) != [] && From(s, key)[0] == key
  {
    if s != [] && s[0] != key {
      FromInLastN(s[1..], key, n);
    }
  }

  /** The keys of `s` by last use in `log`, oldest first. */
  ghost predicate ByLastUse<K(!new)>(s: seq<K>, log: seq<K>) {
    s == [] || (&& s[0] in log
                && (forall k :: k in s[1..] && k in log ==> LastUse(log, s[0]) < LastUse(log, k))
                && ByLastUse(s[1..], log))
  }

  lemma {:induction false} ByLastUseMoved<K(!new)>(s: seq<K>, log: seq<K>, key: K)
    requires ByLastUse(s, log)
    ensures ByLastUse(Without(s, key) + [key], log + [key])
  {
    if s != [] {
      ByLastUseMoved(s[1..], log, key);
      var moved := Without(s[1..], key) + [key];
      if s[0] != key {
        WithoutMembers(s[1..], key);
        assert Without(s, key) + [key] == [s[0]] + moved;
        forall k | k in moved && k in log + [key]
          ensures LastUse(log + [key], s[0]) < LastUse(log + [key], k)
        {
          LastUseSnoc(log, key, s[0]);
          LastUseSnoc(log, key, k);
        }
      }
    }
  }

  lemma LastUseSnoc<K(!new)>(log: seq<K>, key: K, k: K)
    requires k in log + [key]
    ensures LastUse(log + [key], k) == if k == key then |log| else LastUse(log, k)
  {
  }

  lemma {:induction false} ByLastUseSuffix<K(!new)>(s: seq<K>, log: seq<K>, n: nat)
    requires ByLastUse(s, log)
    ensures ByLastUse(LastN(s, n), log)
  {
    if |s| > n {
      assert LastN(s, n) == LastN(s[1..], n);
      ByLastUseSuffix(s[1..], log, n);
    }
  }

  lemma {:induction false} ByLastUseIndexed<K(!new)>(s: seq<K>, log: seq<K>, i: nat, j: nat)
    requires ByLastUse(s, log) && i < j < |s|
    ensures s[i] in log && s[j] in log && LastUse(log, s[i]) < LastUse(log, s[j])
  {
    if i > 0 {
      ByLastUseIndexed(s[1..], log, i - 1, j - 1);
    } else {
      assert s[j] == s[1..][j - 1];
      ByLastUseMember(s, log, s[j]);
    }
  }

  lemma {:induction false} ByLastUseMember<K(!new)>(s: seq<K>, log: seq<K>, k: K)
    requires ByLastUse(s, log) && k in s
    ensures k in log
  {
    if s[0] != k {
      ByLastUseMember(s[1..], log, k);
    }
  }

  /** The recency queue lists each logged key once, by last use. */
  lemma {:induction false} RecencyOf<K(!new)>(log: seq<K>)
    ensures Distinct(Recency(log)) && ByLastUse(Recency(log), log)
    ensures forall k :: k in Recency(log) <==> k in log
  {
    if log != [] {
      var front, last := log[..|log| - 1], log[|log| - 1];
      RecencyOf(front);
      WithoutMembers(Recency(front), last);
      WithoutDistinct(Recency(front), last);
      DistinctSnoc(Without(Recency(front), last), last);
      ByLastUseMoved(Recency(front), front, last);
      assert front + [last] == log;
    }
  }

  /** Behind a key in the recency queue stand exactly the keys used since its last use. */
  lemma {:induction false} RecencyFrom<K(!new)>(log: seq<K>, key: K)
    requires key in log
    ensures Elements(From(Recency(log), key)) == Elements(log[LastUse(log, key)..])
  {
    var front, last := log[..|log| - 1], log[|log| - 1];
    var r := Recency(front);
    RecencyOf(front);
    WithoutMembers(r, last);
    WithoutMembers(From(r, key), last);
    if key == last {
      FromLast(Without(r, last), last);
    } else {
      RecencyFrom(front, key);
      FromMoved(r, last, key);
      var i := LastUse(front, key);
      assert log[i..] == front[i..] + [last];
      assert Elements(log[i..]) == Elements(front[i..]) + {last};
      assert Elements(Without(From(r, key), last) + [last]) == Elements(From(r, key)) + {last};
    }
  }

  lemma LastNAppend<K(!new)>(a: seq<K>, b: seq<K>, n: nat)
    requires |b| >= n
    ensures LastN(a + b, n) == LastN(b, n)
  {
  }

  lemma LastNMoved<K(!new)>(r: seq<K>, key: K, c: nat)
    requires Distinct(r) && c > 0
    ensures LastN(Without(r, key) + [key], c) == Pushed(LastN(r, c), key, c)
  {
    WithoutLength(r, key);
    if |r| > c {
      var older, recent := r[..|r| - c], r[|r| - c..];
      assert older + recent == r;
      LastNMovedLong(older, recent, key, c);
    }
  }

  lemma LastNMovedLong<K(!new)>(older: seq<K>, recent: seq<K>, key: K, c: nat)
    requires Distinct(older + recent) && |recent| == c
    ensures LastN(Without(older + recent, key) + [key], c) == Pushed(recent, key, c)
  {
    WithoutAppend(older, recent, key);
    DistinctSuffix(older, recent);
    WithoutDistinct(recent, key);
    var moved := Without(recent, key) + [key];
    assert Without(older + recent, key) + [key] == Without(older, key) + moved;
    LastNAppend(Without(older, key), moved, c);
  }

  lemma {:induction false} DistinctSuffix<K(!new)>(a: seq<K>, b: seq<K>)
    requires Distinct(a + b)
    ensures Distinct(b)
  {
    if a == [] {
      assert a + b == b;
    } else {
      assert (a + b)[1..] == a[1..] + b;
      DistinctSuffix(a[1..], b);
    }
  }

  /** The store is the recency queue of its own use log, cut to the capacity. */
  lemma {:induction false} RunIsLastUsed<K(!new), V>(c: nat, ops: seq<Op<K, V>>)
    requires c > 0 && OnlyUses(ops)
    ensures Run(New(c), ops).order == LastN(Recency(UseLog(c, ops)), c)
  {
    if ops != [] {
      var front, op := ops[..|ops| - 1], ops[|ops| - 1];
      RunIsLastUsed(c, front);
      RunValid(New(c), front);
      var st, log := Run(New(c), front), UseLog(c, front);
      if op.Insert? || op.key in st.values {
        UseOrder(st, op);
        RecencyOf(log);
        LastNMoved(Recency(log), op.key, c);
        assert (log + [op.key])[..|log|] == log;
      }
    }
  }

  lemma UseOrder<K(!new), V>(st: Store<K, V>, op: Op<K, V>)
    requires Valid(st) && (op.Insert? || (op.GetMut? && op.key in st.values))
    ensures Step(st, op).order == Pushed(st.order, op.key, st.capacity)
  {
    WithoutDistinct(st.order, op.key);
  }

  /**
   LRU exactness, stated without the queue: after any run of inserts and
   mutable lookups, a key is stored exactly when it was used and at most
   `c` distinct keys were used since its last use (counting itself), and the
   queue lists the stored keys by last use, oldest first.
   */
  lemma Exactness<K(!new), V>(c: nat, ops: seq<Op<K, V>>, key: K)
    requires c > 0 && OnlyUses(ops)
    ensures var st, log := Run(New<K, V>(c), ops), UseLog(c, ops);
            && (key in st.values <==> key in log && |Elements(log[LastUse(log, key)..])| <= c)
            && (forall k :: k in st.order ==> k in log)
            && (forall i, j :: 0 <= i < j < |st.order| ==>
                  LastUse(log, st.order[i]) < LastUse(log, st.order[j]))
  {
    var st, log := Run(New<K, V>(c), ops), UseLog(c, ops);
    RunValid(New<K, V>(c), ops);
    RunIsLastUsed(c, ops);
    RecencyOf(log);
    if key in log {
      RecencyFrom(log, key);
    }
    FromInLastN(Recency(log), key, c);
    DistinctSize(From(Recency(log), key));
    ByLastUseSuffix(Recency(log), log, c);
    forall i, j | 0 <= i < j < |st.order|
      ensures st.order[i] in log && st.order[j] in log
      ensures LastUse(log, st.order[i]) < LastUse(log, st.order[j])
    {
      ByLastUseIndexed(st.order, log, i, j);
    }
    forall k | k in st.order ensures k in log {
      ByLastUseMember(st.order, log, k);
    }
  }
}

/** Queues of keys: dropping a key, restricting to a set of keys, and queues without repetition. */
module Queues {
  /** The queue with every copy of `key` dropped. */
  function Without<K(==, !new)>(s: seq<K>, key: K): seq<K> {
    if s == [] then []
    else if s[0] == key then Without(s[1..], key)
    else [s[0]] + Without(s[1..], key)
  }

  /** The queue restricted to a set of keys, in the same order. */
  function KeepOnly<K(==, !new)>(s: seq<K>, keys: set<K>): seq<K> {
    if s == [] then []
    else if s[0] in keys then [s[0]] + KeepOnly(s[1..], keys)
    else KeepOnly(s[1..], keys)
  }

  ghost predicate Distinct<K(!new)>(s: seq<K>) {
    s == [] || (s[0] !in s[1..] && Distinct(s[1..]))
  }

  ghost function Elements<K(!new)>(s: seq<K>): set<K> {
    set k | k in s
  }

  lemma {:induction false} WithoutMembers<K(!new)>(s: seq<K>, key: K)
    ensures forall k :: k in Without(s, key) <==> k in s && k != key
  {
    if s != [] {
      WithoutMembers(s[1..], key);
      assert s == [s[0]] + s[1..];
    }
  }

  lemma {:induction false} KeepOnlyMembers<K(!new)>(s: seq<K>, keys: set<K>)
    ensures forall k :: k in KeepOnly(s, keys) <==> k in s && k in keys
  {
    if s != [] {
      KeepOnlyMembers(s[1..], keys);
      assert s == [s[0]] + s[1..];
    }
  }

  lemma {:induction false} DistinctSnoc<K(!new)>(s: seq<K>, key: K)
    requires Distinct(s) && key !in s
    ensures Distinct(s + [key])
  {
    if s != [] {
      DistinctSnoc(s[1..], key);
      assert (s + [key])[1..] == s[1..] + [key];
    }
  }

  lemma DistinctTail<K(!new)>(s: seq<K>)
    requires Distinct(s) && s != []
    ensures forall k :: k in s[1..] <==> k in s && k != s[0]
  {
  }

  lemma {:induction false} WithoutLength<K(!new)>(s: seq<K>, key: K)
    ensures |Without(s, key)| <= |s|
  {
    if s != [] {
      WithoutLength(s[1..], key);
    }
  }

  lemma {:induction false} WithoutAppend<K(!new)>(s: seq<K>, t: seq<K>, key: K)
    ensures Without(s + t, key) == Without(s, key) + Without(t, key)
  {
    if s == [] {
      assert s + t == t;
    } else {
      assert (s + t)[1..] == s[1..] + t;
      WithoutAppend(s[1..], t, key);
    }
  }

  lemma {:induction false} WithoutAbsent<K(!new)>(s: seq<K>, key: K)
    requires key !in s
    ensures Without(s, key) == s
  {
    if s != [] {
      WithoutAbsent(s[1..], key);
    }
  }

  lemma {:induction false} WithoutCommutes<K(!new)>(s: seq<K>, a: K, b: K)
    ensures Without(Without(s, a), b) == Without(Without(s, b), a)
  {
    if s != [] {
      WithoutCommutes(s[1..], a, b);
    }
  }

  lemma {:induction false} WithoutDistinct<K(!new)>(s: seq<K>, key: K)
    requires Distinct(s)
    ensures Distinct(Without(s, key))
    ensures |Without(s, key)| == if key in s then |s| - 1 else |s|
  {
    if s != [] {
      WithoutDistinct(s[1..], key);
      WithoutMembers(s[1..], key);
      if s[0] == key {
        WithoutAbsent(s[1..], key);
      }
    }
  }

  lemma {:induction false} WithoutIsKeepOnly<K(!new)>(s: seq<K>, key: K, keys: set<K>)
    requires forall k :: k in s ==> (k in keys <==> k != key)
    ensures Without(s, key) == KeepOnly(s, keys)
  {
    if s != [] {
      WithoutIsKeepOnly(s[1..], key, keys);
    }
  }

  lemma {:induction false} KeepOnlyAll<K(!new)>(s: seq<K>, keys: set<K>)
    requires forall k :: k in s ==> k in keys
    ensures KeepOnly(s, keys) == s
  {
    if s != [] {
      KeepOnlyAll(s[1..], keys);
    }
  }

  lemma {:induction false} KeepOnlyTwice<K(!new)>(s: seq<K>, a: set<K>, b: set<K>, both: set<K>)
    requires forall k :: k in s ==> (k in both <==> k in a && k in b)
    ensures KeepOnly(KeepOnly(s, a), b) == KeepOnly(s, both)
  {
    if s != [] {
      KeepOnlyTwice(s[1..], a, b, both);
    }
  }

  lemma {:induction false} KeepOnlySame<K(!new)>(s: seq<K>, a: set<K>, b: set<K>)
    requires forall k :: k in s ==> (k in a <==> k in b)
    ensures KeepOnly(s, a) == KeepOnly(s, b)
  {
    if s != [] {
      KeepOnlySame(s[1..], a, b);
    }
  }

  lemma {:induction false} KeepOnlyDistinct<K(!new)>(s: seq<K>, keys: set<K>)
    requires Distinct(s)
    ensures Distinct(KeepOnly(s, keys)) && |KeepOnly(s, keys)| <= |s|
  {
    if s != [] {
      KeepOnlyDistinct(s[1..], keys);
      KeepOnlyMembers(s[1..], keys);
    }
  }

  lemma {:induction false} WithoutKeepOnlyCommute<K(!new)>(s: seq<K>, key: K, keys: set<K>)
    ensures Without(KeepOnly(s, keys), key) == KeepOnly(Without(s, key), keys)
  {
    if s != [] {
      WithoutKeepOnlyCommute(s[1..], key, keys);
    }
  }

  /** Some `a` in the queue is before some `b`. */
  ghost predicate Precedes<K(!new)>(s: seq<K>, a: K, b: K) {
    s != [] && ((s[0] == a && b in s[1..]) || Precedes(s[1..], a, b))
  }

  lemma {:induction false} KeepOnlyPrecedes<K(!new)>(s: seq<K>, keys: set<K>, a: K, b: K)
    ensures Precedes(KeepOnly(s, keys), a, b) <==> Precedes(s, a, b) && a in keys && b in keys
  {
    if s != [] {
      KeepOnlyPrecedes(s[1..], keys, a, b);
      KeepOnlyMembers(s[1..], keys);
      assert s[0] in keys ==> KeepOnly(s, keys)[1..] == KeepOnly(s[1..], keys);
    }
  }

  lemma {:induction false} WithoutPrecedes<K(!new)>(s: seq<K>, key: K, a: K, b: K)
    ensures Precedes(Without(s, key), a, b) <==> Precedes(s, a, b) && a != key && b != key
  {
    if s != [] {
      WithoutPrecedes(s[1..], key, a, b);
      WithoutMembers(s[1..], key);
      assert s[0] != key ==> Without(s, key)[1..] == Without(s[1..], key);
    }
  }

  lemma {:induction false} DistinctSize<K(!new)>(s: seq<K>)
    requires Distinct(s)
    ensures |Elements(s)| == |s|
  {
    if s != [] {
      DistinctSize(s[1..]);
      assert Elements(s) == {s[0]} + Elements(s[1..]);
    }
  }
}

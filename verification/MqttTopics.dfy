/**
 Topic names and topic filters (section 4.7.1 of MQTT Version 5.0). Levels are
 separated by `/`; a level `+` stands for any one level and a final level `#` for
 any number of levels, including none.
 */
module MqttTopics {
  import opened Bytes

  const SEPARATOR: byte := 0x2F
  const HASH: bytes := [0x23]
  const PLUS: bytes := [0x2B]

  // ---------------------------------------------------------------- levels

  /** The levels of a name; the empty name has one empty level. */
  function Split(s: bytes): (r: seq<bytes>)
    ensures r != []
  {
    if s == [] then [[]]
    else Pushed(s[0], Split(s[1..]))
  }

  function Join(levels: seq<bytes>): bytes
    requires levels != []
  {
    if |levels| == 1 then levels[0] else levels[0] + [SEPARATOR] + Join(levels[1..])
  }

  lemma {:induction false} JoinSplit(s: bytes)
    ensures Join(Split(s)) == s
  {
    if s != [] {
      JoinSplit(s[1..]);
      var rest := Split(s[1..]);
      if s[0] == SEPARATOR {
        assert ([[]] + rest)[1..] == rest;
      } else {
        assert ([[s[0]] + rest[0]] + rest[1..])[1..] == rest[1..];
      }
    }
  }

  /** Different names have different levels. */
  lemma SplitInjective(s: bytes, t: bytes)
    requires Split(s) == Split(t)
    ensures s == t
  {
    JoinSplit(s);
    JoinSplit(t);
  }

  /** Putting a byte in front of a name changes only its first level. */
  function Pushed(b: byte, levels: seq<bytes>): seq<bytes>
    requires levels != []
  {
    if b == SEPARATOR then [[]] + levels else [[b] + levels[0]] + levels[1..]
  }

  lemma PushedAppend(b: byte, x: seq<bytes>, y: seq<bytes>)
    requires x != []
    ensures Pushed(b, x + y) == Pushed(b, x) + y
  {
  }

  lemma {:induction false} SplitAppend(a: bytes, b: bytes)
    ensures Split(a + [SEPARATOR] + b) == Split(a) + Split(b)
  {
    var s := a + [SEPARATOR] + b;
    if a == [] {
      assert s[1..] == b;
    } else {
      assert s[0] == a[0] && s[1..] == a[1..] + [SEPARATOR] + b;
      SplitAppend(a[1..], b);
      PushedAppend(a[0], Split(a[1..]), Split(b));
    }
  }

  lemma {:induction false} JoinAppend(a: seq<bytes>, b: seq<bytes>)
    requires a != [] && b != []
    ensures Join(a + b) == Join(a) + [SEPARATOR] + Join(b)
  {
    if |a| == 1 {
      assert (a + b)[1..] == b;
    } else {
      assert (a + b)[1..] == a[1..] + b;
      JoinAppend(a[1..], b);
    }
  }

  // ---------------------------------------------------------------- matching

  /** Level by level, as section 4.7.1 explains the wildcards. */
  predicate MatchLevels(filter: seq<bytes>, topic: seq<bytes>) {
    if filter == [] then topic == []
    else if filter[0] == HASH then |filter| == 1
    else topic != [] && (filter[0] == PLUS || filter[0] == topic[0]) && MatchLevels(filter[1..], topic[1..])
  }

  predicate Matches(filter: bytes, topic: bytes) {
    MatchLevels(Split(filter), Split(topic))
  }

  /** The first `n` levels of the filter are no `#` and each fits the topic's level. */
  ghost predicate LevelsFit(filter: seq<bytes>, topic: seq<bytes>, n: nat) {
    && n <= |filter| && n <= |topic|
    && forall i :: 0 <= i < n ==> filter[i] != HASH && (filter[i] == PLUS || filter[i] == topic[i])
  }

  /**
   The same relation position by position: either no `#` and every level fits, or
   a single `#`, in last place, whose parent levels fit; a filter with `#` anywhere
   else matches nothing.
   */
  lemma {:induction false} MatchLevelsMeans(filter: seq<bytes>, topic: seq<bytes>)
    ensures MatchLevels(filter, topic) <==>
              || (|topic| == |filter| && LevelsFit(filter, topic, |filter|))
              || (filter != [] && filter[|filter| - 1] == HASH && LevelsFit(filter, topic, |filter| - 1))
  {
    if filter != [] && topic != [] && filter[0] != HASH {
      MatchLevelsMeans(filter[1..], topic[1..]);
      ShiftFit(filter, topic, |filter|);
      ShiftFit(filter, topic, |filter| - 1);
    }
  }

  lemma ShiftFit(filter: seq<bytes>, topic: seq<bytes>, n: nat)
    requires filter != [] && topic != [] && filter[0] != HASH
    ensures n > 0 ==> (LevelsFit(filter, topic, n) <==>
                        (filter[0] == PLUS || filter[0] == topic[0]) && LevelsFit(filter[1..], topic[1..], n - 1))
  {
  }

  predicate WildcardFree(filter: bytes) {
    HASH !in Split(filter) && PLUS !in Split(filter)
  }

  /** A filter without wildcard levels matches only itself. */
  lemma LiteralMatchesItself(filter: bytes, topic: bytes)
    requires WildcardFree(filter)
    ensures Matches(filter, topic) <==> filter == topic
  {
    var f, t := Split(filter), Split(topic);
    MatchLevelsMeans(f, t);
    if Matches(filter, topic) {
      assert f == t;
      SplitInjective(filter, topic);
    }
  }

  lemma SplitSubtree(filter: bytes)
    ensures Split(filter + [SEPARATOR] + HASH) == Split(filter) + [HASH]
  {
    SplitAppend(filter, HASH);
    assert HASH[1..] == [];
    var empty := Split([]);
    assert [HASH[0]] + empty[0] == HASH && empty[1..] == [];
  }

  /** Topics that start with the levels of `filter`. */
  lemma StartsWithLevels(filter: bytes, topic: bytes)
    ensures Split(filter) <= Split(topic) <==> topic == filter || filter + [SEPARATOR] <= topic
  {
    var f, t := Split(filter), Split(topic);
    if f <= t {
      JoinSplit(filter);
      JoinSplit(topic);
      if |t| > |f| {
        assert t == f + t[|f|..];
        JoinAppend(f, t[|f|..]);
      } else {
        assert t == f;
      }
    }
    if filter + [SEPARATOR] <= topic {
      var rest := topic[|filter| + 1..];
      assert topic == filter + [SEPARATOR] + rest;
      SplitAppend(filter, rest);
    }
  }

  /**
   A filter `f/#` without other wildcards matches exactly `f` itself, the parent
   level, and every topic that continues `f/`.
   */
  lemma SubtreeFilter(filter: bytes, topic: bytes)
    requires WildcardFree(filter)
    ensures Matches(filter + [SEPARATOR] + HASH, topic) <==> topic == filter || filter + [SEPARATOR] <= topic
  {
    var f, t := Split(filter), Split(topic);
    SplitSubtree(filter);
    MatchLevelsMeans(f + [HASH], t);
    StartsWithLevels(filter, topic);
    if f <= t {
      assert LevelsFit(f + [HASH], t, |f|);
    }
    if LevelsFit(f + [HASH], t, |f|) {
      forall i | 0 <= i < |f| ensures f[i] == t[i] {
        assert (f + [HASH])[i] == f[i];
      }
      assert t[..|f|] == f;
    }
  }

  /** The two-index loop of the broker. */
  method TopicMatches(filter: bytes, topic: bytes) returns (r: bool)
    ensures r == Matches(filter, topic)
  {
    var filterSegments, topicSegments := Split(filter), Split(topic);
    var filterIndex, topicIndex := 0, 0;
    while filterIndex < |filterSegments|
      invariant 0 <= filterIndex <= |filterSegments| && 0 <= topicIndex <= |topicSegments|
      invariant Matches(filter, topic) == MatchLevels(filterSegments[filterIndex..], topicSegments[topicIndex..])
    {
      if filterSegments[filterIndex] == HASH {
        return filterIndex + 1 == |filterSegments|;
      } else if filterSegments[filterIndex] == PLUS {
        if topicIndex >= |topicSegments| {
          return false;
        }
      } else if topicIndex >= |topicSegments| || filterSegments[filterIndex] != topicSegments[topicIndex] {
        return false;
      }
      filterIndex, topicIndex := filterIndex + 1, topicIndex + 1;
    }
    r := topicIndex == |topicSegments|;
  }
}

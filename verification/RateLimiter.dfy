/**
 The fixed-window rate limiter. Each key has a bucket with the start of its
 current window and the calls admitted in it; buckets live in 64 shards. A call
 reads the clock before it takes the shard's lock, so readings can reach a bucket
 out of order; an elapsed time that would be negative counts as zero.
 */
module RateLimiter {
  import opened Division
  import opened Sharded
  import opened Wrappers

  const RATE_LIMITER_SHARDS: nat := 64
  const NANOS_PER_SECOND: nat := 1_000_000_000

  datatype Bucket = Bucket(start: int, count: nat)

  /** The bucket of a key after a call, and whether the call is admitted. */
  function Allow(bucket: Option<Bucket>, now: int, limit: nat, window: nat): (Option<Bucket>, bool) {
    if limit == 0 || window == 0 then (bucket, false)
    else
      var b := if bucket.Some? then bucket.value else Bucket(now, 0);
      var current := if now - b.start >= window then Bucket(now, 0) else b;
      if current.count < limit then (Some(current.(count := current.count + 1)), true)
      else (Some(current), false)
  }

  /** A bucket as every call leaves it: the call that started its window was admitted. */
  predicate Used(bucket: Option<Bucket>) {
    bucket.Some? ==> bucket.value.count > 0
  }

  /** How many of these calls are admitted. */
  function Admitted(bucket: Option<Bucket>, readings: seq<int>, limit: nat, window: nat): nat
    decreases |readings|
  {
    if readings == [] then 0
    else
      var (next, admitted) := Allow(bucket, readings[0], limit, window);
      (if admitted then 1 else 0) + Admitted(next, readings[1..], limit, window)
  }

  // ---------------------------------------------------------------- counting windows

  /** The windows that can start after one that starts at `start`, up to `until`. */
  function WindowsLeft(start: int, until: int, window: nat): nat
    requires window > 0
    decreases if until > start then until - start else 0
  {
    if start + window > until then 0 else 1 + WindowsLeft(start + window, until, window)
  }

  lemma {:induction false} LaterStart(start: int, later: int, until: int, window: nat)
    requires window > 0 && start <= later
    ensures WindowsLeft(start, until, window) >= WindowsLeft(later, until, window)
    decreases if until > start then until - start else 0
  {
    if later + window <= until {
      LaterStart(start + window, later + window, until, window);
    }
  }

  lemma QuotientStep(a: int, n: nat)
    requires n > 0 && a >= n
    ensures a / n == (a - n) / n + 1
  {
    var q, r := (a - n) / n, (a - n) % n;
    assert a - n == q * n + r;
    assert (q + 1) * n == q * n + n;
    Quotient(a, n, q + 1, r);
  }

  lemma {:induction false} WindowsLeftIsQuotient(start: int, until: int, window: nat)
    requires window > 0 && start <= until
    ensures WindowsLeft(start, until, window) == (until - start) / window
    decreases until - start
  {
    if start + window <= until {
      WindowsLeftIsQuotient(start + window, until, window);
      QuotientStep(until - start, window);
    } else {
      Quotient(until - start, window, 0, until - start);
    }
  }

  // ---------------------------------------------------------------- the rate bound

  ghost predicate Within(readings: seq<int>, from: int, until: int) {
    forall i :: 0 <= i < |readings| ==> from <= readings[i] <= until
  }

  lemma Scaled(a: nat, b: nat, n: nat)
    requires a <= b
    ensures a * n <= b * n && (a + 1) * n == a * n + n
  {
  }

  /** From a running window: what is left of it, and a full one per window that can still start. */
  lemma {:induction false} AdmittedFrom(b: Bucket, readings: seq<int>, limit: nat, window: nat, until: int)
    requires limit > 0 && window > 0
    requires forall i :: 0 <= i < |readings| ==> readings[i] <= until
    ensures Admitted(Some(b), readings, limit, window)
         <= (if b.count <= limit then limit - b.count else 0) + WindowsLeft(b.start, until, window) * limit
    decreases |readings|
  {
    if readings != [] {
      var now := readings[0];
      var next := Allow(Some(b), now, limit, window).0.value;
      AdmittedFrom(next, readings[1..], limit, window, until);
      if now - b.start >= window {
        LaterStart(b.start + window, now, until, window);
        Scaled(WindowsLeft(now, until, window) + 1, WindowsLeft(b.start, until, window), limit);
        Scaled(WindowsLeft(now, until, window), WindowsLeft(now, until, window), limit);
      }
    }
  }

  /** From a window that cannot end before `first`: what is left of it, and the windows started from then on. */
  lemma {:induction false} AdmittedRunning(b: Bucket, readings: seq<int>, limit: nat, window: nat,
                                           first: int, until: int)
    requires limit > 0 && window > 0 && b.start + window >= first
    requires forall i :: 0 <= i < |readings| ==> readings[i] <= until
    ensures Admitted(Some(b), readings, limit, window)
         <= (if b.count <= limit then limit - b.count else 0)
          + if first <= until then (WindowsLeft(first, until, window) + 1) * limit else 0
    decreases |readings|
  {
    if readings != [] {
      var now := readings[0];
      var next := Allow(Some(b), now, limit, window).0.value;
      if now - b.start >= window {
        AdmittedFrom(next, readings[1..], limit, window, until);
        LaterStart(first, now, until, window);
        Scaled(WindowsLeft(now, until, window), WindowsLeft(first, until, window), limit);
        Scaled(WindowsLeft(first, until, window), WindowsLeft(first, until, window), limit);
      } else {
        AdmittedRunning(next, readings[1..], limit, window, first, until);
      }
    }
  }

  /** The most calls a stretch of readings that spans `span` can get admitted. */
  function MostAdmitted(limit: nat, window: nat, span: nat): nat
    requires limit > 0 && window > 0
  {
    if span % window == 0 then (span / window + 1) * limit else (span / window + 2) * limit - 1
  }

  lemma PredecessorQuotient(a: nat, n: nat)
    requires n > 0 && a > 0
    ensures (a - 1) / n == if a % n == 0 then a / n - 1 else a / n
  {
    var q, r := a / n, a % n;
    assert a == q * n + r;
    if r == 0 {
      assert (q - 1) * n == q * n - n;
      Quotient(a - 1, n, q - 1, n - 1);
    } else {
      Quotient(a - 1, n, q, r - 1);
    }
  }

  lemma StartingCall(bucket: Option<Bucket>, readings: seq<int>, limit: nat, window: nat, from: int, until: int)
    requires limit > 0 && window > 0 && from <= until && Within(readings, from, until) && readings != []
    requires bucket.Some? ==> readings[0] - bucket.value.start >= window
    ensures Admitted(bucket, readings, limit, window) <= ((until - from) / window + 1) * limit
  {
    var now := readings[0];
    AdmittedFrom(Bucket(now, 1), readings[1..], limit, window, until);
    LaterStart(from, now, until, window);
    WindowsLeftIsQuotient(from, until, window);
    Scaled(WindowsLeft(now, until, window), (until - from) / window, limit);
    Scaled((until - from) / window, (until - from) / window, limit);
  }

  lemma RunningCall(b: Bucket, readings: seq<int>, limit: nat, window: nat, from: int, until: int)
    requires limit > 0 && window > 0 && from <= until && Within(readings, from, until) && readings != []
    requires b.count > 0 && readings[0] - b.start < window
    ensures Admitted(Some(b), readings, limit, window) <= MostAdmitted(limit, window, until - from)
  {
    AdmittedRunning(b, readings, limit, window, from + 1, until);
    var span := until - from;
    if span > 0 {
      WindowsLeftIsQuotient(from + 1, until, window);
      PredecessorQuotient(span, window);
      Scaled(span / window, span / window, limit);
      Scaled(span / window + 1, span / window + 1, limit);
    } else {
      Quotient(0, window, 0, 0);
    }
  }

  /**
   The rate bound, exactly, for readings in any order and whatever the key's
   bucket held before: calls with readings in `[from, until]` are admitted at most
   `MostAdmitted` times, hence at most `limit * (span / window + 2)` times.
   */
  lemma RateBound(bucket: Option<Bucket>, readings: seq<int>, limit: nat, window: nat, from: int, until: int)
    requires Used(bucket) && limit > 0 && window > 0 && from <= until && Within(readings, from, until)
    ensures Admitted(bucket, readings, limit, window) <= MostAdmitted(limit, window, until - from)
    ensures MostAdmitted(limit, window, until - from) <= ((until - from) / window + 2) * limit
  {
    var q := (until - from) / window;
    Scaled(q, q, limit);
    Scaled(q + 1, q + 1, limit);
    if readings != [] {
      if bucket.None? || readings[0] - bucket.value.start >= window {
        StartingCall(bucket, readings, limit, window, from, until);
      } else {
        RunningCall(bucket.value, readings, limit, window, from, until);
      }
    }
  }

  // ---------------------------------------------------------------- the bound is attained

  function Repeat(reading: int, n: nat): (r: seq<int>)
    ensures |r| == n && forall i :: 0 <= i < n ==> r[i] == reading
  {
    if n == 0 then [] else [reading] + Repeat(reading, n - 1)
  }

  /** `bursts` times `limit` calls, one window apart. */
  function Bursts(first: int, bursts: nat, limit: nat, window: nat): seq<int>
    decreases bursts
  {
    if bursts == 0 then [] else Repeat(first, limit) + Bursts(first + window, bursts - 1, limit, window)
  }

  lemma {:induction false} RepeatAdmitted(b: Bucket, reading: int, n: nat, rest: seq<int>, limit: nat, window: nat)
    requires limit > 0 && window > 0 && reading - b.start < window && b.count + n <= limit
    ensures Admitted(Some(b), Repeat(reading, n) + rest, limit, window)
         == n + Admitted(Some(b.(count := b.count + n)), rest, limit, window)
    decreases n
  {
    var s := Repeat(reading, n) + rest;
    if n == 0 {
      assert s == rest;
    } else {
      assert s[1..] == Repeat(reading, n - 1) + rest;
      RepeatAdmitted(b.(count := b.count + 1), reading, n - 1, rest, limit, window);
    }
  }

  lemma {:induction false} BurstsAdmitted(b: Bucket, first: int, bursts: nat, limit: nat, window: nat)
    requires limit > 0 && window > 0 && b.start + window <= first
    ensures Admitted(Some(b), Bursts(first, bursts, limit, window), limit, window) == bursts * limit
    decreases bursts
  {
    if bursts > 0 {
      var rest := Bursts(first + window, bursts - 1, limit, window);
      var s := Repeat(first, limit) + rest;
      assert s[0] == first && s[1..] == Repeat(first, limit - 1) + rest;
      RepeatAdmitted(Bucket(first, 1), first, limit - 1, rest, limit, window);
      BurstsAdmitted(Bucket(first, limit), first + window, bursts - 1, limit, window);
      Scaled(bursts - 1, bursts - 1, limit);
    }
  }

  lemma {:induction false} BurstsWithin(first: int, bursts: nat, limit: nat, window: nat, until: int)
    requires bursts > 0 ==> first + (bursts - 1) * window <= until
    ensures Within(Bursts(first, bursts, limit, window), first, until)
    decreases bursts
  {
    if bursts > 1 {
      Scaled(bursts - 2, bursts - 2, window);
      BurstsWithin(first + window, bursts - 1, limit, window, until);
    } else if bursts == 1 {
      assert Bursts(first + window, 0, limit, window) == [];
    }
  }

  /** For every limit, window and span there is a bucket and a stretch of calls that gets that many admitted. */
  lemma BoundAttained(limit: nat, window: nat, from: int, span: nat) returns (bucket: Bucket, readings: seq<int>)
    requires limit > 0 && window > 0
    ensures bucket.count == 1 && Within(readings, from, from + span)
    ensures Admitted(Some(bucket), readings, limit, window) == MostAdmitted(limit, window, span)
  {
    var q := span / window;
    assert span == q * window + span % window;
    if span % window == 0 {
      bucket := Bucket(from - window, 1);
      readings := Bursts(from, q + 1, limit, window);
      BurstsWithin(from, q + 1, limit, window, from + span);
      BurstsAdmitted(bucket, from, q + 1, limit, window);
    } else {
      bucket := Bucket(from - window + 1, 1);
      var bursts := Bursts(from + 1, q + 1, limit, window);
      readings := Repeat(from, limit - 1) + bursts;
      BurstsWithin(from + 1, q + 1, limit, window, from + span);
      RepeatAdmitted(bucket, from, limit - 1, bursts, limit, window);
      BurstsAdmitted(bucket.(count := limit), from + 1, q + 1, limit, window);
      Scaled(q + 1, q + 1, limit);
    }
  }

  // ---------------------------------------------------------------- keys do not interfere

  type Shards = seq<map<string, Bucket>>

  datatype Call = Call(key: string, now: int, limit: nat, window: nat)

  function BucketOf(hash: string -> nat, shards: Shards, key: string): Option<Bucket>
    requires shards != []
  {
    var shard := shards[ShardIndex(hash, key, |shards|)];
    if key in shard then Some(shard[key]) else None
  }

  function Called(hash: string -> nat, shards: Shards, call: Call): (Shards, bool)
    requires shards != []
  {
    var (bucket, admitted) := Allow(BucketOf(hash, shards, call.key), call.now, call.limit, call.window);
    var i := ShardIndex(hash, call.key, |shards|);
    (match bucket
     case Some(b) => (shards[i := shards[i][call.key := b]], admitted)
     case None => (shards, admitted))
  }

  /** The decisions on the calls for one key, in a trace of calls for any keys. */
  function DecisionsFor(hash: string -> nat, shards: Shards, calls: seq<Call>, key: string): seq<bool>
    requires shards != []
    decreases |calls|
  {
    if calls == [] then []
    else
      var (next, admitted) := Called(hash, shards, calls[0]);
      (if calls[0].key == key then [admitted] else []) + DecisionsFor(hash, next, calls[1..], key)
  }

  /** The decisions of one bucket on its own. */
  function Alone(bucket: Option<Bucket>, calls: seq<Call>, key: string): seq<bool>
    decreases |calls|
  {
    if calls == [] then []
    else if calls[0].key != key then Alone(bucket, calls[1..], key)
    else
      var (next, admitted) := Allow(bucket, calls[0].now, calls[0].limit, calls[0].window);
      [admitted] + Alone(next, calls[1..], key)
  }

  /** Decisions for one key do not depend on the calls for any other, even in the same shard. */
  lemma {:induction false} KeysIndependent(hash: string -> nat, shards: Shards, calls: seq<Call>, key: string)
    requires shards != []
    ensures DecisionsFor(hash, shards, calls, key) == Alone(BucketOf(hash, shards, key), calls, key)
    decreases |calls|
  {
    if calls != [] {
      KeysIndependent(hash, Called(hash, shards, calls[0]).0, calls[1..], key);
    }
  }

  // ---------------------------------------------------------------- the bound in a trace

  function ShardsAfter(hash: string -> nat, shards: Shards, calls: seq<Call>): (after: Shards)
    requires shards != []
    ensures after != []
    decreases |calls|
  {
    if calls == [] then shards else ShardsAfter(hash, Called(hash, shards, calls[0]).0, calls[1..])
  }

  function EmptyShards(): (shards: Shards)
    ensures |shards| == RATE_LIMITER_SHARDS && forall i :: 0 <= i < |shards| ==> shards[i] == map[]
  {
    seq(RATE_LIMITER_SHARDS, _ => map[])
  }

  ghost predicate AllUsed(hash: string -> nat, shards: Shards)
    requires shards != []
  {
    forall key :: Used(BucketOf(hash, shards, key))
  }

  /** Whatever calls a store has seen, with whatever limits and windows, each of its buckets has admitted one. */
  lemma {:induction false} UsedAfter(hash: string -> nat, shards: Shards, calls: seq<Call>)
    requires shards != [] && AllUsed(hash, shards)
    ensures AllUsed(hash, ShardsAfter(hash, shards, calls))
    decreases |calls|
  {
    if calls != [] {
      var next := Called(hash, shards, calls[0]).0;
      forall key
        ensures Used(BucketOf(hash, next, key))
      {
        assert Used(BucketOf(hash, shards, key)) && Used(BucketOf(hash, shards, calls[0].key));
      }
      UsedAfter(hash, next, calls[1..]);
    }
  }

  function AdmittedIn(decisions: seq<bool>): nat {
    if decisions == [] then 0 else (if decisions[0] then 1 else 0) + AdmittedIn(decisions[1..])
  }

  /** The clock readings of the calls for one key. */
  function ReadingsOf(calls: seq<Call>, key: string): seq<int> {
    if calls == [] then []
    else if calls[0].key == key then [calls[0].now] + ReadingsOf(calls[1..], key)
    else ReadingsOf(calls[1..], key)
  }

  /** The calls for `key` all have this limit and window, and readings from `from` to `until`. */
  ghost predicate Steady(calls: seq<Call>, key: string, limit: nat, window: nat, from: int, until: int) {
    forall i :: 0 <= i < |calls| && calls[i].key == key ==>
      calls[i].limit == limit && calls[i].window == window && from <= calls[i].now <= until
  }

  lemma {:induction false} AloneAdmitted(bucket: Option<Bucket>, calls: seq<Call>, key: string, limit: nat, window: nat,
                                         from: int, until: int)
    requires Steady(calls, key, limit, window, from, until)
    ensures AdmittedIn(Alone(bucket, calls, key)) == Admitted(bucket, ReadingsOf(calls, key), limit, window)
    ensures Within(ReadingsOf(calls, key), from, until)
    decreases |calls|
  {
    if calls != [] {
      var (next, admitted) := Allow(bucket, calls[0].now, calls[0].limit, calls[0].window);
      AloneAdmitted(if calls[0].key == key then next else bucket, calls[1..], key, limit, window, from, until);
      if calls[0].key == key {
        var rest := Alone(next, calls[1..], key);
        assert ([admitted] + rest)[1..] == rest;
        assert ([calls[0].now] + ReadingsOf(calls[1..], key))[1..] == ReadingsOf(calls[1..], key);
      }
    }
  }

  lemma {:induction false} NoneAdmitted(bucket: Option<Bucket>, readings: seq<int>, limit: nat, window: nat)
    requires limit == 0 || window == 0
    ensures Admitted(bucket, readings, limit, window) == 0
    decreases |readings|
  {
    if readings != [] {
      NoneAdmitted(bucket, readings[1..], limit, window);
    }
  }

  /**
   The rate bound of the whole store: after any calls at all, in any later stretch
   in which the calls for a key have one limit and window and readings that span
   `until - from`, that key gets at most the exact bound admitted, whatever the
   calls for other keys in between.
   */
  lemma TraceBound(hash: string -> nat, before: seq<Call>, calls: seq<Call>, key: string, limit: nat, window: nat,
                   from: int, until: int)
    requires from <= until && Steady(calls, key, limit, window, from, until)
    ensures AdmittedIn(DecisionsFor(hash, ShardsAfter(hash, EmptyShards(), before), calls, key))
         <= if limit == 0 || window == 0 then 0 else MostAdmitted(limit, window, until - from)
  {
    var shards := ShardsAfter(hash, EmptyShards(), before);
    var bucket := BucketOf(hash, shards, key);
    UsedAfter(hash, EmptyShards(), before);
    KeysIndependent(hash, shards, calls, key);
    AloneAdmitted(bucket, calls, key, limit, window, from, until);
    if limit == 0 || window == 0 {
      NoneAdmitted(bucket, ReadingsOf(calls, key), limit, window);
    } else {
      RateBound(bucket, ReadingsOf(calls, key), limit, window, from, until);
    }
  }

  function CallsAt(readings: seq<int>, key: string, limit: nat, window: nat): (calls: seq<Call>)
    ensures |calls| == |readings|
    ensures forall i :: 0 <= i < |calls| ==> calls[i] == Call(key, readings[i], limit, window)
  {
    seq(|readings|, i requires 0 <= i < |readings| => Call(key, readings[i], limit, window))
  }

  lemma {:induction false} ReadingsAt(readings: seq<int>, key: string, limit: nat, window: nat)
    ensures ReadingsOf(CallsAt(readings, key, limit, window), key) == readings
  {
    if readings != [] {
      assert CallsAt(readings, key, limit, window)[1..] == CallsAt(readings[1..], key, limit, window);
      ReadingsAt(readings[1..], key, limit, window);
    }
  }

  lemma AfterOne(hash: string -> nat, shards: Shards, call: Call)
    requires shards != []
    ensures ShardsAfter(hash, shards, [call]) == Called(hash, shards, call).0
  {
    assert [call][1..] == [];
  }

  /** The bound of the store is reached for every key, limit, window and span, after a single earlier call. */
  lemma TraceBoundAttained(hash: string -> nat, key: string, limit: nat, window: nat, from: int, span: nat)
      returns (before: seq<Call>, calls: seq<Call>)
    requires limit > 0 && window > 0
    ensures Steady(calls, key, limit, window, from, from + span)
    ensures AdmittedIn(DecisionsFor(hash, ShardsAfter(hash, EmptyShards(), before), calls, key))
         == MostAdmitted(limit, window, span)
  {
    var bucket, readings := BoundAttained(limit, window, from, span);
    before := [Call(key, bucket.start, limit, window)];
    calls := CallsAt(readings, key, limit, window);
    var shards := ShardsAfter(hash, EmptyShards(), before);
    AfterOne(hash, EmptyShards(), before[0]);
    assert BucketOf(hash, EmptyShards(), key) == None;
    assert BucketOf(hash, shards, key) == Some(bucket);
    KeysIndependent(hash, shards, calls, key);
    AloneAdmitted(Some(bucket), calls, key, limit, window, from, from + span);
    ReadingsAt(readings, key, limit, window);
  }

  // ---------------------------------------------------------------- a refusal has its reason

  /** Whether the store admits `call` after `calls`. */
  function Admits(hash: string -> nat, calls: seq<Call>, call: Call): bool {
    Called(hash, ShardsAfter(hash, EmptyShards(), calls), call).1
  }

  /** How many calls for `key` were admitted, from call `k` on. */
  function AdmittedFromCall(hash: string -> nat, calls: seq<Call>, key: string, k: nat): nat {
    if |calls| <= k then 0
    else
      var front, last := calls[..|calls| - 1], calls[|calls| - 1];
      AdmittedFromCall(hash, front, key, k) + if last.key == key && Admits(hash, front, last) then 1 else 0
  }

  lemma {:induction false} ShardsAfterSnoc(hash: string -> nat, shards: Shards, calls: seq<Call>, call: Call)
    requires shards != []
    ensures ShardsAfter(hash, shards, calls + [call]) == Called(hash, ShardsAfter(hash, shards, calls), call).0
    decreases |calls|
  {
    if calls == [] {
      assert calls + [call] == [call];
      AfterOne(hash, shards, call);
    } else {
      assert (calls + [call])[1..] == calls[1..] + [call];
      ShardsAfterSnoc(hash, Called(hash, shards, calls[0]).0, calls[1..], call);
    }
  }

  function BucketAfter(hash: string -> nat, calls: seq<Call>, key: string): Option<Bucket> {
    BucketOf(hash, ShardsAfter(hash, EmptyShards(), calls), key)
  }

  /** The window of `bucket` was started by call `k`, and it counts calls admitted since. */
  ghost predicate StartedBy(hash: string -> nat, calls: seq<Call>, key: string, bucket: Bucket, k: nat) {
    && k < |calls| && calls[k].key == key && calls[k].now == bucket.start
    && bucket.count <= AdmittedFromCall(hash, calls, key, k)
  }

  lemma StillStarted(hash: string -> nat, calls: seq<Call>, key: string, before: Bucket, call: Call, k: nat)
    requires StartedBy(hash, calls, key, before, k)
    requires BucketAfter(hash, calls, key) == Some(before)
    ensures StartedBy(hash, calls + [call], key, before, k)
    ensures call.key == key && Admits(hash, calls, call) ==>
              StartedBy(hash, calls + [call], key, before.(count := before.count + 1), k)
  {
    assert (calls + [call])[..|calls|] == calls;
  }

  lemma NewlyStarted(hash: string -> nat, calls: seq<Call>, call: Call)
    ensures var bucket := Bucket(call.now, if Admits(hash, calls, call) then 1 else 0);
            StartedBy(hash, calls + [call], call.key, bucket, |calls|)
  {
    assert (calls + [call])[..|calls|] == calls;
  }

  lemma {:induction false} WindowStart(hash: string -> nat, calls: seq<Call>, key: string) returns (k: nat)
    ensures BucketAfter(hash, calls, key).Some? ==>
              StartedBy(hash, calls, key, BucketAfter(hash, calls, key).value, k)
    decreases |calls|
  {
    k := 0;
    if calls == [] {
      assert BucketOf(hash, EmptyShards(), key) == None;
    } else {
      var front, last := calls[..|calls| - 1], calls[|calls| - 1];
      k := WindowStart(hash, front, key);
      assert calls == front + [last];
      ShardsAfterSnoc(hash, EmptyShards(), front, last);
      var before, after := BucketAfter(hash, front, key), BucketAfter(hash, calls, key);
      hide StartedBy, AdmittedFromCall;
      if before.Some? {
        StillStarted(hash, front, key, before.value, last, k);
      }
      if last.key == key {
        NewlyStarted(hash, front, last);
        if before.None? || (last.limit > 0 && last.window > 0 && last.now - before.value.start >= last.window) {
          k := |front|;
        }
      }
    }
  }

  /**
   No call is refused without reason, for calls with any limits and windows and
   readings in any order: a call started a window less than `window` before the
   refused call's reading, and at least `limit` calls were admitted from it on.
   */
  lemma RefusalHasReason(hash: string -> nat, calls: seq<Call>, call: Call) returns (k: nat)
    requires call.limit > 0 && call.window > 0 && !Admits(hash, calls, call)
    ensures k < |calls| && calls[k].key == call.key && calls[k].now > call.now - call.window
    ensures AdmittedFromCall(hash, calls, call.key, k) >= call.limit
  {
    k := WindowStart(hash, calls, call.key);
  }

  /** The calls for `key` reach the store in the order of their readings. */
  ghost predicate InOrder(calls: seq<Call>, key: string) {
    forall i, j :: 0 <= i < j < |calls| && calls[i].key == key && calls[j].key == key ==> calls[i].now <= calls[j].now
  }

  /** How many calls for `key` with readings from `from` on were admitted. */
  function AdmittedSince(hash: string -> nat, calls: seq<Call>, key: string, from: int): nat {
    if calls == [] then 0
    else
      var front, last := calls[..|calls| - 1], calls[|calls| - 1];
      AdmittedSince(hash, front, key, from)
      + if last.key == key && last.now >= from && Admits(hash, front, last) then 1 else 0
  }

  lemma {:induction false} FromCallIsSince(hash: string -> nat, calls: seq<Call>, key: string, k: nat, from: int)
    requires k < |calls| && calls[k].key == key && calls[k].now >= from && InOrder(calls, key)
    ensures AdmittedFromCall(hash, calls, key, k) <= AdmittedSince(hash, calls, key, from)
    decreases |calls|
  {
    var front := calls[..|calls| - 1];
    if k < |front| {
      FromCallIsSince(hash, front, key, k, from);
    }
  }

  /** In particular, if readings come in order, `limit` calls were admitted in the window that ends with the refusal. */
  lemma RefusalInOrder(hash: string -> nat, calls: seq<Call>, call: Call)
    requires call.limit > 0 && call.window > 0 && !Admits(hash, calls, call) && InOrder(calls + [call], call.key)
    ensures AdmittedSince(hash, calls, call.key, call.now - call.window + 1) >= call.limit
    ensures forall i :: 0 <= i < |calls| && calls[i].key == call.key ==> calls[i].now <= call.now
  {
    hide Admits, AdmittedSince, AdmittedFromCall;
    var k := RefusalHasReason(hash, calls, call);
    InOrderBefore(calls, call);
    FromCallIsSince(hash, calls, call.key, k, call.now - call.window + 1);
  }

  lemma InOrderBefore(calls: seq<Call>, call: Call)
    requires InOrder(calls + [call], call.key)
    ensures InOrder(calls, call.key)
    ensures forall i :: 0 <= i < |calls| && calls[i].key == call.key ==> calls[i].now <= call.now
  {
    var all := calls + [call];
    assert all[|calls|] == call;
    assert forall i :: 0 <= i < |calls| ==> calls[i] == all[i];
  }

  // ---------------------------------------------------------------- the store in place

  class RateLimiterStore {
    const hash: string -> nat
    var shards: Shards

    constructor (hash: string -> nat)
      ensures this.hash == hash && shards == EmptyShards()
    {
      this.hash := hash;
      shards := EmptyShards();
    }

    /** `now` is the clock reading in nanoseconds. */
    method AllowCall(key: string, limit: nat, windowSeconds: nat, now: int) returns (admitted: bool)
      requires shards != []
      modifies this`shards
      ensures (shards, admitted)
           == Called(hash, old(shards), Call(key, now, limit, windowSeconds * NANOS_PER_SECOND))
    {
      var i := ShardIndex(hash, key, |shards|);
      if limit == 0 || windowSeconds == 0 {
        assert key in shards[i] ==> shards[i][key := shards[i][key]] == shards[i];
        assert shards[i := shards[i]] == shards;
        return false;
      }
      var window := windowSeconds * NANOS_PER_SECOND;
      var bucket := if key in shards[i] then shards[i][key] else Bucket(now, 0);
      if now - bucket.start >= window {
        bucket := Bucket(now, 0);
      }
      admitted := bucket.count < limit;
      if admitted {
        bucket := bucket.(count := bucket.count + 1);
      }
      shards := shards[i := shards[i][key := bucket]];
    }
  }
}

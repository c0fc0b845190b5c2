/**
 Latency samples: three bounded queues that receive one sample each per request
 (total, spent upstream, added by the edge), drained together into percentiles.
 Each drained list is sorted on its own, so the percentiles of one report come
 from different requests.
 */
module Latency {
  const MAX_LATENCY_SAMPLES: nat := 4096

  // ---------------------------------------------------------------- sorting and counting

  ghost predicate Sorted(s: seq<nat>) {
    forall i, j :: 0 <= i < j < |s| ==> s[i] <= s[j]
  }

  /** How many samples are at most `t`. */
  function AtMost(s: seq<nat>, t: nat): (n: nat)
    ensures n <= |s|
  {
    if s == [] then 0 else (if s[0] <= t then 1 else 0) + AtMost(s[1..], t)
  }

  function Insert(x: nat, s: seq<nat>): seq<nat> {
    if s == [] || x <= s[0] then [x] + s else [s[0]] + Insert(x, s[1..])
  }

  /** The sorted list of the same samples. */
  function Sort(s: seq<nat>): seq<nat> {
    if s == [] then [] else Insert(s[0], Sort(s[1..]))
  }

  lemma {:induction false} InsertKeeps(x: nat, s: seq<nat>)
    ensures multiset(Insert(x, s)) == multiset(s) + multiset{x}
  {
    if s != [] && x > s[0] {
      InsertKeeps(x, s[1..]);
      assert s == [s[0]] + s[1..];
    }
  }

  lemma {:induction false} InsertSorts(x: nat, s: seq<nat>)
    requires Sorted(s)
    ensures Sorted(Insert(x, s))
  {
    if s != [] && x > s[0] {
      InsertSorts(x, s[1..]);
      InsertKeeps(x, s[1..]);
      var r := Insert(x, s[1..]);
      forall j | 0 <= j < |r| ensures s[0] <= r[j] {
        assert r[j] in multiset(r);
        assert r[j] == x || r[j] in s[1..];
      }
    }
  }

  lemma {:induction false} SortSorts(s: seq<nat>)
    ensures Sorted(Sort(s)) && multiset(Sort(s)) == multiset(s)
  {
    if s != [] {
      SortSorts(s[1..]);
      InsertSorts(s[0], Sort(s[1..]));
      InsertKeeps(s[0], Sort(s[1..]));
      assert s == [s[0]] + s[1..];
    }
  }

  lemma {:induction false} AtMostInsert(x: nat, s: seq<nat>, t: nat)
    ensures AtMost(Insert(x, s), t) == AtMost(s, t) + if x <= t then 1 else 0
    ensures |Insert(x, s)| == |s| + 1
  {
    if s != [] && x > s[0] {
      AtMostInsert(x, s[1..], t);
    } else {
      assert ([x] + s)[1..] == s;
    }
  }

  /** Sorting moves samples around but counts stay. */
  lemma {:induction false} AtMostSort(s: seq<nat>, t: nat)
    ensures AtMost(Sort(s), t) == AtMost(s, t) && |Sort(s)| == |s|
  {
    if s != [] {
      AtMostSort(s[1..], t);
      AtMostInsert(s[0], Sort(s[1..]), t);
    }
  }

  /** In a sorted list, position `k` holds a value at most `t` exactly when more than `k` values are. */
  lemma {:induction false} RankInSorted(s: seq<nat>, k: nat, t: nat)
    requires Sorted(s) && k < |s|
    ensures s[k] <= t <==> AtMost(s, t) > k
  {
    if s[0] > t {
      AtMostNone(s, t);
    } else if k > 0 {
      RankInSorted(s[1..], k - 1, t);
    }
  }

  lemma {:induction false} AtMostNone(s: seq<nat>, t: nat)
    requires forall i :: 0 <= i < |s| ==> s[i] > t
    ensures AtMost(s, t) == 0
  {
    if s != [] {
      AtMostNone(s[1..], t);
    }
  }

  /** The sample of rank `k`, whatever the order the samples came in. */
  lemma RankOf(s: seq<nat>, k: nat, t: nat)
    requires k < |s|
    ensures |Sort(s)| == |s|
    ensures Sort(s)[k] <= t <==> AtMost(s, t) > k
  {
    SortSorts(s);
    AtMostSort(s, t);
    RankInSorted(Sort(s), k, t);
  }

  ghost predicate Below(a: seq<nat>, b: seq<nat>) {
    |a| == |b| && forall i :: 0 <= i < |a| ==> a[i] <= b[i]
  }

  lemma {:induction false} AtMostBelow(a: seq<nat>, b: seq<nat>, t: nat)
    requires Below(a, b)
    ensures AtMost(a, t) >= AtMost(b, t)
  {
    if a != [] {
      AtMostBelow(a[1..], b[1..], t);
    }
  }

  /** Sorting two lists independently keeps a pointwise bound between them. */
  lemma SortBelow(a: seq<nat>, b: seq<nat>, k: nat)
    requires Below(a, b) && k < |a|
    ensures |Sort(a)| == |a| && |Sort(b)| == |a| && Sort(a)[k] <= Sort(b)[k]
  {
    AtMostSort(b, 0);
    var t := Sort(b)[k];
    RankOf(b, k, t);
    AtMostBelow(a, b, t);
    RankOf(a, k, t);
  }

  // ---------------------------------------------------------------- percentiles

  datatype Percentiles = Percentiles(p50: nat, p90: nat, p99: nat)
  datatype Group = Group(total: Percentiles, upstream: Percentiles, edgeAdded: Percentiles)

  function PercentileIndex(length: nat, percentile: nat): (i: nat)
    requires length > 0
    ensures percentile <= 100 ==> i < length
  {
    IndexBound(length, percentile);
    (length - 1) * percentile / 100
  }

  lemma IndexBound(length: nat, percentile: nat)
    requires length > 0
    ensures percentile <= 100 ==> (length - 1) * percentile / 100 < length
  {
    if percentile <= 100 {
      assert (length - 1) * percentile <= (length - 1) * 100;
    }
  }

  /** The index is that part of the last position, rounded down. */
  lemma IndexIsPart(length: nat, percentile: nat)
    requires length > 0
    ensures var i, part := PercentileIndex(length, percentile), percentile * (length - 1);
            100 * i <= part < 100 * (i + 1)
  {
    assert (length - 1) * percentile == percentile * (length - 1);
  }

  function PercentileMs(sorted: seq<nat>, percentile: nat): nat
    requires sorted != [] && percentile <= 100
  {
    sorted[PercentileIndex(|sorted|, percentile)]
  }

  function PercentilesOf(values: seq<nat>): Percentiles {
    if values == [] then Percentiles(0, 0, 0)
    else
      AtMostSort(values, 0);
      var sorted := Sort(values);
      Percentiles(PercentileMs(sorted, 50), PercentileMs(sorted, 90), PercentileMs(sorted, 99))
  }

  ghost predicate PercentilesBelow(a: Percentiles, b: Percentiles) {
    a.p50 <= b.p50 && a.p90 <= b.p90 && a.p99 <= b.p99
  }

  lemma PercentilesMonotone(a: seq<nat>, b: seq<nat>)
    requires Below(a, b)
    ensures PercentilesBelow(PercentilesOf(a), PercentilesOf(b))
  {
    if a != [] {
      SortBelow(a, b, PercentileIndex(|a|, 50));
      SortBelow(a, b, PercentileIndex(|a|, 90));
      SortBelow(a, b, PercentileIndex(|a|, 99));
    }
  }

  /**
   `v` is a percentile of the samples in the order they came: it is one of them, at
   most that part of the others (all but one, as the index is computed) is below
   it, and more than that part is at most it.
   */
  ghost predicate IsPercentile(values: seq<nat>, percentile: nat, v: nat) {
    && v in values
    && 100 * AtMost(values, v) > percentile * (|values| - 1)
    && (v > 0 ==> 100 * AtMost(values, v - 1) <= percentile * (|values| - 1))
  }

  lemma RankIsPercentile(values: seq<nat>, percentile: nat)
    requires values != [] && percentile <= 100
    ensures |Sort(values)| == |values| && IsPercentile(values, percentile, PercentileMs(Sort(values), percentile))
  {
    hide AtMost, Sort, PercentileIndex;
    AtMostSort(values, 0);
    var index, v := PercentileIndex(|values|, percentile), PercentileMs(Sort(values), percentile);
    IndexIsPart(|values|, percentile);
    RankOf(values, index, v);
    if v > 0 {
      RankOf(values, index, v - 1);
    }
    SortSorts(values);
    assert v in multiset(Sort(values));
  }

  /** What the three reported numbers mean for the unsorted samples. */
  lemma PercentileMeaning(values: seq<nat>)
    ensures var r := PercentilesOf(values);
            if values == [] then r == Percentiles(0, 0, 0)
            else && IsPercentile(values, 50, r.p50)
                 && IsPercentile(values, 90, r.p90)
                 && IsPercentile(values, 99, r.p99)
  {
    if values != [] {
      RankIsPercentile(values, 50);
      RankIsPercentile(values, 90);
      RankIsPercentile(values, 99);
    }
  }

  // ---------------------------------------------------------------- runs

  datatype Buffers = Buffers(total: seq<nat>, upstream: seq<nat>, edgeAdded: seq<nat>)

  datatype Op = Record(total: nat, upstream: nat) | Take

  function Min(a: nat, b: nat): nat {
    if a < b then a else b
  }

  /** The most recent samples, at most the bound. */
  function Newest(s: seq<nat>): seq<nat> {
    if |s| > MAX_LATENCY_SAMPLES then s[|s| - MAX_LATENCY_SAMPLES..] else s
  }

  function Recorded(b: Buffers, total: nat, upstream: nat): Buffers {
    var spent := Min(upstream, total);
    Buffers(Newest(b.total + [total]), Newest(b.upstream + [spent]), Newest(b.edgeAdded + [total - spent]))
  }

  function GroupOf(b: Buffers): Group {
    Group(PercentilesOf(b.total), PercentilesOf(b.upstream), PercentilesOf(b.edgeAdded))
  }

  function After(b: Buffers, op: Op): Buffers {
    match op
    case Record(total, upstream) => Recorded(b, total, upstream)
    case Take => Buffers([], [], [])
  }

  function Run(ops: seq<Op>): Buffers {
    if ops == [] then Buffers([], [], []) else After(Run(ops[..|ops| - 1]), ops[|ops| - 1])
  }

  /** The queues stay aligned: position by position, the total is what upstream and edge add up to. */
  ghost predicate Aligned(b: Buffers) {
    && |b.total| == |b.upstream| == |b.edgeAdded| <= MAX_LATENCY_SAMPLES
    && forall i :: 0 <= i < |b.total| ==> b.total[i] == b.upstream[i] + b.edgeAdded[i]
  }

  lemma RecordAligned(b: Buffers, total: nat, upstream: nat)
    requires Aligned(b)
    ensures Aligned(Recorded(b, total, upstream))
  {
  }

  lemma {:induction false} RunAligned(ops: seq<Op>)
    ensures Aligned(Run(ops))
  {
    if ops != [] {
      RunAligned(ops[..|ops| - 1]);
      var op := ops[|ops| - 1];
      if op.Record? {
        RecordAligned(Run(ops[..|ops| - 1]), op.total, op.upstream);
      }
    }
  }

  /**
   Percentile dominance: whatever was recorded and drained before, in every report
   each total-latency percentile is at least the upstream one and at least the
   edge-added one.
   */
  lemma PercentileDominance(ops: seq<Op>)
    ensures var report := GroupOf(Run(ops));
            && PercentilesBelow(report.upstream, report.total)
            && PercentilesBelow(report.edgeAdded, report.total)
  {
    RunAligned(ops);
    var b := Run(ops);
    PercentilesMonotone(b.upstream, b.total);
    PercentilesMonotone(b.edgeAdded, b.total);
  }

  // ---------------------------------------------------------------- what a report says

  /** The total and upstream times recorded since the last drain. */
  function Records(ops: seq<Op>): seq<(nat, nat)> {
    if ops == [] then []
    else match ops[|ops| - 1]
         case Take => []
         case Record(total, upstream) => Records(ops[..|ops| - 1]) + [(total, upstream)]
  }

  function Totals(records: seq<(nat, nat)>): seq<nat> {
    seq(|records|, i requires 0 <= i < |records| => records[i].0)
  }

  /** The upstream times; none counts for more than its total. */
  function Upstreams(records: seq<(nat, nat)>): seq<nat> {
    seq(|records|, i requires 0 <= i < |records| =>
      if records[i].1 <= records[i].0 then records[i].1 else records[i].0)
  }

  /** What the edge added: the part of the total that was not spent upstream. */
  function EdgeAdded(records: seq<(nat, nat)>): seq<nat> {
    seq(|records|, i requires 0 <= i < |records| =>
      if records[i].1 <= records[i].0 then records[i].0 - records[i].1 else 0)
  }

  lemma NewestSnoc(s: seq<nat>, x: nat)
    ensures Newest(Newest(s) + [x]) == Newest(s + [x])
  {
  }

  lemma RecordsSnoc(records: seq<(nat, nat)>, total: nat, upstream: nat)
    ensures var all, spent := records + [(total, upstream)], Min(upstream, total);
            && Totals(all) == Totals(records) + [total]
            && Upstreams(all) == Upstreams(records) + [spent]
            && EdgeAdded(all) == EdgeAdded(records) + [total - spent]
  {
  }

  /** The queues hold the most recent samples since the last drain, each in its own queue. */
  lemma {:induction false} QueuesHoldNewest(ops: seq<Op>)
    ensures var all := Records(ops);
            Run(ops) == Buffers(Newest(Totals(all)), Newest(Upstreams(all)), Newest(EdgeAdded(all)))
  {
    if ops != [] {
      QueuesHoldNewest(ops[..|ops| - 1]);
      var op, all := ops[|ops| - 1], Records(ops[..|ops| - 1]);
      if op.Record? {
        var spent := Min(op.upstream, op.total);
        RecordsSnoc(all, op.total, op.upstream);
        NewestSnoc(Totals(all), op.total);
        NewestSnoc(Upstreams(all), spent);
        NewestSnoc(EdgeAdded(all), op.total - spent);
      }
    }
  }

  /** Three reported numbers are the percentiles of the last 4096 of these samples, or zero if there are none. */
  ghost predicate Reports(p: Percentiles, all: seq<nat>) {
    var kept := if |all| <= 4096 then all else all[|all| - 4096..];
    if kept == [] then p == Percentiles(0, 0, 0)
    else IsPercentile(kept, 50, p.p50) && IsPercentile(kept, 90, p.p90) && IsPercentile(kept, 99, p.p99)
  }

  lemma NewestReports(all: seq<nat>)
    ensures Reports(PercentilesOf(Newest(all)), all)
  {
    hide PercentilesOf, IsPercentile;
    PercentileMeaning(Newest(all));
  }

  /** Every number of every report, from what was recorded since the previous one. */
  lemma ReportMeans(ops: seq<Op>)
    ensures var report, all := GroupOf(Run(ops)), Records(ops);
            && Reports(report.total, Totals(all))
            && Reports(report.upstream, Upstreams(all))
            && Reports(report.edgeAdded, EdgeAdded(all))
  {
    hide PercentilesOf, Reports, Newest, Totals, Upstreams, EdgeAdded, Run;
    var all := Records(ops);
    QueuesHoldNewest(ops);
    NewestReports(Totals(all));
    NewestReports(Upstreams(all));
    NewestReports(EdgeAdded(all));
  }

  // ---------------------------------------------------------------- the metrics in place

  class RuntimeMetrics {
    var total: seq<nat>
    var upstream: seq<nat>
    var edgeAdded: seq<nat>

    ghost function Contents(): Buffers
      reads this
    {
      Buffers(total, upstream, edgeAdded)
    }

    constructor ()
      ensures Contents() == Run([])
    {
      total, upstream, edgeAdded := [], [], [];
    }

    method RecordLatencyMs(totalMs: nat, upstreamMs: nat)
      modifies this
      ensures Contents() == Recorded(old(Contents()), totalMs, upstreamMs)
    {
      var spent := Min(upstreamMs, totalMs);
      var added := totalMs - spent;
      total := PushLatencySample(total, totalMs);
      upstream := PushLatencySample(upstream, spent);
      edgeAdded := PushLatencySample(edgeAdded, added);
    }

    static method PushLatencySample(target: seq<nat>, value: nat) returns (r: seq<nat>)
      ensures r == Newest(target + [value])
    {
      r := target + [value];
      while |r| > MAX_LATENCY_SAMPLES
        invariant Newest(r) == Newest(target + [value])
        decreases |r|
      {
        r := r[1..];
      }
    }

    method TakeLatencyPercentilesMs() returns (report: Group)
      modifies this
      ensures report == GroupOf(old(Contents()))
      ensures Contents() == Buffers([], [], [])
    {
      report := Group(PercentilesOf(total), PercentilesOf(upstream), PercentilesOf(edgeAdded));
      total, upstream, edgeAdded := [], [], [];
    }
  }
}

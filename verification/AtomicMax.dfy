/**
 The concurrent maximum of the lock metrics: each call loads the cell and, while its
 value is larger than what it has seen, tries to exchange what it has seen for its
 value. The operations are relaxed, so a load or a failed exchange may return any
 value the cell has had, but none older than what the same call saw before; a
 successful exchange replaces the newest. The values the cell has had, oldest first,
 are kept as its history.
 */
module AtomicMax {
  datatype Stage = Start | Looping(seen: nat) | Done

  /** `seen` is a position in the cell's history. */
  datatype Call = Call(value: nat, stage: Stage)

  datatype State = State(history: seq<nat>, calls: seq<Call>)

  datatype Event =
    | Load(i: nat, at: nat)
    | Leave(i: nat)
    | Exchange(i: nat)
    | Retry(i: nat, at: nat)

  function Values(calls: seq<Call>): (values: seq<nat>)
    ensures |values| == |calls|
  {
    seq(|calls|, i requires 0 <= i < |calls| => calls[i].value)
  }

  predicate Ascending(history: seq<nat>) {
    forall a, b :: 0 <= a < b < |history| ==> history[a] < history[b]
  }

  function Cell(st: State): nat
    requires st.history != []
  {
    st.history[|st.history| - 1]
  }

  /** A call that has returned has its value in the cell, or a larger one. */
  predicate CallInv(st: State, call: Call)
    requires st.history != []
  {
    match call.stage
    case Start => true
    case Looping(seen) => seen < |st.history|
    case Done => call.value <= Cell(st)
  }

  predicate Inv(st: State) {
    && st.history != [] && Ascending(st.history)
    && (forall call :: call in st.calls ==> CallInv(st, call))
    && (forall v :: v in st.history[1..] ==> v in Values(st.calls))
  }

  predicate Enabled(st: State, e: Event) {
    && e.i < |st.calls| && st.history != []
    && var call := st.calls[e.i];
    match e
    case Load(_, at) => call.stage.Start? && at < |st.history|
    case Leave(_) => call.stage.Looping? && call.stage.seen < |st.history| && call.value <= st.history[call.stage.seen]
    case Exchange(_) =>
      && call.stage.Looping? && call.stage.seen < |st.history| && call.value > st.history[call.stage.seen]
      && st.history[call.stage.seen] == Cell(st)
    case Retry(_, at) =>
      && call.stage.Looping? && call.stage.seen <= at < |st.history| && call.value > st.history[call.stage.seen]
      && st.history[at] != st.history[call.stage.seen]
  }

  function Step(st: State, e: Event): State
    requires Enabled(st, e)
  {
    var call := st.calls[e.i];
    match e
    case Load(i, at) => st.(calls := st.calls[i := Call(call.value, Looping(at))])
    case Leave(i) => st.(calls := st.calls[i := Call(call.value, Done)])
    case Exchange(i) => State(st.history + [call.value], st.calls[i := Call(call.value, Done)])
    case Retry(i, at) => st.(calls := st.calls[i := Call(call.value, Looping(at))])
  }

  predicate IsRun(st: State, events: seq<Event>)
    decreases |events|
  {
    events == [] || (Enabled(st, events[0]) && IsRun(Step(st, events[0]), events[1..]))
  }

  function Run(st: State, events: seq<Event>): (last: State)
    requires IsRun(st, events)
    ensures st.history <= last.history && |last.calls| == |st.calls|
    decreases |events|
  {
    if events == [] then st else Run(Step(st, events[0]), events[1..])
  }

  // ---------------------------------------------------------------- what every step keeps

  lemma StepKeepsValues(st: State, e: Event)
    requires Enabled(st, e)
    ensures Values(Step(st, e).calls) == Values(st.calls)
    ensures Step(st, e).history == st.history
         || (Step(st, e).history == st.history + [st.calls[e.i].value] && st.calls[e.i].value > Cell(st))
  {
  }

  lemma StepKeepsCalls(st: State, e: Event)
    requires Inv(st) && Enabled(st, e)
    ensures forall call :: call in Step(st, e).calls ==> CallInv(Step(st, e), call)
  {
    var next := Step(st, e);
    forall call | call in next.calls
      ensures CallInv(next, call)
    {
      var k :| 0 <= k < |next.calls| && next.calls[k] == call;
      assert CallInv(st, st.calls[k]);
    }
  }

  lemma StepKeepsInv(st: State, e: Event)
    requires Inv(st) && Enabled(st, e)
    ensures Inv(Step(st, e)) && Values(Step(st, e).calls) == Values(st.calls)
  {
    StepKeepsValues(st, e);
    StepKeepsCalls(st, e);
    assert Values(st.calls)[e.i] == st.calls[e.i].value;
    hide Step, Enabled, Values, CallInv;
  }

  /** The cell takes only larger values: its history only grows, and ascends. */
  lemma {:induction false} RunKeepsInv(st: State, events: seq<Event>)
    requires Inv(st) && IsRun(st, events)
    ensures Inv(Run(st, events)) && Values(Run(st, events).calls) == Values(st.calls)
    ensures Cell(st) <= Cell(Run(st, events))
    decreases |events|
  {
    if events != [] {
      StepKeepsInv(st, events[0]);
      RunKeepsInv(Step(st, events[0]), events[1..]);
    }
  }

  // ---------------------------------------------------------------- the maximum

  function Begin(initial: nat, values: seq<nat>): (st: State)
    ensures Inv(st) && Values(st.calls) == values
  {
    State([initial], seq(|values|, i requires 0 <= i < |values| => Call(values[i], Start)))
  }

  ghost predicate IsMaximum(m: nat, initial: nat, values: seq<nat>) {
    && initial <= m && (forall v :: v in values ==> v <= m)
    && (m == initial || m in values)
  }

  predicate AllDone(st: State) {
    forall call :: call in st.calls ==> call.stage.Done?
  }

  /** Once all calls have returned, in whatever order they ran, the cell is the maximum. */
  lemma MaximumReached(initial: nat, values: seq<nat>, events: seq<Event>)
    requires IsRun(Begin(initial, values), events) && AllDone(Run(Begin(initial, values), events))
    ensures IsMaximum(Cell(Run(Begin(initial, values), events)), initial, values)
  {
    var start, last := Begin(initial, values), Run(Begin(initial, values), events);
    RunKeepsInv(start, events);
    forall v | v in values
      ensures v <= Cell(last)
    {
      var k :| 0 <= k < |values| && values[k] == v;
      assert Values(last.calls)[k] == v && last.calls[k] in last.calls;
    }
    if |last.history| > 1 {
      assert Cell(last) in last.history[1..];
    }
  }

  /** At any time the cell holds at least the value of every call that has returned. */
  lemma ReturnedIsCovered(initial: nat, values: seq<nat>, events: seq<Event>, i: nat)
    requires IsRun(Begin(initial, values), events) && i < |values|
    requires Run(Begin(initial, values), events).calls[i].stage.Done?
    ensures values[i] <= Cell(Run(Begin(initial, values), events))
  {
    var last := Run(Begin(initial, values), events);
    RunKeepsInv(Begin(initial, values), events);
    assert Values(last.calls)[i] == values[i] && last.calls[i] in last.calls;
  }

  // ---------------------------------------------------------------- every call returns

  /** What a call can still do: its value less what it has seen, which every failed exchange makes smaller. */
  function CallWork(history: seq<nat>, call: Call): nat {
    match call.stage
    case Start => call.value + 2
    case Looping(seen) =>
      if seen < |history| && history[seen] < call.value then call.value - history[seen] + 1 else 1
    case Done => 0
  }

  function Work(history: seq<nat>, calls: seq<Call>): nat {
    if calls == [] then 0 else CallWork(history, calls[0]) + Work(history, calls[1..])
  }

  lemma {:induction false} WorkChanges(history: seq<nat>, calls: seq<Call>, i: nat, call: Call)
    requires i < |calls| && CallWork(history, call) < CallWork(history, calls[i])
    ensures Work(history, calls[i := call]) < Work(history, calls)
    decreases i
  {
    if i == 0 {
      assert calls[i := call][1..] == calls[1..];
    } else {
      assert calls[i := call][1..] == calls[1..][i - 1 := call];
      WorkChanges(history, calls[1..], i - 1, call);
    }
  }

  lemma {:induction false} WorkLater(history: seq<nat>, later: seq<nat>, calls: seq<Call>)
    requires history <= later
    requires forall call :: call in calls && call.stage.Looping? ==> call.stage.seen < |history|
    ensures Work(later, calls) == Work(history, calls)
  {
    if calls != [] {
      assert calls[0] in calls;
      WorkLater(history, later, calls[1..]);
    }
  }

  lemma StepDoesWork(st: State, e: Event)
    requires Inv(st) && Enabled(st, e)
    ensures Work(Step(st, e).history, Step(st, e).calls) < Work(st.history, st.calls)
  {
    var next := Step(st, e);
    WorkChanges(st.history, st.calls, e.i, next.calls[e.i]);
    forall call | call in next.calls && call.stage.Looping?
      ensures call.stage.seen < |st.history|
    {
      var k :| 0 <= k < |next.calls| && next.calls[k] == call;
      assert CallInv(st, st.calls[k]);
    }
    WorkLater(st.history, next.history, next.calls);
  }

  /** No run is longer than the work there is at the start. */
  lemma {:induction false} RunsEnd(st: State, events: seq<Event>)
    requires Inv(st) && IsRun(st, events)
    ensures |events| + Work(Run(st, events).history, Run(st, events).calls) <= Work(st.history, st.calls)
    decreases |events|
  {
    if events != [] {
      StepKeepsInv(st, events[0]);
      StepDoesWork(st, events[0]);
      RunsEnd(Step(st, events[0]), events[1..]);
    }
  }

  /** And a run that cannot go on has let every call return. */
  lemma NoneIsStuck(st: State)
    requires Inv(st) && !AllDone(st)
    ensures exists e :: Enabled(st, e)
  {
    var call :| call in st.calls && !call.stage.Done?;
    var i :| 0 <= i < |st.calls| && st.calls[i] == call;
    var last := |st.history| - 1;
    if call.stage.Start? {
      assert Enabled(st, Load(i, last));
    } else if call.value <= st.history[call.stage.seen] {
      assert Enabled(st, Leave(i));
    } else if st.history[call.stage.seen] == Cell(st) {
      assert Enabled(st, Exchange(i));
    } else {
      assert Enabled(st, Retry(i, last));
    }
  }
}

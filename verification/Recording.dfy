/**
 The debug recording session. A store holds at most one session. A request that
 matches a recording session takes its runtime's lock twice: once to see whether
 the session is completed, and again, after the run, to capture the recording. In
 between, other requests, drains and stops may step in, so a session that a request
 still holds can be completed or stopped under it. Calls are counted per session by
 how far they have come, since they carry nothing else that matters here.
 */
module Recording {
  import opened Bytes
  import opened Wrappers

  const U32_MAX: nat := 0xFFFF_FFFF

  type u32 = n: nat | n <= U32_MAX

  function Saturated(n: nat): u32 {
    if n <= U32_MAX then n else U32_MAX
  }

  // ---------------------------------------------------------------- one runtime

  datatype Artifact = Artifact(recording: bytes, sequence: u32, completed: bool)

  /** What a run leaves behind for the capture. */
  datatype Outcome = NoRecording | Unencodable | Encoded(recording: bytes)

  datatype Runtime = Runtime(target: u32, captured: u32, nextSequence: u32, completed: bool, outbox: seq<Artifact>)

  function NewRuntime(target: u32): Runtime {
    Runtime(target, 0, 1, false, [])
  }

  function Captured(r: Runtime, outcome: Outcome): Runtime {
    if outcome.NoRecording? then r
    else
      var captured := Saturated(r.captured + 1);
      var completed := r.completed || captured >= r.target;
      var outbox :=
        if outcome.Encoded? then r.outbox + [Artifact(outcome.recording, r.nextSequence, completed)] else r.outbox;
      Runtime(r.target, captured, Saturated(r.nextSequence + 1), completed, outbox)
  }

  /** The runtime's counters after `count` captures. */
  predicate Counts(r: Runtime, count: nat) {
    && r.target >= 1
    && r.captured == Saturated(count)
    && r.nextSequence == Saturated(count + 1)
    && (r.completed <==> count >= r.target)
  }

  function Count(outcomes: seq<Outcome>): nat {
    if outcomes == [] then 0 else (if outcomes[0].NoRecording? then 0 else 1) + Count(outcomes[1..])
  }

  /** The artifacts of captures that follow `count` others, by their ordinal alone. */
  function Artifacts(count: nat, target: u32, outcomes: seq<Outcome>): seq<Artifact>
    decreases |outcomes|
  {
    if outcomes == [] then []
    else
      match outcomes[0]
      case NoRecording => Artifacts(count, target, outcomes[1..])
      case Unencodable => Artifacts(count + 1, target, outcomes[1..])
      case Encoded(recording) =>
        [Artifact(recording, Saturated(count + 1), count + 1 >= target)] + Artifacts(count + 1, target, outcomes[1..])
  }

  lemma {:induction false} ArtifactFacts(count: nat, target: u32, outcomes: seq<Outcome>, i: nat)
    requires i < |Artifacts(count, target, outcomes)|
    ensures var a := Artifacts(count, target, outcomes)[i];
            && (a.completed <==> a.sequence >= target)
            && Saturated(count + 1) <= a.sequence <= Saturated(count + Count(outcomes))
    decreases |outcomes|
  {
    match outcomes[0]
    case NoRecording => ArtifactFacts(count, target, outcomes[1..], i);
    case Unencodable => ArtifactFacts(count + 1, target, outcomes[1..], i);
    case Encoded(_) =>
      if i > 0 {
        ArtifactFacts(count + 1, target, outcomes[1..], i - 1);
      }
  }

  predicate Increasing(artifacts: seq<Artifact>) {
    |artifacts| > 1 ==> artifacts[0].sequence < artifacts[1].sequence && Increasing(artifacts[1..])
  }

  /** The encoded captures whose sequence number is the largest a u32 holds. */
  function AtSaturation(count: nat, outcomes: seq<Outcome>): nat
    decreases |outcomes|
  {
    if outcomes == [] then 0
    else
      match outcomes[0]
      case NoRecording => AtSaturation(count, outcomes[1..])
      case Unencodable => AtSaturation(count + 1, outcomes[1..])
      case Encoded(_) => (if count + 1 >= U32_MAX then 1 else 0) + AtSaturation(count + 1, outcomes[1..])
  }

  lemma {:induction false} AllAtSaturation(count: nat, target: u32, outcomes: seq<Outcome>)
    requires count + 1 >= U32_MAX
    ensures AtSaturation(count, outcomes) == |Artifacts(count, target, outcomes)|
    decreases |outcomes|
  {
    if outcomes != [] {
      AllAtSaturation(if outcomes[0].NoRecording? then count else count + 1, target, outcomes[1..]);
    }
  }

  lemma {:induction false} NoneAtSaturation(count: nat, outcomes: seq<Outcome>)
    requires count + Count(outcomes) <= U32_MAX
    ensures AtSaturation(count, outcomes) <= 1
    ensures count + Count(outcomes) < U32_MAX || Count(outcomes) == 0 ==> AtSaturation(count, outcomes) == 0
    decreases |outcomes|
  {
    if outcomes != [] {
      NoneAtSaturation(if outcomes[0].NoRecording? then count else count + 1, outcomes[1..]);
    }
  }

  /** Sequence numbers strictly increase exactly while at most one capture has the last number. */
  lemma {:induction false} SequencesIncrease(count: nat, target: u32, outcomes: seq<Outcome>)
    ensures Increasing(Artifacts(count, target, outcomes)) <==> AtSaturation(count, outcomes) <= 1
    decreases |outcomes|
  {
    if outcomes != [] {
      var rest := Artifacts(count + 1, target, outcomes[1..]);
      match outcomes[0]
      case NoRecording => SequencesIncrease(count, target, outcomes[1..]);
      case Unencodable => SequencesIncrease(count + 1, target, outcomes[1..]);
      case Encoded(_) =>
        SequencesIncrease(count + 1, target, outcomes[1..]);
        assert Artifacts(count, target, outcomes)[1..] == rest;
        if rest != [] {
          ArtifactFacts(count + 1, target, outcomes[1..], 0);
        }
        if count + 1 >= U32_MAX {
          AllAtSaturation(count + 1, target, outcomes[1..]);
        }
    }
  }

  // ---------------------------------------------------------------- the store and its calls

  /**
   A session, and the calls that hold it: `held` before the completed check,
   `running` between the check and the capture, `draining` before the drain takes
   the lock; `attached` runs of an interactive session.
   */
  datatype Session =
    | Recorded(runtime: Runtime, held: nat, running: nat, draining: nat)
    | Interactive(attached: nat)

  /** Every session ever started, and which one is in the slot. */
  datatype State = State(sessions: seq<Session>, slot: Option<nat>, active: bool)

  datatype Event =
    | StartRecording(target: u32)
    | StartInteractive
    | Stop
    | Begin
    | Check(s: nat)
    | Capture(s: nat, outcome: Outcome)
    | Detach(s: nat, detached: bool)
    | BeginDrain
    | Drain(s: nat)

  predicate IsRecorded(st: State, s: nat) {
    s < |st.sessions| && st.sessions[s].Recorded?
  }

  ghost predicate WellFormed(st: State) {
    && (st.active <==> st.slot.Some?)
    && (st.slot.Some? ==> st.slot.value < |st.sessions|)
    && (forall s: nat :: IsRecorded(st, s) ==> st.sessions[s].runtime.target >= 1)
  }

  predicate Enabled(st: State, e: Event) {
    match e
    case StartRecording(_) | StartInteractive | Stop => true
    case Begin | BeginDrain => st.slot.Some? && st.slot.value < |st.sessions|
    case Check(s) => IsRecorded(st, s) && st.sessions[s].held > 0
    case Capture(s, _) => IsRecorded(st, s) && st.sessions[s].running > 0
    case Detach(s, _) => s < |st.sessions| && st.sessions[s].Interactive? && st.sessions[s].attached > 0
    case Drain(s) => IsRecorded(st, s) && st.sessions[s].draining > 0
  }

  function Started(st: State, session: Session): State {
    if st.slot.Some? then st else State(st.sessions + [session], Some(|st.sessions|), true)
  }

  function Begun(session: Session): Session {
    match session
    case Recorded(_, held, _, _) => session.(held := held + 1)
    case Interactive(attached) => Interactive(attached + 1)
  }

  function Checked(session: Session): Session
    requires session.Recorded? && session.held > 0
  {
    if session.runtime.completed then session.(held := session.held - 1)
    else session.(held := session.held - 1, running := session.running + 1)
  }

  function With(st: State, s: nat, session: Session): State
    requires s < |st.sessions|
  {
    st.(sessions := st.sessions[s := session])
  }

  function Step(st: State, e: Event): State
    requires Enabled(st, e)
  {
    match e
    case StartRecording(target) => if target == 0 then st else Started(st, Recorded(NewRuntime(target), 0, 0, 0))
    case StartInteractive => Started(st, Interactive(0))
    case Stop => st.(slot := None, active := false)
    case Begin => With(st, st.slot.value, Begun(st.sessions[st.slot.value]))
    case Check(s) => With(st, s, Checked(st.sessions[s]))
    case Capture(s, outcome) =>
      var session := st.sessions[s];
      With(st, s, session.(runtime := Captured(session.runtime, outcome), running := session.running - 1))
    case Detach(s, detached) =>
      var next := With(st, s, Interactive(st.sessions[s].attached - 1));
      if detached && st.slot == Some(s) then next.(slot := None, active := false) else next
    case BeginDrain =>
      var session := st.sessions[st.slot.value];
      if session.Recorded? then With(st, st.slot.value, session.(draining := session.draining + 1)) else st
    case Drain(s) =>
      var session := st.sessions[s];
      With(st, s, session.(runtime := session.runtime.(outbox := []), draining := session.draining - 1))
  }

  predicate IsRun(st: State, events: seq<Event>)
    decreases |events|
  {
    events == [] || (Enabled(st, events[0]) && IsRun(Step(st, events[0]), events[1..]))
  }

  function Run(st: State, events: seq<Event>): State
    requires IsRun(st, events)
    decreases |events|
  {
    if events == [] then st else Run(Step(st, events[0]), events[1..])
  }

  /** The outcomes of the captures of session `s`, in order. */
  function OutcomesOf(events: seq<Event>, s: nat): seq<Outcome> {
    if events == [] then []
    else
      (if events[0].Capture? && events[0].s == s then [events[0].outcome] else []) + OutcomesOf(events[1..], s)
  }

  /** The artifacts that drains of session `s` return, in order. */
  function DrainedFrom(st: State, events: seq<Event>, s: nat): seq<Artifact>
    requires IsRun(st, events)
    decreases |events|
  {
    if events == [] then []
    else
      (if events[0] == Drain(s) then st.sessions[s].runtime.outbox else [])
      + DrainedFrom(Step(st, events[0]), events[1..], s)
  }

  // ---------------------------------------------------------------- what every run keeps

  lemma StepWellFormed(st: State, e: Event)
    requires WellFormed(st) && Enabled(st, e)
    ensures WellFormed(Step(st, e))
  {
    forall s: nat | IsRecorded(Step(st, e), s)
      ensures Step(st, e).sessions[s].runtime.target >= 1
    {
      assert s < |st.sessions| && st.sessions[s].Recorded? ==> IsRecorded(st, s);
    }
  }

  lemma {:induction false} RunWellFormed(st: State, events: seq<Event>)
    requires WellFormed(st) && IsRun(st, events)
    ensures WellFormed(Run(st, events))
    decreases |events|
  {
    if events != [] {
      StepWellFormed(st, events[0]);
      RunWellFormed(Step(st, events[0]), events[1..]);
    }
  }

  /** One step of any call, seen from session `s`. */
  lemma StepConserves(st: State, e: Event, s: nat, count: nat)
    requires Enabled(st, e) && IsRecorded(st, s) && Counts(st.sessions[s].runtime, count)
    ensures IsRecorded(Step(st, e), s)
    ensures var before, after := st.sessions[s].runtime, Step(st, e).sessions[s].runtime;
            && after.target == before.target
            && Counts(after, count + Count(OutcomesOf([e], s)))
            && (if e == Drain(s) then before.outbox else []) + after.outbox
               == before.outbox + Artifacts(count, before.target, OutcomesOf([e], s))
  {
  }

  lemma {:induction false} OutcomesSplit(e: Event, rest: seq<Event>, s: nat, count: nat, target: u32)
    ensures var first, later := OutcomesOf([e], s), OutcomesOf(rest, s);
            && Count(OutcomesOf([e] + rest, s)) == Count(first) + Count(later)
            && Artifacts(count, target, OutcomesOf([e] + rest, s))
               == Artifacts(count, target, first) + Artifacts(count + Count(first), target, later)
  {
    assert ([e] + rest)[1..] == rest && OutcomesOf([e][1..], s) == [];
    var first, later := OutcomesOf([e], s), OutcomesOf(rest, s);
    if first != [] {
      assert (first + later)[1..] == later && first[1..] == [];
    } else {
      assert first + later == later;
    }
  }

  lemma NothingCaptured(s: nat, count: nat, target: u32)
    ensures Count(OutcomesOf([], s)) == 0 && Artifacts(count, target, OutcomesOf([], s)) == []
  {
  }

  /**
   Conservation over every interleaving: what has been drained, followed by what is
   in the outbox, is what the captures produced, in order; so nothing is lost,
   repeated or drained twice. Sessions that other calls start or stop do not matter.
   */
  lemma {:induction false} RunConserves(st: State, events: seq<Event>, s: nat, count: nat)
    requires IsRun(st, events) && IsRecorded(st, s) && Counts(st.sessions[s].runtime, count)
    ensures IsRecorded(Run(st, events), s)
    ensures var before, after := st.sessions[s].runtime, Run(st, events).sessions[s].runtime;
            && after.target == before.target
            && Counts(after, count + Count(OutcomesOf(events, s)))
            && DrainedFrom(st, events, s) + after.outbox
               == before.outbox + Artifacts(count, before.target, OutcomesOf(events, s))
    decreases |events|
  {
    hide Step, Enabled, Artifacts, OutcomesOf, Count, Counts;
    if events == [] {
      NothingCaptured(s, count, st.sessions[s].runtime.target);
    } else {
      var e, rest := events[0], events[1..];
      assert events == [e] + rest;
      var first := OutcomesOf([e], s);
      StepConserves(st, e, s, count);
      RunConserves(Step(st, e), rest, s, count + Count(first));
      OutcomesSplit(e, rest, s, count, st.sessions[s].runtime.target);
      Chain(if e == Drain(s) then st.sessions[s].runtime.outbox else [], DrainedFrom(Step(st, e), rest, s),
            Run(st, events).sessions[s].runtime.outbox, Step(st, e).sessions[s].runtime.outbox,
            st.sessions[s].runtime.outbox, Artifacts(count, st.sessions[s].runtime.target, first),
            Artifacts(count + Count(first), st.sessions[s].runtime.target, OutcomesOf(rest, s)));
    }
  }

  lemma Chain<T>(d: seq<T>, drained: seq<T>, last: seq<T>, middle: seq<T>, start: seq<T>, a: seq<T>, b: seq<T>)
    requires d + middle == start + a && drained + last == middle + b
    ensures d + drained + last == start + (a + b)
  {
    assert d + drained + last == d + (middle + b) == start + a + b;
  }

  // ---------------------------------------------------------------- captures past the target

  /** At most `n` calls are past the check of session `s` at any time in the run. */
  predicate AtMostRunning(st: State, events: seq<Event>, s: nat, n: nat)
    requires IsRun(st, events) && IsRecorded(st, s)
    decreases |events|
  {
    && st.sessions[s].running <= n
    && (events != [] ==>
          IsRecorded(Step(st, events[0]), s) && AtMostRunning(Step(st, events[0]), events[1..], s, n))
  }

  lemma {:induction false} RunOvershoot(st: State, events: seq<Event>, s: nat, count: nat, n: nat)
    requires IsRun(st, events) && IsRecorded(st, s) && Counts(st.sessions[s].runtime, count)
    requires AtMostRunning(st, events, s, n)
    requires count + st.sessions[s].running < st.sessions[s].runtime.target + n
    ensures IsRecorded(Run(st, events), s)
    ensures count + Count(OutcomesOf(events, s)) + Run(st, events).sessions[s].running
         < st.sessions[s].runtime.target + n
    decreases |events|
  {
    if events != [] {
      hide Artifacts;
      var e, rest := events[0], events[1..];
      assert events == [e] + rest;
      StepConserves(st, e, s, count);
      OutcomesSplit(e, rest, s, count, st.sessions[s].runtime.target);
      assert Step(st, e).sessions[s].running <= n;
      RunOvershoot(Step(st, e), rest, s, count + Count(OutcomesOf([e], s)), n);
    }
  }

  // ---------------------------------------------------------------- a session from its start

  /** Calls, in whatever order, after a recording session is started. */
  ghost predicate IsRunOfNew(st: State, target: u32, events: seq<Event>) {
    st.slot.None? && target >= 1 && IsRun(Step(st, StartRecording(target)), events)
  }

  /**
   The outbox of every run: drained and waiting artifacts together are those of the
   captures, each marked completed exactly from the target on, with sequence numbers
   that strictly increase exactly while they fit.
   */
  lemma OutboxOfEveryRun(st: State, target: u32, events: seq<Event>)
    requires IsRunOfNew(st, target, events)
    ensures var s, start := |st.sessions|, Step(st, StartRecording(target));
            var outcomes, last := OutcomesOf(events, s), Run(start, events);
            && IsRecorded(last, s)
            && Counts(last.sessions[s].runtime, Count(outcomes))
            && var all := DrainedFrom(start, events, s) + last.sessions[s].runtime.outbox;
            && all == Artifacts(0, target, outcomes)
            && (forall i :: 0 <= i < |all| ==> (all[i].completed <==> all[i].sequence >= target))
            && (Increasing(all) <==> AtSaturation(0, outcomes) <= 1)
            && (Count(outcomes) <= U32_MAX ==> Increasing(all))
  {
    var s, start := |st.sessions|, Step(st, StartRecording(target));
    var outcomes := OutcomesOf(events, s);
    RunConserves(start, events, s, 0);
    SequencesIncrease(0, target, outcomes);
    if Count(outcomes) <= U32_MAX {
      NoneAtSaturation(0, outcomes);
    }
    var all := Artifacts(0, target, outcomes);
    forall i | 0 <= i < |all|
      ensures all[i].completed <==> all[i].sequence >= target
    {
      ArtifactFacts(0, target, outcomes, i);
    }
  }

  /** With at most `n` calls in flight, captures pass the target by at most `n - 1`. */
  lemma Overshoot(st: State, target: u32, events: seq<Event>, n: nat)
    requires IsRunOfNew(st, target, events)
    requires AtMostRunning(Step(st, StartRecording(target)), events, |st.sessions|, n)
    ensures Count(OutcomesOf(events, |st.sessions|)) <= target + n - 1
  {
    RunOvershoot(Step(st, StartRecording(target)), events, |st.sessions|, 0, n);
  }

  // ---------------------------------------------------------------- the overshoot is attained

  /** A store whose only session records, seen by its counters. */
  function Only(session: Session): State {
    State([session], Some(0), true)
  }

  function Times(block: seq<Event>, m: nat): seq<Event> {
    if m == 0 then [] else Times(block, m - 1) + block
  }

  /** From `st`, `events` is a run to `last` with `captures` captures and at most `n` calls past the check. */
  ghost predicate Leads(st: State, events: seq<Event>, last: State, captures: nat, n: nat) {
    && IsRun(st, events) && IsRecorded(st, 0) && AtMostRunning(st, events, 0, n)
    && Run(st, events) == last && Count(OutcomesOf(events, 0)) == captures
  }

  lemma {:induction false} LeadsOn(st: State, events: seq<Event>, middle: State, more: seq<Event>, last: State,
                                   a: nat, b: nat, n: nat)
    requires Leads(st, events, middle, a, n) && Leads(middle, more, last, b, n)
    ensures Leads(st, events + more, last, a + b, n)
    decreases |events|
  {
    if events == [] {
      assert events + more == more;
    } else {
      var e, rest := events[0], events[1..];
      assert (events + more)[1..] == rest + more && (events + more)[0] == e;
      assert events == [e] + rest && events + more == [e] + (rest + more);
      OutcomesSplit(e, rest, 0, 0, 1);
      OutcomesSplit(e, rest + more, 0, 0, 1);
      LeadsOn(Step(st, e), rest, middle, more, last, Count(OutcomesOf(rest, 0)), b, n);
    }
  }

  lemma Standing(st: State, n: nat)
    requires IsRecorded(st, 0) && st.sessions[0].running <= n
    ensures Leads(st, [], st, 0, n)
  {
  }

  lemma OneEvent(st: State, e: Event, n: nat)
    requires Enabled(st, e) && IsRecorded(st, 0) && IsRecorded(Step(st, e), 0)
    requires st.sessions[0].running <= n && Step(st, e).sessions[0].running <= n
    ensures Leads(st, [e], Step(st, e), Count(OutcomesOf([e], 0)), n)
  {
  }

  /** The runtime after that many captures, none of which could be encoded. */
  function After(target: u32, count: nat): Runtime {
    Runtime(target, Saturated(count), Saturated(count + 1), count >= target, [])
  }

  lemma {:induction false} Repeated(block: seq<Event>, path: nat -> State, m: nat, captures: nat, n: nat)
    requires Leads(path(0), [], path(0), 0, n)
    requires forall i: nat :: i < m ==> Leads(path(i), block, path(i + 1), captures, n)
    ensures Leads(path(0), Times(block, m), path(m), m * captures, n)
    decreases m
  {
    hide Leads;
    if m > 0 {
      Repeated(block, path, m - 1, captures, n);
      LeadsOn(path(0), Times(block, m - 1), path(m - 1), block, path(m), (m - 1) * captures, captures, n);
    }
  }

  function Less(a: nat, b: nat): nat {
    if a < b then 0 else a - b
  }

  /** All calls begin. */
  lemma AllBegin(target: u32, calls: nat, n: nat)
    requires target >= 1
    ensures Leads(Only(Recorded(After(target, 0), 0, 0, 0)), Times([Begin], calls),
                  Only(Recorded(After(target, 0), calls, 0, 0)), 0, n)
  {
    var path := (i: nat) => Only(Recorded(After(target, 0), i, 0, 0));
    forall i: nat | i < calls
      ensures Leads(path(i), [Begin], path(i + 1), 0, n)
    {
      OneEvent(path(i), Begin, n);
    }
    Repeated([Begin], path, calls, 0, n);
  }

  const CHECK_AND_CAPTURE := [Check(0), Capture(0, Unencodable)]

  lemma CheckAndCapture(target: u32, count: nat, held: nat, n: nat)
    requires count < target && held >= 1 && n >= 1
    ensures Leads(Only(Recorded(After(target, count), held, 0, 0)), CHECK_AND_CAPTURE,
                  Only(Recorded(After(target, count + 1), held - 1, 0, 0)), 1, n)
  {
  }

  /** All but the last capture before the target, one call at a time. */
  lemma OneByOne(target: u32, n: nat)
    requires target >= 1 && n >= 1
    ensures Leads(Only(Recorded(After(target, 0), target - 1 + n, 0, 0)), Times(CHECK_AND_CAPTURE, target - 1),
                  Only(Recorded(After(target, target - 1), n, 0, 0)), target - 1, n)
  {
    hide Leads, Times;
    var path := (i: nat) => Only(Recorded(After(target, i), Less(target - 1 + n, i), 0, 0));
    Standing(path(0), n);
    forall i: nat | i < target - 1
      ensures Leads(path(i), CHECK_AND_CAPTURE, path(i + 1), 1, n)
    {
      CheckAndCapture(target, i, target - 1 + n - i, n);
    }
    Repeated(CHECK_AND_CAPTURE, path, target - 1, 1, n);
  }

  lemma AllCheck(target: u32, n: nat)
    requires target >= 1
    ensures Leads(Only(Recorded(After(target, target - 1), n, 0, 0)), Times([Check(0)], n),
                  Only(Recorded(After(target, target - 1), 0, n, 0)), 0, n)
  {
    var path := (i: nat) => Only(Recorded(After(target, target - 1), Less(n, i), i, 0));
    forall i: nat | i < n
      ensures Leads(path(i), [Check(0)], path(i + 1), 0, n)
    {
      OneEvent(path(i), Check(0), n);
    }
    Repeated([Check(0)], path, n, 0, n);
  }

  lemma CaptureOne(target: u32, count: nat, running: nat, n: nat)
    requires target >= 1 && 1 <= running <= n
    ensures Leads(Only(Recorded(After(target, count), 0, running, 0)), [Capture(0, Unencodable)],
                  Only(Recorded(After(target, count + 1), 0, running - 1, 0)), 1, n)
  {
  }

  /** `m` of the `n` calls capture. */
  lemma ManyCapture(target: u32, n: nat, m: nat)
    requires target >= 1 && m <= n
    ensures Leads(Only(Recorded(After(target, target - 1), 0, n, 0)), Times([Capture(0, Unencodable)], m),
                  Only(Recorded(After(target, target - 1 + m), 0, n - m, 0)), m, n)
  {
    hide Leads, Times;
    var path := (i: nat) => Only(Recorded(After(target, target - 1 + i), 0, Less(n, i), 0));
    Standing(path(0), n);
    forall i: nat | i < m
      ensures Leads(path(i), [Capture(0, Unencodable)], path(i + 1), 1, n)
    {
      CaptureOne(target, target - 1 + i, n - i, n);
    }
    Repeated([Capture(0, Unencodable)], path, m, 1, n);
  }

  /** From the start of a session to `n` calls past its check, one capture short of its target. */
  lemma NearTarget(target: u32, n: nat) returns (events: seq<Event>)
    requires target >= 1 && n >= 1
    ensures Leads(Only(Recorded(After(target, 0), 0, 0, 0)), events,
                  Only(Recorded(After(target, target - 1), 0, n, 0)), target - 1, n)
  {
    hide Times, IsRun, Run, AtMostRunning, OutcomesOf, Count;
    var start := Only(Recorded(After(target, 0), 0, 0, 0));
    var begun := Only(Recorded(After(target, 0), target - 1 + n, 0, 0));
    var near := Only(Recorded(After(target, target - 1), n, 0, 0));
    var running := Only(Recorded(After(target, target - 1), 0, n, 0));
    AllBegin(target, target - 1 + n, n);
    OneByOne(target, n);
    AllCheck(target, n);
    events := Times([Begin], target - 1 + n) + Times(CHECK_AND_CAPTURE, target - 1);
    LeadsOn(start, Times([Begin], target - 1 + n), begun, Times(CHECK_AND_CAPTURE, target - 1), near, 0, target - 1, n);
    LeadsOn(start, events, near, Times([Check(0)], n), running, target - 1, 0, n);
    events := events + Times([Check(0)], n);
  }

  const EMPTY_STORE := State([], None, false)

  /** The bound of `Overshoot` is reached for every target and every number of calls in flight. */
  lemma OvershootAttained(target: u32, n: nat) returns (events: seq<Event>)
    requires target >= 1 && n >= 1
    ensures IsRunOfNew(EMPTY_STORE, target, events)
    ensures AtMostRunning(Step(EMPTY_STORE, StartRecording(target)), events, 0, n)
    ensures Count(OutcomesOf(events, 0)) == target + n - 1
  {
    hide Times, IsRun, Run, AtMostRunning, OutcomesOf, Count;
    var start := Only(Recorded(After(target, 0), 0, 0, 0));
    var running := Only(Recorded(After(target, target - 1), 0, n, 0));
    var last := Only(Recorded(After(target, target - 1 + n), 0, 0, 0));
    events := NearTarget(target, n);
    ManyCapture(target, n, n);
    LeadsOn(start, events, running, Times([Capture(0, Unencodable)], n), last, target - 1, n, n);
    events := events + Times([Capture(0, Unencodable)], n);
    assert Step(EMPTY_STORE, StartRecording(target)) == start;
  }

  // ---------------------------------------------------------------- sequence numbers run out

  lemma {:induction false} IncreasingSuffix(a: seq<Artifact>, b: seq<Artifact>)
    requires Increasing(a + b)
    ensures Increasing(b)
  {
    if a == [] {
      assert a + b == b;
    } else {
      assert (a + b)[1..] == a[1..] + b;
      IncreasingSuffix(a[1..], b);
    }
  }

  /** Two captures at the end of the numbers: both artifacts get the last one. */
  lemma LastTwo(target: u32, count: nat, recording: bytes, n: nat)
    requires target >= 1 && count >= U32_MAX - 1 && n >= 2
    ensures var last := Artifact(recording, U32_MAX, true);
            Leads(Only(Recorded(After(target, count), 0, 2, 0)),
                  [Capture(0, Encoded(recording))] + [Capture(0, Encoded(recording))],
                  Only(Recorded(After(target, count + 2).(outbox := [last, last]), 0, 0, 0)), 2, n)
  {
    var e, artifact := Capture(0, Encoded(recording)), Artifact(recording, U32_MAX, true);
    var first := Only(Recorded(After(target, count), 0, 2, 0));
    var second := Step(first, e);
    OneEvent(first, e, n);
    OneEvent(second, e, n);
    assert OutcomesOf([e], 0) == [Encoded(recording)];
    assert Count([Encoded(recording)]) == 1;
    LeadsOn(first, [e], second, [e], Step(second, e), 1, 1, n);
    assert second.sessions[0].runtime.outbox == [artifact];
    assert Step(second, e).sessions[0].runtime.outbox == [artifact, artifact];
    assert Step(second, e).sessions == [Recorded(After(target, count + 2).(outbox := [artifact, artifact]), 0, 0, 0)];
  }

  /**
   The order is guaranteed exactly while the target and the calls in flight leave
   room: up to there every run keeps it, and beyond there is a session that breaks it.
   */
  lemma OrderKept(st: State, target: u32, events: seq<Event>, n: nat)
    requires IsRunOfNew(st, target, events) && target + n - 1 <= U32_MAX
    requires AtMostRunning(Step(st, StartRecording(target)), events, |st.sessions|, n)
    ensures var s, start := |st.sessions|, Step(st, StartRecording(target));
            && IsRecorded(Run(start, events), s)
            && Increasing(DrainedFrom(start, events, s) + Run(start, events).sessions[s].runtime.outbox)
  {
    Overshoot(st, target, events, n);
    OutboxOfEveryRun(st, target, events);
  }

  /** The other half; for the largest target, two calls in flight are enough. */
  lemma SaturationRepeats(target: u32, n: nat, recording: bytes) returns (events: seq<Event>)
    requires target >= 1 && target + n - 1 > U32_MAX
    ensures IsRunOfNew(EMPTY_STORE, target, events)
    ensures var start := Step(EMPTY_STORE, StartRecording(target));
            && AtMostRunning(start, events, 0, n)
            && IsRecorded(Run(start, events), 0)
            && !Increasing(DrainedFrom(start, events, 0) + Run(start, events).sessions[0].runtime.outbox)
  {
    hide Times, IsRun, Run, AtMostRunning, OutcomesOf, Count, DrainedFrom, Increasing;
    var count := target + n - 3;
    var start := Only(Recorded(After(target, 0), 0, 0, 0));
    var running := Only(Recorded(After(target, target - 1), 0, n, 0));
    var two := Only(Recorded(After(target, count), 0, 2, 0));
    var artifact := Artifact(recording, U32_MAX, true);
    var last := Only(Recorded(After(target, count + 2).(outbox := [artifact, artifact]), 0, 0, 0));
    var some, captures :=
      Times([Capture(0, Unencodable)], n - 2), [Capture(0, Encoded(recording))] + [Capture(0, Encoded(recording))];
    events := NearTarget(target, n);
    ManyCapture(target, n, n - 2);
    LeadsOn(start, events, running, some, two, target - 1, n - 2, n);
    LastTwo(target, count, recording, n);
    LeadsOn(start, events + some, two, captures, last, count, 2, n);
    events := events + some + captures;
    assert Step(EMPTY_STORE, StartRecording(target)) == start;
    TwiceIsNotIncreasing(DrainedFrom(start, events, 0), artifact);
  }

  lemma TwiceIsNotIncreasing(before: seq<Artifact>, last: Artifact)
    ensures !Increasing(before + [last, last])
  {
    if Increasing(before + [last, last]) {
      IncreasingSuffix(before, [last, last]);
    }
  }

  // ---------------------------------------------------------------- stopped sessions

  lemma StoppedStep(st: State, e: Event, s: nat)
    requires Enabled(st, e) && IsRecorded(st, s) && st.slot != Some(s)
    ensures IsRecorded(Step(st, e), s) && Step(st, e).slot != Some(s)
    ensures Step(st, e).sessions[s].draining <= st.sessions[s].draining
    ensures var before, after := st.sessions[s], Step(st, e).sessions[s];
            Count(OutcomesOf([e], s)) + after.held + after.running <= before.held + before.running
    ensures e == Drain(s) ==> st.sessions[s].draining > 0
  {
  }

  /**
   A session out of the slot never comes back into it. It captures at most once for
   each call that already held it, and unless a drain already holds it, nothing that
   is in its outbox is ever drained.
   */
  lemma {:induction false} StoppedSession(st: State, events: seq<Event>, s: nat)
    requires IsRun(st, events) && IsRecorded(st, s) && st.slot != Some(s)
    ensures IsRecorded(Run(st, events), s) && Run(st, events).slot != Some(s)
    ensures var before, after := st.sessions[s], Run(st, events).sessions[s];
            Count(OutcomesOf(events, s)) + after.held + after.running <= before.held + before.running
    ensures st.sessions[s].draining == 0 ==> DrainedFrom(st, events, s) == []
    decreases |events|
  {
    if events != [] {
      hide Step, Enabled, Artifacts, Count;
      var e, rest := events[0], events[1..];
      assert events == [e] + rest;
      StoppedStep(st, e, s);
      OutcomesSplit(e, rest, s, 0, 1);
      StoppedSession(Step(st, e), rest, s);
    }
  }

  // ---------------------------------------------------------------- the slot

  /** The event takes session `s` out of the slot if it is there. */
  predicate TakesOut(e: Event, s: nat) {
    e == Stop || e == Detach(s, true)
  }

  /** A start takes a free slot with a new session, and does nothing to a taken one. */
  lemma StartTakesFreeSlot(st: State, target: u32)
    ensures var after := Step(st, StartInteractive);
            if st.slot.Some? then after == st
            else after.slot == Some(|st.sessions|) && after.active && after.sessions == st.sessions + [Interactive(0)]
    ensures var after := Step(st, StartRecording(target));
            if st.slot.Some? || target == 0 then after == st
            else && after.slot == Some(|st.sessions|) && after.active
                 && after.sessions == st.sessions + [Recorded(NewRuntime(target), 0, 0, 0)]
  {
  }

  /** A session stays in the slot until it is stopped or detached: no other start or detach can displace it. */
  lemma {:induction false} SlotIsKept(st: State, events: seq<Event>, s: nat)
    requires IsRun(st, events) && st.slot == Some(s) && s < |st.sessions|
    requires forall i :: 0 <= i < |events| ==> !TakesOut(events[i], s)
    ensures Run(st, events).slot == Some(s)
    decreases |events|
  {
    if events != [] {
      SlotIsKept(Step(st, events[0]), events[1..], s);
    }
  }

  /** Once stopped or detached, a session never comes back, and the slot is free for another. */
  lemma TakenOut(st: State, e: Event, events: seq<Event>, s: nat)
    requires WellFormed(st) && st.slot == Some(s) && TakesOut(e, s) && Enabled(st, e) && IsRun(Step(st, e), events)
    ensures Step(st, e).slot == None && !Step(st, e).active
    ensures Run(Step(st, e), events).slot != Some(s)
  {
    NeverBack(Step(st, e), events, s);
  }

  lemma {:induction false} NeverBack(st: State, events: seq<Event>, s: nat)
    requires IsRun(st, events) && s < |st.sessions| && st.slot != Some(s)
    ensures Run(st, events).slot != Some(s)
    decreases |events|
  {
    if events != [] {
      NeverBack(Step(st, events[0]), events[1..], s);
    }
  }

  /** A run of the interactive session in the slot that ends detached takes it out. */
  lemma DetachTakesOut(st: State, s: nat)
    requires st.slot == Some(s) && s < |st.sessions| && st.sessions[s].Interactive?
    ensures IsRun(st, [Begin, Detach(s, true)])
    ensures Run(st, [Begin, Detach(s, true)]) == st.(slot := None, active := false)
  {
    var begun := Step(st, Begin);
    assert [Begin, Detach(s, true)][1..] == [Detach(s, true)] && [Detach(s, true)][1..] == [];
    assert IsRun(begun, [Detach(s, true)]);
    assert Run(begun, [Detach(s, true)]) == Step(begun, Detach(s, true));
    assert Step(begun, Detach(s, true)).sessions == st.sessions;
  }

  /** A drain of the session in the slot returns everything in its outbox, in order. */
  lemma DrainReturnsAll(st: State, s: nat)
    requires st.slot == Some(s) && IsRecorded(st, s)
    ensures IsRun(st, [BeginDrain, Drain(s)])
    ensures DrainedFrom(st, [BeginDrain, Drain(s)], s) == st.sessions[s].runtime.outbox
    ensures IsRecorded(Run(st, [BeginDrain, Drain(s)]), s)
    ensures Run(st, [BeginDrain, Drain(s)]).sessions[s].runtime == st.sessions[s].runtime.(outbox := [])
  {
    var begun := Step(st, BeginDrain);
    assert [BeginDrain, Drain(s)][1..] == [Drain(s)] && [Drain(s)][1..] == [];
    assert IsRun(begun, [Drain(s)]);
    assert Run(begun, [Drain(s)]) == Step(begun, Drain(s));
    assert DrainedFrom(begun, [Drain(s)], s) == st.sessions[s].runtime.outbox;
  }

  // ---------------------------------------------------------------- the store in place

  datatype Mode = InteractiveMode | RecordingMode

  /** A start request, its text fields trimmed and absent when blank. */
  datatype StartRequest = StartRequest(
    mode: Mode,
    headerName: Option<string>,
    headerValue: Option<string>,
    requestPath: Option<string>,
    recordCount: u32,
    tcpAddr: Option<string>)

  datatype StartError =
    InvalidHeaderName | AlreadyActive | EmptyHeaderValue | InvalidTcpAddress | InvalidRecordCount | InvalidRequestPath

  class DebugSession {
    const request: StartRequest
    var captured: u32
    var nextSequence: u32
    var completed: bool
    var outbox: seq<Artifact>

    ghost function Value(): Runtime
      reads this
    {
      Runtime(request.recordCount, captured, nextSequence, completed, outbox)
    }

    constructor (request: StartRequest)
      ensures this.request == request && Value() == NewRuntime(request.recordCount)
    {
      this.request, captured, nextSequence, completed, outbox := request, 0, 1, false, [];
    }

    method CaptureRecording(outcome: Outcome)
      modifies this
      ensures Value() == Captured(old(Value()), outcome)
    {
      if outcome.NoRecording? {
        return;
      }
      captured := Saturated(captured + 1);
      var sequence := nextSequence;
      nextSequence := Saturated(nextSequence + 1);
      if captured >= request.recordCount {
        completed := true;
      }
      if outcome.Encoded? {
        outbox := outbox + [Artifact(outcome.recording, sequence, completed)];
      }
    }

    method DrainOutbox() returns (artifacts: seq<Artifact>)
      modifies this`outbox
      ensures artifacts == old(outbox) && outbox == []
    {
      artifacts := [];
      while outbox != []
        invariant artifacts + outbox == old(outbox)
        decreases |outbox|
      {
        artifacts, outbox := artifacts + [outbox[0]], outbox[1..];
      }
    }
  }

  class DebugSessionStore {
    var session: DebugSession?
    var active: bool

    ghost predicate Valid()
      reads this
    {
      active <==> session != null
    }

    constructor ()
      ensures Valid() && session == null
    {
      session, active := null, false;
    }

    /** A header name is checked before the slot is looked at; the rest of the request only if the slot is free. */
    method Start(request: StartRequest, validHeader: string -> bool, binds: string -> bool)
        returns (r: Result<DebugSession, StartError>)
      requires Valid()
      modifies this
      ensures Valid()
      ensures r.Failure? ==> session == old(session)
      ensures r.Success? ==>
                && old(session) == null && session == r.value && fresh(r.value)
                && r.value.request == request && r.value.Value() == NewRuntime(request.recordCount)
      ensures r.Success? <==>
                && (request.headerName.Some? ==> validHeader(request.headerName.value))
                && old(session) == null
                && (request.mode.InteractiveMode? ==>
                      && request.headerValue.Some? && request.headerName.Some?
                      && (request.tcpAddr.Some? ==> binds(request.tcpAddr.value)))
                && (request.mode.RecordingMode? ==> request.recordCount > 0 && request.requestPath.Some?)
      ensures r.Failure? ==>
                match r.error
                case InvalidHeaderName =>
                  || (request.headerName.Some? && !validHeader(request.headerName.value))
                  || (old(session) == null && request.mode.InteractiveMode? && request.headerName.None?
                      && request.headerValue.Some?)
                case AlreadyActive => old(session) != null
                case EmptyHeaderValue =>
                  old(session) == null && request.mode.InteractiveMode? && request.headerValue.None?
                case InvalidTcpAddress =>
                  && old(session) == null && request.mode.InteractiveMode?
                  && request.tcpAddr.Some? && !binds(request.tcpAddr.value)
                case InvalidRecordCount =>
                  old(session) == null && request.mode.RecordingMode? && request.recordCount == 0
                case InvalidRequestPath =>
                  && old(session) == null && request.mode.RecordingMode?
                  && request.recordCount > 0 && request.requestPath.None?
    {
      if request.headerName.Some? && !validHeader(request.headerName.value) {
        return Failure(InvalidHeaderName);
      }
      if session != null {
        return Failure(AlreadyActive);
      }
      match request.mode {
        case InteractiveMode =>
          if request.headerValue.None? {
            return Failure(EmptyHeaderValue);
          } else if request.headerName.None? {
            return Failure(InvalidHeaderName);
          } else if request.tcpAddr.Some? && !binds(request.tcpAddr.value) {
            return Failure(InvalidTcpAddress);
          }
        case RecordingMode =>
          if request.recordCount == 0 {
            return Failure(InvalidRecordCount);
          } else if request.requestPath.None? {
            return Failure(InvalidRequestPath);
          }
      }
      var started := new DebugSession(request);
      session, active := started, true;
      return Success(started);
    }

    method StopSession() returns (stopped: bool)
      requires Valid()
      modifies this
      ensures Valid() && session == null && stopped == (old(session) != null)
    {
      stopped := session != null;
      if stopped {
        session, active := null, false;
      }
    }

    /** A run that was detached stops its own session, never one started since. */
    method StopIfMatch(mine: DebugSession)
      requires Valid()
      modifies this
      ensures Valid() && session == if old(session) == mine then null else old(session)
    {
      if session == mine {
        session, active := null, false;
      }
    }

    method DrainArtifacts() returns (artifacts: seq<Artifact>)
      modifies if session == null then {} else {session}
      ensures session == null || session.request.mode.InteractiveMode? ==>
                artifacts == [] && (session != null ==> session.Value() == old(session.Value()))
      ensures session != null && session.request.mode.RecordingMode? ==>
                artifacts == old(session.outbox) && session.Value() == old(session.Value()).(outbox := [])
    {
      if session == null || session.request.mode.InteractiveMode? {
        return [];
      }
      artifacts := session.DrainOutbox();
    }
  }
}

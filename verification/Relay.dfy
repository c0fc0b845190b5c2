/**
 The byte relay: two proxy streams and the two pump loops that `proxy::forward`
 runs concurrently, one per direction; `proxy::pipe` is the run in which only one
 pump steps. One step is one critical section, one `Notify` operation or one
 completed read or write of an endpoint, and a run is any interleaving.

 What an endpoint does is chosen by the environment: the bytes a read yields,
 whether a write succeeds, when the response of an HTTP exchange becomes
 available. That bit never goes back to false, reading an exchange sets it, and
 an exchange refuses request bytes once it is set.
 */
module Relay {
  import opened Bytes
  import opened StreamHandles

  datatype Side = Left | Right

  function Other(side: Side): Side {
    if side == Left then Right else Left
  }

  /**
   One stream: its write state, the calls of `notify_waiters` so far, whether an
   exchange's response is available, every byte read from it, whether a read has
   found its end, and every byte it has accepted.
   */
  datatype Stream = Stream(
    state: StreamState, calls: nat, available: bool, produced: bytes, ended: bool, accepted: bytes)

  datatype Phase =
    | Loop                                          // about to look at the source handle
    | Decide(observed: bool, closed: bool)          // has its write state, about to look at the response
    | Fetch                                         // awaiting the source
    | Hold(chunk: bytes)                            // about to prepare the write
    | Send(chunk: bytes)                            // awaiting the destination
    | Close                                         // source at its end, about to close the destination
    | Notify                                        // closed it, still has to notify
    | Shutdown                                      // awaiting the endpoint's shutdown
    | WaitLoop                                      // waiting for the source's write side to close
    | WaitNotify
    | WaitCheck(seen: nat)
    | WaitPark(seen: nat)
    | Finished
    | Failed

  predicate Waiting(p: Phase) {
    p.WaitLoop? || p.WaitNotify? || p.WaitCheck? || p.WaitPark?
  }

  /** The pump of a side reads that side and writes the other one. */
  datatype State = State(left: Stream, right: Stream, fromLeft: Phase, fromRight: Phase)

  function StreamOf(s: State, side: Side): Stream {
    if side == Left then s.left else s.right
  }

  function PumpOf(s: State, side: Side): Phase {
    if side == Left then s.fromLeft else s.fromRight
  }

  datatype ReadResult = Data(chunk: bytes) | Eof | Blocked | ReadError
  datatype WriteResult = Written | WriteError(accepted: nat)

  /** What lets a pump move on: nothing, or the completion of the endpoint call it awaits. */
  datatype Event = Go | ReadDone(read: ReadResult) | WriteDone(write: WriteResult) | ShutdownDone(ok: bool)

  /** `Cancel` drops a pump because the other one failed; a write it was awaiting may have passed on some bytes. */
  datatype Action = Pump(side: Side, event: Event) | ResponseArrives(side: Side) | Cancel(side: Side, accepted: nat)

  /** Downstream tunnels have no buffered reads or writes. */
  predicate Tunnel(endpoint: Endpoint) {
    endpoint.DownstreamConnect? || endpoint.DownstreamWebSocketBinary?
  }

  predicate ReadAllowed(from: Stream, read: ReadResult) {
    Tunnel(from.state.endpoint) ==> read == ReadError
  }

  /** Tunnels and exchanges that have started accept nothing; a failed HTTP write accepts nothing. */
  predicate WriteAllowed(to: Stream, chunk: bytes, write: WriteResult) {
    match write
    case Written => !Tunnel(to.state.endpoint) && !(to.state.endpoint.HttpExchange? && to.available)
    case WriteError(n) =>
      && n <= |chunk|
      && (Tunnel(to.state.endpoint) || to.state.endpoint.HttpExchange? || to.state.endpoint.HttpDownstream? ==> n == 0)
  }

  /** The pump `p` from `from` to `to` can move on with this event. */
  predicate CanMove(from: Stream, to: Stream, p: Phase, event: Event) {
    match event
    case Go =>
      && !p.Fetch? && !p.Send? && !p.Shutdown? && !p.Finished? && !p.Failed?
      && (p.WaitPark? ==> from.calls > p.seen)
    case ReadDone(read) => p.Fetch? && ReadAllowed(from, read)
    case WriteDone(write) => p.Send? && WriteAllowed(to, p.chunk, write)
    case ShutdownDone(_) => p.Shutdown?
  }

  /** The two streams and the pump after one step of the pump. */
  datatype Moved = Moved(from: Stream, to: Stream, pump: Phase)

  function Move(from: Stream, to: Stream, p: Phase, event: Event): Moved
    requires CanMove(from, to, p, event)
  {
    match event
    case Go => Advance(from, to, p)
    case ReadDone(read) =>
      (match read
       case Data(chunk) => Moved(from.(available := true, produced := from.produced + chunk), to, Hold(chunk))
       case Eof => Moved(from.(available := true, ended := true), to, Close)
       case Blocked => Moved(from.(available := true), to, Loop)
       case ReadError => Moved(from, to, Failed))
    case WriteDone(write) =>
      (match write
       case Written => Moved(from, to.(accepted := to.accepted + p.chunk), Loop)
       case WriteError(n) => Moved(from, to.(accepted := to.accepted + p.chunk[..n]), Failed))
    case ShutdownDone(ok) => Moved(from, to, if ok then Finished else Failed)
  }

  function Advance(from: Stream, to: Stream, p: Phase): Moved
    requires CanMove(from, to, p, Go)
  {
    match p
    case Loop => Moved(from, to, Decide(from.state.writeObserved, from.state.writeClosed))
    case Decide(observed, closed) =>
      Moved(from, to, if from.state.endpoint.HttpExchange? && !from.available && observed && !closed
                      then WaitLoop else Fetch)
    case Hold(chunk) =>
      if chunk == [] then Moved(from, to, Loop)
      else if to.state.writeClosed then Moved(from, to, Failed)
      else Moved(from, to.(state := WritePrepared(to.state)), Send(chunk))
    case Close =>
      Moved(from, to.(state := WriteClosedState(to.state)), if CloseOwesNotify(to.state) then Notify else Shutdown)
    case Notify => Moved(from, to.(calls := to.calls + 1), Shutdown)
    case WaitLoop => Moved(from.(state := NotifyRequested(from.state)), to, WaitNotify)
    case WaitNotify => Moved(from, to, WaitCheck(from.calls))
    case WaitCheck(seen) => Moved(from, to, if from.state.writeClosed then Loop else WaitPark(seen))
    case WaitPark(_) => Moved(from, to, WaitLoop)
  }

  /** A pump dropped in `p` leaves this many bytes of its chunk with the destination. */
  predicate CanCancel(to: Stream, p: Phase, accepted: nat) {
    && !p.Failed? && !p.Finished?
    && if p.Send? then WriteAllowed(to, p.chunk, WriteError(accepted)) else accepted == 0
  }

  function Cancelled(to: Stream, p: Phase, accepted: nat): Stream
    requires CanCancel(to, p, accepted)
  {
    if p.Send? then to.(accepted := to.accepted + p.chunk[..accepted]) else to
  }

  predicate Enabled(s: State, a: Action) {
    match a
    // The join of the two pumps drops both as soon as one fails.
    case Pump(side, event) =>
      && s.fromLeft != Failed && s.fromRight != Failed
      && CanMove(StreamOf(s, side), StreamOf(s, Other(side)), PumpOf(s, side), event)
    case Cancel(side, accepted) =>
      PumpOf(s, Other(side)) == Failed && CanCancel(StreamOf(s, Other(side)), PumpOf(s, side), accepted)
    case ResponseArrives(_) => true
  }

  function Step(s: State, a: Action): State
    requires Enabled(s, a)
  {
    match a
    case Pump(side, event) =>
      var m := Move(StreamOf(s, side), StreamOf(s, Other(side)), PumpOf(s, side), event);
      if side == Left then s.(left := m.from, right := m.to, fromLeft := m.pump)
      else s.(right := m.from, left := m.to, fromRight := m.pump)
    case ResponseArrives(side) =>
      if side == Left then s.(left := s.left.(available := true)) else s.(right := s.right.(available := true))
    case Cancel(side, accepted) =>
      var destination := Cancelled(StreamOf(s, Other(side)), PumpOf(s, side), accepted);
      if side == Left then s.(right := destination, fromLeft := Failed)
      else s.(left := destination, fromRight := Failed)
  }

  ghost predicate Runnable(s: State, actions: seq<Action>)
    decreases |actions|
  {
    actions == [] || (Enabled(s, actions[0]) && Runnable(Step(s, actions[0]), actions[1..]))
  }

  function Run(s: State, actions: seq<Action>): State
    requires Runnable(s, actions)
    decreases |actions|
  {
    if actions == [] then s else Run(Step(s, actions[0]), actions[1..])
  }

  /** Both pumps at the top of their loop; nothing has been relayed yet. The write states are arbitrary. */
  predicate Initial(s: State) {
    && s.fromLeft == Loop && s.fromRight == Loop
    && s.left.produced == [] && s.left.accepted == [] && !s.left.ended
    && s.right.produced == [] && s.right.accepted == [] && !s.right.ended
  }

  // ---------------------------------------------------------------- byte conservation

  /** The bytes a pump has read and not yet handed over. */
  function InHand(p: Phase): bytes {
    if p.Hold? || p.Send? then p.chunk else []
  }

  /** The pump has seen the end of its source. */
  predicate AtEnd(p: Phase) {
    p.Close? || p.Notify? || p.Shutdown? || p.Finished?
  }

  /** The books of one direction; `open` says the destination was not closed at the start. */
  ghost predicate Conserves(from: Stream, to: Stream, p: Phase, open: bool) {
    && (p == Failed ==> to.accepted <= from.produced)
    && (p != Failed ==> to.accepted + InHand(p) == from.produced)
    && (AtEnd(p) ==> from.ended)
    && (from.ended ==> AtEnd(p) || p == Failed)
    && (to.accepted != [] || p.Send? ==> to.state.writeObserved)
    && (to.state.writeClosed && open ==> from.ended)
    && (AtEnd(p) && p != Close ==> to.state.writeClosed)
  }

  lemma MoveConserves(from: Stream, to: Stream, p: Phase, event: Event, open: bool)
    requires Conserves(from, to, p, open) && CanMove(from, to, p, event)
    ensures var m := Move(from, to, p, event); Conserves(m.from, m.to, m.pump, open)
  {
    if event.WriteDone? && event.write.WriteError? {
      var n := event.write.accepted;
      assert from.produced == to.accepted + (p.chunk[..n] + p.chunk[n..]);
    }
  }

  lemma CancelConserves(from: Stream, to: Stream, p: Phase, accepted: nat, open: bool)
    requires Conserves(from, to, p, open) && CanCancel(to, p, accepted)
    ensures Conserves(from, Cancelled(to, p, accepted), Failed, open)
  {
    if p.Send? {
      assert from.produced == to.accepted + (p.chunk[..accepted] + p.chunk[accepted..]);
    }
  }

  /** A pump leaves alone what the books of the other direction are about. */
  lemma MoveLeavesOther(from: Stream, to: Stream, p: Phase, event: Event)
    requires CanMove(from, to, p, event)
    ensures var m := Move(from, to, p, event);
            && m.from.accepted == from.accepted && m.to.produced == to.produced && m.to.ended == to.ended
            && m.from.state.writeClosed == from.state.writeClosed
            && m.from.state.writeObserved == from.state.writeObserved
  {
  }

  ghost predicate SideConserves(s0: State, s: State, side: Side) {
    var open := !StreamOf(s0, Other(side)).state.writeClosed;
    Conserves(StreamOf(s, side), StreamOf(s, Other(side)), PumpOf(s, side), open)
  }

  lemma StepConserves(s0: State, s: State, a: Action, side: Side)
    requires SideConserves(s0, s, side) && Enabled(s, a)
    ensures SideConserves(s0, Step(s, a), side)
  {
    if a.Pump? {
      var from, to, p := StreamOf(s, a.side), StreamOf(s, Other(a.side)), PumpOf(s, a.side);
      MoveLeavesOther(from, to, p, a.event);
      if a.side == side {
        MoveConserves(from, to, p, a.event, !StreamOf(s0, Other(side)).state.writeClosed);
      }
    } else if a.Cancel? && a.side == side {
      var to, p := StreamOf(s, Other(side)), PumpOf(s, side);
      CancelConserves(StreamOf(s, side), to, p, a.accepted, !StreamOf(s0, Other(side)).state.writeClosed);
    }
  }

  lemma {:induction false} RunConserves(s0: State, s: State, actions: seq<Action>, side: Side)
    requires SideConserves(s0, s, side) && Runnable(s, actions)
    ensures SideConserves(s0, Run(s, actions), side)
    decreases |actions|
  {
    if actions != [] {
      StepConserves(s0, s, actions[0], side);
      RunConserves(s0, Step(s, actions[0]), actions[1..], side);
    }
  }

  /**
   Byte conservation, in either direction and at every point of every run: what
   the destination accepted is a prefix of what the source produced, nothing
   repeated or skipped; the destination is closed only after the source's end
   was read, which the pump does next; and when the pump finishes it has closed it
   and the two are equal. A stream that has accepted bytes is marked as written.
   */
  lemma ByteConservation(s: State, actions: seq<Action>, side: Side)
    requires Initial(s) && Runnable(s, actions)
    ensures var now := Run(s, actions);
            && StreamOf(now, Other(side)).accepted <= StreamOf(now, side).produced
            && (PumpOf(now, side) == Finished ==>
                  && StreamOf(now, Other(side)).accepted == StreamOf(now, side).produced
                  && StreamOf(now, side).ended && StreamOf(now, Other(side)).state.writeClosed)
            && (StreamOf(now, Other(side)).state.writeClosed && !StreamOf(s, Other(side)).state.writeClosed ==>
                  StreamOf(now, side).ended)
            && (StreamOf(now, side).ended ==> AtEnd(PumpOf(now, side)) || PumpOf(now, side) == Failed)
            && (StreamOf(now, Other(side)).accepted != [] ==> StreamOf(now, Other(side)).state.writeObserved)
  {
    RunConserves(s, s, actions, side);
  }

  // ---------------------------------------------------------------- why a pump fails

  /** An endpoint call of this pump failed, or the pump was dropped. */
  predicate Ends(a: Action, side: Side) {
    && a.side == side
    && match a
       case Pump(_, ReadDone(read)) => read == ReadError
       case Pump(_, WriteDone(write)) => write.WriteError?
       case Pump(_, ShutdownDone(ok)) => !ok
       case Pump(_, Go) => false
       case Cancel(_, _) => true
       case ResponseArrives(_) => false
  }

  lemma StepFails(s0: State, s: State, a: Action, side: Side)
    requires SideConserves(s0, s, side) && Enabled(s, a) && !StreamOf(s0, Other(side)).state.writeClosed
    ensures PumpOf(Step(s, a), side) == Failed <==> PumpOf(s, side) == Failed || Ends(a, side)
  {
  }

  lemma {:induction false} RunFails(s0: State, s: State, actions: seq<Action>, side: Side)
    requires SideConserves(s0, s, side) && Runnable(s, actions) && !StreamOf(s0, Other(side)).state.writeClosed
    ensures PumpOf(Run(s, actions), side) == Failed <==>
              PumpOf(s, side) == Failed || exists i :: 0 <= i < |actions| && Ends(actions[i], side)
    decreases |actions|
  {
    if actions != [] {
      StepFails(s0, s, actions[0], side);
      StepConserves(s0, s, actions[0], side);
      RunFails(s0, Step(s, actions[0]), actions[1..], side);
      assert forall i :: 1 <= i < |actions| ==> actions[i] == actions[1..][i - 1];
    }
  }

  /**
   With a destination that was open at the start, a pump fails exactly if one of its
   own endpoint calls failed or it was dropped: never because of what the other
   direction has written or closed.
   */
  lemma FailureHasReason(s: State, actions: seq<Action>, side: Side)
    requires Initial(s) && Runnable(s, actions) && !StreamOf(s, Other(side)).state.writeClosed
    ensures PumpOf(Run(s, actions), side) == Failed <==> exists i :: 0 <= i < |actions| && Ends(actions[i], side)
  {
    RunFails(s, s, actions, side);
  }

  /** Once a destination is write-closed and no write is under way, it accepts nothing more. */
  lemma {:induction false} ClosedTakesNothing(s: State, actions: seq<Action>, side: Side)
    requires Runnable(s, actions) && StreamOf(s, Other(side)).state.writeClosed && !PumpOf(s, side).Send?
    ensures StreamOf(Run(s, actions), Other(side)).accepted == StreamOf(s, Other(side)).accepted
    decreases |actions|
  {
    if actions != [] {
      ClosedTakesNothing(Step(s, actions[0]), actions[1..], side);
    }
  }

  // ---------------------------------------------------------------- no self-blocking

  /** The pump of `side` would wait for its source's write side to close. */
  predicate MustWait(s: State, side: Side) {
    var from := StreamOf(s, side);
    from.state.endpoint.HttpExchange? && !from.available && from.state.writeObserved && !from.state.writeClosed
  }

  /** The pump is parked and nothing has woken it. */
  predicate Asleep(s: State, side: Side) {
    PumpOf(s, side).WaitPark? && StreamOf(s, side).calls <= PumpOf(s, side).seen
  }

  /**
   What is known of a pump `p` and its source `from`, relative to the source
   `from0` it started with, the other pump `q` and the bytes `q` has read.
   */
  ghost predicate PumpInv(from0: Stream, from: Stream, p: Phase, q: Phase, others: bytes) {
    && from.state.endpoint == from0.state.endpoint
    && (from0.available ==> from.available)
    && (from0.state.writeClosed ==> from.state.writeClosed)
    && (from.produced != [] ==> from.available)
    && (InHand(p) != [] ==> from.produced != [])
    // Only the other pump's data can have marked this stream as written.
    && (from.state.writeObserved && !from0.state.writeObserved ==> others != [])
    && (p.Decide? ==> (p.observed ==> from.state.writeObserved) && (from0.state.writeClosed ==> p.closed))
    && (Waiting(p) ==>
          && from.state.endpoint.HttpExchange? && from.state.writeObserved && from.produced == []
          && !from0.available && !from0.state.writeClosed)
    // The close handshake on this stream.
    && (Waiting(p) && !p.WaitLoop? ==> from.state.notify)
    && (p.WaitCheck? || p.WaitPark? ==> p.seen <= from.calls)
    && (p.WaitPark? && from.calls <= p.seen && from.state.writeClosed ==> q.Notify?)
    && (q.Finished? || q.Shutdown? || q.Notify? ==> from.state.writeClosed)
  }

  lemma OwnAdvance(from0: Stream, from: Stream, to: Stream, p: Phase, q: Phase)
    requires PumpInv(from0, from, p, q, to.produced) && CanMove(from, to, p, Go)
    ensures var m := Advance(from, to, p); PumpInv(from0, m.from, m.pump, q, m.to.produced)
  {
  }

  lemma OwnMove(from0: Stream, from: Stream, to: Stream, p: Phase, event: Event, q: Phase)
    requires PumpInv(from0, from, p, q, to.produced) && CanMove(from, to, p, event)
    ensures var m := Move(from, to, p, event); PumpInv(from0, m.from, m.pump, q, m.to.produced)
  {
    hide Advance;
    if event == Go {
      OwnAdvance(from0, from, to, p, q);
    }
  }

  lemma OtherMove(from0: Stream, from: Stream, to: Stream, p: Phase, q: Phase, event: Event)
    requires PumpInv(from0, from, p, q, to.produced) && CanMove(to, from, q, event)
    requires InHand(q) != [] ==> to.produced != []
    ensures var m := Move(to, from, q, event); PumpInv(from0, m.to, p, m.pump, m.from.produced)
  {
  }

  ghost predicate SideInv(s0: State, s: State, side: Side) {
    var p, q := PumpOf(s, side), PumpOf(s, Other(side));
    PumpInv(StreamOf(s0, side), StreamOf(s, side), p, q, StreamOf(s, Other(side)).produced)
  }

  ghost predicate Inv(s0: State, s: State) {
    SideInv(s0, s, Left) && SideInv(s0, s, Right)
  }

  /** A pump is only dropped when the other one has failed. */
  lemma EitherCancelled(from0: Stream, from: Stream, p: Phase, q: Phase, others: bytes, accepted: nat)
    requires PumpInv(from0, from, p, q, others)
    ensures q == Failed ==> PumpInv(from0, from, Failed, Failed, others)
    ensures p == Failed && CanCancel(from, q, accepted) ==>
              PumpInv(from0, Cancelled(from, q, accepted), Failed, Failed, others)
  {
  }

  lemma ResponseKeeps(from0: Stream, from: Stream, p: Phase, q: Phase, others: bytes)
    requires PumpInv(from0, from, p, q, others)
    ensures PumpInv(from0, from.(available := true), p, q, others)
  {
  }

  lemma HandIsProduced(from0: Stream, from: Stream, p: Phase, q: Phase, others: bytes)
    requires PumpInv(from0, from, p, q, others)
    ensures InHand(p) != [] ==> from.produced != []
  {
  }

  lemma StepKeepsSide(s0: State, s: State, a: Action, side: Side)
    requires Inv(s0, s) && Enabled(s, a)
    ensures SideInv(s0, Step(s, a), side)
  {
    hide PumpInv, Move, CanMove, CanCancel;
    var from0, from, to := StreamOf(s0, side), StreamOf(s, side), StreamOf(s, Other(side));
    var p, q := PumpOf(s, side), PumpOf(s, Other(side));
    assert SideInv(s0, s, side) && SideInv(s0, s, Other(side));
    match a
    case Pump(mover, event) =>
      if mover == side {
        OwnMove(from0, from, to, p, event, q);
      } else {
        HandIsProduced(StreamOf(s0, Other(side)), to, q, p, from.produced);
        OtherMove(from0, from, to, p, q, event);
      }
    case ResponseArrives(_) => ResponseKeeps(from0, from, p, q, to.produced);
    case Cancel(_, accepted) => EitherCancelled(from0, from, p, q, to.produced, accepted);
  }

  lemma {:induction false} RunKeepsInv(s0: State, s: State, actions: seq<Action>)
    requires Inv(s0, s) && Runnable(s, actions)
    ensures Inv(s0, Run(s, actions))
    decreases |actions|
  {
    if actions != [] {
      StepKeepsSide(s0, s, actions[0], Left);
      StepKeepsSide(s0, s, actions[0], Right);
      RunKeepsInv(s0, Step(s, actions[0]), actions[1..]);
    }
  }

  /**
   Both pumps can end up waiting for a write close if and only if both streams
   are exchanges without a response that were written, and not closed, before the
   relay started. In particular it is impossible from two unwritten handles.
   */
  lemma BothWaitOnlyIfWritten(s: State, actions: seq<Action>)
    requires Initial(s) && Runnable(s, actions)
    requires Waiting(Run(s, actions).fromLeft) && Waiting(Run(s, actions).fromRight)
    ensures MustWait(s, Left) && MustWait(s, Right)
  {
    RunKeepsInv(s, s, actions);
    var now := Run(s, actions);
    assert SideInv(s, now, Left) && SideInv(s, now, Right);
  }

  /** The pump of `side` goes to sleep: five steps from the top of its loop. */
  function ParkActions(side: Side): seq<Action> {
    [Pump(side, Go), Pump(side, Go), Pump(side, Go), Pump(side, Go), Pump(side, Go)]
  }

  lemma ParkRuns(s: State, side: Side)
    requires MustWait(s, side) && PumpOf(s, side) == Loop && PumpOf(s, Other(side)) != Failed
    ensures Runnable(s, ParkActions(side))
    ensures var now := Run(s, ParkActions(side));
            && Asleep(now, side)
            && PumpOf(now, Other(side)) == PumpOf(s, Other(side))
            && StreamOf(now, Other(side)) == StreamOf(s, Other(side))
  {
    var a := Pump(side, Go);
    var s1 := Step(s, a);
    var s2 := Step(s1, a);
    var s3 := Step(s2, a);
    var s4 := Step(s3, a);
    var s5 := Step(s4, a);
    assert ParkActions(side)[1..] == [a, a, a, a];
    assert [a, a, a, a][1..] == [a, a, a] && [a, a, a][1..] == [a, a] && [a, a][1..] == [a] && [a][1..] == [];
    assert Runnable(s5, []) && Run(s5, []) == s5;
    assert Runnable(s4, [a]) && Run(s4, [a]) == s5;
    assert Runnable(s3, [a, a]) && Run(s3, [a, a]) == s5;
    assert Runnable(s2, [a, a, a]) && Run(s2, [a, a, a]) == s5;
  }

  lemma {:induction false} RunAppend(s: State, a: seq<Action>, b: seq<Action>)
    requires Runnable(s, a) && Runnable(Run(s, a), b)
    ensures Runnable(s, a + b) && Run(s, a + b) == Run(Run(s, a), b)
    decreases |a|
  {
    if a == [] {
      assert a + b == b;
    } else {
      RunAppend(Step(s, a[0]), a[1..], b);
      assert (a + b)[1..] == a[1..] + b;
    }
  }

  /** Two sleeping pumps sleep for good: neither a response nor anything else wakes them. */
  lemma {:induction false} BothSleepOn(s: State, actions: seq<Action>)
    requires Asleep(s, Left) && Asleep(s, Right) && Runnable(s, actions)
    ensures Asleep(Run(s, actions), Left) && Asleep(Run(s, actions), Right)
    decreases |actions|
  {
    if actions != [] {
      BothSleepOn(Step(s, actions[0]), actions[1..]);
    }
  }

  /** The other half: from such a start the two pumps can put each other to sleep, whatever happens afterwards. */
  lemma BothCanPark(s: State) returns (actions: seq<Action>)
    requires Initial(s) && MustWait(s, Left) && MustWait(s, Right)
    ensures Runnable(s, actions)
    ensures forall more :: Runnable(Run(s, actions), more) ==>
              var now := Run(Run(s, actions), more); Asleep(now, Left) && Asleep(now, Right)
  {
    ParkRuns(s, Left);
    var s1 := Run(s, ParkActions(Left));
    ParkRuns(s1, Right);
    RunAppend(s, ParkActions(Left), ParkActions(Right));
    actions := ParkActions(Left) + ParkActions(Right);
    forall more | Runnable(Run(s, actions), more)
      ensures var now := Run(Run(s, actions), more); Asleep(now, Left) && Asleep(now, Right)
    {
      BothSleepOn(Run(s, actions), more);
    }
  }

  /** Some pump can take a step that needs no other pump: it advances, or its endpoint call completes. */
  predicate Live(s: State, side: Side) {
    !PumpOf(s, side).Finished? && !Asleep(s, side)
  }

  /**
   Forward never blocks itself: from any start except the one above, the pumps
   never both wait; a sleeping pump always has a live pump on the other side; and a
   pump that has finished has closed the stream the other one may be waiting on.
   */
  lemma ForwardNeverSelfBlocks(s: State, actions: seq<Action>, side: Side)
    requires Initial(s) && Runnable(s, actions)
    requires !(MustWait(s, Left) && MustWait(s, Right))
    ensures var now := Run(s, actions);
            && !(Waiting(now.fromLeft) && Waiting(now.fromRight))
            && (Asleep(now, side) ==> Live(now, Other(side)))
            && (PumpOf(now, side) == Finished ==>
                  StreamOf(now, Other(side)).state.writeClosed && !Asleep(now, Other(side)))
  {
    RunKeepsInv(s, s, actions);
    var now := Run(s, actions);
    if Waiting(now.fromLeft) && Waiting(now.fromRight) {
      BothWaitOnlyIfWritten(s, actions);
    }
    assert SideInv(s, now, Left) && SideInv(s, now, Right);
  }

  /** A live pump of a relay that has not failed always has an enabled action. */
  lemma LiveMeansEnabled(s: State, side: Side)
    requires Live(s, side) && s.fromLeft != Failed && s.fromRight != Failed
    ensures exists event :: Enabled(s, Pump(side, event))
  {
    var p := PumpOf(s, side);
    var event := if p.Fetch? then ReadDone(ReadError)
                 else if p.Send? then WriteDone(WriteError(0))
                 else if p.Shutdown? then ShutdownDone(true)
                 else Go;
    assert Enabled(s, Pump(side, event));
  }

  /** So every run has failed, or is finished, or some pump can take a step. */
  lemma ForwardProgresses(s: State, actions: seq<Action>)
    requires Initial(s) && Runnable(s, actions)
    requires !(MustWait(s, Left) && MustWait(s, Right))
    ensures var now := Run(s, actions);
            || now.fromLeft == Failed || now.fromRight == Failed
            || (now.fromLeft == Finished && now.fromRight == Finished)
            || exists side, event :: Enabled(now, Pump(side, event))
  {
    var now := Run(s, actions);
    ForwardNeverSelfBlocks(s, actions, Left);
    ForwardNeverSelfBlocks(s, actions, Right);
    if now.fromLeft != Failed && now.fromRight != Failed {
      if Live(now, Left) {
        LiveMeansEnabled(now, Left);
      } else if Live(now, Right) {
        LiveMeansEnabled(now, Right);
      }
    }
  }

  /** Two handles as they are created, whatever their endpoints. */
  predicate Untouched(s: State) {
    && Initial(s)
    && s.left.state == NewStream(s.left.state.endpoint) && s.right.state == NewStream(s.right.state.endpoint)
  }

  /** Between two new handles a forward never blocks itself, and a pump fails only for a reason of its own. */
  lemma ForwardBetweenNewHandles(s: State, actions: seq<Action>, side: Side)
    requires Untouched(s) && Runnable(s, actions)
    ensures var now := Run(s, actions);
            && !(Waiting(now.fromLeft) && Waiting(now.fromRight))
            && (PumpOf(now, side) == Failed <==> exists i :: 0 <= i < |actions| && Ends(actions[i], side))
            && (|| now.fromLeft == Failed || now.fromRight == Failed
                || (now.fromLeft == Finished && now.fromRight == Finished)
                || exists side, event :: Enabled(now, Pump(side, event)))
  {
    ForwardNeverSelfBlocks(s, actions, side);
    ForwardProgresses(s, actions);
    FailureHasReason(s, actions, side);
  }

  // ---------------------------------------------------------------- pipe

  predicate OnlyPump(actions: seq<Action>, side: Side) {
    forall i :: 0 <= i < |actions| ==> actions[i].ResponseArrives? || actions[i].side == side
  }

  /** A pump that does not run reads nothing. */
  lemma {:induction false} IdlePump(s: State, actions: seq<Action>, side: Side)
    requires Runnable(s, actions) && OnlyPump(actions, side)
    ensures PumpOf(Run(s, actions), Other(side)) == PumpOf(s, Other(side))
    ensures StreamOf(Run(s, actions), Other(side)).produced == StreamOf(s, Other(side)).produced
    decreases |actions|
  {
    if actions != [] {
      IdlePump(Step(s, actions[0]), actions[1..], side);
    }
  }

  /** `proxy::pipe` refuses exactly the sources that would make it wait, so it never waits. */
  lemma PipeNeverWaits(s: State, actions: seq<Action>, side: Side)
    requires Initial(s) && Runnable(s, actions) && OnlyPump(actions, side)
    requires !MustWait(s, side)
    ensures !Waiting(PumpOf(Run(s, actions), side))
  {
    IdlePump(s, actions, side);
    RunKeepsInv(s, s, actions);
    assert SideInv(s, Run(s, actions), side);
  }
}

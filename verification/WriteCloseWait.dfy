/**
 The close handshake on one handle: any number of tasks wait for the write side
 to close while any number of tasks close it. Each task is a small program
 counter; one step is one critical section or one `Notify` operation. A
 `Notified` future records how many times `notify_waiters` had been called when
 it was created and completes once that number has grown.
 */
module WriteCloseWait {
  import opened StreamHandles

  datatype Waiter =
    | Looping                 // about to ask the handle for its notifier
    | HasNotify               // about to create the `Notified` future
    | Armed(seen: nat)        // about to check the closed flag
    | Parked(seen: nat)       // awaiting the future
    | Returned

  datatype Closer =
    | Closing                 // about to take the lock
    | Owing                   // closed the stream, still has to notify
    | Done

  datatype State = State(stream: StreamState, calls: nat, waiters: seq<Waiter>, closers: seq<Closer>)

  datatype Task = WaiterTask(index: nat) | CloserTask(index: nat)

  /** A task with nothing left to do, or one whose future has not completed, cannot step. */
  predicate Enabled(s: State, task: Task) {
    match task
    case WaiterTask(i) =>
      && i < |s.waiters|
      && s.waiters[i] != Returned
      && (s.waiters[i].Parked? ==> s.calls > s.waiters[i].seen)
    case CloserTask(i) => i < |s.closers| && s.closers[i] != Done
  }

  function Step(s: State, task: Task): State
    requires Enabled(s, task)
  {
    match task
    case WaiterTask(i) =>
      (match s.waiters[i]
       case Looping => s.(stream := NotifyRequested(s.stream), waiters := s.waiters[i := HasNotify])
       case HasNotify => s.(waiters := s.waiters[i := Armed(s.calls)])
       case Armed(seen) =>
         s.(waiters := s.waiters[i := if s.stream.writeClosed then Returned else Parked(seen)])
       case Parked(_) => s.(waiters := s.waiters[i := Looping]))
    case CloserTask(i) =>
      if s.closers[i] == Owing then s.(calls := s.calls + 1, closers := s.closers[i := Done])
      else s.(stream := WriteClosedState(s.stream),
              closers := s.closers[i := if CloseOwesNotify(s.stream) then Owing else Done])
  }

  ghost predicate Runnable(s: State, tasks: seq<Task>)
    decreases |tasks|
  {
    tasks == [] || (Enabled(s, tasks[0]) && Runnable(Step(s, tasks[0]), tasks[1..]))
  }

  function Run(s: State, tasks: seq<Task>): State
    requires Runnable(s, tasks)
    decreases |tasks|
  {
    if tasks == [] then s else Run(Step(s, tasks[0]), tasks[1..])
  }

  /** Every task is at its first instruction; the stream may already be closed. */
  predicate Initial(s: State) {
    && (forall i :: 0 <= i < |s.waiters| ==> s.waiters[i] == Looping)
    && (forall i :: 0 <= i < |s.closers| ==> s.closers[i] == Closing)
  }

  ghost predicate SomeoneOwes(s: State) {
    exists i :: 0 <= i < |s.closers| && s.closers[i] == Owing
  }

  /** The waiter is parked and no notification has completed its future. */
  predicate Asleep(s: State, i: nat) {
    i < |s.waiters| && s.waiters[i].Parked? && s.calls <= s.waiters[i].seen
  }

  ghost predicate Inv(s: State) {
    && (forall i :: 0 <= i < |s.waiters| && s.waiters[i] != Looping && s.waiters[i] != Returned ==> s.stream.notify)
    && (forall i :: 0 <= i < |s.waiters| && (s.waiters[i].Armed? || s.waiters[i].Parked?) ==>
          s.waiters[i].seen <= s.calls)
    && (forall i :: Asleep(s, i) && s.stream.writeClosed ==> SomeoneOwes(s))
    && (forall i :: 0 <= i < |s.closers| && s.closers[i] != Closing ==> s.stream.writeClosed)
    && (forall i :: 0 <= i < |s.waiters| && s.waiters[i] == Returned ==> s.stream.writeClosed)
  }

  lemma StepKeepsInv(s: State, task: Task)
    requires Inv(s) && Enabled(s, task)
    ensures Inv(Step(s, task))
    ensures s.stream.writeClosed ==> Step(s, task).stream.writeClosed
  {
    var after := Step(s, task);
    forall i | Asleep(after, i) && after.stream.writeClosed ensures SomeoneOwes(after) {
      match task
      case WaiterTask(j) =>
        assert j != i && Asleep(s, i);
        var owing :| 0 <= owing < |s.closers| && s.closers[owing] == Owing;
        assert after.closers[owing] == Owing;
      case CloserTask(j) =>
        assert s.closers[j] == Closing;
        if s.stream.writeClosed {
          assert Asleep(s, i);
          var owing :| 0 <= owing < |s.closers| && s.closers[owing] == Owing;
          assert after.closers[owing] == Owing;
        } else {
          assert after.closers[j] == Owing;
        }
    }
  }

  lemma {:induction false} RunKeepsInv(s: State, tasks: seq<Task>)
    requires Inv(s) && Runnable(s, tasks)
    ensures Inv(Run(s, tasks))
    decreases |tasks|
  {
    if tasks != [] {
      StepKeepsInv(s, tasks[0]);
      RunKeepsInv(Step(s, tasks[0]), tasks[1..]);
    }
  }

  /**
   No lost wake-up: in every interleaving, a waiter is never asleep on a closed
   stream unless some closer still owes the notification; and a waiter only
   returns once the stream is closed.
   */
  lemma NoLostWakeup(s: State, tasks: seq<Task>, i: nat)
    requires Initial(s) && Runnable(s, tasks)
    ensures var now := Run(s, tasks);
            && (Asleep(now, i) && now.stream.writeClosed ==> SomeoneOwes(now))
            && (i < |now.waiters| && now.waiters[i] == Returned ==> now.stream.writeClosed)
  {
    RunKeepsInv(s, tasks);
  }

  /** The closers that still have to notify. */
  function OwingCount(cs: seq<Closer>): nat {
    if cs == [] then 0 else (if cs[0] == Owing then 1 else 0) + OwingCount(cs[1..])
  }

  lemma {:induction false} OwingCountAt(cs: seq<Closer>, i: nat, c: Closer)
    requires i < |cs|
    ensures OwingCount(cs[i := c]) + (if cs[i] == Owing then 1 else 0) == OwingCount(cs) + if c == Owing then 1 else 0
  {
    if i > 0 {
      assert cs[i := c][1..] == cs[1..][i - 1 := c];
      OwingCountAt(cs[1..], i - 1, c);
    } else {
      assert cs[i := c][1..] == cs[1..];
    }
  }

  lemma {:induction false} NoneOwes(cs: seq<Closer>)
    requires forall i :: 0 <= i < |cs| ==> cs[i] == Closing
    ensures OwingCount(cs) == 0
  {
    if cs != [] {
      NoneOwes(cs[1..]);
    }
  }

  lemma {:induction false} RunNotifies(s: State, tasks: seq<Task>)
    requires Runnable(s, tasks)
    ensures var now := Run(s, tasks);
            now.calls + OwingCount(now.closers)
            <= s.calls + OwingCount(s.closers) + if s.stream.writeClosed then 0 else 1
    decreases |tasks|
  {
    if tasks != [] {
      if tasks[0].CloserTask? {
        var i := tasks[0].index;
        OwingCountAt(s.closers, i, Step(s, tasks[0]).closers[i]);
      }
      RunNotifies(Step(s, tasks[0]), tasks[1..]);
    }
  }

  /** However many tasks close the stream, its waiters are notified at most once, and not if it was closed before. */
  lemma NotifiedAtMostOnce(s: State, tasks: seq<Task>)
    requires Initial(s) && Runnable(s, tasks)
    ensures Run(s, tasks).calls <= s.calls + if s.stream.writeClosed then 0 else 1
  {
    NoneOwes(s.closers);
    RunNotifies(s, tasks);
  }

  // ---------------------------------------------------------------- every run ends

  /** A bound on the steps a waiter can still take if nobody notifies again. */
  function WaiterWork(w: Waiter, calls: nat): nat {
    match w
    case Looping => 4
    case HasNotify => 3
    case Armed(seen) => if calls > seen then 6 else 2
    case Parked(seen) => if calls > seen then 5 else 1
    case Returned => 0
  }

  function WaitersWork(ws: seq<Waiter>, calls: nat): nat {
    if ws == [] then 0 else WaiterWork(ws[0], calls) + WaitersWork(ws[1..], calls)
  }

  /** A notification may send every waiter round once more. */
  function ClosersWork(cs: seq<Closer>, waiters: nat): nat {
    if cs == [] then 0
    else (match cs[0]
          case Closing => 2 * (1 + 4 * waiters)
          case Owing => 1 + 4 * waiters
          case Done => 0) + ClosersWork(cs[1..], waiters)
  }

  function Work(s: State): nat {
    WaitersWork(s.waiters, s.calls) + ClosersWork(s.closers, |s.waiters|)
  }

  lemma {:induction false} WaitersWorkAt(ws: seq<Waiter>, i: nat, w: Waiter, calls: nat)
    requires i < |ws|
    ensures WaitersWork(ws[i := w], calls) + WaiterWork(ws[i], calls)
         == WaitersWork(ws, calls) + WaiterWork(w, calls)
  {
    if i > 0 {
      assert ws[i := w][1..] == ws[1..][i - 1 := w];
      WaitersWorkAt(ws[1..], i - 1, w, calls);
    } else {
      assert ws[i := w][1..] == ws[1..];
    }
  }

  lemma {:induction false} ClosersWorkAt(cs: seq<Closer>, i: nat, c: Closer, n: nat)
    requires i < |cs|
    ensures ClosersWork(cs[i := c], n) + ClosersWork([cs[i]], n) == ClosersWork(cs, n) + ClosersWork([c], n)
  {
    if i > 0 {
      assert cs[i := c][1..] == cs[1..][i - 1 := c];
      ClosersWorkAt(cs[1..], i - 1, c, n);
    } else {
      assert cs[i := c][1..] == cs[1..];
    }
  }

  lemma {:induction false} NotifyWork(ws: seq<Waiter>, calls: nat)
    ensures WaitersWork(ws, calls + 1) <= WaitersWork(ws, calls) + 4 * |ws|
  {
    if ws != [] {
      NotifyWork(ws[1..], calls);
    }
  }

  lemma StepDoesWork(s: State, task: Task)
    requires Inv(s) && Enabled(s, task)
    ensures Work(Step(s, task)) < Work(s)
  {
    match task
    case WaiterTask(i) =>
      WaitersWorkAt(s.waiters, i, Step(s, task).waiters[i], s.calls);
    case CloserTask(i) =>
      ClosersWorkAt(s.closers, i, Step(s, task).closers[i], |s.waiters|);
      NotifyWork(s.waiters, s.calls);
  }

  /** No schedule runs forever: a run is never longer than the work it starts with. */
  lemma {:induction false} RunsEnd(s: State, tasks: seq<Task>)
    requires Inv(s) && Runnable(s, tasks)
    ensures |tasks| + Work(Run(s, tasks)) <= Work(s)
    decreases |tasks|
  {
    if tasks != [] {
      StepDoesWork(s, tasks[0]);
      StepKeepsInv(s, tasks[0]);
      RunsEnd(Step(s, tasks[0]), tasks[1..]);
    }
  }

  /** When nothing can step any more and someone closed the stream, every waiter has returned. */
  lemma AllWaitersReturn(s: State, tasks: seq<Task>)
    requires Initial(s) && Runnable(s, tasks)
    requires forall task :: !Enabled(Run(s, tasks), task)
    requires s.closers != [] || s.stream.writeClosed
    ensures forall i :: 0 <= i < |Run(s, tasks).waiters| ==> Run(s, tasks).waiters[i] == Returned
  {
    var now := Run(s, tasks);
    RunKeepsInv(s, tasks);
    RunKeepsTasks(s, tasks);
    if s.closers != [] {
      assert !Enabled(now, CloserTask(0));
    }
    forall i | 0 <= i < |now.waiters| ensures now.waiters[i] == Returned {
      assert !Enabled(now, WaiterTask(i));
      if now.waiters[i] != Returned {
        assert Asleep(now, i);
        var owing :| 0 <= owing < |now.closers| && now.closers[owing] == Owing;
        assert Enabled(now, CloserTask(owing));
      }
    }
  }

  lemma {:induction false} RunKeepsTasks(s: State, tasks: seq<Task>)
    requires Inv(s) && Runnable(s, tasks)
    ensures |Run(s, tasks).closers| == |s.closers| && |Run(s, tasks).waiters| == |s.waiters|
    ensures s.stream.writeClosed ==> Run(s, tasks).stream.writeClosed
    decreases |tasks|
  {
    if tasks != [] {
      StepKeepsInv(s, tasks[0]);
      RunKeepsTasks(Step(s, tasks[0]), tasks[1..]);
    }
  }
}

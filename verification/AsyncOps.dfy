/**
 The table of pending asynchronous host operations. Identifiers come from a
 wrapping counter that skips zero after the first lap and skips identifiers still
 pending, trying at most 65535 of them. The width of an identifier is that of the
 virtual machine's type; here it is any maximum of at least 65535.
 */
module AsyncOps {
  import opened Bytes
  import opened Wrappers

  function NextId(id: nat, maxId: nat): nat {
    if id >= maxId then 1 else id + 1
  }

  /** The first identifier not pending among `tries` in a row, and the counter afterwards. */
  function Search(pending: set<nat>, id: nat, tries: nat, maxId: nat): (Option<nat>, nat)
    decreases tries
  {
    if tries == 0 then (None, id)
    else if id !in pending then (Some(id), NextId(id, maxId))
    else Search(pending, NextId(id, maxId), tries - 1, maxId)
  }

  // ---------------------------------------------------------------- the bounded search

  /** The identifiers a search of `n` tries looks at. */
  function Candidates(id: nat, n: nat, maxId: nat): set<nat>
    decreases n
  {
    if n == 0 then {} else {id} + Candidates(NextId(id, maxId), n - 1, maxId)
  }

  /** How many steps the counter takes from `id` to `x`. */
  function Distance(id: nat, x: nat, maxId: nat): int {
    if x >= id then x - id else x - id + maxId
  }

  lemma {:induction false} CandidatesAhead(id: nat, n: nat, maxId: nat, x: nat)
    requires 1 <= id <= maxId && n <= maxId && x in Candidates(id, n, maxId)
    ensures 1 <= x <= maxId && Distance(id, x, maxId) < n
    decreases n
  {
    if x != id {
      CandidatesAhead(NextId(id, maxId), n - 1, maxId, x);
    }
  }

  /** A search never looks at the same identifier twice, even across the wrap-around. */
  lemma {:induction false} CandidatesDistinct(id: nat, n: nat, maxId: nat)
    requires id <= maxId && n <= maxId
    ensures |Candidates(id, n, maxId)| == n
    decreases n
  {
    if n > 0 {
      var next := NextId(id, maxId);
      CandidatesDistinct(next, n - 1, maxId);
      if id in Candidates(next, n - 1, maxId) {
        CandidatesAhead(next, n - 1, maxId, id);
      }
    }
  }

  lemma {:induction false} SearchMeans(pending: set<nat>, id: nat, tries: nat, maxId: nat)
    requires id <= maxId && maxId > 0
    ensures var (found, next) := Search(pending, id, tries, maxId);
            && next <= maxId
            && (found.Some? ==> found.value !in pending && found.value in Candidates(id, tries, maxId))
            && (found.Some? ==> next == NextId(found.value, maxId))
            && (found.None? <==> Candidates(id, tries, maxId) <= pending)
    decreases tries
  {
    if tries > 0 && id in pending {
      SearchMeans(pending, NextId(id, maxId), tries - 1, maxId);
    }
  }

  /** The counter after `n` steps. */
  function Nth(id: nat, n: nat, maxId: nat): nat
    decreases n
  {
    if n == 0 then id else Nth(NextId(id, maxId), n - 1, maxId)
  }

  /** What is found is the first that is free: all that were tried before it are pending. */
  lemma {:induction false} SearchFindsFirst(pending: set<nat>, id: nat, tries: nat, maxId: nat) returns (n: nat)
    requires Search(pending, id, tries, maxId).0.Some?
    ensures n < tries && Search(pending, id, tries, maxId).0 == Some(Nth(id, n, maxId))
    ensures Candidates(id, n, maxId) <= pending
    decreases tries
  {
    n := 0;
    if id in pending {
      var more := SearchFindsFirst(pending, NextId(id, maxId), tries - 1, maxId);
      n := more + 1;
    }
  }

  lemma SubsetSize(a: set<nat>, b: set<nat>)
    requires a <= b
    ensures |a| <= |b|
  {
    assert b == a + (b - a);
  }

  /** With fewer pending operations than tries, the search cannot fail. */
  lemma SearchSucceeds(pending: set<nat>, id: nat, maxId: nat)
    requires id <= maxId && maxId >= U16_MAX && |pending| < U16_MAX
    ensures Search(pending, id, U16_MAX, maxId).0.Some?
  {
    SearchMeans(pending, id, U16_MAX, maxId);
    CandidatesDistinct(id, U16_MAX, maxId);
    if Candidates(id, U16_MAX, maxId) <= pending {
      SubsetSize(Candidates(id, U16_MAX, maxId), pending);
    }
  }

  // ---------------------------------------------------------------- runs

  /**
   `pending` maps identifiers to operations, numbered in the order they were
   scheduled; `delivered` lists the operations whose result was handed out.
   */
  datatype State = State(pending: map<nat, nat>, next: nat, scheduled: nat, delivered: seq<nat>)

  /** A poll either finds the operation still running or gets its result, or its cancellation. */
  datatype Op = Schedule | Poll(id: nat, ready: bool)

  function Initial(next: nat): State {
    State(map[], next, 0, [])
  }

  function Step(s: State, op: Op, maxId: nat): State {
    match op
    case Schedule =>
      var (found, next) := Search(s.pending.Keys, s.next, U16_MAX, maxId);
      (match found
       case None => s.(next := next)
       case Some(id) => State(s.pending[id := s.scheduled], next, s.scheduled + 1, s.delivered))
    case Poll(id, ready) =>
      if id !in s.pending || !ready then s
      else s.(pending := s.pending - {id}, delivered := s.delivered + [s.pending[id]])
  }

  function Run(s: State, ops: seq<Op>, maxId: nat): State {
    if ops == [] then s else Step(Run(s, ops[..|ops| - 1], maxId), ops[|ops| - 1], maxId)
  }

  /** Operation `op` is waiting under exactly one identifier and was not delivered. */
  ghost predicate Waiting(s: State, op: nat) {
    && op !in s.delivered
    && exists id :: id in s.pending && s.pending[id] == op
  }

  ghost predicate Inv(s: State, maxId: nat) {
    && s.next <= maxId
    && (forall id :: id in s.pending ==> s.pending[id] < s.scheduled && s.pending[id] !in s.delivered)
    && (forall a, b :: a in s.pending && b in s.pending && s.pending[a] == s.pending[b] ==> a == b)
    && (forall i, j :: 0 <= i < j < |s.delivered| ==> s.delivered[i] != s.delivered[j])
    && (forall op :: op in s.delivered ==> op < s.scheduled)
    && (forall op: nat :: op < s.scheduled ==> op in s.delivered || Waiting(s, op))
  }

  lemma AddKeepsInv(s: State, id: nat, next: nat, maxId: nat)
    requires Inv(s, maxId) && id !in s.pending && next <= maxId
    ensures Inv(State(s.pending[id := s.scheduled], next, s.scheduled + 1, s.delivered), maxId)
  {
    var after := State(s.pending[id := s.scheduled], next, s.scheduled + 1, s.delivered);
    forall op: nat | op < after.scheduled ensures op in after.delivered || Waiting(after, op) {
      if op == s.scheduled {
        assert after.pending[id] == op;
      } else if op !in s.delivered {
        var at :| at in s.pending && s.pending[at] == op;
        assert after.pending[at] == op;
      }
    }
  }

  lemma MovedKeepsInv(s: State, next: nat, maxId: nat)
    requires Inv(s, maxId) && next <= maxId
    ensures Inv(s.(next := next), maxId)
  {
  }

  lemma ScheduleKeepsInv(s: State, maxId: nat)
    requires Inv(s, maxId) && maxId > 0
    ensures Inv(Step(s, Schedule, maxId), maxId)
  {
    hide Inv, Search, Candidates;
    assert s.next <= maxId by {
      NextInRange(s, maxId);
    }
    SearchMeans(s.pending.Keys, s.next, U16_MAX, maxId);
    var (found, next) := Search(s.pending.Keys, s.next, U16_MAX, maxId);
    if found.Some? {
      AddKeepsInv(s, found.value, next, maxId);
    } else {
      MovedKeepsInv(s, next, maxId);
    }
  }

  lemma NextInRange(s: State, maxId: nat)
    requires Inv(s, maxId)
    ensures s.next <= maxId
  {
  }

  lemma PollKeepsInv(s: State, id: nat, ready: bool, maxId: nat)
    requires Inv(s, maxId)
    ensures Inv(Step(s, Poll(id, ready), maxId), maxId)
  {
    var after := Step(s, Poll(id, ready), maxId);
    forall op: nat | op < after.scheduled ensures op in after.delivered || Waiting(after, op) {
      if op !in s.delivered {
        var at :| at in s.pending && s.pending[at] == op;
        if at != id || !ready {
          assert after.pending[at] == op;
        } else {
          assert after.delivered[|s.delivered|] == op;
        }
      } else {
        var i :| 0 <= i < |s.delivered| && s.delivered[i] == op;
        assert after.delivered[i] == op;
      }
    }
  }

  lemma {:induction false} RunKeepsInv(s: State, ops: seq<Op>, maxId: nat)
    requires Inv(s, maxId) && maxId > 0
    ensures Inv(Run(s, ops, maxId), maxId)
  {
    if ops != [] {
      RunKeepsInv(s, ops[..|ops| - 1], maxId);
      var before, op := Run(s, ops[..|ops| - 1], maxId), ops[|ops| - 1];
      match op
      case Schedule => ScheduleKeepsInv(before, maxId);
      case Poll(id, ready) => PollKeepsInv(before, id, ready, maxId);
    }
  }

  /**
   In every run, however often identifiers are reused, an operation's result is
   delivered at most once, and an operation not delivered is still waiting under
   one identifier of its own: none is lost, none is delivered twice.
   */
  lemma ExactlyOnce(start: nat, ops: seq<Op>, maxId: nat, op: nat)
    requires start <= maxId && maxId > 0
    requires op < Run(Initial(start), ops, maxId).scheduled
    ensures var s := Run(Initial(start), ops, maxId);
            && (op in s.delivered <==> !Waiting(s, op))
            && (forall i, j :: 0 <= i < j < |s.delivered| ==> s.delivered[i] != s.delivered[j])
            && (forall a, b :: a in s.pending && b in s.pending && s.pending[a] == s.pending[b] ==> a == b)
  {
    RunKeepsInv(Initial(start), ops, maxId);
  }

  /** With fewer than 65535 pending, scheduling enters the new operation under a free identifier and nothing else. */
  lemma ScheduleAdds(s: State, maxId: nat) returns (id: nat)
    requires s.next <= maxId && maxId >= U16_MAX && |s.pending| < U16_MAX
    ensures id !in s.pending
    ensures var after := Step(s, Schedule, maxId);
            && after.pending == s.pending[id := s.scheduled] && after.scheduled == s.scheduled + 1
            && after.delivered == s.delivered && after.next == NextId(id, maxId)
  {
    hide Search, Candidates;
    assert |s.pending.Keys| == |s.pending|;
    SearchSucceeds(s.pending.Keys, s.next, maxId);
    SearchMeans(s.pending.Keys, s.next, U16_MAX, maxId);
    id := Search(s.pending.Keys, s.next, U16_MAX, maxId).0.value;
  }

  function ReadyPolls(ops: seq<Op>): nat {
    if ops == [] then 0
    else
      var last := ops[|ops| - 1];
      ReadyPolls(ops[..|ops| - 1]) + if last.Poll? && last.ready then 1 else 0
  }

  /** Nothing is delivered but by a poll that finds the operation ready. */
  lemma {:induction false} DeliveredWhenReady(s: State, ops: seq<Op>, maxId: nat)
    ensures |Run(s, ops, maxId).delivered| <= |s.delivered| + ReadyPolls(ops)
  {
    if ops != [] {
      DeliveredWhenReady(s, ops[..|ops| - 1], maxId);
    }
  }

  /** From every state, polls of operations that are ready deliver everything that was ever scheduled. */
  lemma AllCanBeDelivered(s: State, maxId: nat) returns (ops: seq<Op>)
    requires Inv(s, maxId) && maxId > 0
    ensures forall i :: 0 <= i < |ops| ==> ops[i].Poll?
    ensures Run(s, ops, maxId).pending == map[] && Run(s, ops, maxId).scheduled == s.scheduled
    ensures forall op: nat :: op < s.scheduled ==> op in Run(s, ops, maxId).delivered
  {
    ops := [];
    while Run(s, ops, maxId).pending != map[]
      invariant forall i :: 0 <= i < |ops| ==> ops[i].Poll?
      invariant Run(s, ops, maxId).scheduled == s.scheduled
      decreases Run(s, ops, maxId).pending.Keys
    {
      var now := Run(s, ops, maxId);
      var id :| id in now.pending;
      var more := ops + [Poll(id, true)];
      assert more[..|more| - 1] == ops;
      ops := more;
    }
    RunKeepsInv(s, ops, maxId);
    var last := Run(s, ops, maxId);
    forall op: nat | op < s.scheduled
      ensures op in last.delivered
    {
      assert op in last.delivered || Waiting(last, op);
    }
  }

  // ---------------------------------------------------------------- the table in place

  datatype OpError = Exhausted | SpawnFailed | DuplicateId(id: nat) | UnknownOp(id: nat) | Cancelled(id: nat)

  datatype PollState<R> = StillPending | Ready(result: R) | Dropped

  class VmAsyncOps<T> {
    const maxId: nat
    var pending: map<nat, T>
    var nextOpId: nat

    ghost predicate Valid()
      reads this
    {
      maxId >= U16_MAX && nextOpId <= maxId
    }

    constructor (maxId: nat)
      requires maxId >= U16_MAX
      ensures Valid() && pending == map[] && nextOpId == 1 && this.maxId == maxId
    {
      this.maxId := maxId;
      pending := map[];
      nextOpId := 1;
    }

    method AllocateOpId() returns (r: Result<nat, OpError>)
      requires Valid()
      modifies this`nextOpId
      ensures Valid()
      ensures var (found, next) := Search(pending.Keys, old(nextOpId), U16_MAX, maxId);
              && nextOpId == next
              && r == match found case Some(id) => Success(id) case None => Failure(Exhausted)
    {
      for i := 0 to U16_MAX
        invariant nextOpId <= maxId
        invariant Search(pending.Keys, nextOpId, U16_MAX - i, maxId)
               == Search(pending.Keys, old(nextOpId), U16_MAX, maxId)
      {
        var opId := nextOpId;
        nextOpId := NextId(nextOpId, maxId);
        if opId !in pending {
          return Success(opId);
        }
      }
      r := Failure(Exhausted);
    }

    method InsertPending(opId: nat, op: T) returns (r: Result<(), OpError>)
      modifies this`pending
      ensures if opId in old(pending)
              then r == Failure(DuplicateId(opId)) && pending == old(pending)
              else r == Success(()) && pending == old(pending)[opId := op]
    {
      if opId in pending {
        return Failure(DuplicateId(opId));
      }
      pending := pending[opId := op];
      r := Success(());
    }

    /**
     The duplicate check never fires, and with fewer than 65535 pending operations
     an identifier is found. `started` is false for a future that has no runtime to
     run on and whose thread cannot be spawned; its identifier is then not used.
     */
    method Schedule(op: T, started: bool) returns (r: Result<nat, OpError>)
      requires Valid()
      modifies this
      ensures Valid() && nextOpId == Search(old(pending).Keys, old(nextOpId), U16_MAX, maxId).1
      ensures |old(pending)| < U16_MAX ==> (r.Success? <==> started)
      ensures r.Success? ==> r.value !in old(pending) && pending == old(pending)[r.value := op]
      ensures r.Failure? ==> pending == old(pending) && (r.error == Exhausted || (r.error == SpawnFailed && !started))
    {
      hide Search, Candidates;
      SearchMeans(pending.Keys, nextOpId, U16_MAX, maxId);
      if |pending| < U16_MAX {
        assert |pending.Keys| == |pending|;
        SearchSucceeds(pending.Keys, nextOpId, maxId);
      }
      ghost var found := Search(pending.Keys, nextOpId, U16_MAX, maxId).0;
      var opId :- AllocateOpId();
      assert found == Some(opId);
      if !started {
        return Failure(SpawnFailed);
      }
      var inserted := InsertPending(opId, op);
      assert inserted.Success?;
      r := Success(opId);
    }

    /** `state` is what polling the pending operation finds. */
    method PollOp<R>(opId: nat, state: PollState<R>) returns (r: Option<Result<R, OpError>>)
      modifies this`pending
      ensures if opId !in old(pending) then r == Some(Failure(UnknownOp(opId))) && pending == old(pending)
              else match state
                   case StillPending => r == None && pending == old(pending)
                   case Ready(result) => r == Some(Success(result)) && pending == old(pending) - {opId}
                   case Dropped => r == Some(Failure(Cancelled(opId))) && pending == old(pending) - {opId}
    {
      if opId !in pending {
        return Some(Failure(UnknownOp(opId)));
      }
      match state {
        case StillPending =>
          r := None;
        case Ready(result) =>
          pending := pending - {opId};
          r := Some(Success(result));
        case Dropped =>
          pending := pending - {opId};
          r := Some(Failure(Cancelled(opId)));
      }
    }
  }
}

/**
 * The FIFO work scheduler of core/src/scheduler.ts. The closure's variables
 * `callbacks`, `nextWorkId` and `pending` are the fields of `Queue`; the
 * `window.postMessage` calls it makes are counted in `posted`, and the
 * message event that drives a run step is given to `HandleMessage` as its
 * source and data. Callbacks are opaque values of type `C`; while a callback
 * runs it may itself call `scheduleWork`, and those calls are given to the
 * run step as the list `during`.
 */
module Scheduler {
  import opened Wrappers

  /** The message the scheduler posts to itself. */
  const MESSAGE: string := "__reactScheduler"

  datatype Work<C> = Work(id: nat, callback: C)

  /** The scheduler's variables, as a value. */
  datatype State<C> = State(callbacks: seq<Work<C>>, nextWorkId: nat, pending: bool, posted: nat)

  /** The state before any call: no work, next id 1, nothing pending. */
  function Initial<C>(): State<C> {
    State([], 1, false, 0)
  }

  /** Work ids in the queue strictly increase from head to tail. */
  predicate Increasing<C>(q: seq<Work<C>>) {
    forall i, j :: 0 <= i < j < |q| ==> q[i].id < q[j].id
  }

  /** Every id in the queue was handed out before `next`. */
  predicate IdsBelow<C>(q: seq<Work<C>>, next: nat) {
    forall i :: 0 <= i < |q| ==> q[i].id < next
  }

  /** What holds between calls: ids ordered and issued, work queued only while pending. */
  predicate Inv<C>(s: State<C>) {
    && s.nextWorkId >= 1
    && Increasing(s.callbacks)
    && IdsBelow(s.callbacks, s.nextWorkId)
    && (|s.callbacks| > 0 ==> s.pending)
  }

  /** `scheduleWork(callback)`: the new state and the id returned. */
  function Schedule<C>(s: State<C>, callback: C): (State<C>, nat) {
    var id := s.nextWorkId;
    var q := s.callbacks + [Work(id, callback)];
    if !s.pending then (State(q, id + 1, true, s.posted + 1), id)
    else (State(q, id + 1, true, s.posted), id)
  }

  /** Several `scheduleWork` calls in a row: the final state and the ids returned. */
  function ScheduleAll<C>(s: State<C>, cbs: seq<C>): (r: (State<C>, seq<nat>))
    ensures |r.1| == |cbs|
    decreases |cbs|
  {
    if cbs == [] then (s, [])
    else
      var (s1, id) := Schedule(s, cbs[0]);
      var (s2, ids) := ScheduleAll(s1, cbs[1..]);
      (s2, [id] + ids)
  }

  /** The queue with every entry of id `id` taken out (`callbacks.filter(work => work.id !== id)`). */
  function Without<C>(q: seq<Work<C>>, id: nat): (r: seq<Work<C>>)
    ensures forall i :: 0 <= i < |r| ==> r[i] in q && r[i].id != id
    ensures forall i :: 0 <= i < |q| && q[i].id != id ==> q[i] in r
    ensures |r| <= |q|
  {
    if q == [] then []
    else
      var rest := Without(q[1..], id);
      if q[0].id == id then rest
      else
        var r := [q[0]] + rest;
        assert forall i :: 1 <= i < |r| ==> r[i] == rest[i - 1];
        r
  }

  /** Taking entries out keeps the queue's order and its ids issued. */
  lemma WithoutKeepsOrder<C>(q: seq<Work<C>>, id: nat, next: nat)
    requires Increasing(q) && IdsBelow(q, next)
    ensures Increasing(Without(q, id)) && IdsBelow(Without(q, id), next)
  {
    WithoutIncreasing(q, id);
    var r := Without(q, id);
    forall i | 0 <= i < |r| ensures r[i].id < next {
      var j :| 0 <= j < |q| && q[j] == r[i];
    }
  }

  /** Every entry left has an id above `lo` when every entry had. */
  lemma WithoutAbove<C>(q: seq<Work<C>>, id: nat, lo: nat)
    requires forall i :: 0 <= i < |q| ==> lo < q[i].id
    ensures forall i :: 0 <= i < |Without(q, id)| ==> lo < Without(q, id)[i].id
  {
    var r := Without(q, id);
    forall i | 0 <= i < |r| ensures lo < r[i].id {
      var j :| 0 <= j < |q| && q[j] == r[i];
    }
  }

  lemma {:induction false} WithoutIncreasing<C>(q: seq<Work<C>>, id: nat)
    requires Increasing(q)
    ensures Increasing(Without(q, id))
  {
    if q != [] {
      var tail := q[1..];
      assert Increasing(tail) by {
        forall i, j | 0 <= i < j < |tail| ensures tail[i].id < tail[j].id {
          assert tail[i] == q[i + 1] && tail[j] == q[j + 1];
        }
      }
      WithoutIncreasing(tail, id);
      if q[0].id != id {
        forall i | 0 <= i < |tail| ensures q[0].id < tail[i].id {
          assert tail[i] == q[i + 1];
        }
        WithoutAbove(tail, id, q[0].id);
        var rest := Without(tail, id);
        var r := [q[0]] + rest;
        assert Without(q, id) == r;
        forall i, j | 0 <= i < j < |r| ensures r[i].id < r[j].id {
          if i > 0 {
            assert r[i].id == rest[i - 1].id;
          }
        }
      }
    }
  }

  /** `cancelWork(id)` */
  function Cancel<C>(s: State<C>, id: nat): State<C> {
    var q := Without(s.callbacks, id);
    if |q| == 0 then s.(callbacks := q, pending := false) else s.(callbacks := q)
  }

  /** `cancelAllWork()` */
  function CancelAll<C>(s: State<C>): State<C> {
    s.(callbacks := [], pending := false)
  }

  /**
   * `messageHandler(event)`: the new state and the work it ran. `during` are
   * the `scheduleWork` calls the running callback makes.
   */
  function Step<C>(s: State<C>, fromWindow: bool, data: string, during: seq<C>): (State<C>, Option<Work<C>>) {
    if !(fromWindow && data == MESSAGE) then (s, None)
    else
      var ran := if |s.callbacks| > 0 then Some(s.callbacks[0]) else None;
      var s1 := if ran.Some? then ScheduleAll(s.(callbacks := s.callbacks[1..]), during).0 else s;
      if |s1.callbacks| > 0 then (s1.(posted := s1.posted + 1), ran)
      else (s1.(pending := false), ran)
  }

  /** The operations a client can perform, for reasoning about histories. */
  datatype Op<C> =
    | DoSchedule(callback: C)
    | DoMessage(fromWindow: bool, data: string, during: seq<C>)
    | DoCancel(id: nat)
    | DoCancelAll

  function Apply<C>(s: State<C>, op: Op<C>): (State<C>, Option<Work<C>>) {
    match op
    case DoSchedule(cb) => (Schedule(s, cb).0, None)
    case DoMessage(w, d, during) => Step(s, w, d, during)
    case DoCancel(id) => (Cancel(s, id), None)
    case DoCancelAll => (CancelAll(s), None)
  }

  /** The works run by a history of operations, in the order they ran. */
  function Ran<C>(s: State<C>, ops: seq<Op<C>>): seq<Work<C>>
    decreases |ops|
  {
    if ops == [] then []
    else
      var (s1, ran) := Apply(s, ops[0]);
      (if ran.Some? then [ran.value] else []) + Ran(s1, ops[1..])
  }

  /** Every operation keeps the invariant. */
  lemma StepKeepsInv<C>(s: State<C>, op: Op<C>)
    requires Inv(s)
    ensures Inv(Apply(s, op).0)
  {
    match op
    case DoSchedule(cb) =>
    case DoMessage(w, d, during) =>
      if w && d == MESSAGE && |s.callbacks| > 0 {
        ScheduleAllKeepsInv(s.(callbacks := s.callbacks[1..]), during);
      }
    case DoCancel(id) =>
      WithoutKeepsOrder(s.callbacks, id, s.nextWorkId);
    case DoCancelAll =>
  }

  lemma {:induction false} ScheduleAllKeepsInv<C>(s: State<C>, cbs: seq<C>)
    requires s.nextWorkId >= 1 && Increasing(s.callbacks) && IdsBelow(s.callbacks, s.nextWorkId)
    ensures Inv(ScheduleAll(s, cbs).0) || (cbs == [] && ScheduleAll(s, cbs).0 == s)
    ensures ScheduleAll(s, cbs).0.nextWorkId == s.nextWorkId + |cbs|
    ensures ScheduleAll(s, cbs).0.callbacks == s.callbacks + seq(|cbs|, i requires 0 <= i < |cbs| => Work(s.nextWorkId + i, cbs[i]))
    decreases |cbs|
  {
    if cbs != [] {
      var s1 := Schedule(s, cbs[0]).0;
      ScheduleAllKeepsInv(s1, cbs[1..]);
      var tail := seq(|cbs| - 1, i requires 0 <= i < |cbs| - 1 => Work(s1.nextWorkId + i, cbs[1..][i]));
      var all := seq(|cbs|, i requires 0 <= i < |cbs| => Work(s.nextWorkId + i, cbs[i]));
      assert [Work(s.nextWorkId, cbs[0])] + tail == all;
    }
  }

  /** Successive `scheduleWork` calls hand out the ids n, n+1, n+2, … (1, 2, 3, … from the start). */
  lemma {:induction false} IdsAreConsecutive<C>(s: State<C>, cbs: seq<C>, i: nat)
    requires i < |cbs|
    ensures ScheduleAll(s, cbs).1[i] == s.nextWorkId + i
    decreases i
  {
    if i > 0 {
      IdsAreConsecutive(Schedule(s, cbs[0]).0, cbs[1..], i - 1);
    }
  }

  /** `n` deliveries of the scheduler's own message, during which no callback schedules anything. */
  function Messages<C>(n: nat): (r: seq<Op<C>>)
    ensures |r| == n
  {
    if n == 0 then [] else [DoMessage(true, MESSAGE, [])] + Messages(n - 1)
  }

  /**
   * Run steps with nothing scheduled in between run the queued work in FIFO
   * order: `n` accepted messages run exactly the first `n` entries.
   */
  lemma {:induction false} RunsInFifoOrder<C>(s: State<C>, n: nat)
    requires n <= |s.callbacks|
    ensures Ran(s, Messages<C>(n)) == s.callbacks[..n]
    decreases n
  {
    if n > 0 {
      var s1 := Step(s, true, MESSAGE, []).0;
      assert s1.callbacks == s.callbacks[1..];
      RunsInFifoOrder(s1, n - 1);
      assert s.callbacks[..n] == [s.callbacks[0]] + s.callbacks[1..][..n - 1];
    }
  }

  /**
   * Once `id` is not queued and has been issued, no later history runs it:
   * in particular a work item cancelled before it is dequeued never runs.
   */
  lemma {:induction false} CancelledNeverRuns<C>(s: State<C>, id: nat, ops: seq<Op<C>>)
    requires Inv(s)
    requires id < s.nextWorkId
    requires forall i :: 0 <= i < |s.callbacks| ==> s.callbacks[i].id != id
    ensures forall i :: 0 <= i < |Ran(s, ops)| ==> Ran(s, ops)[i].id != id
    decreases |ops|
  {
    if ops != [] {
      var (s1, ran) := Apply(s, ops[0]);
      StepKeepsInv(s, ops[0]);
      match ops[0] {
        case DoSchedule(cb) =>
          assert s1.callbacks == s.callbacks + [Work(s.nextWorkId, cb)];
        case DoMessage(w, d, during) =>
          if w && d == MESSAGE && |s.callbacks| > 0 {
            ScheduleAllKeepsInv(s.(callbacks := s.callbacks[1..]), during);
            assert ran == Some(s.callbacks[0]);
          }
        case DoCancel(c) =>
          forall i | 0 <= i < |s1.callbacks| ensures s1.callbacks[i].id != id {
            assert s1.callbacks[i] in Without(s.callbacks, c);
          }
        case DoCancelAll =>
      }
      assert s1.nextWorkId >= s.nextWorkId;
      CancelledNeverRuns(s1, id, ops[1..]);
      var head := if ran.Some? then [ran.value] else [];
      assert Ran(s, ops) == head + Ran(s1, ops[1..]);
    }
  }

  /** `cancelWork(id)` removes exactly the entries of that id; every other entry stays, in order. */
  lemma CancelRemovesExactly<C>(s: State<C>, id: nat)
    requires Inv(s)
    ensures forall i :: 0 <= i < |Cancel(s, id).callbacks| ==>
      Cancel(s, id).callbacks[i] in s.callbacks && Cancel(s, id).callbacks[i].id != id
    ensures forall i :: 0 <= i < |s.callbacks| && s.callbacks[i].id != id ==> s.callbacks[i] in Cancel(s, id).callbacks
    ensures Increasing(Cancel(s, id).callbacks)
    ensures Cancel(s, id).pending == (s.pending && |Cancel(s, id).callbacks| > 0)
    ensures Inv(Cancel(s, id))
  {
    WithoutKeepsOrder(s.callbacks, id, s.nextWorkId);
  }

  /** An accepted run step leaves `pending` set exactly when work is still queued, and posts again only then. */
  lemma StepSettlesPending<C>(s: State<C>, during: seq<C>)
    requires Inv(s)
    ensures var (s1, _) := Step(s, true, MESSAGE, during);
      && (s1.pending <==> |s1.callbacks| > 0)
      && s1.posted == s.posted + (if |s1.callbacks| > 0 then 1 else 0)
  {
    if |s.callbacks| > 0 {
      ScheduleAllKeepsInv(s.(callbacks := s.callbacks[1..]), during);
      ScheduleAllWhilePending(s.(callbacks := s.callbacks[1..]), during);
    }
  }

  /** While a message is pending, `scheduleWork` posts nothing and leaves it pending. */
  lemma {:induction false} ScheduleAllWhilePending<C>(s: State<C>, cbs: seq<C>)
    requires s.pending
    ensures ScheduleAll(s, cbs).0.posted == s.posted && ScheduleAll(s, cbs).0.pending
    decreases |cbs|
  {
    if cbs != [] {
      ScheduleAllWhilePending(Schedule(s, cbs[0]).0, cbs[1..]);
    }
  }

  lemma {:induction false} ScheduleAllPosts<C>(s: State<C>, cbs: seq<C>)
    ensures ScheduleAll(s, cbs).0.posted >= s.posted
    ensures cbs != [] ==> ScheduleAll(s, cbs).0.pending
    decreases |cbs|
  {
    if cbs != [] {
      ScheduleAllPosts(Schedule(s, cbs[0]).0, cbs[1..]);
    }
  }

  /** A message from another source or with other data changes nothing and runs nothing. */
  lemma ForeignMessageIgnored<C>(s: State<C>, fromWindow: bool, data: string, during: seq<C>)
    requires !fromWindow || data != MESSAGE
    ensures Step(s, fromWindow, data, during) == (s, None)
  {
  }

  class Queue<C> {
    var callbacks: seq<Work<C>>
    var nextWorkId: nat
    var pending: bool
    var posted: nat

    function Snapshot(): State<C>
      reads this
    {
      State(callbacks, nextWorkId, pending, posted)
    }

    ghost predicate Valid()
      reads this
    {
      Inv(Snapshot())
    }

    constructor ()
      ensures Valid() && Snapshot() == Initial()
    {
      callbacks := [];
      nextWorkId := 1;
      pending := false;
      posted := 0;
    }

    /** `scheduleWork(callback)`: appends at the tail; posts a message only when nothing was pending. */
    method ScheduleWork(callback: C) returns (id: nat)
      requires Valid()
      modifies this
      ensures Valid()
      ensures id == old(nextWorkId) && nextWorkId == id + 1
      ensures callbacks == old(callbacks) + [Work(id, callback)]
      ensures pending
      ensures posted == old(posted) + (if old(pending) then 0 else 1)
      ensures (Snapshot(), id) == Schedule(old(Snapshot()), callback)
    {
      id := nextWorkId;
      nextWorkId := nextWorkId + 1;
      callbacks := callbacks + [Work(id, callback)];
      if !pending {
        pending := true;
        posted := posted + 1;
      }
    }

    /**
     * `messageHandler(event)`: for the scheduler's own message, removes the
     * head and runs it (the run is the caller's; the `scheduleWork` calls it
     * makes are `during`), then posts again if work remains, else clears
     * `pending`.
     */
    method HandleMessage(fromWindow: bool, data: string, during: seq<C>) returns (ran: Option<Work<C>>)
      requires Valid()
      modifies this
      ensures Valid()
      ensures (Snapshot(), ran) == Step(old(Snapshot()), fromWindow, data, during)
    {
      if !(fromWindow && data == MESSAGE) {
        return None;
      }
      ran := None;
      if |callbacks| > 0 {
        ran := Some(callbacks[0]);
        callbacks := callbacks[1..];
        ghost var start := Snapshot();
        var i := 0;
        while i < |during|
          invariant 0 <= i <= |during|
          invariant Snapshot() == ScheduleAll(start, during[..i]).0
          invariant nextWorkId >= 1 && Increasing(callbacks) && IdsBelow(callbacks, nextWorkId)
          invariant pending
        {
          ScheduleAllSnoc(start, during[..i], during[i]);
          assert during[..i + 1] == during[..i] + [during[i]];
          var _ := ScheduleWorkRaw(during[i]);
          i := i + 1;
        }
        assert during[..i] == during;
      }
      if |callbacks| > 0 {
        posted := posted + 1;
      } else {
        pending := false;
      }
    }

    /** One `scheduleWork` call made while a callback runs, when `pending` may be set over an empty queue. */
    method ScheduleWorkRaw(callback: C) returns (id: nat)
      requires nextWorkId >= 1 && Increasing(callbacks) && IdsBelow(callbacks, nextWorkId)
      modifies this
      ensures nextWorkId >= 1 && Increasing(callbacks) && IdsBelow(callbacks, nextWorkId)
      ensures (Snapshot(), id) == Schedule(old(Snapshot()), callback)
    {
      id := nextWorkId;
      nextWorkId := nextWorkId + 1;
      callbacks := callbacks + [Work(id, callback)];
      if !pending {
        pending := true;
        posted := posted + 1;
      }
    }

    /** `cancelWork(id)` */
    method CancelWork(id: nat)
      requires Valid()
      modifies this
      ensures Valid()
      ensures Snapshot() == Cancel(old(Snapshot()), id)
    {
      WithoutKeepsOrder(callbacks, id, nextWorkId);
      callbacks := Without(callbacks, id);
      if |callbacks| == 0 {
        pending := false;
      }
    }

    /** `cancelAllWork()` */
    method CancelAllWork()
      requires Valid()
      modifies this
      ensures Valid()
      ensures callbacks == [] && !pending
      ensures nextWorkId == old(nextWorkId) && posted == old(posted)
    {
      callbacks := [];
      pending := false;
    }

    /** `isPending()` */
    method IsPending() returns (p: bool)
      ensures p == pending
    {
      p := pending;
    }
  }

  /** Scheduling one more callback extends a run of `scheduleWork` calls by one step. */
  lemma {:induction false} ScheduleAllSnoc<C>(s: State<C>, cbs: seq<C>, cb: C)
    ensures ScheduleAll(s, cbs + [cb]).0 == Schedule(ScheduleAll(s, cbs).0, cb).0
    decreases |cbs|
  {
    if cbs == [] {
      assert [cb][1..] == [];
    } else {
      assert (cbs + [cb])[1..] == cbs[1..] + [cb];
      ScheduleAllSnoc(Schedule(s, cbs[0]).0, cbs[1..], cb);
    }
  }
}

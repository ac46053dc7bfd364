/**
 The thread pool seen from outside: requests are started in the order of their
 submission, done callbacks come in the order in which requests reached their
 loop, and a request that is cancelled while it waits never runs.
 */
module PoolTraces {
  import opened ThreadPool

  // ----------------------------------------------------- first in, first out

  /** Earlier requests stand before later ones. */
  predicate WorkInOrder(wq: seq<Entry>) {
    forall i, j :: 0 <= i < j < |wq| && wq[i].Work? && wq[j].Work? ==> wq[i].id < wq[j].id
  }

  predicate Rising(ids: seq<nat>) { forall i, j :: 0 <= i < j < |ids| ==> ids[i] < ids[j] }

  predicate QueuesInOrder(p: Pool) { WorkInOrder(p.wq) && Rising(p.pending) }

  lemma {:induction false} PickInOrder(wq: seq<Entry>, pending: seq<nat>, slowRunning: nat, limit: nat)
    requires Distinct(wq) && WorkInOrder(wq) && Rising(pending)
    ensures var r := Pick(wq, pending, slowRunning, limit);
            && WorkInOrder(r.wq) && Rising(r.pending)
            && (r.next.TakeWork? ==> forall e :: e in r.wq && e.Work? ==> r.next.id < e.id)
            && (r.next.TakeSlow? ==> forall id :: id in r.pending ==> r.next.id < id)
    decreases |wq|, if wq != [] && wq[0].Sentinel? then 1 else 0
  {
    if !MustWait(wq, slowRunning, limit) {
      var tail := wq[1..];
      assert WorkInOrder(tail) && WorkInOrder(tail + [Sentinel]);
      if wq[0].Sentinel? {
        assert Distinct(tail + [Sentinel]);
        if slowRunning >= limit {
          PickInOrder(tail + [Sentinel], pending, slowRunning, limit);
        } else if pending == [] {
          PickInOrder(tail, pending, slowRunning, limit);
        }
      }
    }
  }

  lemma {:induction false} WithoutWork(wq: seq<Entry>, x: Entry)
    requires Distinct(wq) && WorkInOrder(wq)
    ensures WorkInOrder(Without(wq, x))
  {
    if wq != [] {
      var rest := Without(wq[1..], x);
      WithoutWork(wq[1..], x);
      WithoutFacts(wq[1..], x);
      forall e | e in rest && e.Work? && wq[0].Work? ensures wq[0].id < e.id {
        var k :| 0 <= k < |wq[1..]| && wq[1..][k] == e;
        assert wq[k + 1] == e;
      }
      if wq[0] == x { assert Without(wq, x) == rest; } else { assert Without(wq, x) == [wq[0]] + rest; }
    }
  }

  lemma {:induction false} WithoutRising(ids: seq<nat>, x: nat)
    requires Distinct(ids) && Rising(ids)
    ensures Rising(Without(ids, x))
  {
    if ids != [] {
      var rest := Without(ids[1..], x);
      WithoutRising(ids[1..], x);
      WithoutFacts(ids[1..], x);
      forall y | y in rest ensures ids[0] < y {
        var k :| 0 <= k < |ids[1..]| && ids[1..][k] == y;
        assert ids[k + 1] == y;
      }
      assert forall j :: 0 <= j < |rest| ==> rest[j] in rest;
      if ids[0] == x { assert Without(ids, x) == rest; } else { assert Without(ids, x) == [ids[0]] + rest; }
    }
  }

  lemma SubmitInOrder(p: Pool, loop: nat, slow: bool, wake: nat)
    requires Safe(p) && QueuesInOrder(p)
    ensures QueuesInOrder(DoSubmit(p, loop, slow, wake))
  {
    hide Signal, OnWorkers, InLoops, History, Distinct;
    forall k | 0 <= k < |p.wq| && p.wq[k].Work? ensures p.wq[k].id < |p.items| { assert p.wq[k] in p.wq; }
    forall k | 0 <= k < |p.pending| ensures p.pending[k] < |p.items| { assert p.pending[k] in p.pending; }
  }

  lemma StepInOrder(p: Pool, step: Step)
    requires Safe(p) && QueuesInOrder(p) && Enabled(p, step)
    ensures QueuesInOrder(Apply(p, step))
  {
    match step {
      case Submit(loop, slow, wake) => SubmitInOrder(p, loop, slow, wake);
      case Enter(w, wake) =>
        PickInOrder(p.wq, p.pending, if p.workers[w] == Ready(true) && p.slowRunning > 0 then p.slowRunning - 1 else p.slowRunning, Threshold(|p.workers|));
      case CancelStart(id) =>
        WithoutWork(p.wq, Work(id));
        WithoutRising(p.pending, id);
      case _ =>
    }
  }

  lemma {:induction false} RunInOrder(run: seq<Pool>, steps: seq<Step>, i: nat)
    requires IsRun(run, steps) && i < |run|
    ensures QueuesInOrder(run[i])
  {
    hide Enabled, Apply, QueuesInOrder, Safe, Live, Init;
    if i > 0 {
      RunInOrder(run, steps, i - 1);
      RunInv(run, steps, i - 1);
      assert run[i - 1 + 1] == Apply(run[i - 1], steps[i - 1]);
      StepInOrder(run[i - 1], steps[i - 1]);
    } else {
      StartInOrder(run, steps);
    }
  }

  lemma StartInOrder(run: seq<Pool>, steps: seq<Step>)
    requires IsRun(run, steps)
    ensures QueuesInOrder(run[0])
  {
    hide Enabled, Apply;
  }

  /** Worker w takes up request id. */
  predicate Starts(p: Pool, q: Pool, w: nat, id: nat) {
    w < |p.workers| && w < |q.workers| && !p.workers[w].Running? && q.workers[w].Running? && q.workers[w].id == id
  }

  /**
   First in, first out: when a worker takes up a request, every request of the
   same kind that still waits was submitted after it.
   */
  lemma FirstInFirstOut(run: seq<Pool>, steps: seq<Step>, i: nat, w: nat, id: nat, later: nat)
    requires IsRun(run, steps) && i < |steps| && Starts(run[i], run[i + 1], w, id)
    requires later < |run[i + 1].items| && (run[i + 1].items[later].place.InQueue? || run[i + 1].items[later].place.InPending?)
    requires id < |run[i + 1].items| && run[i + 1].items[later].slow == run[i + 1].items[id].slow
    ensures id < later
  {
    RunInv(run, steps, i);
    RunInv(run, steps, i + 1);
    RunKinds(run, steps, i + 1);
    RunInOrder(run, steps, i);
    var p, q := run[i], run[i + 1];
    assert Enabled(p, steps[i]) && q == Apply(p, steps[i]);
    hide IsRun, Live;
    TakenFirst(p, steps[i], w, id, later);
  }

  function SlowLeft(p: Pool, w: nat): nat
    requires w < |p.workers|
  {
    if p.workers[w] == Ready(true) && p.slowRunning > 0 then p.slowRunning - 1 else p.slowRunning
  }

  /** Only a worker that gets the mutex takes up a request, the one it picks. */
  lemma StartsPicked(p: Pool, step: Step, w: nat, id: nat)
    requires Enabled(p, step) && Starts(p, Apply(p, step), w, id)
    ensures step.Enter? && step.w == w
    ensures var r := Pick(p.wq, p.pending, SlowLeft(p, w), Threshold(|p.workers|));
            (r.next == TakeWork(id) && !Apply(p, step).workers[w].slow) || (r.next == TakeSlow(id) && Apply(p, step).workers[w].slow)
  {
    hide Distinct, Pick, Without, CanWake;
  }

  lemma TakenFirst(p: Pool, step: Step, w: nat, id: nat, later: nat)
    requires Safe(p) && QueuesInOrder(p) && Enabled(p, step) && Safe(Apply(p, step)) && Kinds(Apply(p, step)) && Starts(p, Apply(p, step), w, id)
    requires var q := Apply(p, step);
             && id < |q.items| && later < |q.items| && q.items[later].slow == q.items[id].slow
             && (q.items[later].place.InQueue? || q.items[later].place.InPending?)
    ensures id < later
  {
    StartsPicked(p, step, w, id);
    EnteredFirst(p, w, step.wake, SlowLeft(p, w), later);
    var q := Apply(p, step);
    assert q.workers[w].slow == q.items[id].slow;
    assert q.items[later].place.InQueue? ==> !q.items[later].slow;
    hide Safe, QueuesInOrder, Enabled, Kinds, Pick;
  }

  lemma EnteredFirst(p: Pool, w: nat, wake: nat, slow: nat, later: nat)
    requires Safe(p) && QueuesInOrder(p) && Enabled(p, Enter(w, wake)) && Safe(DoEnter(p, w, wake)) && Kinds(DoEnter(p, w, wake))
    requires slow == SlowLeft(p, w)
    ensures var q, r := DoEnter(p, w, wake), Pick(p.wq, p.pending, slow, Threshold(|p.workers|));
            && (r.next.TakeWork? && later < |q.items| && q.items[later].place.InQueue? ==> r.next.id < later)
            && (r.next.TakeSlow? && later < |q.items| && q.items[later].place.InPending? ==> r.next.id < later)
  {
    var q, r := DoEnter(p, w, wake), Pick(p.wq, p.pending, slow, Threshold(|p.workers|));
    PickInOrder(p.wq, p.pending, slow, Threshold(|p.workers|));
    hide OnWorkers, InLoops, History, Distinct, Pick, Signal, Kinds;
    if later < |q.items| && q.items[later].place.InQueue? { assert Work(later) in q.wq; }
  }

  // ------------------------------------------------------- what loops see

  /** The request that a step brings to `loop`, finished by a worker or cancelled. */
  function Arriving(p: Pool, step: Step, loop: nat): seq<nat>
    requires Enabled(p, step)
  {
    match step
    case Finish(w) => if p.items[p.workers[w].id].loop == loop then [p.workers[w].id] else []
    case CancelPost(id) => if p.items[id].loop == loop then [id] else []
    case _ => []
  }

  /** The request whose done callback `loop` makes in a step. */
  function Calling(p: Pool, step: Step, loop: nat): seq<nat>
    requires Enabled(p, step)
  {
    if step == Callback(loop) then [p.loops[loop].local[0]] else []
  }

  ghost predicate Stepped(run: seq<Pool>, steps: seq<Step>, n: nat) {
    n <= |steps| < |run| && forall i {:trigger steps[i]} :: 0 <= i < n ==> Enabled(run[i], steps[i])
  }

  /** The requests that reached `loop` in the first n steps, in order. */
  ghost function Arrived(run: seq<Pool>, steps: seq<Step>, n: nat, loop: nat): seq<nat>
    requires Stepped(run, steps, n)
  {
    if n == 0 then [] else Arrived(run, steps, n - 1, loop) + Arriving(run[n - 1], steps[n - 1], loop)
  }

  /** The requests whose done callbacks `loop` has made, in order. */
  ghost function CalledBack(run: seq<Pool>, steps: seq<Step>, n: nat, loop: nat): seq<nat>
    requires Stepped(run, steps, n)
  {
    if n == 0 then [] else CalledBack(run, steps, n - 1, loop) + Calling(run[n - 1], steps[n - 1], loop)
  }

  lemma LoopStep(p: Pool, step: Step, loop: nat)
    requires Enabled(p, step) && loop < |p.loops|
    ensures var q := Apply(p, step);
            && |q.loops| == |p.loops|
            && Calling(p, step, loop) + q.loops[loop].local + q.loops[loop].wq ==
               p.loops[loop].local + p.loops[loop].wq + Arriving(p, step, loop)
  {
    hide Distinct, Pick, Signal, Without, CanWake;
  }

  /** The callback made is the one whose request gets one more outcome. */
  lemma CallingIsDone(p: Pool, step: Step, loop: nat, id: nat)
    requires Safe(p) && Enabled(p, step) && loop < |p.loops| && id < |p.items| && p.items[id].loop == loop
    ensures id < |Apply(p, step).items|
    ensures Apply(p, step).items[id].dones ==
            p.items[id].dones + if Calling(p, step, loop) == [id] then [if p.items[id].cancelled then ECANCELED else 0] else []
  {
    if step.Callback? {
      assert LoopHolds(p.loops[step.loop], step.loop, p.items) && p.loops[step.loop].local[0] in p.loops[step.loop].local;
      hide Safe;
    } else {
      hide Safe;
      DonesKept(p, step, id);
    }
  }

  lemma DonesKept(p: Pool, step: Step, id: nat)
    requires Enabled(p, step) && id < |p.items| && !step.Callback?
    ensures id < |Apply(p, step).items| && Apply(p, step).items[id].dones == p.items[id].dones
  {
    hide Distinct, Pick, Signal, Without, CanWake;
  }

  /** Every request that reached a loop is called back once, in the order of arrival. */
  lemma {:induction false} CalledInOrder(run: seq<Pool>, steps: seq<Step>, i: nat, loop: nat)
    requires IsRun(run, steps) && i < |run| && loop < |run[0].loops|
    ensures Stepped(run, steps, i) && |run[i].loops| == |run[0].loops|
    ensures CalledBack(run, steps, i, loop) + run[i].loops[loop].local + run[i].loops[loop].wq == Arrived(run, steps, i, loop)
  {
    hide Enabled, Apply, Init;
    if i == 0 { StartEmpty(run, steps, loop); } else {
      CalledInOrder(run, steps, i - 1, loop);
      var p, q, step := run[i - 1], run[i], steps[i - 1];
      assert Enabled(p, step) && q == Apply(p, step) by { assert run[i - 1 + 1] == Apply(run[i - 1], steps[i - 1]); }
      LoopStep(p, step, loop);
      hide IsRun, Calling, Arriving;
      Rotate(CalledBack(run, steps, i - 1, loop), Calling(p, step, loop), q.loops[loop].local, q.loops[loop].wq,
             p.loops[loop].local, p.loops[loop].wq, Arriving(p, step, loop));
    }
  }

  lemma Rotate(called: seq<nat>, now: seq<nat>, local: seq<nat>, wq: seq<nat>, local0: seq<nat>, wq0: seq<nat>, new0: seq<nat>)
    requires now + local + wq == local0 + wq0 + new0
    ensures called + now + local + wq == (called + local0 + wq0) + new0
  {
    assert called + now + local + wq == called + (now + local + wq);
    assert called + (local0 + wq0 + new0) == (called + local0 + wq0) + new0;
  }

  lemma StartEmpty(run: seq<Pool>, steps: seq<Step>, loop: nat)
    requires IsRun(run, steps) && loop < |run[0].loops|
    ensures run[0].loops[loop] == LoopQueue([], [])
  {
    hide Enabled, Apply;
  }

  // ------------------------------------------------------------ cancellation

  /** The request waits in one of the two queues. */
  predicate Queued(p: Pool, id: nat) { Work(id) in p.wq || id in p.pending }

  /** uv_cancel takes a request away exactly when it still waits for a worker; otherwise it changes nothing. */
  lemma CancelTakes(p: Pool, id: nat)
    requires Safe(p) && Enabled(p, CancelStart(id))
    ensures var q := Apply(p, CancelStart(id));
            && (Queued(p, id) ==> !Queued(q, id) && q.items[id].place.Cancelling?)
            && (!Queued(p, id) ==> q == p)
            && (forall other: nat :: other != id ==> (Queued(q, other) <==> Queued(p, other)))
  {
    WithoutFacts(p.wq, Work(id));
    WithoutFacts(p.pending, id);
    hide OnWorkers, InLoops, History, Distinct, Without;
  }

  /** On its way to a done callback with UV_ECANCELED. */
  predicate Lost(item: Item) {
    item.place.Cancelling? || (item.cancelled && (item.place.InLoop? || item.place.InLocal? || item.place.Finished?))
  }

  lemma LostStays(p: Pool, step: Step, id: nat)
    requires Safe(p) && Enabled(p, step) && id < |p.items| && Lost(p.items[id])
    ensures id < |Apply(p, step).items| && Lost(Apply(p, step).items[id])
  {
    match step {
      case Enter(w, wake) => EnterElse(p, w, wake, id); hide *;
      case Callback(loop) =>
        assert LoopHolds(p.loops[loop], loop, p.items) && p.loops[loop].local[0] in p.loops[loop].local;
        hide Distinct, History, InLoops, OnWorkers, Queues;
      case _ => hide Distinct, History, InLoops, Without, Pick, Signal, Queues;
    }
  }

  /** A worker takes only what waits in a queue. */
  lemma EnterElse(p: Pool, w: nat, wake: nat, id: nat)
    requires Safe(p) && Enabled(p, Enter(w, wake)) && id < |p.items| && !p.items[id].place.InQueue? && !p.items[id].place.InPending?
    ensures id < |Apply(p, Enter(w, wake)).items| && Apply(p, Enter(w, wake)).items[id] == p.items[id]
  {
    PickedWaits(p, SlowLeft(p, w), Threshold(|p.workers|));
    hide Safe, Pick, Signal, CanWake;
  }

  lemma {:induction false} LostFrom(run: seq<Pool>, steps: seq<Step>, i: nat, j: nat, id: nat)
    requires IsRun(run, steps) && i <= j < |run| && id < |run[i].items| && Lost(run[i].items[id])
    ensures id < |run[j].items| && Lost(run[j].items[id])
    decreases j - i
  {
    if i < j {
      hide Enabled, Apply, Safe, Live, Lost, Init;
      LostFrom(run, steps, i, j - 1, id);
      RunInv(run, steps, j - 1);
      assert run[j - 1 + 1] == Apply(run[j - 1], steps[j - 1]);
      LostStays(run[j - 1], steps[j - 1], id);
    }
  }

  /** A request cancelled while it waits never runs, and its done callback gets UV_ECANCELED or has not come. */
  lemma CancelledNeverRuns(run: seq<Pool>, steps: seq<Step>, i: nat, j: nat, id: nat)
    requires IsRun(run, steps) && i < j < |run| && steps[i] == CancelStart(id) && Queued(run[i], id)
    ensures id < |run[j].items| && run[j].items[id].runs == 0
    ensures run[j].items[id].dones == [] || run[j].items[id].dones == [ECANCELED]
  {
    RunInv(run, steps, i);
    assert Enabled(run[i], steps[i]) && run[i + 1] == Apply(run[i], steps[i]);
    hide Apply, Enabled, Live, Safe, Queued;
    CancelTakes(run[i], id);
    CancelledThere(run[i], id);
    LostFrom(run, steps, i + 1, j, id);
    RunInv(run, steps, j);
    LostHistory(run[j], id);
  }

  lemma CancelledThere(p: Pool, id: nat)
    requires Enabled(p, CancelStart(id))
    ensures id < |p.items| && |Apply(p, CancelStart(id)).items| == |p.items|
  {
    hide Without;
  }

  lemma LostHistory(p: Pool, id: nat)
    requires Safe(p) && id < |p.items| && Lost(p.items[id])
    ensures p.items[id].runs == 0 && (p.items[id].dones == [] || p.items[id].dones == [ECANCELED])
  {
    assert History(p.items[id]);
    hide Queues, OnWorkers, InLoops;
  }

  /** No step cancels a request, or has it post as cancelled, that was not asked to. */
  lemma NotAsked(p: Pool, step: Step, id: nat)
    requires Safe(p) && Enabled(p, step) && id < |p.items| && !Lost(p.items[id]) && step != CancelStart(id)
    ensures id < |Apply(p, step).items| && !Lost(Apply(p, step).items[id])
  {
    if step.Callback? { assert LoopHolds(p.loops[step.loop], step.loop, p.items) && p.loops[step.loop].local[0] in p.loops[step.loop].local; }
    if step.Collect? { assert LoopHolds(p.loops[step.loop], step.loop, p.items); }
    hide Distinct, History, InLoops, Without, Pick, Signal, Queues;
  }

  /** Only requests that were asked to be cancelled get UV_ECANCELED; the done callback of any other gets 0. */
  lemma {:induction false} OthersComplete(run: seq<Pool>, steps: seq<Step>, i: nat, id: nat)
    requires IsRun(run, steps) && i < |run| && id < |run[i].items| && forall m :: 0 <= m < i ==> steps[m] != CancelStart(id)
    ensures !Lost(run[i].items[id]) && (run[i].items[id].dones == [] || run[i].items[id].dones == [0])
  {
    RunInv(run, steps, i);
    NeverLost(run, steps, i, id);
    hide IsRun, Live;
    OtherHistory(run[i], id);
  }

  lemma OtherHistory(p: Pool, id: nat)
    requires Safe(p) && id < |p.items| && !Lost(p.items[id])
    ensures p.items[id].dones == [] || p.items[id].dones == [0]
  {
    assert History(p.items[id]);
    hide Queues, OnWorkers, InLoops;
  }

  lemma {:induction false} NeverLost(run: seq<Pool>, steps: seq<Step>, i: nat, id: nat)
    requires IsRun(run, steps) && i < |run| && id < |run[i].items| && forall m :: 0 <= m < i ==> steps[m] != CancelStart(id)
    ensures !Lost(run[i].items[id])
  {
    if i == 0 { NoItems(run, steps); } else {
      hide Enabled, Apply, Safe, Live, Lost, Init;
      var p, step := run[i - 1], steps[i - 1];
      assert run[i - 1 + 1] == Apply(p, step);
      RunInv(run, steps, i - 1);
      if id < |p.items| {
        NeverLost(run, steps, i - 1, id);
        NotAsked(p, step, id);
      } else {
        NewNotLost(p, step, id);
      }
    }
  }

  lemma NoItems(run: seq<Pool>, steps: seq<Step>)
    requires IsRun(run, steps)
    ensures run[0].items == []
  {
    hide Enabled, Apply;
  }

  lemma NewNotLost(p: Pool, step: Step, id: nat)
    requires Enabled(p, step) && |p.items| <= id < |Apply(p, step).items|
    ensures !Lost(Apply(p, step).items[id])
  {
    hide Distinct, Pick, Signal, Without, CanWake;
  }
}

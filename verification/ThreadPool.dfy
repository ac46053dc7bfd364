/**
 threadpool.c: worker threads sharing a queue, with at most half of them on slow
 I/O, cancellation, and completion through the event loops. Each step is one
 critical section; workers, submitters, cancellers and loops interleave freely.
 */
module ThreadPool {

  datatype Entry = Work(id: nat) | Sentinel          // run_slow_work_message

  datatype Worker =
    | Ready(slow: bool)          // about to lock the mutex; slow: has to give its slow slot back first
    | Waiting                    // in uv_cond_wait, not signalled
    | Woken                      // signalled, about to relock the mutex
    | Running(id: nat, slow: bool)

  datatype Place = InQueue | InPending | OnWorker | Cancelling | InLoop | InLocal | Finished

  const ECANCELED := -125

  /** A request, its kind, where it is, and its history: how often it ran, what its done callback got. */
  datatype Item = Item(loop: nat, slow: bool, place: Place, cancelled: bool, runs: nat, dones: seq<int>)

  datatype LoopQueue = LoopQueue(wq: seq<nat>, local: seq<nat>)

  datatype Pool = Pool(
    wq: seq<Entry>,
    pending: seq<nat>,           // slow_io_pending_wq
    idle: nat,
    slowRunning: nat,
    workers: seq<Worker>,
    items: seq<Item>,
    loops: seq<LoopQueue>
  )

  function Threshold(n: nat): nat { (n + 1) / 2 }

  // ------------------------------------------------ what a worker does next

  datatype Next = Sleep | TakeWork(id: nat) | TakeSlow(id: nat)
  datatype Picked = Picked(next: Next, wq: seq<Entry>, pending: seq<nat>)

  predicate Distinct<T(==)>(s: seq<T>) {
    forall i, j :: 0 <= i < j < |s| ==> s[i] != s[j]
  }

  predicate MustWait(wq: seq<Entry>, slowRunning: nat, limit: nat) {
    wq == [] || (wq == [Sentinel] && slowRunning >= limit)
  }

  /** The worker's decision, from holding the mutex to releasing it. */
  function Pick(wq: seq<Entry>, pending: seq<nat>, slowRunning: nat, limit: nat): Picked
    requires Distinct(wq)
    decreases |wq|, if wq != [] && wq[0].Sentinel? then 1 else 0
  {
    if MustWait(wq, slowRunning, limit) then Picked(Sleep, wq, pending)
    else if wq[0].Work? then Picked(TakeWork(wq[0].id), wq[1..], pending)
    else if slowRunning >= limit then
      Pick(wq[1..] + [Sentinel], pending, slowRunning, limit)
    else if pending == [] then
      Pick(wq[1..], pending, slowRunning, limit)
    else
      Picked(TakeSlow(pending[0]), wq[1..] + (if |pending| > 1 then [Sentinel] else []), pending[1..])
  }

  /** The loop of worker() that makes it, entry by entry. */
  method NextWork(wq0: seq<Entry>, pending0: seq<nat>, slowRunning: nat, limit: nat) returns (r: Picked)
    requires Distinct(wq0)
    ensures r == Pick(wq0, pending0, slowRunning, limit)
  {
    var wq, pending := wq0, pending0;
    while true
      invariant Distinct(wq) && Pick(wq, pending, slowRunning, limit) == Pick(wq0, pending0, slowRunning, limit)
      decreases |wq|, if wq != [] && wq[0].Sentinel? then 1 else 0
    {
      if wq == [] || (wq[0] == Sentinel && |wq| == 1 && slowRunning >= limit) {
        return Picked(Sleep, wq, pending);
      }
      var q := wq[0];
      wq := wq[1..];
      if q == Sentinel {
        if slowRunning >= limit {
          wq := wq + [q];
          continue;
        }
        if pending == [] { continue; }
        var id := pending[0];
        pending := pending[1..];
        if pending != [] { wq := wq + [Sentinel]; }
        return Picked(TakeSlow(id), wq, pending);
      }
      return Picked(TakeWork(q.id), wq, pending);
    }
  }

  // ------------------------------------------------------------------- steps

  datatype Step =
    | Submit(loop: nat, slow: bool, wake: nat)
    | Enter(w: nat, wake: nat)                  // worker w gets the mutex
    | Spurious(w: nat)
    | Finish(w: nat)                            // w->work(w) has run, the request goes to its loop
    | CancelStart(id: nat)
    | CancelPost(id: nat)
    | Collect(loop: nat)                        // QUEUE_MOVE in uv__work_done
    | Callback(loop: nat)                       // one done callback

  predicate AnyWaiting(ws: seq<Worker>) { exists i :: 0 <= i < |ws| && ws[i].Waiting? }

  /** A signal goes to a waiting worker if there is one. */
  predicate CanWake(ws: seq<Worker>, wake: nat) {
    AnyWaiting(ws) ==> wake < |ws| && ws[wake].Waiting?
  }

  /** `if (idle_threads > 0) uv_cond_signal(&cond);` */
  function Signal(ws: seq<Worker>, idle: nat, wake: nat): seq<Worker> {
    if idle > 0 && wake < |ws| && ws[wake].Waiting? then ws[wake := Woken] else ws
  }

  function SetPlace(items: seq<Item>, id: nat, place: Place): seq<Item> {
    if id < |items| then items[id := items[id].(place := place)] else items
  }

  function Post(p: Pool, entry: Entry, wake: nat): Pool {
    p.(wq := p.wq + [entry], workers := Signal(p.workers, p.idle, wake))
  }

  function DoSubmit(p: Pool, loop: nat, slow: bool, wake: nat): Pool {
    var id := |p.items|;
    var p1 := p.(items := p.items + [Item(loop, slow, if slow then InPending else InQueue, false, 0, [])]);
    if !slow then Post(p1, Work(id), wake)
    else if Sentinel in p.wq then p1.(pending := p.pending + [id])
    else Post(p1.(pending := p.pending + [id]), Sentinel, wake)
  }

  function Slept(p: Pool, w: nat, r: Picked, idle: nat, slow: nat): Pool
    requires w < |p.workers|
  {
    p.(wq := r.wq, pending := r.pending, idle := idle + 1, slowRunning := slow, workers := p.workers[w := Waiting])
  }

  function TookWork(p: Pool, w: nat, id: nat, r: Picked, idle: nat, slow: nat): Pool
    requires w < |p.workers|
  {
    p.(wq := r.wq, pending := r.pending, idle := idle, slowRunning := slow,
       workers := p.workers[w := Running(id, false)], items := SetPlace(p.items, id, OnWorker))
  }

  function TookSlow(p: Pool, w: nat, id: nat, r: Picked, idle: nat, slow: nat, wake: nat): Pool
    requires w < |p.workers|
  {
    var ws := p.workers[w := Running(id, true)];
    p.(wq := r.wq, pending := r.pending, idle := idle, slowRunning := slow + 1,
       workers := if r.pending != [] then Signal(ws, idle, wake) else ws, items := SetPlace(p.items, id, OnWorker))
  }

  function DoEnter(p: Pool, w: nat, wake: nat): Pool
    requires w < |p.workers| && Distinct(p.wq)
  {
    var idle := if p.workers[w].Woken? && p.idle > 0 then p.idle - 1 else p.idle;
    var slow := if p.workers[w] == Ready(true) && p.slowRunning > 0 then p.slowRunning - 1 else p.slowRunning;
    var r := Pick(p.wq, p.pending, slow, Threshold(|p.workers|));
    match r.next
    case Sleep => Slept(p, w, r, idle, slow)
    case TakeWork(id) => TookWork(p, w, id, r, idle, slow)
    case TakeSlow(id) => TookSlow(p, w, id, r, idle, slow, wake)
  }

  function ToLoop(p: Pool, id: nat, cancelled: bool, runs: nat): Pool
    requires id < |p.items| && p.items[id].loop < |p.loops|
  {
    var item := p.items[id];
    var l := p.loops[item.loop];
    p.(items := p.items[id := item.(place := InLoop, cancelled := cancelled, runs := runs)],
       loops := p.loops[item.loop := l.(wq := l.wq + [id])])
  }

  function Without<T(==)>(s: seq<T>, x: T): seq<T> {
    if s == [] then [] else (if s[0] == x then [] else [s[0]]) + Without(s[1..], x)
  }

  /** `!QUEUE_EMPTY(&w->wq) && w->work != NULL`, for a request not cancelled before. */
  predicate Cancellable(p: Pool, id: nat) {
    id < |p.items| && (p.items[id].place.InQueue? || p.items[id].place.InPending?)
  }

  /** uv__work_cancel's first half; a request past cancelling is left alone (UV_EBUSY). */
  function DoCancelStart(p: Pool, id: nat): Pool {
    if Cancellable(p, id) then
      p.(wq := Without(p.wq, Work(id)), pending := Without(p.pending, id), items := SetPlace(p.items, id, Cancelling))
    else p
  }

  function Status(item: Item): int { if item.cancelled then ECANCELED else 0 }

  predicate Guard(p: Pool, step: Step) {
    match step
    case Submit(loop, _, wake) => loop < |p.loops| && CanWake(p.workers, wake)
    case Enter(w, wake) =>
      w < |p.workers| && (p.workers[w].Ready? || p.workers[w].Woken?) && CanWake(p.workers, wake)
    case Spurious(w) => w < |p.workers| && p.workers[w].Waiting?
    case Finish(w) => w < |p.workers| && p.workers[w].Running?
    case CancelStart(id) => id < |p.items| && !p.items[id].cancelled && !p.items[id].place.Cancelling?
    case CancelPost(id) => id < |p.items| && p.items[id].place.Cancelling?
    case Collect(loop) => loop < |p.loops| && p.loops[loop].local == []
    case Callback(loop) => loop < |p.loops| && p.loops[loop].local != []
  }

  /** What the code of a step relies on: no entry queued twice, and requests and loops that exist. */
  predicate Defined(p: Pool, step: Step)
    requires Guard(p, step)
  {
    match step
    case Enter(_, _) => Distinct(p.wq)
    case Finish(w) => p.workers[w].id < |p.items| && p.items[p.workers[w].id].loop < |p.loops|
    case CancelPost(id) => p.items[id].loop < |p.loops|
    case Callback(loop) => p.loops[loop].local[0] < |p.items|
    case _ => true
  }

  predicate Enabled(p: Pool, step: Step) { Guard(p, step) && Defined(p, step) }

  function Apply(p: Pool, step: Step): Pool
    requires Enabled(p, step)
  {
    match step
    case Submit(loop, slow, wake) => DoSubmit(p, loop, slow, wake)
    case Enter(w, wake) => DoEnter(p, w, wake)
    case Spurious(w) => p.(workers := p.workers[w := Woken])
    case Finish(w) =>
      var id := p.workers[w].id;
      ToLoop(p, id, false, p.items[id].runs + 1).(workers := p.workers[w := Ready(p.workers[w].slow)])
    case CancelStart(id) => DoCancelStart(p, id)
    case CancelPost(id) => ToLoop(p, id, true, p.items[id].runs)
    case Collect(loop) =>
      p.(loops := p.loops[loop := LoopQueue([], p.loops[loop].wq)],
         items := Moved(p.items, p.loops[loop].wq))
    case Callback(loop) =>
      var l := p.loops[loop];
      var id := l.local[0];
      p.(loops := p.loops[loop := l.(local := l.local[1..])],
         items := p.items[id := p.items[id].(place := Finished, dones := p.items[id].dones + [Status(p.items[id])])])
  }

  function Moved(items: seq<Item>, ids: seq<nat>): seq<Item> {
    seq(|items|, i requires 0 <= i < |items| => if i in ids then items[i].(place := InLocal) else items[i])
  }

  // --------------------------------------------------------------- invariants

  /** Every queue holds a request at most once, and exactly the requests placed there. */
  predicate Queues(wq: seq<Entry>, pending: seq<nat>, items: seq<Item>) {
    && Distinct(wq) && Distinct(pending)
    && (forall e :: e in wq ==> e.Sentinel? || (e.id < |items| && items[e.id].place.InQueue?))
    && (forall id :: id in pending ==> id < |items| && items[id].place.InPending?)
    && (forall i :: 0 <= i < |items| && items[i].place.InQueue? ==> Work(i) in wq)
    && (forall i :: 0 <= i < |items| && items[i].place.InPending? ==> i in pending)
  }

  predicate Holds(w: Worker, id: nat) { w.Running? && w.id == id }

  predicate OnWorkers(ws: seq<Worker>, items: seq<Item>) {
    && (forall w :: 0 <= w < |ws| && ws[w].Running? ==> ws[w].id < |items| && items[ws[w].id].place.OnWorker?)
    && (forall v, w :: 0 <= v < w < |ws| && ws[v].Running? ==> !Holds(ws[w], ws[v].id))
    && (forall i :: 0 <= i < |items| && items[i].place.OnWorker? ==> exists w :: 0 <= w < |ws| && Holds(ws[w], i))
  }

  predicate InLoops(loops: seq<LoopQueue>, items: seq<Item>) {
    && (forall i :: 0 <= i < |items| ==> items[i].loop < |loops|)
    && (forall l :: 0 <= l < |loops| ==> LoopHolds(loops[l], l, items))
  }

  predicate LoopHolds(q: LoopQueue, l: nat, items: seq<Item>) {
    && Distinct(q.wq) && Distinct(q.local)
    && (forall id :: id in q.wq ==> id < |items| && items[id].place.InLoop? && items[id].loop == l)
    && (forall id :: id in q.local ==> id < |items| && items[id].place.InLocal? && items[id].loop == l)
    && (forall i :: 0 <= i < |items| && items[i].loop == l && items[i].place.InLoop? ==> i in q.wq)
    && (forall i :: 0 <= i < |items| && items[i].loop == l && items[i].place.InLocal? ==> i in q.local)
  }

  /** What has happened to a request, by where it is. */
  predicate History(item: Item) {
    match item.place
    case InLoop => item.runs == (if item.cancelled then 0 else 1) && item.dones == []
    case InLocal => item.runs == (if item.cancelled then 0 else 1) && item.dones == []
    case Finished => item.runs == (if item.cancelled then 0 else 1) && item.dones == [Status(item)]
    case _ => !item.cancelled && item.runs == 0 && item.dones == []
  }

  predicate Safe(p: Pool) {
    && |p.workers| > 0
    && Queues(p.wq, p.pending, p.items)
    && OnWorkers(p.workers, p.items)
    && InLoops(p.loops, p.items)
    && (forall i :: 0 <= i < |p.items| ==> History(p.items[i]))
  }

  // ---------------------------------------------------------- what Pick keeps

  predicate SameWork(a: seq<Entry>, b: seq<Entry>) {
    (forall e :: e in a && e.Work? ==> e in b) && (forall e :: e in b && e.Work? ==> e in a)
  }

  lemma {:induction false} PickFacts(wq: seq<Entry>, pending: seq<nat>, slowRunning: nat, limit: nat)
    requires Distinct(wq)
    ensures var r := Pick(wq, pending, slowRunning, limit);
            && Distinct(r.wq)
            && (r.next.Sleep? ==> r.pending == pending && SameWork(r.wq, wq) && MustWait(r.wq, slowRunning, limit) && |r.wq| <= |wq|)
            && (r.next.TakeWork? ==> r.pending == pending && Work(r.next.id) !in r.wq && SameWork([Work(r.next.id)] + r.wq, wq) && |r.wq| < |wq|)
            && (r.next.TakeSlow? ==> pending != [] && r.next.id == pending[0] && r.pending == pending[1..] && slowRunning < limit
                                     && SameWork(r.wq, wq) && Sentinel in wq && |r.wq| == |wq| - 1 + (if |pending| > 1 then 1 else 0))
            && (Sentinel in r.wq ==> Sentinel in wq)
            && ((r.pending != [] || slowRunning >= limit) && Sentinel in wq ==> Sentinel in r.wq)
    decreases |wq|, if wq != [] && wq[0].Sentinel? then 1 else 0
  {
    if MustWait(wq, slowRunning, limit) {
    } else {
      var tail := wq[1..];
      assert wq == [wq[0]] + tail;
      if wq[0].Work? {
      } else if slowRunning >= limit {
        assert Distinct(tail + [Sentinel]);
        PickFacts(tail + [Sentinel], pending, slowRunning, limit);
      } else if pending == [] {
        PickFacts(tail, pending, slowRunning, limit);
      } else {
        assert Distinct(tail + [Sentinel]);
      }
    }
  }

  lemma Consed<T>(x: T, s: seq<T>)
    requires Distinct(s) && x !in s
    ensures Distinct([x] + s)
  {
  }

  lemma {:induction false} WithoutFacts<T>(s: seq<T>, x: T)
    requires Distinct(s)
    ensures Distinct(Without(s, x)) && |Without(s, x)| <= |s|
    ensures forall y :: y in Without(s, x) <==> y in s && y != x
  {
    if s != [] {
      assert s == [s[0]] + s[1..];
      WithoutFacts(s[1..], x);
      if s[0] != x { Consed(s[0], Without(s[1..], x)); } else { assert [] + Without(s[1..], x) == Without(s[1..], x); }
    }
  }

  lemma Appended<T>(s: seq<T>, x: T)
    requires Distinct(s) && x !in s
    ensures Distinct(s + [x])
  {
  }

  lemma Tail<T>(s: seq<T>)
    requires Distinct(s) && s != []
    ensures Distinct(s[1..]) && s[0] !in s[1..] && forall y :: y in s <==> y == s[0] || y in s[1..]
  {
    assert s == [s[0]] + s[1..];
  }

  // ------------------------------------------- changing one request's place

  predicate AllHistory(items: seq<Item>) { forall i :: 0 <= i < |items| ==> History(items[i]) }

  lemma WorkersSame(ws: seq<Worker>, items: seq<Item>, items': seq<Item>)
    requires OnWorkers(ws, items) && |items| <= |items'|
    requires forall i :: 0 <= i < |items| ==> (items[i].place.OnWorker? <==> items'[i].place.OnWorker?)
    requires forall i :: |items| <= i < |items'| ==> !items'[i].place.OnWorker?
    ensures OnWorkers(ws, items')
  {
  }

  lemma QueuesSame(wq: seq<Entry>, pending: seq<nat>, items: seq<Item>, items': seq<Item>)
    requires Queues(wq, pending, items) && |items| == |items'|
    requires forall i :: 0 <= i < |items| ==> (items[i].place.InQueue? <==> items'[i].place.InQueue?)
                                              && (items[i].place.InPending? <==> items'[i].place.InPending?)
    ensures Queues(wq, pending, items')
  {
    hide Distinct;
  }

  predicate OffLoop(item: Item) { !item.place.InLoop? && !item.place.InLocal? }

  lemma LoopsSame(loops: seq<LoopQueue>, items: seq<Item>, items': seq<Item>)
    requires InLoops(loops, items) && |items| <= |items'|
    requires forall i :: 0 <= i < |items| ==> items'[i] == items[i] || (items'[i].loop == items[i].loop && OffLoop(items[i]) && OffLoop(items'[i]))
    requires forall i :: |items| <= i < |items'| ==> OffLoop(items'[i]) && items'[i].loop < |loops|
    ensures InLoops(loops, items')
  {
    hide Distinct;
    forall l | 0 <= l < |loops| ensures LoopHolds(loops[l], l, items') {
      assert LoopHolds(loops[l], l, items);
    }
  }

  // -------------------------------------------------------------- steps are safe

  lemma SignalKeeps(ws: seq<Worker>, idle: nat, wake: nat, items: seq<Item>)
    ensures |Signal(ws, idle, wake)| == |ws|
    ensures OnWorkers(ws, items) ==> OnWorkers(Signal(ws, idle, wake), items)
  {
    var t := Signal(ws, idle, wake);
    if OnWorkers(ws, items) {
      forall i | 0 <= i < |items| && items[i].place.OnWorker? ensures exists w :: 0 <= w < |t| && Holds(t[w], i) {
        var w :| 0 <= w < |ws| && Holds(ws[w], i);
        assert Holds(t[w], i);
      }
    }
  }

  lemma SubmitQueues(wq: seq<Entry>, pending: seq<nat>, items: seq<Item>, item: Item, slow: bool)
    requires Queues(wq, pending, items) && item.place == if slow then InPending else InQueue
    ensures !slow ==> Queues(wq + [Work(|items|)], pending, items + [item])
    ensures slow ==> Queues(wq, pending + [|items|], items + [item])
    ensures slow && Sentinel !in wq ==> Queues(wq + [Sentinel], pending + [|items|], items + [item])
  {
    if slow { Appended(pending, |items|); } else { Appended(wq, Work(|items|)); }
    if Sentinel !in wq { Appended(wq, Sentinel); }
    hide Distinct;
  }

  lemma SubmitSafe(p: Pool, loop: nat, slow: bool, wake: nat)
    requires Safe(p) && Enabled(p, Submit(loop, slow, wake))
    ensures Safe(DoSubmit(p, loop, slow, wake))
  {
    hide Queues, OnWorkers, InLoops, Signal;
    var q := DoSubmit(p, loop, slow, wake);
    SubmitQueues(p.wq, p.pending, p.items, q.items[|p.items|], slow);
    WorkersSame(p.workers, p.items, q.items);
    SignalKeeps(p.workers, p.idle, wake, q.items);
    LoopsSame(p.loops, p.items, q.items);
  }

  /** Taking a request off the queues, onto a worker or away by cancellation. */
  lemma QueuesTake(wq: seq<Entry>, pending: seq<nat>, items: seq<Item>, id: nat, wq': seq<Entry>, pending': seq<nat>, place: Place)
    requires Queues(wq, pending, items) && id < |items| && Distinct(wq') && Distinct(pending')
    requires place != InQueue && place != InPending
    requires forall e :: e in wq' && e.Work? <==> e in wq && e.Work? && e != Work(id)
    requires forall i :: i in pending' <==> i in pending && i != id
    ensures Queues(wq', pending', SetPlace(items, id, place))
  {
    hide Distinct;
  }

  lemma QueuesSleep(wq: seq<Entry>, pending: seq<nat>, items: seq<Item>, wq': seq<Entry>)
    requires Queues(wq, pending, items) && Distinct(wq') && SameWork(wq', wq)
    ensures Queues(wq', pending, items)
  {
    hide Distinct;
  }

  /** A worker that held nothing takes up a request, or stays without one. */
  lemma WorkersTake(ws: seq<Worker>, items: seq<Item>, w: nat, id: nat, slow: bool)
    requires OnWorkers(ws, items) && w < |ws| && !ws[w].Running? && id < |items| && !items[id].place.OnWorker?
    ensures OnWorkers(ws[w := Running(id, slow)], SetPlace(items, id, OnWorker))
  {
    var t, items' := ws[w := Running(id, slow)], SetPlace(items, id, OnWorker);
    assert Holds(t[w], id);
    forall i | 0 <= i < |items'| && items'[i].place.OnWorker? ensures exists v :: 0 <= v < |t| && Holds(t[v], i) {
      if i != id {
        var v :| 0 <= v < |ws| && Holds(ws[v], i);
        assert Holds(t[v], i);
      }
    }
  }

  lemma WorkersRest(ws: seq<Worker>, items: seq<Item>, w: nat, state: Worker)
    requires OnWorkers(ws, items) && w < |ws| && !ws[w].Running? && !state.Running?
    ensures OnWorkers(ws[w := state], items)
  {
    var t := ws[w := state];
    forall i | 0 <= i < |items| && items[i].place.OnWorker? ensures exists v :: 0 <= v < |t| && Holds(t[v], i) {
      var v :| 0 <= v < |ws| && Holds(ws[v], i);
      assert Holds(t[v], i);
    }
  }

  lemma WorkersRelease(ws: seq<Worker>, items: seq<Item>, w: nat, state: Worker, items': seq<Item>)
    requires OnWorkers(ws, items) && w < |ws| && ws[w].Running? && !state.Running? && |items'| == |items|
    requires forall i :: 0 <= i < |items| && i != ws[w].id ==> items'[i] == items[i]
    requires ws[w].id < |items| && !items'[ws[w].id].place.OnWorker?
    ensures OnWorkers(ws[w := state], items')
  {
    var t := ws[w := state];
    forall i | 0 <= i < |items'| && items'[i].place.OnWorker? ensures exists v :: 0 <= v < |t| && Holds(t[v], i) {
      var v :| 0 <= v < |ws| && Holds(ws[v], i);
      assert Holds(t[v], i);
    }
  }

  lemma TakeHistory(items: seq<Item>, id: nat, place: Place)
    requires AllHistory(items) && id < |items| && (items[id].place.InQueue? || items[id].place.InPending?)
    requires place == OnWorker || place == Cancelling
    ensures AllHistory(SetPlace(items, id, place))
  {
  }

  lemma EnterTakes(p: Pool, w: nat, id: nat, slow: bool, wq': seq<Entry>, pending': seq<nat>)
    requires Safe(p) && w < |p.workers| && !p.workers[w].Running? && id < |p.items|
    requires p.items[id].place.InQueue? || p.items[id].place.InPending?
    requires Queues(wq', pending', SetPlace(p.items, id, OnWorker))
    ensures var items := SetPlace(p.items, id, OnWorker);
            OnWorkers(p.workers[w := Running(id, slow)], items) && InLoops(p.loops, items) && AllHistory(items)
  {
    hide Queues, OnWorkers, InLoops;
    WorkersTake(p.workers, p.items, w, id, slow);
    LoopsSame(p.loops, p.items, SetPlace(p.items, id, OnWorker));
    TakeHistory(p.items, id, OnWorker);
  }

  lemma EnterSafe(p: Pool, w: nat, wake: nat)
    requires Safe(p) && Enabled(p, Enter(w, wake))
    ensures Safe(DoEnter(p, w, wake))
  {
    var slow := if p.workers[w] == Ready(true) && p.slowRunning > 0 then p.slowRunning - 1 else p.slowRunning;
    var r := Pick(p.wq, p.pending, slow, Threshold(|p.workers|));
    PickFacts(p.wq, p.pending, slow, Threshold(|p.workers|));
    match r.next {
      case Sleep =>
        hide OnWorkers, InLoops, Pick, Distinct, MustWait;
        QueuesSleep(p.wq, p.pending, p.items, r.wq);
        hide Queues;
        WorkersRest(p.workers, p.items, w, Waiting);
      case TakeWork(id) =>
        EnterWork(p, w, id, r);
        hide OnWorkers, InLoops, Pick, Distinct, Queues;
      case TakeSlow(id) =>
        EnterSlow(p, w, id, r);
        hide OnWorkers, InLoops, Pick, Distinct, Queues, Signal;
        var ws := p.workers[w := Running(id, true)];
        SignalKeeps(ws, if p.workers[w].Woken? && p.idle > 0 then p.idle - 1 else p.idle, wake, SetPlace(p.items, id, OnWorker));
    }
  }

  lemma EnterWork(p: Pool, w: nat, id: nat, r: Picked)
    requires Safe(p) && w < |p.workers| && !p.workers[w].Running? && Distinct(r.wq) && r.pending == p.pending
    requires Work(id) !in r.wq && SameWork([Work(id)] + r.wq, p.wq)
    ensures var items := SetPlace(p.items, id, OnWorker);
            && Queues(r.wq, r.pending, items) && OnWorkers(p.workers[w := Running(id, false)], items)
            && InLoops(p.loops, items) && AllHistory(items)
  {
    hide OnWorkers, InLoops, Distinct;
    assert Work(id) in [Work(id)] + r.wq;
    QueuesTake(p.wq, p.pending, p.items, id, r.wq, r.pending, OnWorker);
    EnterTakes(p, w, id, false, r.wq, r.pending);
  }

  lemma EnterSlow(p: Pool, w: nat, id: nat, r: Picked)
    requires Safe(p) && w < |p.workers| && !p.workers[w].Running? && Distinct(r.wq) && SameWork(r.wq, p.wq)
    requires p.pending != [] && id == p.pending[0] && r.pending == p.pending[1..]
    ensures var items := SetPlace(p.items, id, OnWorker);
            && Queues(r.wq, r.pending, items) && OnWorkers(p.workers[w := Running(id, true)], items)
            && InLoops(p.loops, items) && AllHistory(items)
  {
    Tail(p.pending);
    hide OnWorkers, InLoops, Distinct;
    assert id in p.pending;
    QueuesTake(p.wq, p.pending, p.items, id, r.wq, r.pending, OnWorker);
    EnterTakes(p, w, id, true, r.wq, r.pending);
  }

  lemma CancelSafe(p: Pool, id: nat)
    requires Safe(p)
    ensures Safe(DoCancelStart(p, id))
  {
    if Cancellable(p, id) {
      WithoutFacts(p.wq, Work(id));
      WithoutFacts(p.pending, id);
      hide OnWorkers, InLoops, Distinct, Without;
      QueuesTake(p.wq, p.pending, p.items, id, Without(p.wq, Work(id)), Without(p.pending, id), Cancelling);
      hide Queues;
      WorkersSame(p.workers, p.items, SetPlace(p.items, id, Cancelling));
      LoopsSame(p.loops, p.items, SetPlace(p.items, id, Cancelling));
      TakeHistory(p.items, id, Cancelling);
    }
  }

  /** A request that is on no loop's queue arrives on its own loop's. */
  lemma LoopsArrive(p: Pool, id: nat, cancelled: bool, runs: nat)
    requires InLoops(p.loops, p.items) && id < |p.items| && OffLoop(p.items[id])
    ensures InLoops(ToLoop(p, id, cancelled, runs).loops, ToLoop(p, id, cancelled, runs).items)
  {
    var q, l0 := ToLoop(p, id, cancelled, runs), p.items[id].loop;
    forall l | 0 <= l < |p.loops| ensures LoopHolds(q.loops[l], l, q.items) {
      assert LoopHolds(p.loops[l], l, p.items);
      if l == l0 { Appended(p.loops[l].wq, id); }
    }
  }

  lemma FinishSafe(p: Pool, w: nat)
    requires Safe(p) && Enabled(p, Finish(w))
    ensures Safe(Apply(p, Finish(w)))
  {
    var q, id := Apply(p, Finish(w)), p.workers[w].id;
    assert p.items[id].place.OnWorker? && p.items[id].loop < |p.loops|;
    hide Queues, OnWorkers, InLoops;
    QueuesSame(p.wq, p.pending, p.items, q.items);
    WorkersRelease(p.workers, p.items, w, Ready(p.workers[w].slow), q.items);
    LoopsArrive(p, id, false, p.items[id].runs + 1);
  }

  lemma CancelPostSafe(p: Pool, id: nat)
    requires Safe(p) && Enabled(p, CancelPost(id))
    ensures Safe(Apply(p, CancelPost(id)))
  {
    var q := Apply(p, CancelPost(id));
    assert p.items[id].loop < |p.loops|;
    hide Queues, OnWorkers, InLoops;
    QueuesSame(p.wq, p.pending, p.items, q.items);
    WorkersSame(p.workers, p.items, q.items);
    LoopsArrive(p, id, true, p.items[id].runs);
  }

  /** The loop that collects, and any other. */
  lemma Collected(q: LoopQueue, l: nat, items: seq<Item>)
    requires LoopHolds(q, l, items) && q.local == []
    ensures LoopHolds(LoopQueue([], q.wq), l, Moved(items, q.wq))
  {
    assert Distinct<nat>([]);
    hide Distinct;
  }

  lemma NotCollected(q: LoopQueue, l: nat, items: seq<Item>, ids: seq<nat>)
    requires LoopHolds(q, l, items) && forall id :: id in ids ==> id < |items| && items[id].loop != l
    ensures LoopHolds(q, l, Moved(items, ids))
  {
    hide Distinct;
    assert forall i :: 0 <= i < |items| && items[i].loop == l ==> Moved(items, ids)[i] == items[i];
  }

  lemma CollectLoops(loops: seq<LoopQueue>, items: seq<Item>, loop: nat)
    requires InLoops(loops, items) && loop < |loops| && loops[loop].local == []
    ensures InLoops(loops[loop := LoopQueue([], loops[loop].wq)], Moved(items, loops[loop].wq))
  {
    var ids := loops[loop].wq;
    assert LoopHolds(loops[loop], loop, items);
    Collected(loops[loop], loop, items);
    forall l | 0 <= l < |loops| && l != loop ensures LoopHolds(loops[l], l, Moved(items, ids)) {
      NotCollected(loops[l], l, items, ids);
    }
    hide LoopHolds;
  }

  lemma CollectSafe(p: Pool, loop: nat)
    requires Safe(p) && Enabled(p, Collect(loop))
    ensures Safe(Apply(p, Collect(loop)))
  {
    var q := Apply(p, Collect(loop));
    assert LoopHolds(p.loops[loop], loop, p.items);
    assert forall i :: 0 <= i < |p.items| ==> q.items[i] == p.items[i] || p.items[i].place.InLoop?;
    hide Queues, OnWorkers, InLoops, Distinct, LoopHolds;
    assert AllHistory(q.items);
    CollectLoops(p.loops, p.items, loop);
    QueuesSame(p.wq, p.pending, p.items, q.items);
    WorkersSame(p.workers, p.items, q.items);
  }

  lemma CallbackSafe(p: Pool, loop: nat)
    requires Safe(p) && Enabled(p, Callback(loop))
    ensures Safe(Apply(p, Callback(loop)))
  {
    var q, id := Apply(p, Callback(loop)), p.loops[loop].local[0];
    assert LoopHolds(p.loops[loop], loop, p.items) && id in p.loops[loop].local;
    forall l | 0 <= l < |p.loops| ensures LoopHolds(q.loops[l], l, q.items) {
      assert LoopHolds(p.loops[l], l, p.items);
      if l == loop { Tail(p.loops[loop].local); }
    }
    hide Queues, OnWorkers, Distinct;
    QueuesSame(p.wq, p.pending, p.items, q.items);
    WorkersSame(p.workers, p.items, q.items);
  }

  lemma StepSafe(p: Pool, step: Step)
    requires Safe(p) && Enabled(p, step)
    ensures Safe(Apply(p, step))
  {
    match step {
      case Submit(loop, slow, wake) => SubmitSafe(p, loop, slow, wake);
      case Enter(w, wake) => EnterSafe(p, w, wake);
      case Spurious(w) => hide Queues, OnWorkers, InLoops; WorkersRest(p.workers, p.items, w, Woken);
      case Finish(w) => FinishSafe(p, w);
      case CancelStart(id) => CancelSafe(p, id);
      case CancelPost(id) => CancelPostSafe(p, id);
      case Collect(loop) => CollectSafe(p, loop);
      case Callback(loop) => CallbackSafe(p, loop);
    }
  }

  // --------------------------------------------------- counting the workers

  function Count(ws: seq<Worker>, f: Worker -> bool): nat {
    if ws == [] then 0 else Count(ws[..|ws| - 1], f) + if f(ws[|ws| - 1]) then 1 else 0
  }

  lemma {:induction false} CountUpdate(ws: seq<Worker>, w: nat, state: Worker, f: Worker -> bool)
    requires w < |ws|
    ensures Count(ws[w := state], f) == Count(ws, f) - (if f(ws[w]) then 1 else 0) + (if f(state) then 1 else 0)
  {
    var n := |ws| - 1;
    if w < n {
      CountUpdate(ws[..n], w, state, f);
      assert ws[w := state][..n] == ws[..n][w := state];
    } else {
      assert ws[w := state][..n] == ws[..n];
    }
  }

  lemma {:induction false} CountNone(ws: seq<Worker>, f: Worker -> bool)
    ensures Count(ws, f) == 0 <==> forall w :: 0 <= w < |ws| ==> !f(ws[w])
    ensures Count(ws, f) <= |ws|
  {
    if ws != [] { CountNone(ws[..|ws| - 1], f); }
  }

  predicate Sleeping(w: Worker) { w.Waiting? || w.Woken? }
  predicate HoldsSlow(w: Worker) { w == Ready(true) || (w.Running? && w.slow) }
  predicate RunsSlow(w: Worker) { w.Running? && w.slow }
  predicate Awake(w: Worker) { w.Woken? || w.Ready? }

  /** The counters are what they are named after, and slow work keeps below its limit. */
  predicate Counted(p: Pool) {
    && p.idle == Count(p.workers, Sleeping)
    && p.slowRunning == Count(p.workers, HoldsSlow) <= Threshold(|p.workers|)
  }

  /** Waiting slow work has its message in the queue. */
  predicate Announced(p: Pool) { p.pending != [] ==> Sentinel in p.wq }

  /** Entries a worker could take: all but the message for slow work while the limit is reached. */
  function Eligible(wq: seq<Entry>, ws: seq<Worker>): int {
    |wq| - if Sentinel in wq && Count(ws, RunsSlow) >= Threshold(|ws|) then 1 else 0
  }

  /** While a worker sleeps unsignalled, the awake ones are enough for all eligible entries. */
  predicate Conserving(wq: seq<Entry>, ws: seq<Worker>) {
    AnyWaiting(ws) ==> Eligible(wq, ws) <= Count(ws, Awake)
  }

  predicate Live(p: Pool) { Counted(p) && Announced(p) && Conserving(p.wq, p.workers) }

  predicate Inv(p: Pool) { Safe(p) && Live(p) }

  /** Waking a waiting worker. */
  lemma WakeCounts(ws: seq<Worker>, wake: nat)
    requires wake < |ws| && ws[wake].Waiting?
    ensures Count(ws[wake := Woken], Sleeping) == Count(ws, Sleeping)
    ensures Count(ws[wake := Woken], HoldsSlow) == Count(ws, HoldsSlow)
    ensures Count(ws[wake := Woken], RunsSlow) == Count(ws, RunsSlow)
    ensures Count(ws[wake := Woken], Awake) == Count(ws, Awake) + 1
    ensures AnyWaiting(ws[wake := Woken]) ==> AnyWaiting(ws)
  {
    CountUpdate(ws, wake, Woken, Sleeping);
    CountUpdate(ws, wake, Woken, HoldsSlow);
    CountUpdate(ws, wake, Woken, RunsSlow);
    CountUpdate(ws, wake, Woken, Awake);
  }

  /** A signal after one more entry: someone wakes for it, or no one is left to wake. */
  lemma SignalConserves(wq: seq<Entry>, ws: seq<Worker>, idle: nat, wake: nat, wq': seq<Entry>)
    requires CanWake(ws, wake) && idle == Count(ws, Sleeping)
    requires AnyWaiting(ws) ==> Eligible(wq', ws) <= Count(ws, Awake) + 1
    ensures var t := Signal(ws, idle, wake);
            && |t| == |ws| && Count(t, Sleeping) == Count(ws, Sleeping) && Count(t, HoldsSlow) == Count(ws, HoldsSlow)
            && Conserving(wq', t)
  {
    if AnyWaiting(ws) {
      CountNone(ws, Sleeping);
      WakeCounts(ws, wake);
    }
  }

  lemma SubmitLive(p: Pool, loop: nat, slow: bool, wake: nat)
    requires Inv(p) && Enabled(p, Submit(loop, slow, wake))
    ensures Live(DoSubmit(p, loop, slow, wake))
  {
    hide Safe, Count, Signal;
    var wq' := p.wq + [if slow then Sentinel else Work(|p.items|)];
    SignalConserves(p.wq, p.workers, p.idle, wake, wq');
  }

  lemma {:induction false} HoldsSplit(ws: seq<Worker>)
    ensures Count(ws, RunsSlow) <= Count(ws, HoldsSlow) <= Count(ws, RunsSlow) + Count(ws, Awake)
  {
    if ws != [] { HoldsSplit(ws[..|ws| - 1]); }
  }

  /** All four counts after worker w, which was awake, changes. */
  lemma EnterCounts(ws: seq<Worker>, w: nat, state: Worker)
    requires w < |ws| && (ws[w].Ready? || ws[w].Woken?)
    ensures var t := ws[w := state];
            && Count(t, Sleeping) == Count(ws, Sleeping) - (if ws[w].Woken? then 1 else 0) + (if Sleeping(state) then 1 else 0)
            && Count(t, HoldsSlow) == Count(ws, HoldsSlow) - (if ws[w] == Ready(true) then 1 else 0) + (if HoldsSlow(state) then 1 else 0)
            && Count(t, RunsSlow) == Count(ws, RunsSlow) + (if RunsSlow(state) then 1 else 0)
            && Count(t, Awake) == Count(ws, Awake) - 1 + (if Awake(state) then 1 else 0)
            && (!state.Waiting? && AnyWaiting(t) ==> AnyWaiting(ws))
  {
    CountUpdate(ws, w, state, Sleeping);
    CountUpdate(ws, w, state, HoldsSlow);
    CountUpdate(ws, w, state, RunsSlow);
    CountUpdate(ws, w, state, Awake);
  }

  lemma SleepConserves(ws: seq<Worker>, w: nat, wq': seq<Entry>, slow: nat)
    requires w < |ws| && (ws[w].Ready? || ws[w].Woken?)
    requires slow == Count(ws[w := Waiting], HoldsSlow) && MustWait(wq', slow, Threshold(|ws|))
    ensures Conserving(wq', ws[w := Waiting])
  {
    hide Count;
    HoldsSplit(ws[w := Waiting]);
  }

  lemma WorkConserves(wq: seq<Entry>, ws: seq<Worker>, w: nat, id: nat, wq': seq<Entry>)
    requires w < |ws| && (ws[w].Ready? || ws[w].Woken?) && Conserving(wq, ws) && |wq'| < |wq|
    requires Sentinel in wq && Count(ws, RunsSlow) >= Threshold(|ws|) ==> Sentinel in wq'
    ensures Conserving(wq', ws[w := Running(id, false)])
  {
    hide Count;
    EnterCounts(ws, w, Running(id, false));
  }

  lemma SlowConserves(wq: seq<Entry>, ws: seq<Worker>, w: nat, id: nat, wq': seq<Entry>, more: bool, idle: nat, wake: nat)
    requires w < |ws| && (ws[w].Ready? || ws[w].Woken?) && Conserving(wq, ws) && CanWake(ws, wake)
    requires Count(ws, RunsSlow) < Threshold(|ws|) && |wq'| == |wq| - 1 + (if more then 1 else 0)
    requires idle == Count(ws[w := Running(id, true)], Sleeping)
    ensures var t := ws[w := Running(id, true)];
            var t' := if more then Signal(t, idle, wake) else t;
            && |t'| == |ws| && Count(t', Sleeping) == Count(t, Sleeping) && Count(t', HoldsSlow) == Count(t, HoldsSlow)
            && Conserving(wq', t')
  {
    hide Count, Signal;
    var t := ws[w := Running(id, true)];
    EnterCounts(ws, w, Running(id, true));
    if more { SignalConserves(wq, t, idle, wake, wq'); }
  }

  /** The counters as DoEnter leaves them for worker w, before it decides. */
  predicate Entering(p: Pool, w: nat, idle: nat, slow: nat) {
    && w < |p.workers| && (p.workers[w].Ready? || p.workers[w].Woken?) && Live(p)
    && idle == Count(p.workers, Sleeping) - (if p.workers[w].Woken? then 1 else 0)
    && slow == Count(p.workers, HoldsSlow) - (if p.workers[w] == Ready(true) then 1 else 0)
    && Count(p.workers, RunsSlow) <= slow <= Threshold(|p.workers|)
  }

  lemma EnterCounted(p: Pool, w: nat)
    requires Live(p) && w < |p.workers| && (p.workers[w].Ready? || p.workers[w].Woken?)
    ensures Entering(p, w, if p.workers[w].Woken? && p.idle > 0 then p.idle - 1 else p.idle,
                     if p.workers[w] == Ready(true) && p.slowRunning > 0 then p.slowRunning - 1 else p.slowRunning)
  {
    hide Count, Conserving;
    EnterCounts(p.workers, w, Ready(false));
    HoldsSplit(p.workers[w := Ready(false)]);
  }

  lemma SleptLive(p: Pool, w: nat, r: Picked, idle: nat, slow: nat)
    requires Entering(p, w, idle, slow) && r.pending == p.pending && MustWait(r.wq, slow, Threshold(|p.workers|))
    requires r.pending != [] && Sentinel in p.wq ==> Sentinel in r.wq
    ensures Live(Slept(p, w, r, idle, slow))
  {
    hide Count, Conserving, MustWait;
    EnterCounts(p.workers, w, Waiting);
    SleepConserves(p.workers, w, r.wq, slow);
  }

  lemma TookWorkLive(p: Pool, w: nat, id: nat, r: Picked, idle: nat, slow: nat)
    requires Entering(p, w, idle, slow) && r.pending == p.pending && |r.wq| < |p.wq|
    requires (r.pending != [] || slow >= Threshold(|p.workers|)) && Sentinel in p.wq ==> Sentinel in r.wq
    ensures Live(TookWork(p, w, id, r, idle, slow))
  {
    hide Count, Conserving;
    EnterCounts(p.workers, w, Running(id, false));
    WorkConserves(p.wq, p.workers, w, id, r.wq);
  }

  lemma TookSlowLive(p: Pool, w: nat, id: nat, r: Picked, idle: nat, slow: nat, wake: nat)
    requires Entering(p, w, idle, slow) && CanWake(p.workers, wake) && slow < Threshold(|p.workers|)
    requires |r.wq| == |p.wq| - 1 + (if r.pending != [] then 1 else 0) && (r.pending != [] ==> Sentinel in r.wq)
    ensures Live(TookSlow(p, w, id, r, idle, slow, wake))
  {
    hide Count, Conserving, CanWake, Signal;
    EnterCounts(p.workers, w, Running(id, true));
    SlowConserves(p.wq, p.workers, w, id, r.wq, r.pending != [], idle, wake);
  }

  lemma EnterLive(p: Pool, w: nat, wake: nat)
    requires Inv(p) && Enabled(p, Enter(w, wake))
    ensures Live(DoEnter(p, w, wake))
  {
    assert Distinct(p.wq);
    EnterCounted(p, w);
    var slow := if p.workers[w] == Ready(true) && p.slowRunning > 0 then p.slowRunning - 1 else p.slowRunning;
    var idle := if p.workers[w].Woken? && p.idle > 0 then p.idle - 1 else p.idle;
    PickFacts(p.wq, p.pending, slow, Threshold(|p.workers|));
    hide Safe, Live, Pick, Distinct, SameWork, MustWait, Slept, TookWork, TookSlow, Entering, CanWake, Threshold;
    var r := Pick(p.wq, p.pending, slow, Threshold(|p.workers|));
    match r.next {
      case Sleep => SleptLive(p, w, r, idle, slow);
      case TakeWork(id) => TookWorkLive(p, w, id, r, idle, slow);
      case TakeSlow(id) => TookSlowLive(p, w, id, r, idle, slow, wake);
    }
  }

  lemma FinishLive(p: Pool, w: nat)
    requires Inv(p) && Enabled(p, Finish(w))
    ensures Live(Apply(p, Finish(w)))
  {
    var state := Ready(p.workers[w].slow);
    CountUpdate(p.workers, w, state, Sleeping);
    CountUpdate(p.workers, w, state, HoldsSlow);
    CountUpdate(p.workers, w, state, RunsSlow);
    CountUpdate(p.workers, w, state, Awake);
    hide Safe, Count;
  }

  lemma CancelLive(p: Pool, id: nat)
    requires Inv(p)
    ensures Live(DoCancelStart(p, id))
  {
    WithoutFacts(p.wq, Work(id));
    WithoutFacts(p.pending, id);
    hide Safe, Count, Without;
    assert Sentinel in p.wq <==> Sentinel in Without(p.wq, Work(id));
    if Cancellable(p, id) && DoCancelStart(p, id).pending != [] {
      assert Without(p.pending, id)[0] in p.pending;
    }
  }

  lemma StepLive(p: Pool, step: Step)
    requires Inv(p) && Enabled(p, step)
    ensures Live(Apply(p, step))
  {
    hide Count, Without, Pick, Signal;
    match step {
      case Submit(loop, slow, wake) => SubmitLive(p, loop, slow, wake);
      case Enter(w, wake) => EnterLive(p, w, wake);
      case Spurious(w) => WakeCounts(p.workers, w);
      case Finish(w) => FinishLive(p, w);
      case CancelStart(id) => CancelLive(p, id);
      case _ =>
    }
  }

  lemma StepInv(p: Pool, step: Step)
    requires Inv(p) && Enabled(p, step)
    ensures Inv(Apply(p, step))
  {
    hide Safe, Live, Apply, Enabled;
    StepSafe(p, step);
    StepLive(p, step);
  }

  // ---------------------------------------------------------------- whole runs

  /** After init_threads: n workers on their way to the mutex. */
  function Init(n: nat, loops: nat): Pool {
    Pool([], [], 0, 0, seq(n, _ => Ready(false)), [], seq(loops, _ => LoopQueue([], [])))
  }

  lemma InitInv(n: nat, loops: nat)
    requires n > 0
    ensures Inv(Init(n, loops))
  {
    CountNone(Init(n, loops).workers, Sleeping);
    CountNone(Init(n, loops).workers, HoldsSlow);
  }

  ghost predicate IsRun(run: seq<Pool>, steps: seq<Step>) {
    && |run| == |steps| + 1
    && (exists n: nat, loops: nat :: n > 0 && run[0] == Init(n, loops))
    && (forall i {:trigger steps[i]} :: 0 <= i < |steps| ==> Enabled(run[i], steps[i]) && run[i + 1] == Apply(run[i], steps[i]))
  }

  /** In a run every step has what its code relies on whenever its turn comes. */
  lemma StepDefined(p: Pool, step: Step)
    requires Safe(p) && Guard(p, step)
    ensures Enabled(p, step)
  {
    hide Distinct, History, CanWake;
    if step.Callback? { assert LoopHolds(p.loops[step.loop], step.loop, p.items) && p.loops[step.loop].local[0] in p.loops[step.loop].local; }
  }

  lemma RunStart(run: seq<Pool>, steps: seq<Step>)
    requires IsRun(run, steps)
    ensures |run| == |steps| + 1 && Inv(run[0])
  {
    var n: nat, loops: nat :| n > 0 && run[0] == Init(n, loops);
    InitInv(n, loops);
    hide *;
  }

  lemma {:induction false} RunInv(run: seq<Pool>, steps: seq<Step>, i: nat)
    requires IsRun(run, steps) && i < |run|
    ensures Inv(run[i])
  {
    hide Safe, Live, Apply, Enabled, Init;
    RunStart(run, steps);
    if i > 0 {
      RunInv(run, steps, i - 1);
      assert run[i - 1 + 1] == Apply(run[i - 1], steps[i - 1]);
      StepInv(run[i - 1], steps[i - 1]);
    }
  }

  /** A request's done callback comes at most once: with 0 after one run, or with UV_ECANCELED and no run. */
  lemma DoneOnce(run: seq<Pool>, steps: seq<Step>, i: nat, id: nat)
    requires IsRun(run, steps) && i < |run| && id < |run[i].items|
    ensures var item := run[i].items[id];
            && |item.dones| <= 1 && item.runs <= 1
            && (item.dones == [0] ==> item.runs == 1)
            && (item.dones == [ECANCELED] ==> item.runs == 0)
            && (item.dones != [] ==> item.dones == [0] || item.dones == [ECANCELED])
  {
    RunInv(run, steps, i);
    assert History(run[i].items[id]);
  }

  /** History is only added to. */
  lemma HistoryGrows(p: Pool, step: Step, id: nat)
    requires Enabled(p, step) && id < |p.items|
    ensures var q := Apply(p, step);
            && id < |q.items| && q.items[id].loop == p.items[id].loop
            && p.items[id].runs <= q.items[id].runs && p.items[id].dones <= q.items[id].dones
  {
    hide Distinct, Pick, Signal, Without, CanWake;
  }

  // ------------------------------------------------------ kinds of requests

  /** The requests submitted by the steps, in order. */
  function Submits(steps: seq<Step>): (r: seq<Step>)
    ensures forall x :: x in r ==> x.Submit?
  {
    if steps == [] then []
    else
      var n := |steps| - 1;
      Submits(steps[..n]) + if steps[n].Submit? then [steps[n]] else []
  }

  /** A request is known by the loop and the kind it was submitted with. */
  lemma {:induction false} SubmitsRecorded(run: seq<Pool>, steps: seq<Step>, i: nat)
    requires IsRun(run, steps) && i < |run|
    ensures |run[i].items| == |Submits(steps[..i])|
    ensures forall id :: 0 <= id < |run[i].items| ==>
              run[i].items[id].loop == Submits(steps[..i])[id].loop && run[i].items[id].slow == Submits(steps[..i])[id].slow
  {
    if i == 0 { assert steps[..0] == []; } else {
      hide Enabled, Apply;
      SubmitsRecorded(run, steps, i - 1);
      var p, q, step := run[i - 1], run[i], steps[i - 1];
      assert q == Apply(p, step) by { assert run[i - 1 + 1] == Apply(run[i - 1], steps[i - 1]); }
      assert steps[..i] == steps[..i - 1] + [step] && steps[..i][..i - 1] == steps[..i - 1];
      ItemsAdded(p, step);
      hide Submits;
    }
  }

  lemma ItemsAdded(p: Pool, step: Step)
    requires Enabled(p, step)
    ensures var q := Apply(p, step);
            && |q.items| == |p.items| + (if step.Submit? then 1 else 0)
            && (forall id :: 0 <= id < |p.items| ==> q.items[id].loop == p.items[id].loop && q.items[id].slow == p.items[id].slow)
            && (step.Submit? ==> q.items[|p.items|].loop == step.loop && q.items[|p.items|].slow == step.slow)
  {
    hide Distinct, Pick, Signal, Without, CanWake;
  }

  /** Requests wait in the queue of their kind, and workers know the kind of what they run. */
  predicate Kinds(p: Pool) {
    && (forall id :: 0 <= id < |p.items| && p.items[id].place.InQueue? ==> !p.items[id].slow)
    && (forall id :: 0 <= id < |p.items| && p.items[id].place.InPending? ==> p.items[id].slow)
    && (forall w :: 0 <= w < |p.workers| && p.workers[w].Running? ==>
          p.workers[w].id < |p.items| && p.workers[w].slow == p.items[p.workers[w].id].slow)
  }

  /** A worker that takes up a waiting request knows its kind. */
  lemma TakenKinds(p: Pool, w: nat, id: nat, slow: bool, ws: seq<Worker>)
    requires Kinds(p) && w < |p.workers| && id < |p.items| && p.items[id].slow == slow
    requires |ws| == |p.workers| && ws[w] == Running(id, slow)
    requires forall v :: 0 <= v < |ws| && v != w ==> ws[v] == p.workers[v] || !ws[v].Running?
    ensures Kinds(p.(workers := ws, items := SetPlace(p.items, id, OnWorker)))
  {
  }

  lemma EnterKinds(p: Pool, w: nat, wake: nat)
    requires Safe(p) && Kinds(p) && Enabled(p, Enter(w, wake))
    ensures Kinds(DoEnter(p, w, wake))
  {
    var slow := if p.workers[w] == Ready(true) && p.slowRunning > 0 then p.slowRunning - 1 else p.slowRunning;
    var r, q := Pick(p.wq, p.pending, slow, Threshold(|p.workers|)), DoEnter(p, w, wake);
    PickedWaits(p, slow, Threshold(|p.workers|));
    hide Pick, Safe, Kinds;
    match r.next {
      case Sleep => SleptKinds(p, q, w);
      case TakeWork(id) =>
        QueuedKinds(p, id);
        TakenKinds(p, w, id, false, q.workers);
        SameKinds(q, p.(workers := q.workers, items := q.items));
      case TakeSlow(id) =>
        QueuedKinds(p, id);
        TakenKinds(p, w, id, true, q.workers);
        SameKinds(q, p.(workers := q.workers, items := q.items));
    }
  }

  lemma SleptKinds(p: Pool, q: Pool, w: nat)
    requires Kinds(p) && w < |p.workers| && q.items == p.items && q.workers == p.workers[w := Waiting]
    ensures Kinds(q)
  {
  }

  /** What a worker picks has been waiting in the queue it is taken from. */
  lemma PickedWaits(p: Pool, slow: nat, limit: nat)
    requires Safe(p)
    ensures Distinct(p.wq)
    ensures var r := Pick(p.wq, p.pending, slow, limit);
            && (r.next.TakeWork? ==> r.next.id < |p.items| && p.items[r.next.id].place.InQueue?)
            && (r.next.TakeSlow? ==> r.next.id < |p.items| && p.items[r.next.id].place.InPending?)
  {
    var r := Pick(p.wq, p.pending, slow, limit);
    PickFacts(p.wq, p.pending, slow, limit);
    if r.next.TakeWork? { assert Work(r.next.id) in [Work(r.next.id)] + r.wq; }
    hide Pick, Distinct, OnWorkers, InLoops, History, MustWait;
  }

  lemma QueuedKinds(p: Pool, id: nat)
    requires Kinds(p) && id < |p.items|
    ensures p.items[id].place.InQueue? ==> !p.items[id].slow
    ensures p.items[id].place.InPending? ==> p.items[id].slow
  {
  }

  lemma SameKinds(p: Pool, q: Pool)
    requires Kinds(q) && p.workers == q.workers && p.items == q.items
    ensures Kinds(p)
  {
  }

  lemma SubmitKinds(p: Pool, loop: nat, slow: bool, wake: nat)
    requires Kinds(p)
    ensures Kinds(DoSubmit(p, loop, slow, wake))
  {
  }

  lemma OtherKinds(p: Pool, step: Step)
    requires Kinds(p) && Enabled(p, step) && !step.Enter? && !step.Submit?
    ensures Kinds(Apply(p, step))
  {
    hide Without, Distinct;
  }

  lemma StepKinds(p: Pool, step: Step)
    requires Safe(p) && Kinds(p) && Enabled(p, step)
    ensures Kinds(Apply(p, step))
  {
    hide Safe, Kinds, DoEnter, DoSubmit, CanWake, Distinct;
    match step {
      case Enter(w, wake) => EnterKinds(p, w, wake);
      case Submit(loop, slow, wake) => SubmitKinds(p, loop, slow, wake);
      case _ => OtherKinds(p, step);
    }
  }

  lemma {:induction false} RunKinds(run: seq<Pool>, steps: seq<Step>, i: nat)
    requires IsRun(run, steps) && i < |run|
    ensures Kinds(run[i])
  {
    if i > 0 {
      hide Enabled, Apply, Kinds, Safe, Live, Init;
      RunKinds(run, steps, i - 1);
      RunInv(run, steps, i - 1);
      assert run[i - 1 + 1] == Apply(run[i - 1], steps[i - 1]);
      StepKinds(run[i - 1], steps[i - 1]);
    }
  }

  lemma {:induction false} CountSame(ws: seq<Worker>, f: Worker -> bool, g: Worker -> bool)
    requires forall w :: 0 <= w < |ws| ==> f(ws[w]) == g(ws[w])
    ensures Count(ws, f) == Count(ws, g)
  {
    if ws != [] { CountSame(ws[..|ws| - 1], f, g); }
  }

  /** The worker runs a request that was submitted as slow work. */
  predicate RunsSlowly(w: Worker, submits: seq<Step>)
    requires forall x :: x in submits ==> x.Submit?
  {
    w.Running? && w.id < |submits| && submits[w.id].slow
  }

  /** Requests submitted as slow work never take more than half of the threads, rounded up; those waiting for one are slow. */
  lemma SlowLimited(run: seq<Pool>, steps: seq<Step>, i: nat)
    requires IsRun(run, steps) && i < |run|
    ensures var submits := Submits(steps[..i]);
            && Count(run[i].workers, w => RunsSlowly(w, submits)) <= (|run[i].workers| + 1) / 2
            && (forall id :: id in run[i].pending ==> id < |submits| && submits[id].slow)
            && (forall e :: e in run[i].wq && e.Work? ==> e.id < |submits| && !submits[e.id].slow)
  {
    RunInv(run, steps, i);
    RunKinds(run, steps, i);
    SubmitsRecorded(run, steps, i);
    HoldsSplit(run[i].workers);
    var p, submits := run[i], Submits(steps[..i]);
    hide Submits, IsRun, Distinct, OnWorkers, InLoops, History, Announced, Conserving;
    CountSame(p.workers, w => RunsSlowly(w, submits), RunsSlow);
  }

  /** The workers are never all asleep unsignalled with anything to do. */
  lemma NoLostWakeup(run: seq<Pool>, steps: seq<Step>, i: nat)
    requires IsRun(run, steps) && i < |run|
    requires forall w :: 0 <= w < |run[i].workers| ==> run[i].workers[w].Waiting?
    ensures run[i].wq == [] && run[i].pending == []
  {
    var p := run[i];
    RunInv(run, steps, i);
    assert p.workers[0].Waiting?;
    CountNone(p.workers, Awake);
    CountNone(p.workers, RunsSlow);
    assert Eligible(p.wq, p.workers) <= 0;
  }

  /** And while one is, the awake ones are enough for what there is to take. */
  lemma WorkConserved(run: seq<Pool>, steps: seq<Step>, i: nat)
    requires IsRun(run, steps) && i < |run| && AnyWaiting(run[i].workers)
    ensures Eligible(run[i].wq, run[i].workers) <= Count(run[i].workers, Awake)
  {
    RunInv(run, steps, i);
  }

  /** No request is lost or in two places: it is where its place says, and nowhere else. */
  lemma NothingLost(run: seq<Pool>, steps: seq<Step>, i: nat, id: nat)
    requires IsRun(run, steps) && i < |run| && id < |run[i].items|
    ensures var p, place, loop := run[i], run[i].items[id].place, run[i].items[id].loop;
            && loop < |p.loops|
            && (Work(id) in p.wq <==> place == InQueue)
            && (id in p.pending <==> place == InPending)
            && ((exists w :: 0 <= w < |p.workers| && Holds(p.workers[w], id)) <==> place == OnWorker)
            && (id in p.loops[loop].wq <==> place == InLoop)
            && (id in p.loops[loop].local <==> place == InLocal)
            && (id in p.pending ==> Sentinel in p.wq)
  {
    RunInv(run, steps, i);
    var p := run[i];
    assert LoopHolds(p.loops[p.items[id].loop], p.items[id].loop, p.items);
  }
}

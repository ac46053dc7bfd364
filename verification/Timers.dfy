/**
 timer.c: timers ordered by (timeout, start_id) in a heap, and the loop that
 fires the ones that are due while their callbacks start and stop others.
 */
module Timers {
  import opened HeapOrder
  import opened Heap

  const UINT64_MAX: nat := 0xFFFF_FFFF_FFFF_FFFF
  const INT_MAX: nat := 0x7FFF_FFFF
  const UV_EINVAL: int := -22

  datatype Timer = Timer(active: bool, closing: bool, cb: bool, timeout: nat, repeat: nat, startId: nat)

  /** A node's sort key; `id` stands for container_of. */
  datatype Key = Key(timeout: nat, startId: nat, id: nat)

  datatype State = State(time: nat, counter: nat, ts: seq<Timer>)

  datatype Action =
    | Start(id: nat, cb: bool, timeout: nat, repeat: nat)
    | Stop(id: nat)
    | Again(id: nat)
    | SetRepeat(id: nat, repeat: nat)
    | Close(id: nat)

  /** timer_less_than. */
  predicate Less(a: Key, b: Key) {
    if a.timeout < b.timeout then true
    else if b.timeout < a.timeout then false
    else a.startId < b.startId
  }

  lemma LessIsStrictWeak()
    ensures StrictWeakOrder(Less)
  {
  }

  // ------------------------------------------------------------- the handles

  function KeyOf(s: State, i: nat): Key
    requires i < |s.ts|
  {
    Key(s.ts[i].timeout, s.ts[i].startId, i)
  }

  predicate Active(s: State, i: nat) { i < |s.ts| && s.ts[i].active }

  predicate Due(s: State, i: nat) { Active(s, i) && s.ts[i].timeout <= s.time }

  /** `loop->time + timeout`, stuck at the largest value instead of wrapping. */
  function Deadline(time: nat, timeout: nat): (r: nat)
    requires time <= UINT64_MAX && timeout <= UINT64_MAX
    ensures time <= r <= UINT64_MAX
    ensures timeout > 0 && time < UINT64_MAX ==> r > time
  {
    var sum := (time + timeout) % (UINT64_MAX + 1);
    if sum < timeout then UINT64_MAX else sum
  }

  function StopTimer(s: State, i: nat): State
    requires i < |s.ts|
  {
    s.(ts := s.ts[i := s.ts[i].(active := false)])
  }

  function StartTimer(s: State, i: nat, cb: bool, timeout: nat, repeat: nat): State
    requires i < |s.ts| && s.time <= UINT64_MAX && timeout <= UINT64_MAX
  {
    if s.ts[i].closing || !cb then s
    else s.(counter := s.counter + 1,
            ts := s.ts[i := Timer(true, false, true, Deadline(s.time, timeout), repeat, s.counter)])
  }

  function AgainTimer(s: State, i: nat): State
    requires i < |s.ts| && s.time <= UINT64_MAX && s.ts[i].repeat <= UINT64_MAX
  {
    var t := s.ts[i];
    if t.cb && t.repeat > 0 then StartTimer(StopTimer(s, i), i, t.cb, t.repeat, t.repeat) else s
  }

  function SetRepeatOf(s: State, i: nat, repeat: nat): State
    requires i < |s.ts|
  {
    s.(ts := s.ts[i := s.ts[i].(repeat := repeat)])
  }

  function CloseTimer(s: State, i: nat): State
    requires i < |s.ts|
  {
    s.(ts := s.ts[i := s.ts[i].(active := false, closing := true)])
  }

  /** Times fit 64 bits and start ids were handed out once each. */
  predicate Sane(s: State) {
    && s.time <= UINT64_MAX
    && (forall i :: 0 <= i < |s.ts| ==> s.ts[i].repeat <= UINT64_MAX)
    && (forall i :: 0 <= i < |s.ts| && s.ts[i].active ==> s.ts[i].startId < s.counter && s.ts[i].cb && !s.ts[i].closing)
    && (forall i, j :: 0 <= i < j < |s.ts| && s.ts[i].active && s.ts[j].active ==> s.ts[i].startId != s.ts[j].startId)
  }

  predicate ValidAction(a: Action, n: nat) {
    && a.id < n
    && (a.Start? ==> a.timeout <= UINT64_MAX && a.repeat <= UINT64_MAX)
    && (a.SetRepeat? ==> a.repeat <= UINT64_MAX)
  }

  function Do(s: State, a: Action): State
    requires Sane(s) && ValidAction(a, |s.ts|)
  {
    match a
    case Start(i, cb, timeout, repeat) => StartTimer(s, i, cb, timeout, repeat)
    case Stop(i) => StopTimer(s, i)
    case Again(i) => AgainTimer(s, i)
    case SetRepeat(i, repeat) => SetRepeatOf(s, i, repeat)
    case Close(i) => CloseTimer(s, i)
  }

  /** Every active timer comes after k in the firing order. */
  predicate AllAfter(s: State, k: Key) {
    forall i {:trigger KeyOf(s, i)} :: 0 <= i < |s.ts| && s.ts[i].active ==> Less(k, KeyOf(s, i))
  }

  /** What any action keeps: clean handles, time, and nothing moved before an already fired key. */
  lemma DoKeeps(s: State, a: Action, k: Key)
    requires Sane(s) && ValidAction(a, |s.ts|)
    ensures Sane(Do(s, a)) && |Do(s, a).ts| == |s.ts| && Do(s, a).time == s.time && Do(s, a).counter >= s.counter
    ensures AllAfter(s, k) && k.timeout <= s.time && k.startId < s.counter ==> AllAfter(Do(s, a), k)
  {
    var r := Do(s, a);
    assert forall i :: 0 <= i < |s.ts| && i != a.id ==> r.ts[i] == s.ts[i];
    if AllAfter(s, k) && k.timeout <= s.time && k.startId < s.counter {
      forall i | 0 <= i < |r.ts| && r.ts[i].active ensures Less(k, KeyOf(r, i)) {
        assert s.ts[i].active ==> Less(k, KeyOf(s, i));
      }
    }
  }

  ghost function DueSet(s: State): set<nat> {
    set i: nat | i < |s.ts| && Due(s, i)
  }

  /** What uv__run_timers does to the timer it fires, before the callback. */
  function Fire(s: State, i: nat): (r: State)
    requires Sane(s) && i < |s.ts|
    ensures Sane(r) && |r.ts| == |s.ts| && r.time == s.time
  {
    DoKeeps(s, Stop(i), Key(0, 0, 0));
    DoKeeps(StopTimer(s, i), Again(i), Key(0, 0, 0));
    AgainTimer(StopTimer(s, i), i)
  }

  predicate AllValid(actions: seq<Action>, n: nat) { forall a :: a in actions ==> ValidAction(a, n) }

  predicate ValidScript(script: seq<seq<Action>>, n: nat) { forall actions :: actions in script ==> AllValid(actions, n) }

  /** The calls of a callback, one after the other. */
  function DoAll(s: State, actions: seq<Action>): (r: State)
    requires Sane(s) && AllValid(actions, |s.ts|)
    ensures Sane(r) && |r.ts| == |s.ts| && r.time == s.time
    decreases |actions|
  {
    if actions == [] then s
    else
      DoKeeps(s, actions[0], Key(0, 0, 0));
      DoAll(Do(s, actions[0]), actions[1..])
  }

  lemma DoNext(s: State, actions: seq<Action>, x: nat)
    requires Sane(s) && x < |actions| && AllValid(actions[x..], |s.ts|)
    ensures ValidAction(actions[x], |s.ts|) && Sane(Do(s, actions[x])) && |Do(s, actions[x]).ts| == |s.ts|
    ensures AllValid(actions[x + 1..], |s.ts|) && DoAll(s, actions[x..]) == DoAll(Do(s, actions[x]), actions[x + 1..])
  {
    assert actions[x..][0] == actions[x] && actions[x..][1..] == actions[x + 1..];
    DoKeeps(s, actions[x], Key(0, 0, 0));
    hide Do, Sane, ValidAction;
  }

  /** i is the first active timer. */
  ghost predicate IsFirst(s: State, i: nat) {
    Active(s, i) && forall j: nat :: Active(s, j) ==> j == i || Less(KeyOf(s, i), KeyOf(s, j))
  }

  lemma FireKeeps(s: State, i: nat)
    requires Sane(s) && IsFirst(s, i) && Due(s, i)
    ensures var r := Fire(s, i);
            && Sane(r) && |r.ts| == |s.ts| && r.time == s.time && KeyOf(s, i).startId < r.counter
            && AllAfter(r, KeyOf(s, i))
            && (forall j :: 0 <= j < |s.ts| && j != i ==> r.ts[j] == s.ts[j])
            && (s.time < UINT64_MAX || s.ts[i].repeat == 0 ==> !Due(r, i) && DueSet(r) < DueSet(s))
  {
    var k, s1 := KeyOf(s, i), StopTimer(s, i);
    assert Sane(s1) by { DoKeeps(s, Stop(i), k); }
    forall j | 0 <= j < |s1.ts| && s1.ts[j].active ensures Less(k, KeyOf(s1, j)) {
      assert Active(s, j) && KeyOf(s, j) == KeyOf(s1, j);
    }
    DoKeeps(s1, Again(i), k);
    if s.time < UINT64_MAX || s.ts[i].repeat == 0 {
      assert !Due(Fire(s, i), i);
      assert i in DueSet(s) && i !in DueSet(Fire(s, i));
    }
  }

  /** A fired timer is due again at once only at the very end of the 64-bit clock, and only if it repeats. */
  lemma FiredDueAgain(s: State, i: nat)
    requires Sane(s) && Due(s, i)
    ensures Due(Fire(s, i), i) <==> s.time == UINT64_MAX && s.ts[i].repeat > 0
  {
    var s1 := StopTimer(s, i);
    assert s1.ts[i] == s.ts[i].(active := false);
  }

  /** A fired timer is stopped, or if it repeats runs again from now; no other is touched. */
  lemma FiredState(s: State, i: nat)
    requires Sane(s) && Due(s, i)
    ensures var r, repeat := Fire(s, i), s.ts[i].repeat;
            && |r.ts| == |s.ts| && (forall j :: 0 <= j < |s.ts| && j != i ==> r.ts[j] == s.ts[j])
            && (r.ts[i].active <==> repeat > 0) && r.ts[i].repeat == repeat
            && (repeat > 0 ==> r.ts[i].timeout == (if s.time + repeat <= UINT64_MAX then s.time + repeat else UINT64_MAX)
                               && r.ts[i].startId == s.counter)
  {
    var s1 := StopTimer(s, i);
    assert s1.ts[i] == s.ts[i].(active := false);
  }

  /** The callback comes after that: a repeating timer that it stops stays stopped. */
  lemma CallbackLast(a: State, b: State, i: nat)
    requires i < |a.ts| && Turns(a, b, [Stop(i)])
    ensures |b.ts| == |a.ts| && !b.ts[i].active
  {
    var j: nat :| IsFirst(a, j) && Due(a, j) && b == DoAll(Fire(a, j), [Stop(i)]);
    var f := Fire(a, j);
    DoNext(f, [Stop(i)], 0);
    assert [Stop(i)][0..] == [Stop(i)] && [Stop(i)][1..] == [];
    assert b == DoAll(StopTimer(f, i), []);
  }

  // ------------------------------------------------ when the loop can end

  /** The loop ends if callbacks touch no timer from now on. */
  ghost predicate CanEnd(s: State) {
    s.time < UINT64_MAX || forall j: nat :: Due(s, j) ==> s.ts[j].repeat == 0
  }

  /** One turn of the loop, with a callback that makes these calls. */
  ghost predicate Turns(a: State, b: State, actions: seq<Action>) {
    && Sane(a) && AllValid(actions, |a.ts|)
    && exists i: nat :: IsFirst(a, i) && Due(a, i) && b == DoAll(Fire(a, i), actions)
  }

  /** What the callback of turn `n` does: nothing once the script ends. */
  function CallbackOf(script: seq<seq<Action>>, n: nat): seq<Action> { if n < |script| then script[n] else [] }

  /** The states of a loop that starts in s and has gone through |ss| - 1 turns. */
  ghost predicate Chain(s: State, script: seq<seq<Action>>, ss: seq<State>) {
    ss != [] && ss[0] == s && forall x :: 0 <= x < |ss| - 1 ==> Turns(ss[x], ss[x + 1], CallbackOf(script, x))
  }

  /** Once the script has run, or when nothing is due before that, the loop can end. */
  ghost predicate EndsAfter(s: State, script: seq<seq<Action>>)
    requires Sane(s) && ValidScript(script, |s.ts|)
    decreases |script|
  {
    if script == [] then CanEnd(s)
    else forall i: nat :: IsFirst(s, i) && Due(s, i) ==> EndsAfter(DoAll(Fire(s, i), script[0]), script[1..])
  }

  lemma OneFirst(s: State, i: nat, j: nat)
    requires IsFirst(s, i) && IsFirst(s, j)
    ensures i == j
  {
  }

  lemma TurnKeeps(a: State, b: State)
    requires Turns(a, b, [])
    ensures Sane(b) && b.time == a.time
    ensures CanEnd(a) ==> CanEnd(b) && DueSet(b) < DueSet(a)
    ensures forall j: nat :: Due(a, j) && a.time == UINT64_MAX && a.ts[j].repeat > 0 ==> Due(b, j) && b.ts[j].repeat > 0
  {
    var i: nat :| IsFirst(a, i) && Due(a, i) && b == DoAll(Fire(a, i), []);
    hide Fire, Sane, AllAfter, DueSet;
    FireKeeps(a, i);
    FiredDueAgain(a, i);
    FiredState(a, i);
    assert forall j: nat :: Due(b, j) && j != i ==> Due(a, j) && b.ts[j] == a.ts[j];
  }

  lemma TurnEnds(s: State, i: nat)
    requires Sane(s) && CanEnd(s) && IsFirst(s, i) && Due(s, i)
    ensures CanEnd(Fire(s, i)) && (s.time < UINT64_MAX || s.ts[i].repeat == 0)
  {
    assert DoAll(Fire(s, i), []) == Fire(s, i) && Turns(s, Fire(s, i), []);
    TurnKeeps(s, Fire(s, i));
  }

  lemma ChainTail(s: State, script: seq<seq<Action>>, ss: seq<State>)
    requires Chain(s, script, ss) && |ss| > 1
    ensures Chain(ss[1], if script == [] then [] else script[1..], ss[1..])
  {
    var rest := if script == [] then [] else script[1..];
    forall x | 0 <= x < |ss[1..]| - 1 ensures Turns(ss[1..][x], ss[1..][x + 1], CallbackOf(rest, x)) {
      assert Turns(ss[x + 1], ss[x + 2], CallbackOf(script, x + 1));
    }
  }

  lemma {:induction false} ChainEnds(s: State, ss: seq<State>)
    requires Sane(s) && CanEnd(s) && Chain(s, [], ss)
    ensures |ss| <= |DueSet(s)| + 1
    decreases |ss|
  {
    if |ss| > 1 {
      assert Turns(ss[0], ss[1], CallbackOf([], 0));
      TurnKeeps(ss[0], ss[1]);
      ChainTail(s, [], ss);
      ChainEnds(ss[1], ss[1..]);
      Smaller(DueSet(ss[1]), DueSet(s));
    }
  }

  lemma Smaller(a: set<nat>, b: set<nat>)
    requires a < b
    ensures |a| < |b|
  {
    assert b == a + (b - a) && |b| == |a| + |b - a|;
  }

  ghost predicate NoLater(s: State, i: nat, j: nat) {
    Active(s, i) && Active(s, j) && (j == i || Less(KeyOf(s, i), KeyOf(s, j)))
  }

  /** Among active timers one comes first, since start ids differ. */
  lemma {:induction false} FirstOf(s: State, of: set<nat>) returns (i: nat)
    requires Sane(s) && of != {} && forall j :: j in of ==> Active(s, j)
    ensures i in of && forall j :: j in of ==> NoLater(s, i, j)
  {
    var x :| x in of;
    var rest := of - {x};
    assert forall j :: j in of ==> j == x || j in rest;
    i := x;
    if rest != {} {
      var k := FirstOf(s, rest);
      assert s.ts[x].startId != s.ts[k].startId;
      if Less(KeyOf(s, k), KeyOf(s, x)) {
        i := k;
      } else {
        forall j | j in rest ensures NoLater(s, x, j) { assert NoLater(s, k, j); }
      }
    }
  }

  lemma FirstDue(s: State, j: nat) returns (i: nat)
    requires Sane(s) && Due(s, j)
    ensures IsFirst(s, i) && Due(s, i)
  {
    var all := set k: nat | k < |s.ts| && s.ts[k].active;
    assert j in all;
    i := FirstOf(s, all);
    forall k: nat | Active(s, k) ensures k == i || Less(KeyOf(s, i), KeyOf(s, k)) { assert k in all && NoLater(s, i, k); }
    assert NoLater(s, i, j);
  }

  /** However many turns: a repeating timer due at the end of the clock is due again. */
  lemma {:induction false} StillDue(s: State, j: nat, n: nat) returns (ss: seq<State>)
    requires Sane(s) && s.time == UINT64_MAX && Due(s, j) && s.ts[j].repeat > 0
    ensures Chain(s, [], ss) && |ss| == n + 1 && Sane(ss[n]) && ss[n].time == UINT64_MAX
    ensures Due(ss[n], j) && ss[n].ts[j].repeat > 0
  {
    ss := [s];
    if n > 0 {
      ss := StillDue(s, j, n - 1);
      var i := FirstDue(ss[n - 1], j);
      var next := DoAll(Fire(ss[n - 1], i), []);
      assert Turns(ss[n - 1], next, []);
      TurnKeeps(ss[n - 1], next);
      ss := ss + [next];
    }
  }

  ghost predicate Bounded(s: State, script: seq<seq<Action>>, n: nat) {
    forall ss :: Chain(s, script, ss) ==> |ss| <= n
  }

  lemma {:induction false} EndsBounded(s: State, script: seq<seq<Action>>) returns (n: nat)
    requires Sane(s) && ValidScript(script, |s.ts|) && EndsAfter(s, script)
    ensures Bounded(s, script, n)
    decreases |script|
  {
    n := |DueSet(s)| + 1;
    if script == [] {
      forall ss | Chain(s, script, ss) ensures |ss| <= n { ChainEnds(s, ss); }
    } else if j: nat :| Due(s, j) {
      var i := FirstDue(s, j);
      var next := DoAll(Fire(s, i), script[0]);
      var m := EndsBounded(next, script[1..]);
      n := m + 1;
      forall ss | Chain(s, script, ss) ensures |ss| <= n {
        if |ss| > 1 {
          assert Turns(ss[0], ss[1], CallbackOf(script, 0));
          var i': nat :| IsFirst(s, i') && Due(s, i') && ss[1] == DoAll(Fire(s, i'), script[0]);
          OneFirst(s, i, i');
          ChainTail(s, script, ss);
        }
      }
    } else {
      n := 1;
      forall ss | Chain(s, script, ss) ensures |ss| <= n {
        assert |ss| > 1 ==> Turns(ss[0], ss[1], CallbackOf(script, 0));
      }
    }
  }

  lemma ChainHead(s: State, script: seq<seq<Action>>, next: State, rest: seq<State>)
    requires script != [] && Turns(s, next, script[0]) && Chain(next, script[1..], rest)
    ensures Chain(s, script, [s] + rest)
  {
    var ss := [s] + rest;
    hide Turns;
    forall x | 0 <= x < |ss| - 1 ensures Turns(ss[x], ss[x + 1], CallbackOf(script, x)) {
      if x > 0 { assert Turns(rest[x - 1], rest[x], CallbackOf(script[1..], x - 1)); }
    }
  }

  lemma {:induction false} GoesOn(s: State, script: seq<seq<Action>>, n: nat) returns (ss: seq<State>)
    requires Sane(s) && ValidScript(script, |s.ts|) && !EndsAfter(s, script)
    ensures Chain(s, script, ss) && |ss| == n + 1
    decreases |script|
  {
    if script == [] {
      var j: nat :| Due(s, j) && s.ts[j].repeat > 0;
      ss := StillDue(s, j, n);
    } else {
      var i: nat :| IsFirst(s, i) && Due(s, i) && !EndsAfter(DoAll(Fire(s, i), script[0]), script[1..]);
      var next := DoAll(Fire(s, i), script[0]);
      ss := [s];
      if n > 0 {
        var rest := GoesOn(next, script[1..], n - 1);
        assert Turns(s, next, script[0]);
        ChainHead(s, script, next, rest);
        ss := [s] + rest;
      }
    }
  }

  /**
   The loop ends, from every state and whatever a finite number of callbacks
   do, if and only if after them the clock is before its last value or no due
   timer repeats.
   */
  lemma EndsIff(s: State, script: seq<seq<Action>>)
    requires Sane(s) && ValidScript(script, |s.ts|)
    ensures EndsAfter(s, script) <==> exists n: nat :: Bounded(s, script, n)
  {
    if EndsAfter(s, script) {
      var n := EndsBounded(s, script);
    } else {
      forall n: nat ensures !Bounded(s, script, n) {
        var ss := GoesOn(s, script, n);
        assert Chain(s, script, ss) && |ss| > n;
      }
    }
  }

  /** So it always ends before the clock's last value, whatever the callbacks do. */
  lemma {:induction false} EarlyEnds(s: State, script: seq<seq<Action>>)
    requires Sane(s) && ValidScript(script, |s.ts|) && s.time < UINT64_MAX
    ensures EndsAfter(s, script)
    decreases |script|
  {
    if script != [] {
      forall i: nat | IsFirst(s, i) && Due(s, i) ensures EndsAfter(DoAll(Fire(s, i), script[0]), script[1..]) {
        EarlyEnds(DoAll(Fire(s, i), script[0]), script[1..]);
      }
    }
  }

  /** A call that makes no timer repeat. */
  predicate Quiet(a: Action) {
    a.Stop? || a.Close? || ((a.Start? || a.SetRepeat?) && a.repeat == 0)
  }

  lemma {:induction false} QuietKeeps(s: State, actions: seq<Action>)
    requires Sane(s) && AllValid(actions, |s.ts|) && CanEnd(s) && forall a :: a in actions ==> Quiet(a)
    ensures CanEnd(DoAll(s, actions))
    decreases |actions|
  {
    if actions != [] {
      DoKeeps(s, actions[0], Key(0, 0, 0));
      assert CanEnd(Do(s, actions[0])) by { QuietDo(s, actions[0]); }
      QuietKeeps(Do(s, actions[0]), actions[1..]);
    }
  }

  lemma QuietDo(s: State, a: Action)
    requires Sane(s) && ValidAction(a, |s.ts|) && CanEnd(s) && Quiet(a)
    ensures CanEnd(Do(s, a))
  {
    forall j: nat | j != a.id ensures Due(Do(s, a), j) ==> Due(s, j) && Do(s, a).ts[j] == s.ts[j] {}
  }

  /** And at it when it could end without callbacks and these only stop, close, or start and set timers without repeat. */
  lemma {:induction false} QuietEnds(s: State, script: seq<seq<Action>>)
    requires Sane(s) && ValidScript(script, |s.ts|) && CanEnd(s)
    requires forall actions, a :: actions in script && a in actions ==> Quiet(a)
    ensures EndsAfter(s, script)
    decreases |script|
  {
    if script != [] {
      forall i: nat | IsFirst(s, i) && Due(s, i) ensures EndsAfter(DoAll(Fire(s, i), script[0]), script[1..]) {
        TurnEnds(s, i);
        QuietKeeps(Fire(s, i), script[0]);
        QuietEnds(DoAll(Fire(s, i), script[0]), script[1..]);
      }
    }
  }

  /** Every fired key comes before the next, and the last before all that are active. */
  predicate InOrder(fired: seq<Key>, s: State) {
    && (forall x, y :: 0 <= x < y < |fired| ==> Less(fired[x], fired[y]))
    && (forall x :: 0 <= x < |fired| ==> fired[x].timeout <= s.time && fired[x].startId < s.counter)
    && (fired != [] ==> AllAfter(s, fired[|fired| - 1]))
  }

  lemma FireInOrder(fired: seq<Key>, s: State, i: nat)
    requires Sane(s) && InOrder(fired, s) && IsFirst(s, i) && Due(s, i)
    ensures InOrder(fired + [KeyOf(s, i)], Fire(s, i))
  {
    FireKeeps(s, i);
    hide Fire, Sane;
    var k := KeyOf(s, i);
    if fired != [] {
      var last := fired[|fired| - 1];
      assert Less(last, k);
      assert forall x :: 0 <= x < |fired| ==> fired[x] == last || Less(fired[x], last);
    }
    FireCounts(s, i);
  }

  lemma FireCounts(s: State, i: nat)
    requires Sane(s) && i < |s.ts|
    ensures Fire(s, i).counter >= s.counter
  {
  }

  lemma DoInOrder(fired: seq<Key>, s: State, a: Action)
    requires Sane(s) && ValidAction(a, |s.ts|) && InOrder(fired, s)
    ensures InOrder(fired, Do(s, a))
  {
    DoKeeps(s, a, if fired == [] then Key(0, 0, 0) else fired[|fired| - 1]);
    hide Do, Sane, AllAfter;
  }

  /** With callbacks that touch no timer: the fired ones are the due ones, the others as they were. */
  ghost predicate Exact(was: State, now: State, fired: seq<Key>) {
    && |now.ts| == |was.ts| && now.time == was.time
    && (forall x :: 0 <= x < |fired| ==> Due(was, fired[x].id) && fired[x] == KeyOf(was, fired[x].id))
    && (forall j: nat :: j < |was.ts| ==> if KeyOf(was, j) in fired then !Due(now, j) else now.ts[j] == was.ts[j])
  }

  lemma Nothing(s: State)
    ensures InOrder([], s) && Exact(s, s, [])
  {
  }

  /** When the first active timer is not due, or there is none, nothing is. */
  lemma Finished(was: State, s: State, fired: seq<Key>, i: nat)
    requires InOrder(fired, s)
    requires (forall j: nat :: !Active(s, j)) || (IsFirst(s, i) && s.ts[i].timeout > s.time)
    ensures forall x, y :: 0 <= x < y < |fired| ==> Less(fired[x], fired[y])
    ensures forall x :: 0 <= x < |fired| ==> fired[x].timeout <= s.time
    ensures forall j: nat :: !Due(s, j)
    ensures Exact(was, s, fired) ==> forall j: nat :: Due(was, j) <==> j < |s.ts| && KeyOf(was, j) in fired
  {
    if Exact(was, s, fired) {
      forall j: nat ensures Due(was, j) <==> j < |s.ts| && KeyOf(was, j) in fired {
        assert j < |s.ts| && KeyOf(was, j) !in fired ==> !Due(s, j) && s.ts[j] == was.ts[j];
      }
    }
  }

  lemma FireExact(was: State, s: State, fired: seq<Key>, i: nat)
    requires Sane(s) && Exact(was, s, fired) && IsFirst(s, i) && Due(s, i) && (s.time < UINT64_MAX || s.ts[i].repeat == 0)
    ensures Exact(was, Fire(s, i), fired + [KeyOf(s, i)])
  {
    FireKeeps(s, i);
    hide Fire, Sane, AllAfter, DueSet;
    assert KeyOf(was, i) !in fired && KeyOf(was, i) == KeyOf(s, i);
    var r, f := Fire(s, i), fired + [KeyOf(s, i)];
    forall j: nat | j < |was.ts| ensures if KeyOf(was, j) in f then !Due(r, j) else r.ts[j] == was.ts[j] {
      assert j != i ==> KeyOf(was, j) != KeyOf(s, i);
    }
  }

  /** What is left of the script after n turns. */
  function Rest(script: seq<seq<Action>>, n: nat): seq<seq<Action>> { if n <= |script| then script[n..] else [] }

  /** `k` is the key of the first active timer. */
  ghost predicate FirstKey(s: State, k: Key) { IsFirst(s, k.id) && k == KeyOf(s, k.id) }

  /** From `s` the loop has fired these keys, each callback doing what the script says, and come to `r`. */
  ghost predicate Ran(s: State, script: seq<seq<Action>>, fired: seq<Key>, r: State) {
    exists ss :: Chain(s, script, ss) && |ss| == |fired| + 1 && ss[|fired|] == r
                 && forall x :: 0 <= x < |fired| ==> FirstKey(ss[x], fired[x])
  }

  lemma NoTurn(s: State, script: seq<seq<Action>>)
    ensures Ran(s, script, [], s) && Rest(script, 0) == script
  {
    assert Chain(s, script, [s]);
  }

  /** One more turn: the run goes on, and the loop can still end. */
  lemma RanOn(was: State, script: seq<seq<Action>>, fired: seq<Key>, s: State, i: nat)
    requires Sane(s) && IsFirst(s, i) && Due(s, i) && Ran(was, script, fired, s)
    requires ValidScript(Rest(script, |fired|), |s.ts|) && EndsAfter(s, Rest(script, |fired|))
    ensures AllValid(CallbackOf(script, |fired|), |s.ts|)
    ensures var r, rest := DoAll(Fire(s, i), CallbackOf(script, |fired|)), Rest(script, |fired| + 1);
            && Ran(was, script, fired + [KeyOf(s, i)], r)
            && ValidScript(rest, |r.ts|) && EndsAfter(r, rest)
            && (|rest| < |Rest(script, |fired|)| || (rest == Rest(script, |fired|) && DueSet(r) < DueSet(s)))
  {
    RestOn(script, |fired|, s, i);
    var r := DoAll(Fire(s, i), CallbackOf(script, |fired|));
    assert Turns(s, r, CallbackOf(script, |fired|));
    hide *;
    RanMore(was, script, fired, s, i, r);
  }

  lemma RanMore(was: State, script: seq<seq<Action>>, fired: seq<Key>, s: State, i: nat, r: State)
    requires IsFirst(s, i) && Ran(was, script, fired, s) && Turns(s, r, CallbackOf(script, |fired|))
    ensures Ran(was, script, fired + [KeyOf(s, i)], r)
  {
    hide Turns, CallbackOf;
    assert FirstKey(s, KeyOf(s, i));
    hide IsFirst, FirstKey, KeyOf;
    var ss :| Chain(was, script, ss) && |ss| == |fired| + 1 && ss[|fired|] == s
              && forall x :: 0 <= x < |fired| ==> FirstKey(ss[x], fired[x]);
    var ss', fired' := ss + [r], fired + [KeyOf(s, i)];
    assert Chain(was, script, ss');
    assert forall x :: 0 <= x < |fired'| ==> FirstKey(ss'[x], fired'[x]);
  }

  lemma RestOn(script: seq<seq<Action>>, n: nat, s: State, i: nat)
    requires Sane(s) && IsFirst(s, i) && Due(s, i)
    requires ValidScript(Rest(script, n), |s.ts|) && EndsAfter(s, Rest(script, n))
    ensures AllValid(CallbackOf(script, n), |s.ts|)
    ensures var r, rest := DoAll(Fire(s, i), CallbackOf(script, n)), Rest(script, n + 1);
            && ValidScript(rest, |r.ts|) && EndsAfter(r, rest)
            && (|rest| < |Rest(script, n)| || (rest == Rest(script, n) && DueSet(r) < DueSet(s)))
  {
    if n < |script| {
      assert Rest(script, n)[0] == script[n] && Rest(script, n)[1..] == Rest(script, n + 1);
    } else {
      TurnEnds(s, i);
      FireKeeps(s, i);
    }
  }

  lemma RestOfNothing(s: State, script: seq<seq<Action>>, n: nat, i: nat)
    requires Sane(s) && IsFirst(s, i) && Due(s, i) && script == []
    requires ValidScript(Rest(script, n), |s.ts|) && EndsAfter(s, Rest(script, n))
    ensures s.time < UINT64_MAX || s.ts[i].repeat == 0
    ensures CallbackOf(script, n) == [] && DoAll(Fire(s, i), []) == Fire(s, i)
  {
    TurnEnds(s, i);
  }

  // ----------------------------------------------------------------- the loop

  class Loop {
    var time: nat
    var counter: nat
    var timers: seq<Timer>
    const nodes: seq<Node<Key>>
    const heap: Heap<Key>

    ghost function Now(): State
      reads this
    {
      State(time, counter, timers)
    }

    /** The heap holds exactly the active timers' nodes, under their keys. */
    ghost predicate Wired()
      reads this, heap, nodes
    {
      && |nodes| == |timers| && (forall i, j :: 0 <= i < j < |nodes| ==> nodes[i] != nodes[j])
      && (forall n :: n in heap.nodes ==> n in nodes)
      && (forall i :: 0 <= i < |nodes| ==> (timers[i].active <==> nodes[i] in heap.nodes))
      && (forall i :: 0 <= i < |nodes| && timers[i].active ==> nodes[i].key == Key(timers[i].timeout, timers[i].startId, i))
    }

    ghost predicate Valid()
      reads this, heap, nodes, heap.slots
    {
      heap.Valid() && heap.less == Less && Wired() && Sane(Now())
    }

    /** uv_timer_init for each handle, given by the heap node it embeds. */
    constructor (nodes: seq<Node<Key>>, time: nat)
      requires time <= UINT64_MAX && forall i, j :: 0 <= i < j < |nodes| ==> nodes[i] != nodes[j]
      ensures Valid() && this.nodes == nodes && fresh(heap)
      ensures Now() == State(time, 0, seq(|nodes|, _ => Timer(false, false, false, 0, 0, 0)))
    {
      LessIsStrictWeak();
      this.nodes, this.time, counter := nodes, time, 0;
      timers := seq(|nodes|, _ => Timer(false, false, false, 0, 0, 0));
      heap := new Heap<Key>(Less);
    }

    /** uv_timer_stop. */
    method StopAt(i: nat)
      requires Valid() && i < |timers|
      modifies this`timers, heap, nodes`left, nodes`right, nodes`parent
      ensures Valid() && Now() == StopTimer(old(Now()), i)
      ensures !timers[i].active && |timers| == old(|timers|) && forall j :: 0 <= j < |timers| && j != i ==> timers[j] == old(timers[j])
    {
      hide Ordered, Tree, StrictWeakOrder, Keys, Members, Less, Sane;
      DoKeeps(Now(), Stop(i), Key(0, 0, 0));
      if !timers[i].active {
        assert timers == timers[i := timers[i].(active := false)];
        return;
      }
      heap.Remove(nodes[i]);
      timers := timers[i := timers[i].(active := false)];
    }

    /** uv_timer_start. */
    method StartAt(i: nat, cb: bool, timeout: nat, repeat: nat) returns (r: int)
      requires Valid() && i < |timers| && timeout <= UINT64_MAX && repeat <= UINT64_MAX
      modifies this`timers, this`counter, heap, nodes
      ensures Valid() && Now() == StartTimer(old(Now()), i, cb, timeout, repeat)
      ensures r == if old(timers[i]).closing || !cb then UV_EINVAL else 0
      ensures r != 0 ==> timers == old(timers) && counter == old(counter)
      ensures r == 0 ==> timers[i].active && timers[i].timeout == if time + timeout <= UINT64_MAX then time + timeout else UINT64_MAX
      ensures r == 0 ==> timers[i].repeat == repeat && timers[i].startId == old(counter) && counter == old(counter) + 1
      ensures |timers| == old(|timers|) && forall j :: 0 <= j < |timers| && j != i ==> timers[j] == old(timers[j])
    {
      hide Ordered, Tree, StrictWeakOrder, Keys, Members;
      if timers[i].closing || !cb { return UV_EINVAL; }
      if timers[i].active { StopAt(i); }
      Insert(i, Timer(true, false, true, Deadline(time, timeout), repeat, counter));
      return 0;
    }

    method Insert(i: nat, t: Timer)
      requires Valid() && i < |timers| && !timers[i].active && !timers[i].closing
      requires t.active && !t.closing && t.cb && t.startId == counter && t.repeat <= UINT64_MAX
      modifies this`timers, this`counter, heap, nodes
      ensures Valid() && Now() == old(Now()).(counter := old(counter) + 1, ts := old(timers)[i := t])
    {
      hide Ordered, StrictWeakOrder, Keys;
      ghost var s := heap.slots;
      nodes[i].key := Key(t.timeout, t.startId, i);
      assert heap.Valid() by {
        assert nodes[i] !in heap.nodes;
        SameKeys(heap.slots, old(Keys(heap.slots)));
      }
      hide Tree, Members;
      heap.Insert(nodes[i]);
      timers := timers[i := t];
      counter := counter + 1;
    }

    /** uv_timer_again. */
    method AgainAt(i: nat) returns (r: int)
      requires Valid() && i < |timers|
      modifies this`timers, this`counter, heap, nodes
      ensures Valid() && Now() == AgainTimer(old(Now()), i)
      ensures r == if old(timers[i]).cb then 0 else UV_EINVAL
      ensures old(timers[i]).cb && old(timers[i]).repeat > 0 && !old(timers[i]).closing ==>
                var due := time + old(timers[i]).repeat;
                && timers[i].active && timers[i].repeat == old(timers[i]).repeat && timers[i].startId == old(counter)
                && timers[i].timeout == if due <= UINT64_MAX then due else UINT64_MAX
      ensures old(timers[i]).repeat == 0 ==> timers == old(timers)
      ensures |timers| == old(|timers|) && forall j :: 0 <= j < |timers| && j != i ==> timers[j] == old(timers[j])
    {
      var t := timers[i];
      if !t.cb { return UV_EINVAL; }
      if t.repeat > 0 {
        StopAt(i);
        var _ := StartAt(i, t.cb, t.repeat, t.repeat);
      }
      return 0;
    }

    /** uv_timer_set_repeat. */
    method SetRepeatAt(i: nat, repeat: nat)
      requires Valid() && i < |timers| && repeat <= UINT64_MAX
      modifies this`timers
      ensures Valid() && Now() == SetRepeatOf(old(Now()), i, repeat)
      ensures timers == old(timers)[i := old(timers[i]).(repeat := repeat)]
    {
      hide Ordered, Tree, StrictWeakOrder, Keys, Members;
      timers := timers[i := timers[i].(repeat := repeat)];
    }

    /** uv__timer_close, and the closing flag uv_close sets. */
    method CloseAt(i: nat)
      requires Valid() && i < |timers|
      modifies this`timers, heap, nodes`left, nodes`right, nodes`parent
      ensures Valid() && Now() == CloseTimer(old(Now()), i)
      ensures timers[i].closing && !timers[i].active && |timers| == old(|timers|)
      ensures forall j :: 0 <= j < |timers| && j != i ==> timers[j] == old(timers[j])
    {
      hide Ordered, Tree, StrictWeakOrder, Keys, Members;
      StopAt(i);
      timers := timers[i := timers[i].(closing := true)];
    }

    method Perform(a: Action)
      requires Valid() && ValidAction(a, |timers|)
      modifies this`timers, this`counter, heap, nodes
      ensures Valid() && Now() == Do(old(Now()), a)
    {
      hide Deadline;
      match a
      case Start(i, cb, timeout, repeat) => var _ := StartAt(i, cb, timeout, repeat);
      case Stop(i) => StopAt(i);
      case Again(i) => var _ := AgainAt(i);
      case SetRepeat(i, repeat) => SetRepeatAt(i, repeat);
      case Close(i) => CloseAt(i);
    }

    /** The timer at the top of the heap: an active one that none precedes. */
    method First() returns (some: bool, i: nat)
      requires Valid()
      ensures some <==> exists j: nat :: Active(Now(), j)
      ensures some ==> IsFirst(Now(), i)
    {
      hide Ordered, Tree, StrictWeakOrder, Keys, Members;
      var m := heap.Min();
      some, i := m != null, 0;
      if m == null {
        assert forall j: nat :: Active(Now(), j) ==> nodes[j] in heap.nodes;
        return;
      }
      i := m.key.id;
      ghost var x: nat :| x < |nodes| && nodes[x] == m;
      assert i == x && Active(Now(), i);
      forall j: nat | Active(Now(), j) && j != i ensures Less(KeyOf(Now(), i), KeyOf(Now(), j)) {
        assert !Less(nodes[j].key, m.key);
      }
    }

    /** uv__next_timeout: how long to wait, -1 for ever. */
    method NextTimeout() returns (r: int)
      requires Valid()
      ensures r == -1 <==> forall j: nat :: !Active(Now(), j)
      ensures forall j: nat :: Active(Now(), j) ==> 0 <= r <= INT_MAX && (r == 0 || r <= timers[j].timeout - time)
      ensures r == 0 <==> exists j: nat :: Due(Now(), j)
      ensures 0 < r < INT_MAX ==> exists j: nat :: Active(Now(), j) && timers[j].timeout == time + r
    {
      hide Sane;
      var some, i := First();
      if !some { return -1; }
      assert forall j: nat :: Active(Now(), j) ==> timers[i].timeout <= timers[j].timeout;
      if timers[i].timeout <= time {
        assert Due(Now(), i);
        return 0;
      }
      r := timers[i].timeout - time;
      if r > INT_MAX { r := INT_MAX; }
    }

    /** A callback: any sequence of timer calls. */
    method Callback(actions: seq<Action>, ghost fired: seq<Key>)
      requires Valid() && AllValid(actions, |timers|) && InOrder(fired, Now())
      modifies this`timers, this`counter, heap, nodes
      ensures Valid() && |timers| == old(|timers|) && InOrder(fired, Now())
      ensures Now() == DoAll(old(Now()), actions)
    {
      hide Do, Sane, InOrder, Wired, AllValid;
      for x := 0 to |actions|
        invariant Valid() && |timers| == old(|timers|) && InOrder(fired, Now())
        invariant AllValid(actions[x..], |timers|) && DoAll(Now(), actions[x..]) == DoAll(old(Now()), actions)
      {
        DoNext(Now(), actions, x);
        DoInOrder(fired, Now(), actions[x]);
        DoKeeps(Now(), actions[x], Key(0, 0, 0));
        Perform(actions[x]);
      }
    }

    method FireAt(i: nat)
      requires Valid() && i < |timers|
      modifies this`timers, this`counter, heap, nodes
      ensures Valid() && Now() == Fire(old(Now()), i)
    {
      StopAt(i);
      var _ := AgainAt(i);
    }

    /**
     uv__run_timers; the n-th callback to run does script[n], and nothing once
     the script ends.
     */
    method RunTimers(script: seq<seq<Action>>) returns (fired: seq<Key>)
      requires Valid() && ValidScript(script, |timers|) && EndsAfter(Now(), script)
      modifies this`timers, this`counter, heap, nodes
      ensures Valid() && |timers| == old(|timers|)
      ensures Ran(old(Now()), script, fired, Now())
      ensures forall x, y :: 0 <= x < y < |fired| ==> Less(fired[x], fired[y])
      ensures forall x :: 0 <= x < |fired| ==> fired[x].timeout <= time
      ensures forall j: nat :: !Due(Now(), j)
      ensures script == [] ==> forall j: nat :: Due(old(Now()), j) <==> j < |timers| && KeyOf(old(Now()), j) in fired
    {
      hide Sane, Wired, DueSet, Fire, Less, InOrder, Exact, AllAfter, EndsAfter, ValidScript, Ran, DoAll;
      hide Rest, CallbackOf, AllValid, Ordered, Tree, StrictWeakOrder, Keys, Members;
      fired := [];
      Nothing(Now());
      NoTurn(Now(), script);
      ghost var was := Now();
      while true
        invariant Valid() && |timers| == old(|timers|)
        invariant InOrder(fired, Now()) && Ran(was, script, fired, Now())
        invariant script == [] ==> Exact(was, Now(), fired)
        invariant ValidScript(Rest(script, |fired|), |timers|) && EndsAfter(Now(), Rest(script, |fired|))
        decreases |Rest(script, |fired|)|, DueSet(Now())
      {
        var some, i := First();
        if !some || timers[i].timeout > time {
          Finished(was, Now(), fired, i);
          break;
        }
        ghost var s := Now();
        FireKeeps(s, i);
        FireInOrder(fired, s, i);
        RanOn(was, script, fired, s, i);
        if script == [] { RestOfNothing(s, script, |fired|, i); FireExact(was, s, fired, i); }
        fired := fired + [Key(timers[i].timeout, timers[i].startId, i)];
        FireAt(i);
        Callback(CallbackOf(script, |fired| - 1), fired);
      }
    }
  }

  lemma SameKeys(slots: seq<Node<Key>>, ks: seq<Key>)
    requires |ks| == |slots| && forall i :: 0 <= i < |ks| ==> slots[i].key == ks[i]
    ensures Keys(slots) == ks
  {
    hide Keys;
  }
}

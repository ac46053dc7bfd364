/**
 DBImpl::Write and BuildBatchGroup: writers queue up, the one at the front takes
 a group of the batches behind it, logs and applies them as one, and answers for
 all of them. Sequence numbers are handed out to whole groups.
 */
module GroupCommit {
  import opened Bytes
  import opened Versions
  import Engine

  /** A write batch: its updates and its size in bytes. */
  datatype Batch = Batch(ops: seq<(Key, Op)>, size: nat)

  datatype Pc =
    | Waiting
    | Leading                               // past the wait, in MakeRoomForWrite
    | Logging(n: nat, last: nat)            // group of n built, numbered after `last`, mutex released
    | Returned(ok: bool)

  datatype Writer = Writer(batch: Option<Batch>, sync: bool, pc: Pc)

  // ------------------------------------------------------ BuildBatchGroup

  const MAX_GROUP := 0x10_0000
  const SMALL := 0x2_0000

  function MaxSize(first: nat): nat { if first <= SMALL then first + SMALL else MAX_GROUP }

  function SizeOf(w: Writer): nat { if w.batch.Some? then w.batch.value.size else 0 }

  function OpsOf(w: Writer): seq<(Key, Op)> { if w.batch.Some? then w.batch.value.ops else [] }

  function TotalSize(ws: seq<Writer>): nat {
    if ws == [] then 0 else TotalSize(ws[..|ws| - 1]) + SizeOf(ws[|ws| - 1])
  }

  /** The updates of a group, in queue order. */
  function GroupOps(ws: seq<Writer>): seq<(Key, Op)> {
    if ws == [] then [] else GroupOps(ws[..|ws| - 1]) + OpsOf(ws[|ws| - 1])
  }

  /** May the group of the first k writers take in the next one? */
  predicate MayJoin(ws: seq<Writer>, k: nat)
    requires 0 < k < |ws| && ws[0].batch.Some?
  {
    && (ws[k].sync ==> ws[0].sync)
    && (ws[k].batch.Some? ==> TotalSize(ws[..k + 1]) <= MaxSize(SizeOf(ws[0])))
  }

  /** The first n writers form a group: each joined in its turn, and the next may not. */
  predicate IsGroup(ws: seq<Writer>, n: nat)
    requires ws != [] && ws[0].batch.Some?
  {
    && 0 < n <= |ws|
    && (forall k :: 0 < k < n ==> MayJoin(ws, k))
    && (n < |ws| ==> !MayJoin(ws, n))
  }

  method BuildBatchGroup(ws: seq<Writer>) returns (n: nat, ops: seq<(Key, Op)>)
    requires ws != [] && ws[0].batch.Some?
    ensures IsGroup(ws, n)
    ensures ops == GroupOps(ws[..n])
  {
    hide TotalSize, GroupOps;
    var first := ws[0];
    var size := SizeOf(first);
    var maxSize := MAX_GROUP;
    if size <= SMALL { maxSize := size + SMALL; }
    n, ops := 1, first.batch.value.ops;
    Singleton(ws);
    while n < |ws|
      invariant 0 < n <= |ws|
      invariant size == TotalSize(ws[..n]) && ops == GroupOps(ws[..n])
      invariant forall k :: 0 < k < n ==> MayJoin(ws, k)
    {
      var w := ws[n];
      OneMore(ws, n);
      if w.sync && !first.sync { break; }
      if w.batch.Some? {
        size := size + w.batch.value.size;
        if size > maxSize { break; }
        ops := ops + w.batch.value.ops;
      }
      n := n + 1;
    }
  }

  /**
   A group is limited to a megabyte, or if its first batch is no larger than 128
   kilobytes, to 128 kilobytes more than that one; it leaves a writer behind only
   for this limit, or because the writer wants to be synced and the first does not.
   */
  lemma GroupSizes(ws: seq<Writer>, n: nat)
    requires ws != [] && ws[0].batch.Some? && IsGroup(ws, n)
    ensures var first := ws[0].batch.value.size;
            var limit := if first <= 131_072 then first + 131_072 else 1_048_576;
            && (1 < n && ws[n - 1].batch.Some? ==> TotalSize(ws[..n]) <= limit)
            && (n < |ws| ==> (ws[n].sync && !ws[0].sync) || (ws[n].batch.Some? && limit < TotalSize(ws[..n + 1])))
  {
    if 1 < n { assert MayJoin(ws, n - 1); }
  }

  lemma Singleton(ws: seq<Writer>)
    requires ws != []
    ensures TotalSize(ws[..1]) == SizeOf(ws[0]) && GroupOps(ws[..1]) == OpsOf(ws[0])
  {
    assert ws[..1][..0] == [] && ws[..1][0] == ws[0];
  }

  lemma OneMore(ws: seq<Writer>, n: nat)
    requires n < |ws|
    ensures TotalSize(ws[..n + 1]) == TotalSize(ws[..n]) + SizeOf(ws[n])
    ensures GroupOps(ws[..n + 1]) == GroupOps(ws[..n]) + OpsOf(ws[n])
  {
    assert ws[..n + 1][..n] == ws[..n] && ws[..n + 1][n] == ws[n];
  }

  // ------------------------------------------------------------ the protocol

  /** One batch inserted into the memtable: whose, its first number, and who led. */
  datatype Applied = Applied(id: nat, first: nat, leader: nat)

  /** The deque is writers[head..]; those before have returned. */
  datatype State = State(head: nat, writers: seq<Writer>, lastSeq: nat, bgError: bool, applied: seq<Applied>)

  /** How logging went. A well-formed batch is then inserted without fail. */
  datatype Outcome = Done | LogError | SyncError

  datatype Step =
    | Arrive(batch: Option<Batch>, sync: bool)
    | Lead(id: nat)
    | Build(id: nat, room: bool, n: nat)
    | Commit(id: nat, outcome: Outcome)

  function CountOf(ws: seq<Writer>): nat { |GroupOps(ws)| }

  /** Numbers for the batches of writers[head..head + n], from `base` on without gaps. */
  function Entries(ws: seq<Writer>, head: nat, n: nat, base: nat): seq<Applied>
    requires head + n <= |ws|
  {
    if n == 0 then []
    else
      var w := ws[head + n - 1];
      Entries(ws, head, n - 1, base) +
      if w.batch.Some? then [Applied(head + n - 1, base + CountOf(ws[head..head + n - 1]), head)] else []
  }

  /** Pop the group and answer for it. */
  function Answer(ws: seq<Writer>, head: nat, n: nat, ok: bool): (r: seq<Writer>)
    requires head + n <= |ws|
    ensures |r| == |ws|
  {
    seq(|ws|, i requires 0 <= i < |ws| => if head <= i < head + n then ws[i].(pc := Returned(ok)) else ws[i])
  }

  predicate Enabled(s: State, step: Step) {
    match step
    case Arrive(_, _) => true
    case Lead(id) => id < |s.writers| && s.writers[id].pc.Waiting? && id == s.head
    case Build(id, room, n) =>
      && id < |s.writers| && s.writers[id].pc.Leading? && (room ==> !s.bgError)
      && (room && s.writers[id].batch.Some? ==> IsGroup(s.writers[id..], n))
    case Commit(id, outcome) =>
      && id < |s.writers| && s.writers[id].pc.Logging? && id + s.writers[id].pc.n <= |s.writers|
      && (outcome.SyncError? ==> s.writers[id].sync)
  }

  function Apply(s: State, step: Step): State
    requires Enabled(s, step)
  {
    match step
    case Arrive(batch, sync) => s.(writers := s.writers + [Writer(batch, sync, Waiting)])
    case Lead(id) => s.(writers := s.writers[id := s.writers[id].(pc := Leading)])
    case Build(id, room, n) =>
      if room && s.writers[id].batch.Some? then
        s.(writers := s.writers[id := s.writers[id].(pc := Logging(n, s.lastSeq))])
      else
        s.(writers := Answer(s.writers, id, 1, room), head := id + 1)
    case Commit(id, outcome) =>
      var n, last := s.writers[id].pc.n, s.writers[id].pc.last;
      s.(writers := Answer(s.writers, id, n, outcome.Done?), head := id + n,
         lastSeq := last + CountOf(s.writers[id..id + n]),
         bgError := s.bgError || outcome.SyncError?,
         applied := if outcome.Done? then s.applied + Entries(s.writers, id, n, last + 1) else s.applied)
  }

  // --------------------------------------------------------------- invariants

  function End(a: Applied, ws: seq<Writer>): nat
    requires a.id < |ws|
  {
    a.first + |OpsOf(ws[a.id])|
  }

  /** A list of applied batches: in queue order, on disjoint ranges from lo to below hi. */
  predicate InOrder(applied: seq<Applied>, ws: seq<Writer>, lo: nat, hi: nat) {
    && (forall x :: 0 <= x < |applied| ==> applied[x].id < |ws| && lo <= applied[x].first && End(applied[x], ws) <= hi)
    && (forall x, y :: 0 <= x < y < |applied| ==> applied[x].id < applied[y].id && End(applied[x], ws) <= applied[y].first)
  }

  /** Batches of one group follow each other without a gap. */
  predicate Follows(a: Applied, b: Applied, ws: seq<Writer>) {
    a.id < |ws| && a.leader == b.leader ==> End(a, ws) == b.first
  }

  predicate Consecutive(applied: seq<Applied>, ws: seq<Writer>) {
    forall x {:trigger FollowsAt(applied, x, ws)} :: 0 < x < |applied| ==> FollowsAt(applied, x, ws)
  }

  predicate FollowsAt(applied: seq<Applied>, x: nat, ws: seq<Writer>)
    requires 0 < x < |applied|
  {
    Follows(applied[x - 1], applied[x], ws)
  }

  lemma JoinOrdered(a: seq<Applied>, b: seq<Applied>, ws: seq<Writer>, lo: nat, mid: nat, hi: nat)
    requires InOrder(a, ws, lo, mid) && InOrder(b, ws, mid, hi) && lo <= mid <= hi
    requires forall x, y :: 0 <= x < |a| && 0 <= y < |b| ==> a[x].id < b[y].id
    ensures InOrder(a + b, ws, lo, hi)
  {
    hide End;
  }

  lemma JoinConsecutive(a: seq<Applied>, b: seq<Applied>, ws: seq<Writer>)
    requires Consecutive(a, ws) && Consecutive(b, ws)
    requires a != [] && b != [] ==> Follows(a[|a| - 1], b[0], ws)
    ensures Consecutive(a + b, ws)
  {
    hide Follows;
    var c := a + b;
    forall x | 0 < x < |c| ensures FollowsAt(c, x, ws) {
      if x > |a| {
        assert FollowsAt(b, x - |a|, ws) && c[x] == b[x - |a|] && c[x - 1] == b[x - |a| - 1];
      } else if x < |a| {
        assert FollowsAt(a, x, ws);
      }
    }
  }

  lemma JoinMentions(a: seq<Applied>, b: seq<Applied>, i: nat)
    ensures Mentions(a, i) || Mentions(b, i) ==> Mentions(a + b, i)
  {
    var c := a + b;
    if Mentions(a, i) {
      var x :| 0 <= x < |a| && a[x].id == i;
      assert c[x].id == i;
    } else if Mentions(b, i) {
      var x :| 0 <= x < |b| && b[x].id == i;
      assert c[|a| + x].id == i;
    }
  }

  /** Each was led from the front, by a syncing leader if it wanted to be synced. */
  predicate Led(a: Applied, ws: seq<Writer>) {
    a.leader <= a.id < |ws| && ws[a.id].batch.Some? && (ws[a.id].sync ==> ws[a.leader].sync)
  }

  predicate Mentions(applied: seq<Applied>, i: nat) { exists x :: 0 <= x < |applied| && applied[x].id == i }

  /** At most the writer at the front is past its wait; all before it have returned. */
  predicate Turns(head: nat, ws: seq<Writer>) {
    && head <= |ws|
    && (forall i :: 0 <= i < |ws| ==> (i < head <==> ws[i].pc.Returned?) && (i > head ==> ws[i].pc.Waiting?))
  }

  predicate Grouped(head: nat, ws: seq<Writer>, lastSeq: nat) {
    head < |ws| && ws[head].pc.Logging? ==>
      && 0 < ws[head].pc.n <= |ws| - head && ws[head].pc.last == lastSeq
      && (forall k :: head <= k < head + ws[head].pc.n && ws[k].sync ==> ws[head].sync)
  }

  predicate Accounted(head: nat, ws: seq<Writer>, applied: seq<Applied>) {
    && (forall x :: 0 <= x < |applied| ==> applied[x].id < head && Led(applied[x], ws) && ws[applied[x].id].pc == Returned(true))
    && (forall i :: 0 <= i < head && i < |ws| && ws[i].batch.Some? && ws[i].pc == Returned(true) ==> Mentions(applied, i))
  }

  predicate Inv(s: State) {
    && Turns(s.head, s.writers)
    && Grouped(s.head, s.writers, s.lastSeq)
    && Accounted(s.head, s.writers, s.applied)
    && InOrder(s.applied, s.writers, 1, s.lastSeq + 1)
    && Consecutive(s.applied, s.writers)
  }

  lemma GroupMore(ws: seq<Writer>, head: nat, n: nat)
    requires 0 < n && head + n <= |ws|
    ensures GroupOps(ws[head..head + n]) == GroupOps(ws[head..head + n - 1]) + OpsOf(ws[head + n - 1])
  {
    hide GroupOps, TotalSize;
    var g := ws[head..];
    OneMore(g, n - 1);
    assert g[..n] == ws[head..head + n] && g[..n - 1] == ws[head..head + n - 1];
  }

  lemma CountMore(ws: seq<Writer>, head: nat, n: nat)
    requires 0 < n && head + n <= |ws|
    ensures CountOf(ws[head..head + n]) == CountOf(ws[head..head + n - 1]) + |OpsOf(ws[head + n - 1])|
  {
    GroupMore(ws, head, n);
    hide GroupOps;
  }

  /** The entries of a group: all its batches, gapless from base. */
  predicate GroupEntries(es: seq<Applied>, ws: seq<Writer>, head: nat, n: nat, base: nat, end: nat) {
    && InOrder(es, ws, base, end) && Consecutive(es, ws) && base <= end
    && (forall x :: 0 <= x < |es| ==> head <= es[x].id < head + n && es[x].leader == head && ws[es[x].id].batch.Some?)
    && (if es == [] then base == end else End(es[|es| - 1], ws) == end)
    && (forall i :: head <= i < head + n && i < |ws| && ws[i].batch.Some? ==> Mentions(es, i))
  }

  lemma OneEntry(a: Applied, ws: seq<Writer>)
    requires a.id < |ws|
    ensures InOrder([a], ws, a.first, End(a, ws)) && Consecutive([a], ws)
  {
  }

  lemma GroupEntriesMore(es: seq<Applied>, ws: seq<Writer>, head: nat, n: nat, base: nat, end: nat)
    requires GroupEntries(es, ws, head, n, base, end) && head + n < |ws|
    ensures ws[head + n].batch.None? ==> GroupEntries(es, ws, head, n + 1, base, end)
    ensures ws[head + n].batch.Some? ==>
              GroupEntries(es + [Applied(head + n, end, head)], ws, head, n + 1, base, end + |OpsOf(ws[head + n])|)
  {
    hide InOrder, Consecutive;
    var b, end' := [Applied(head + n, end, head)], end + |OpsOf(ws[head + n])|;
    if ws[head + n].batch.Some? {
      OneEntry(b[0], ws);
      JoinOrdered(es, b, ws, base, end, end');
      JoinConsecutive(es, b, ws);
      assert Mentions(b, head + n) by { assert b[0].id == head + n; }
      hide Mentions;
      forall i | head <= i < head + n + 1 && ws[i].batch.Some? ensures Mentions(es + b, i) {
        JoinMentions(es, b, i);
      }
    }
  }

  lemma {:induction false} EntriesFacts(ws: seq<Writer>, head: nat, n: nat, base: nat)
    requires head + n <= |ws|
    ensures GroupEntries(Entries(ws, head, n, base), ws, head, n, base, base + CountOf(ws[head..head + n]))
    decreases n
  {
    hide CountOf, GroupEntries, GroupOps;
    if n == 0 {
      NoEntries(ws, head, base);
    } else {
      var es, end := Entries(ws, head, n - 1, base), base + CountOf(ws[head..head + n - 1]);
      EntriesFacts(ws, head, n - 1, base);
      CountMore(ws, head, n);
      GroupEntriesMore(es, ws, head, n - 1, base, end);
      assert ws[head + n - 1].batch.None? ==> Entries(ws, head, n, base) == es;
    }
  }

  lemma NoEntries(ws: seq<Writer>, head: nat, base: nat)
    requires head <= |ws|
    ensures GroupEntries([], ws, head, 0, base, base + CountOf(ws[head..head]))
  {
    assert ws[head..head] == [];
    EmptyCount();
  }

  lemma EmptyCount()
    ensures CountOf([]) == 0
  {
  }

  // ------------------------------------------------------- every step keeps it

  /** The same batches, perhaps with more writers behind them. */
  predicate SameBatches(ws: seq<Writer>, ws': seq<Writer>) {
    |ws| <= |ws'| && forall i :: 0 <= i < |ws| ==> ws'[i].batch == ws[i].batch && ws'[i].sync == ws[i].sync
  }

  lemma OrderKept(applied: seq<Applied>, ws: seq<Writer>, ws': seq<Writer>, lo: nat, hi: nat)
    requires SameBatches(ws, ws') && InOrder(applied, ws, lo, hi) && Consecutive(applied, ws)
    ensures InOrder(applied, ws', lo, hi) && Consecutive(applied, ws')
  {
    assert forall x :: 0 <= x < |applied| ==> End(applied[x], ws') == End(applied[x], ws);
    hide End;
    forall x | 0 < x < |applied| ensures FollowsAt(applied, x, ws') {
      assert FollowsAt(applied, x, ws);
    }
  }

  /** Writers before head keep their answers. */
  lemma AccountKept(head: nat, ws: seq<Writer>, applied: seq<Applied>, ws': seq<Writer>)
    requires SameBatches(ws, ws') && Accounted(head, ws, applied) && head <= |ws|
    requires forall i :: 0 <= i < head ==> ws'[i].pc == ws[i].pc
    ensures Accounted(head, ws', applied)
  {
  }

  lemma ArriveInv(s: State, w: Writer)
    requires Inv(s) && w.pc.Waiting?
    ensures Inv(s.(writers := s.writers + [w]))
  {
    var ws' := s.writers + [w];
    OrderKept(s.applied, s.writers, ws', 1, s.lastSeq + 1);
    AccountKept(s.head, s.writers, s.applied, ws');
    hide InOrder, Consecutive, Accounted;
  }

  /** The front writer moves on without answering. */
  lemma AdvanceInv(s: State, pc: Pc)
    requires Inv(s) && s.head < |s.writers| && !pc.Returned?
    requires Grouped(s.head, s.writers[s.head := s.writers[s.head].(pc := pc)], s.lastSeq)
    ensures Inv(s.(writers := s.writers[s.head := s.writers[s.head].(pc := pc)]))
  {
    var ws' := s.writers[s.head := s.writers[s.head].(pc := pc)];
    OrderKept(s.applied, s.writers, ws', 1, s.lastSeq + 1);
    AccountKept(s.head, s.writers, s.applied, ws');
    hide InOrder, Consecutive, Accounted, Grouped;
  }

  lemma GroupSync(ws: seq<Writer>, head: nat, n: nat)
    requires head < |ws| && ws[head].batch.Some? && IsGroup(ws[head..], n)
    ensures 0 < n <= |ws| - head
    ensures forall k :: head <= k < head + n && ws[k].sync ==> ws[head].sync
  {
    hide TotalSize;
    var g := ws[head..];
    forall k | head < k < head + n && ws[k].sync ensures ws[head].sync {
      assert MayJoin(g, k - head) && g[k - head] == ws[k];
    }
  }

  /** A group is answered with an error, or had nothing to apply. */
  lemma RefuseInv(s: State, n: nat, ok: bool, last: nat, bgError: bool)
    requires Inv(s) && 0 < n && s.head + n <= |s.writers| && s.lastSeq <= last
    requires ok ==> forall i :: s.head <= i < s.head + n ==> s.writers[i].batch.None?
    ensures Inv(State(s.head + n, Answer(s.writers, s.head, n, ok), last, bgError, s.applied))
  {
    var ws' := Answer(s.writers, s.head, n, ok);
    OrderKept(s.applied, s.writers, ws', 1, s.lastSeq + 1);
    AccountKept(s.head, s.writers, s.applied, ws');
    assert InOrder(s.applied, ws', 1, last + 1);
    hide InOrder, Consecutive;
  }

  lemma ApplyOrdered(s: State, n: nat, last: nat, es: seq<Applied>)
    requires Accounted(s.head, s.writers, s.applied) && InOrder(s.applied, s.writers, 1, s.lastSeq + 1) && Consecutive(s.applied, s.writers)
    requires GroupEntries(es, s.writers, s.head, n, s.lastSeq + 1, last + 1)
    ensures InOrder(s.applied + es, s.writers, 1, last + 1) && Consecutive(s.applied + es, s.writers)
  {
    assert forall x :: 0 <= x < |s.applied| ==> Led(s.applied[x], s.writers) && s.applied[x].id < s.head;
    hide InOrder, Consecutive, Accounted, Mentions, End;
    JoinOrdered(s.applied, es, s.writers, 1, s.lastSeq + 1, last + 1);
    JoinConsecutive(s.applied, es, s.writers);
  }

  lemma ApplyInv(s: State, n: nat, last: nat, es: seq<Applied>)
    requires Inv(s) && 0 < n && s.head + n <= |s.writers|
    requires forall k :: s.head <= k < s.head + n && s.writers[k].sync ==> s.writers[s.head].sync
    requires GroupEntries(es, s.writers, s.head, n, s.lastSeq + 1, last + 1)
    ensures Inv(State(s.head + n, Answer(s.writers, s.head, n, true), last, s.bgError, s.applied + es))
  {
    hide InOrder, Consecutive, Accounted, Mentions, End;
    var ws, ws', all := s.writers, Answer(s.writers, s.head, n, true), s.applied + es;
    ApplyOrdered(s, n, last, es);
    OrderKept(all, ws, ws', 1, last + 1);
    AccountApplied(s.head, ws, s.applied, n, es);
  }

  lemma AccountApplied(head: nat, ws: seq<Writer>, applied: seq<Applied>, n: nat, es: seq<Applied>)
    requires Accounted(head, ws, applied) && head + n <= |ws| && n > 0
    requires forall k :: head <= k < head + n && ws[k].sync ==> ws[head].sync
    requires forall x :: 0 <= x < |es| ==> head <= es[x].id < head + n && es[x].leader == head && ws[es[x].id].batch.Some?
    requires forall i :: head <= i < head + n && i < |ws| && ws[i].batch.Some? ==> Mentions(es, i)
    ensures Accounted(head + n, Answer(ws, head, n, true), applied + es)
  {
    var ws', all := Answer(ws, head, n, true), applied + es;
    forall x | 0 <= x < |all| ensures all[x].id < head + n && Led(all[x], ws') && ws'[all[x].id].pc == Returned(true) {
      if x < |applied| { assert all[x] == applied[x]; } else { assert all[x] == es[x - |applied|]; }
    }
    forall i | 0 <= i < head + n && ws'[i].batch.Some? && ws'[i].pc == Returned(true) ensures Mentions(all, i) {
      JoinMentions(applied, es, i);
    }
  }

  lemma CommitInv(s: State, id: nat, outcome: Outcome)
    requires Inv(s) && Enabled(s, Commit(id, outcome))
    ensures Inv(Apply(s, Commit(id, outcome)))
  {
    hide IsGroup, Entries, CountOf, Answer, InOrder, Consecutive, Accounted, GroupEntries, Grouped, Turns, Apply;
    Committing(s, id, outcome);
    CommitIs(s, id, outcome);
    hide Inv, Enabled;
    var n := s.writers[id].pc.n;
    var last := s.lastSeq + CountOf(s.writers[id..id + n]);
    if outcome.Done? {
      EntriesFacts(s.writers, id, n, s.lastSeq + 1);
      ApplyInv(s, n, last, Entries(s.writers, id, n, s.lastSeq + 1));
    } else {
      RefuseInv(s, n, false, last, s.bgError || outcome.SyncError?);
    }
  }

  lemma Committing(s: State, id: nat, outcome: Outcome)
    requires Inv(s) && Enabled(s, Commit(id, outcome))
    ensures id == s.head < |s.writers| && s.writers[id].pc.Logging? && 0 < s.writers[id].pc.n <= |s.writers| - id && s.writers[id].pc.last == s.lastSeq
    ensures forall k :: id <= k < id + s.writers[id].pc.n && s.writers[k].sync ==> s.writers[id].sync
  {
    hide InOrder, Consecutive, Accounted;
  }

  lemma CommitIs(s: State, id: nat, outcome: Outcome)
    requires Inv(s) && Enabled(s, Commit(id, outcome)) && id == s.head
    ensures id < |s.writers| && s.writers[id].pc.Logging? && s.writers[id].pc.last == s.lastSeq
    ensures var n, last := s.writers[id].pc.n, s.lastSeq + CountOf(s.writers[id..id + s.writers[id].pc.n]);
            Apply(s, Commit(id, outcome)) ==
            State(id + n, Answer(s.writers, id, n, outcome.Done?), last, s.bgError || outcome.SyncError?,
                  if outcome.Done? then s.applied + Entries(s.writers, id, n, s.lastSeq + 1) else s.applied)
  {
    hide InOrder, Consecutive, Accounted, CountOf, Entries, Answer;
  }

  lemma StepInv(s: State, step: Step)
    requires Inv(s) && Enabled(s, step)
    ensures Inv(Apply(s, step))
  {
    hide InOrder, Consecutive, Accounted, Led, Entries, CountOf, GroupEntries, IsGroup, Answer;
    match step {
      case Arrive(batch, sync) => ArriveInv(s, Writer(batch, sync, Waiting));
      case Lead(id) => AdvanceInv(s, Leading);
      case Build(id, room, n) =>
        if room && s.writers[id].batch.Some? {
          GroupSync(s.writers, id, n);
          AdvanceInv(s, Logging(n, s.lastSeq));
        } else {
          RefuseInv(s, 1, room, s.lastSeq, s.bgError);
        }
      case Commit(id, outcome) => CommitInv(s, id, outcome);
    }
  }

  // ---------------------------------------------------------------- whole runs

  const INIT := State(0, [], 0, false, [])

  ghost predicate IsRun(run: seq<State>, steps: seq<Step>) {
    && |run| == |steps| + 1 && run[0] == INIT
    && forall i :: 0 <= i < |steps| ==> Enabled(run[i], steps[i]) && run[i + 1] == Apply(run[i], steps[i])
  }

  lemma {:induction false} RunInv(run: seq<State>, steps: seq<Step>, i: nat)
    requires IsRun(run, steps) && i < |run|
    ensures Inv(run[i])
  {
    if i > 0 {
      RunInv(run, steps, i - 1);
      hide Inv, Apply, Enabled;
      StepInv(run[i - 1], steps[i - 1]);
    }
  }

  /** There is one leader, and it is the writer at the front of the queue. */
  lemma OneLeader(run: seq<State>, steps: seq<Step>, i: nat, v: nat, w: nat)
    requires IsRun(run, steps) && i < |run| && v < |run[i].writers| && w < |run[i].writers|
    requires run[i].writers[v].pc.Leading? || run[i].writers[v].pc.Logging?
    requires run[i].writers[w].pc.Leading? || run[i].writers[w].pc.Logging?
    ensures v == w == run[i].head
  {
    RunInv(run, steps, i);
  }

  /**
   Each batch is applied at most once, and exactly once if its writer got OK;
   batches are applied in the order their writers queued up.
   */
  lemma AppliedOnce(run: seq<State>, steps: seq<Step>, i: nat)
    requires IsRun(run, steps) && i < |run|
    ensures var s := run[i];
            && (forall x, y :: 0 <= x < y < |s.applied| ==> s.applied[x].id < s.applied[y].id)
            && (forall w :: 0 <= w < |s.writers| && s.writers[w].batch.Some? ==>
                  (s.writers[w].pc == Returned(true) <==> Mentions(s.applied, w)))
  {
    RunInv(run, steps, i);
    var s := run[i];
    forall w | 0 <= w < |s.writers| && s.writers[w].batch.Some?
      ensures s.writers[w].pc == Returned(true) <==> Mentions(s.applied, w)
    {
      if Mentions(s.applied, w) {
        var x :| 0 <= x < |s.applied| && s.applied[x].id == w;
      }
    }
  }

  /** No number is used twice, within a group there is no gap, and nothing is beyond LastSequence. */
  lemma RangesApart(run: seq<State>, steps: seq<Step>, i: nat, x: nat, y: nat)
    requires IsRun(run, steps) && i < |run| && x < y < |run[i].applied|
    ensures var s := run[i];
            && s.applied[x].id < |s.writers| && s.applied[y].id < |s.writers|
            && 0 < s.applied[x].first && End(s.applied[x], s.writers) <= s.applied[y].first
            && End(s.applied[y], s.writers) <= s.lastSeq + 1
            && (y == x + 1 && s.applied[x].leader == s.applied[y].leader ==> End(s.applied[x], s.writers) == s.applied[y].first)
  {
    RunInv(run, steps, i);
    assert FollowsAt(run[i].applied, y, run[i].writers);
  }

  /** Numbers only go up, also when a group fails. */
  lemma SequenceGrows(s: State, step: Step)
    requires Inv(s) && Enabled(s, step)
    ensures s.lastSeq <= Apply(s, step).lastSeq
    ensures step.Commit? ==> Apply(s, step).lastSeq == s.lastSeq + CountOf(s.writers[s.head..s.head + s.writers[s.head].pc.n])
  {
    hide InOrder, Consecutive, Accounted, CountOf, Entries, IsGroup;
  }

  /** A write that asked for sync was applied under a leader that synced. */
  lemma SyncedWhenAsked(run: seq<State>, steps: seq<Step>, i: nat, x: nat)
    requires IsRun(run, steps) && i < |run| && x < |run[i].applied|
    ensures var s, a := run[i], run[i].applied[x];
            a.leader <= a.id < |s.writers| && (s.writers[a.id].sync ==> s.writers[a.leader].sync)
  {
    RunInv(run, steps, i);
    assert Led(run[i].applied[x], run[i].writers);
  }

  // ------------------------------------------------------- after a sync error

  ghost predicate SyncFailedBefore(steps: seq<Step>, i: nat) {
    exists j :: 0 <= j < i && j < |steps| && steps[j].Commit? && steps[j].outcome.SyncError?
  }

  predicate NoneLogging(ws: seq<Writer>) { forall w :: 0 <= w < |ws| ==> !ws[w].pc.Logging? }

  lemma ErrorStep(s: State, step: Step)
    requires Inv(s) && Enabled(s, step) && (s.bgError ==> NoneLogging(s.writers))
    ensures var s' := Apply(s, step);
            && (s'.bgError <==> s.bgError || (step.Commit? && step.outcome.SyncError?))
            && (s'.bgError ==> NoneLogging(s'.writers))
            && (s.bgError ==> s'.applied == s.applied && s'.lastSeq == s.lastSeq)
  {
    hide InOrder, Consecutive, Accounted, CountOf, Entries, IsGroup;
  }

  /** The background error is set exactly by a log that could not be synced, and for good; nobody is logging then. */
  lemma {:induction false} SyncErrorSticks(run: seq<State>, steps: seq<Step>, i: nat)
    requires IsRun(run, steps) && i < |run|
    ensures run[i].bgError <==> SyncFailedBefore(steps, i)
    ensures run[i].bgError ==> NoneLogging(run[i].writers)
  {
    if i > 0 {
      SyncErrorSticks(run, steps, i - 1);
      RunInv(run, steps, i - 1);
      assert Enabled(run[i - 1], steps[i - 1]) && run[i - 1 + 1] == Apply(run[i - 1], steps[i - 1]);
      hide Inv, Apply, Enabled, NoneLogging;
      ErrorStep(run[i - 1], steps[i - 1]);
    }
  }

  /** From then on nothing is applied and no number is given out. */
  lemma {:induction false} NothingAfterSyncError(run: seq<State>, steps: seq<Step>, i: nat, j: nat)
    requires IsRun(run, steps) && i <= j < |run| && SyncFailedBefore(steps, i)
    ensures run[j].applied == run[i].applied && run[j].lastSeq == run[i].lastSeq
    decreases j - i
  {
    if i < j {
      NothingAfterSyncError(run, steps, i, j - 1);
      SyncErrorSticks(run, steps, j - 1);
      RunInv(run, steps, j - 1);
      assert SyncFailedBefore(steps, j - 1);
      assert Enabled(run[j - 1], steps[j - 1]) && run[j - 1 + 1] == Apply(run[j - 1], steps[j - 1]);
      hide Inv, Apply, Enabled, NoneLogging, SyncFailedBefore;
      ErrorStep(run[j - 1], steps[j - 1]);
    }
  }

  /** While a writer is in the queue, the one at the front can go on, whatever MakeRoomForWrite says. */
  lemma NeverStuck(run: seq<State>, steps: seq<Step>, i: nat) returns (step: Step)
    requires IsRun(run, steps) && i < |run| && exists w :: 0 <= w < |run[i].writers| && !run[i].writers[w].pc.Returned?
    ensures !step.Arrive? && Enabled(run[i], step)
    ensures step.Lead? || step.Build? || Apply(run[i], step).head > run[i].head
  {
    RunInv(run, steps, i);
    var h := run[i].head;
    hide InOrder, Consecutive, Accounted, Entries, CountOf, IsGroup;
    step := match run[i].writers[h].pc
      case Waiting => Lead(h)
      case Leading => Build(h, false, 0)
      case _ => Commit(h, Done);
  }

  // ----------------------------------------------------- what a group writes

  lemma StampMore(ops: seq<(Key, Op)>, more: seq<(Key, Op)>, last: nat)
    ensures Engine.Stamp(ops + more, last) == Engine.Stamp(ops, last) + Engine.Stamp(more, last + |ops|)
  {
    var all := ops + more;
    forall e | e in Engine.Stamp(ops, last) + Engine.Stamp(more, last + |ops|) ensures e in Engine.Stamp(all, last) {
      if e in Engine.Stamp(ops, last) {
        var i :| 0 <= i < |ops| && e == Entry(ops[i].0, last + 1 + i, ops[i].1);
        assert all[i] == ops[i];
      } else {
        var i :| 0 <= i < |more| && e == Entry(more[i].0, last + |ops| + 1 + i, more[i].1);
        assert all[|ops| + i] == more[i];
      }
    }
  }

  /** The entries of the batches in `es`, each from its own first number on. */
  ghost function Written(es: seq<Applied>, ws: seq<Writer>): set<Entry> {
    if es == [] then {}
    else
      var a := es[|es| - 1];
      Written(es[..|es| - 1], ws)
      + if a.id < |ws| && a.first > 0 then Engine.Stamp(OpsOf(ws[a.id]), a.first - 1) else {}
  }

  /**
   The group's one batch, logged and inserted from last + 1 on, writes exactly
   the entries of its members' batches, each at the numbers it is answered for.
   */
  lemma {:induction false} GroupWrites(ws: seq<Writer>, head: nat, n: nat, last: nat)
    requires head + n <= |ws|
    ensures Engine.Stamp(GroupOps(ws[head..head + n]), last) == Written(Entries(ws, head, n, last + 1), ws)
    decreases n
  {
    hide Engine.Stamp, GroupOps, Written;
    if n == 0 {
      NothingWritten(ws, head, last);
    } else {
      var w, es, g := ws[head + n - 1], Entries(ws, head, n - 1, last + 1), GroupOps(ws[head..head + n - 1]);
      GroupWrites(ws, head, n - 1, last);
      GroupMore(ws, head, n);
      StampMore(g, OpsOf(w), last);
      if w.batch.Some? {
        WrittenMore(es, Applied(head + n - 1, last + 1 + |g|, head), ws);
      } else {
        StampNothing(last + |g|);
        assert Entries(ws, head, n, last + 1) == es;
      }
    }
  }

  lemma NothingWritten(ws: seq<Writer>, head: nat, last: nat)
    requires head <= |ws|
    ensures Engine.Stamp(GroupOps(ws[head..head]), last) == {} == Written([], ws)
  {
    assert ws[head..head] == [];
  }

  lemma WrittenMore(es: seq<Applied>, a: Applied, ws: seq<Writer>)
    requires a.id < |ws| && a.first > 0
    ensures Written(es + [a], ws) == Written(es, ws) + Engine.Stamp(OpsOf(ws[a.id]), a.first - 1)
  {
    hide Engine.Stamp;
    assert (es + [a])[..|es|] == es;
  }

  lemma StampNothing(last: nat)
    ensures Engine.Stamp([], last) == {}
  {
  }

  // --------------------------------------------------------- MakeRoomForWrite

  /** What the leader finds at one turn of the loop. */
  datatype Turn = Turn(bgError: bool, level0: nat, usage: nat, imm: bool, created: bool)

  datatype Move = Delay | AwaitFlush | AwaitCompaction | NewLog

  const SLOWDOWN := 8
  const STOP := 12

  /** A write that forces no switch is delayed at most once, when level 0 is close to its limit. */
  predicate Delays(forced: bool, before: seq<Move>, t: Turn) {
    !forced && Delay !in before && t.level0 >= SLOWDOWN
  }

  /** The memtable is over its size, or a switch is forced that has not been made yet. */
  predicate Full(forced: bool, bufferSize: nat, before: seq<Move>, t: Turn) {
    t.usage > bufferSize || (forced && NewLog !in before)
  }

  /** The move that what is found at a turn calls for. */
  predicate CallsFor(forced: bool, bufferSize: nat, before: seq<Move>, t: Turn, m: Move) {
    && !t.bgError
    && (m == Delay <==> Delays(forced, before, t))
    && (m != Delay ==> Full(forced, bufferSize, before, t))
    && (m == AwaitFlush ==> t.imm)
    && (m == AwaitCompaction ==> !t.imm && t.level0 >= STOP)
    && (m == NewLog ==> !t.imm && t.level0 < STOP && t.created)
  }

  predicate AllCalledFor(forced: bool, bufferSize: nat, turns: seq<Turn>, moves: seq<Move>) {
    |moves| <= |turns| && forall i :: 0 <= i < |moves| ==> CallsFor(forced, bufferSize, moves[..i], turns[i], moves[i])
  }

  lemma OneMoreMove(forced: bool, bufferSize: nat, turns: seq<Turn>, moves: seq<Move>, m: Move)
    requires AllCalledFor(forced, bufferSize, turns, moves) && |moves| < |turns| && CallsFor(forced, bufferSize, moves, turns[|moves|], m)
    ensures AllCalledFor(forced, bufferSize, turns, moves + [m])
  {
    hide CallsFor;
    var more := moves + [m];
    assert more[..|moves|] == moves && forall i :: 0 <= i < |moves| ==> more[..i] == moves[..i];
  }

  /**
   The loop, over what it finds at each turn; None if it is still waiting when
   they run out. Each move is the one called for, the memtable being switched
   only when it is full or a switch is forced, the previous one is flushed and no
   error is recorded; the call returns at the first turn that calls for none.
   */
  method MakeRoomForWrite(forced: bool, bufferSize: nat, turns: seq<Turn>) returns (ok: Option<bool>, moves: seq<Move>)
    ensures |moves| <= |turns| && (ok == None <==> |moves| == |turns|)
    ensures AllCalledFor(forced, bufferSize, turns, moves)
    ensures |moves| < |turns| ==> forall m :: !CallsFor(forced, bufferSize, moves, turns[|moves|], m)
    ensures |moves| < |turns| ==>
              (ok == Some(true) <==> !turns[|moves|].bgError && !Full(forced, bufferSize, moves, turns[|moves|]))
    ensures forced && ok == Some(true) ==> NewLog in moves
  {
    var force, mayDelay := forced, !forced;
    moves := [];
    assert AllCalledFor(forced, bufferSize, turns, moves);
    hide AllCalledFor;
    while |moves| < |turns|
      invariant |moves| <= |turns|
      invariant force <==> forced && NewLog !in moves
      invariant mayDelay <==> !forced && Delay !in moves
      invariant AllCalledFor(forced, bufferSize, turns, moves)
      decreases |turns| - |moves|
    {
      var t := turns[|moves|];
      if t.bgError {
        return Some(false), moves;
      } else if mayDelay && t.level0 >= SLOWDOWN {
        OneMoreMove(forced, bufferSize, turns, moves, Delay);
        moves := moves + [Delay];
        mayDelay := false;
      } else if !force && t.usage <= bufferSize {
        return Some(true), moves;
      } else if t.imm {
        OneMoreMove(forced, bufferSize, turns, moves, AwaitFlush);
        moves := moves + [AwaitFlush];
      } else if t.level0 >= STOP {
        OneMoreMove(forced, bufferSize, turns, moves, AwaitCompaction);
        moves := moves + [AwaitCompaction];
      } else if !t.created {
        return Some(false), moves;
      } else {
        OneMoreMove(forced, bufferSize, turns, moves, NewLog);
        moves := moves + [NewLog];
        force := false;
      }
    }
    ok := None;
  }
}

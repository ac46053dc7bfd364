/**
 Iterators of the engine: DBIter over the merged entries of the memtables and
 the version that a reader holds.
 */
module Readers {
  import opened Bytes
  import opened Versions
  import opened DbIter
  import opened Engine
  import EngineProofs

  /** The merged list of a reader's view, to whose memtable `later` writes have been added. */
  ghost predicate Merges(list: seq<Entry>, p: View, later: set<Entry>) {
    SortedEntries(list) && (set i | 0 <= i < |list| :: list[i]) == Union(ViewLayers(p)) + later
  }

  lemma ViewIsRead(p: View, history: set<Entry>, later: set<Entry>, k: Key)
    requires ViewOk(p, history) && ViewSees(p, history) && UniqueSeq(history + later)
    requires forall e :: e in later ==> p.seqno < e.seqno
    ensures Read(Union(ViewLayers(p)) + later, k, p.seqno) == Read(history, k, p.seqno)
  {
    hide ViewLayers, Layered;
    var held := Union(ViewLayers(p));
    assert UniqueSeq(held) && UniqueSeq(held + later);
    SameVisible(held + later, held, k, p.seqno);
    GetFindsLatest(ViewLayers(p), k, p.seqno);
    assert Seen(Get(ViewLayers(p), k, p.seqno)) == Read(history, k, p.seqno);
  }

  /** In any run an iterator misses no key that has a value, and shows that value. */
  lemma IteratorMissesNone(run: seq<DB>, steps: seq<Step>, i: nat, id: nat, later: set<Entry>, list: seq<Entry>)
    requires EngineProofs.IsRun(run, steps) && run[0] == Fresh() && i < |run|
    requires id in run[i].pins && Merges(list, run[i].pins[id], later) && UniqueSeq(run[i].history + later)
    requires forall e :: e in later ==> run[i].pins[id].seqno < e.seqno
    ensures var t := run[i].pins[id].seqno;
            && (forall k :: Read(run[i].history, k, t).Some? ==> Live(list, t, k))
            && (forall j :: Shows(list, t, j) && Read(run[i].history, list[j].key, t).Some? ==>
                  Read(run[i].history, list[j].key, t) == Some(list[j].op.value))
  {
    EngineProofs.RunInv(run, steps, i);
    var p, h := run[i].pins[id], run[i].history;
    EngineProofs.PinnedOk(run[i], id);
    assert Union(ViewLayers(p)) <= h;
    hide Inv, ViewLayers, Read, Live, Shows, ViewOk, Union;
    var es := Union(ViewLayers(p)) + later;
    assert UniqueSeq(es);
    hide UniqueSeq;
    forall k | Read(h, k, p.seqno).Some? ensures Live(list, p.seqno, k) && Read(es, k, p.seqno) == Read(h, k, p.seqno) {
      ViewValueRead(p, h, later, k);
      LiveIsRead(list, p.seqno, k, es);
    }
    forall j | Shows(list, p.seqno, j) && Read(h, list[j].key, p.seqno).Some?
      ensures 0 <= j < |list| && Read(h, list[j].key, p.seqno) == Some(list[j].op.value)
    {
      ShowsValue(list, p.seqno, j);
      LiveIsRead(list, p.seqno, list[j].key, es);
    }
  }

  lemma ViewValueRead(p: View, history: set<Entry>, later: set<Entry>, k: Key)
    requires ViewOk(p, history) && UniqueSeq(history + later) && Read(history, k, p.seqno).Some?
    requires forall e :: e in later ==> p.seqno < e.seqno
    ensures Read(Union(ViewLayers(p)) + later, k, p.seqno) == Read(history, k, p.seqno)
  {
    var held := Union(ViewLayers(p));
    assert held <= history && UniqueSeq(history) && UniqueSeq(held) && UniqueSeq(held + later);
    hide ViewLayers, Layered, Union, ViewHolds;
    EngineProofs.ViewValue(p, history, k);
    SameVisible(held + later, held, k, p.seqno);
  }

  /**
   An iterator made on a reader's view shows exactly the keys that the history
   of writes has at the reader's sequence number, with the values it has there,
   though its memtable goes on filling and compactions drop tables it holds.
   */
  lemma IteratorSeesHistory(run: seq<DB>, steps: seq<Step>, i: nat, id: nat, later: set<Entry>, list: seq<Entry>)
    requires EngineProofs.IsRun(run, steps) && run[0] == Fresh() && i < |run| && EngineProofs.AllCover(run, steps, i)
    requires id in run[i].pins && Merges(list, run[i].pins[id], later) && UniqueSeq(run[i].history + later)
    requires forall e :: e in later ==> run[i].pins[id].seqno < e.seqno
    ensures var t := run[i].pins[id].seqno;
            && (forall k :: Live(list, t, k) <==> Read(run[i].history, k, t).Some?)
            && (forall j :: Shows(list, t, j) ==> Read(run[i].history, list[j].key, t) == Some(list[j].op.value))
  {
    EngineProofs.RunReads(run, steps, i);
    var p, h := run[i].pins[id], run[i].history;
    assert ViewOk(p, h) && ViewSees(p, h);
    hide Inv, ReadsOk, ViewSees, ViewLayers, Read, Live, Shows;
    var es := Union(ViewLayers(p)) + later;
    assert UniqueSeq(es);
    hide ViewOk, Union, UniqueSeq;
    forall k ensures Live(list, p.seqno, k) <==> Read(h, k, p.seqno).Some? {
      ViewIsRead(p, h, later, k);
      LiveIsRead(list, p.seqno, k, es);
    }
    forall j | Shows(list, p.seqno, j) ensures 0 <= j < |list| && Read(h, list[j].key, p.seqno) == Some(list[j].op.value) {
      ShowsValue(list, p.seqno, j);
      ViewIsRead(p, h, later, list[j].key);
      LiveIsRead(list, p.seqno, list[j].key, es);
    }
  }

  lemma ShowsValue(list: seq<Entry>, t: nat, j: int)
    requires Shows(list, t, j)
    ensures 0 <= j < |list| && list[j].op.Put?
  {
  }

  lemma {:induction false} AllTruthful(list: seq<Entry>, t: nat, from: Cursor, calls: seq<Call>, reports: seq<Report>, n: nat)
    requires |calls| == |reports| && Tracks(list, t, from, calls, reports) && n < |reports|
    ensures Truthful(list, t, reports[n])
  {
    var m := |calls| - 1;
    if n < m { AllTruthful(list, t, from, calls[..m], reports[..m], n); }
  }

  /** Whatever calls are made, every pair reported is a key and value of the history. */
  method Iterate(ghost run: seq<DB>, ghost steps: seq<Step>, ghost i: nat, ghost id: nat, ghost later: set<Entry>,
                 list: seq<Entry>, sequence: nat, calls: seq<Call>)
    returns (reports: seq<Report>)
    requires EngineProofs.IsRun(run, steps) && run[0] == Fresh() && i < |run| && EngineProofs.AllCover(run, steps, i)
    requires id in run[i].pins && Merges(list, run[i].pins[id], later) && UniqueSeq(run[i].history + later)
    requires sequence == run[i].pins[id].seqno && forall e :: e in later ==> sequence < e.seqno
    ensures |reports| == |calls| && Tracks(list, sequence, None, calls, reports)
    ensures forall k :: Live(list, sequence, k) <==> Read(run[i].history, k, sequence).Some?
    ensures forall n :: 0 <= n < |reports| && reports[n].Some? ==>
              Read(run[i].history, reports[n].value.0, sequence) == Some(reports[n].value.1)
  {
    reports := Drive(list, sequence, calls);
    IteratorSeesHistory(run, steps, i, id, later, list);
    hide EngineProofs.IsRun, EngineProofs.AllCover, Fresh, Merges, UniqueSeq, Read, Live, Shows, Tracks;
    forall n | 0 <= n < |reports| && reports[n].Some?
      ensures Read(run[i].history, reports[n].value.0, sequence) == Some(reports[n].value.1)
    {
      AllTruthful(list, sequence, None, calls, reports, n);
      var j :| Shows(list, sequence, j) && list[j].key == reports[n].value.0 && list[j].op.value == reports[n].value.1;
    }
  }
}

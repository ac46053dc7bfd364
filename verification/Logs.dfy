/**
 Write-ahead logs: a log is a list of batches, each with the sequence number of
 its first update. Record framing is below this level.
 */
module Logs {
  import opened Versions

  datatype Record = Record(first: nat, ops: seq<(Key, Op)>)

  ghost function BatchOf(r: Record): set<Entry> {
    set i | 0 <= i < |r.ops| :: Entry(r.ops[i].0, r.first + i, r.ops[i].1)
  }

  ghost function LogEntries(rs: seq<Record>): set<Entry> {
    if rs == [] then {} else LogEntries(rs[..|rs| - 1]) + BatchOf(rs[|rs| - 1])
  }

  /** One past the last number of a log that follows the number `start`. */
  function EndOf(rs: seq<Record>, start: nat): nat {
    if rs == [] then start else rs[|rs| - 1].first + |rs[|rs| - 1].ops|
  }

  /** Batches are logged in the order of their numbers, from `from` on. */
  predicate Ascending(rs: seq<Record>, from: nat) {
    && (forall i :: 0 <= i < |rs| ==> from <= rs[i].first)
    && (forall i, j :: 0 <= i < j < |rs| ==> rs[i].first + |rs[i].ops| <= rs[j].first)
  }

  /** Later logs go on where earlier ones stopped. */
  ghost predicate InOrder(logs: map<nat, seq<Record>>, minLog: nat, start: nat) {
    && (forall n :: n in logs && minLog <= n ==> Ascending(logs[n], start))
    && (forall n, m :: n in logs && m in logs && minLog <= n < m ==> Ascending(logs[m], EndOf(logs[n], start)))
  }

  /** `left` is what is readable of `rs` after some of its records are lost. */
  ghost predicate Remains(left: seq<Record>, rs: seq<Record>) {
    || left == []
    || (rs != [] && Remains(left, rs[..|rs| - 1]))
    || (rs != [] && left[|left| - 1] == rs[|rs| - 1] && Remains(left[..|left| - 1], rs[..|rs| - 1]))
  }

  lemma BatchBounds(r: Record)
    ensures forall e :: e in BatchOf(r) ==> r.first <= e.seqno < r.first + |r.ops|
  {
  }

  lemma LogSnoc(rs: seq<Record>, r: Record)
    ensures LogEntries(rs + [r]) == LogEntries(rs) + BatchOf(r)
    ensures EndOf(rs + [r], 1) == r.first + |r.ops|
  {
    assert (rs + [r])[..|rs|] == rs;
  }

  lemma AscendingSnoc(rs: seq<Record>, r: Record, from: nat)
    requires Ascending(rs, from) && from <= r.first && EndOf(rs, from) <= r.first
    ensures Ascending(rs + [r], from)
  {
    var more := rs + [r];
    forall i, j | 0 <= i < j < |more| ensures more[i].first + |more[i].ops| <= more[j].first {
      assert j < |rs| ==> more[i] == rs[i] && more[j] == rs[j];
      assert i < |rs| - 1 ==> rs[i].first + |rs[i].ops| <= rs[|rs| - 1].first;
    }
  }

  lemma EndGrows(rs: seq<Record>, from: nat)
    requires Ascending(rs, from)
    ensures from <= EndOf(rs, from) && forall i :: 0 <= i < |rs| ==> rs[i].first + |rs[i].ops| <= EndOf(rs, from)
  {
  }

  /** What remains of a log is in order, within the log's numbers, and has none but its entries. */
  lemma {:induction false} RemainsAscend(left: seq<Record>, rs: seq<Record>, from: nat)
    requires Remains(left, rs) && Ascending(rs, from)
    ensures Ascending(left, from) && EndOf(left, from) <= EndOf(rs, from) && LogEntries(left) <= LogEntries(rs)
    ensures forall r :: r in left ==> r in rs
    decreases |rs|
  {
    if left != [] {
      var init := rs[..|rs| - 1];
      EndGrows(rs, from);
      assert rs == init + [rs[|rs| - 1]];
      if Remains(left, init) {
        RemainsAscend(left, init, from);
        assert left[|left| - 1] in rs;
      } else {
        var most, r := left[..|left| - 1], left[|left| - 1];
        RemainsAscend(most, init, from);
        assert left == most + [r];
        assert EndOf(init, from) <= r.first;
        AscendingSnoc(most, r, from);
      }
    }
  }

  /** Logs in order stay in order whatever is lost of them. */
  lemma RemainsInOrder(left: map<nat, seq<Record>>, logs: map<nat, seq<Record>>, minLog: nat, start: nat)
    requires InOrder(logs, minLog, start) && left.Keys == logs.Keys && forall n :: n in logs ==> Remains(left[n], logs[n])
    ensures InOrder(left, minLog, start)
    ensures forall n :: n in left && minLog <= n ==> EndOf(left[n], start) <= EndOf(logs[n], start)
  {
    forall n | n in left && minLog <= n
      ensures Ascending(left[n], start) && EndOf(left[n], start) <= EndOf(logs[n], start)
    {
      RemainsAscend(left[n], logs[n], start);
    }
    forall n, m | n in left && m in left && minLog <= n < m ensures Ascending(left[m], EndOf(left[n], start)) {
      RemainsAscend(left[m], logs[m], EndOf(logs[n], start));
    }
  }
}

/**
 The multi-version entries of the storage engine and what a read at a
 sequence number means.

 A user key is modelled by its place in the user comparator's total order:
 byte strings are countable, so every such order embeds in the rationals, and
 `<` and `==` on reals stand for the comparator.
 */
module Versions {
  import opened Bytes

  type Key = real

  datatype Op = Put(value: Bytes) | Delete
  datatype Entry = Entry(key: Key, seqno: nat, op: Op)

  // (2^56) - 1, the largest sequence number an internal key can carry.
  const MAX_SEQUENCE: nat := 0xFF_FFFF_FFFF_FFFF

  /** Each write gets a sequence number of its own. */
  ghost predicate UniqueSeq(es: set<Entry>) {
    forall e, f :: e in es && f in es && e.seqno == f.seqno ==> e == f
  }

  /** `e` is the version of `k` that a read at sequence `t` must find. */
  ghost predicate Newest(es: set<Entry>, k: Key, t: nat, e: Entry) {
    && e in es && e.key == k && e.seqno <= t
    && forall f :: f in es && f.key == k && f.seqno <= t ==> f.seqno <= e.seqno
  }

  ghost predicate Visible(es: set<Entry>, k: Key, t: nat) {
    exists e :: e in es && e.key == k && e.seqno <= t
  }

  ghost function Latest(es: set<Entry>, k: Key, t: nat): Option<Entry> {
    if e :| Newest(es, k, t, e) then Some(e) else None
  }

  /** A tombstone and an absent key read the same. */
  function Seen(o: Option<Entry>): Option<Bytes> {
    if o.Some? && o.value.op.Put? then Some(o.value.op.value) else None
  }

  /** The simple specification: the value of `k` at sequence `t`. */
  ghost function Read(es: set<Entry>, k: Key, t: nat): Option<Bytes> {
    Seen(Latest(es, k, t))
  }

  lemma {:induction false} NewestExists(es: set<Entry>, k: Key, t: nat)
    requires Visible(es, k, t)
    ensures exists e :: Newest(es, k, t, e)
    decreases es
  {
    var e :| e in es && e.key == k && e.seqno <= t;
    var rest := es - {e};
    if Visible(rest, k, t) {
      NewestExists(rest, k, t);
      var f :| Newest(rest, k, t, f);
      assert Newest(es, k, t, if f.seqno < e.seqno then e else f);
    } else {
      assert Newest(es, k, t, e);
    }
  }

  lemma LatestIs(es: set<Entry>, k: Key, t: nat, e: Entry)
    requires UniqueSeq(es) && Newest(es, k, t, e)
    ensures Latest(es, k, t) == Some(e)
  {
  }

  lemma LatestNone(es: set<Entry>, k: Key, t: nat)
    ensures Latest(es, k, t) == None <==> !Visible(es, k, t)
  {
    if Visible(es, k, t) { NewestExists(es, k, t); }
  }

  /** Two sets whose visible versions of `k` coincide are read alike. */
  lemma SameVisible(a: set<Entry>, b: set<Entry>, k: Key, t: nat)
    requires UniqueSeq(a) && UniqueSeq(b)
    requires forall e: Entry :: e.key == k && e.seqno <= t ==> (e in a <==> e in b)
    ensures Latest(a, k, t) == Latest(b, k, t)
  {
    LatestNone(a, k, t);
    LatestNone(b, k, t);
    if Visible(a, k, t) {
      NewestExists(a, k, t);
      var e :| Newest(a, k, t, e);
      LatestIs(a, k, t, e);
      assert Newest(b, k, t, e);
      LatestIs(b, k, t, e);
    } else {
      assert !Visible(b, k, t);
    }
  }

  /**
   Newer entries over older ones: if every entry of `top` is newer than every
   entry of `bottom`, the bottom matters only where the top shows nothing.
   */
  lemma ReadOver(top: set<Entry>, bottom: set<Entry>, k: Key, t: nat)
    requires UniqueSeq(top + bottom)
    requires forall e, f :: e in top && f in bottom && e.key == f.key ==> f.seqno < e.seqno
    ensures Latest(top + bottom, k, t) ==
            if Visible(top, k, t) then Latest(top, k, t) else Latest(bottom, k, t)
  {
    var all := top + bottom;
    assert UniqueSeq(top) && UniqueSeq(bottom);
    if Visible(top, k, t) {
      NewestExists(top, k, t);
      var e :| Newest(top, k, t, e);
      LatestIs(top, k, t, e);
      assert Newest(all, k, t, e);
      LatestIs(all, k, t, e);
    } else {
      SameVisible(all, bottom, k, t);
    }
  }

  // ---------------------------------------------------------------- layers

  /** The entries of all layers. */
  ghost function Union(layers: seq<set<Entry>>): set<Entry> {
    if layers == [] then {} else layers[0] + Union(layers[1..])
  }

  /** Newer layers hold larger sequence numbers per key. */
  ghost predicate Layered(layers: seq<set<Entry>>) {
    forall i, j, e, f :: 0 <= i < j < |layers| && e in layers[i] && f in layers[j] && e.key == f.key
      ==> f.seqno < e.seqno
  }

  /** DBImpl::Get: the first layer that has a version at or below `t` answers. */
  ghost function Get(layers: seq<set<Entry>>, k: Key, t: nat): Option<Entry> {
    if layers == [] then None
    else if Visible(layers[0], k, t) then Latest(layers[0], k, t)
    else Get(layers[1..], k, t)
  }

  lemma {:induction false} InUnion(layers: seq<set<Entry>>, e: Entry)
    ensures e in Union(layers) <==> exists i :: 0 <= i < |layers| && e in layers[i]
  {
    if layers != [] {
      InUnion(layers[1..], e);
      if e in Union(layers[1..]) {
        var i :| 0 <= i < |layers[1..]| && e in layers[1..][i];
        assert e in layers[i + 1];
      }
      if i :| 0 <= i < |layers| && e in layers[i] {
        if i > 0 { assert e in layers[1..][i - 1]; }
      }
    }
  }

  /** Searching the layers in order finds what a search of everything would. */
  lemma {:induction false} GetFindsLatest(layers: seq<set<Entry>>, k: Key, t: nat)
    requires Layered(layers) && UniqueSeq(Union(layers))
    ensures Get(layers, k, t) == Latest(Union(layers), k, t)
  {
    if layers == [] {
      LatestNone({}, k, t);
    } else {
      var rest := layers[1..];
      assert Layered(rest);
      forall e, f | e in layers[0] && f in Union(rest) && e.key == f.key ensures f.seqno < e.seqno {
        InUnion(rest, f);
        var j :| 0 <= j < |rest| && f in rest[j];
        assert f in layers[j + 1];
      }
      ReadOver(layers[0], Union(rest), k, t);
      assert UniqueSeq(Union(rest));
      GetFindsLatest(rest, k, t);
    }
  }
}

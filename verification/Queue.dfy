/** queue.h: intrusive circular lists. A head and the links after it form one ring. */
module Queue {
  class Link {
    var next: Link
    var prev: Link

    /** QUEUE_INIT. */
    constructor ()
      ensures Ring(this, [])
    {
      next, prev := this, this;
    }
  }

  ghost predicate Distinct(s: seq<Link>) {
    forall i, j :: 0 <= i < j < |s| ==> s[i] != s[j]
  }

  /** c[i] and the link after it, cyclically, point at each other. */
  ghost predicate Joined(c: seq<Link>, i: nat)
    requires i < |c|
    reads c
  {
    var j := if i + 1 < |c| then i + 1 else 0;
    c[i].next == c[j] && c[j].prev == c[i]
  }

  ghost predicate Cycle(c: seq<Link>)
    reads c
  {
    Distinct(c) && forall i {:trigger Joined(c, i)} :: 0 <= i < |c| ==> Joined(c, i)
  }

  /** The list with head h holds s, in this order. */
  ghost predicate Ring(h: Link, s: seq<Link>)
    reads h, s
  {
    Cycle([h] + s)
  }

  /** QUEUE_EMPTY. */
  method Empty(h: Link, ghost s: seq<Link>) returns (r: bool)
    requires Ring(h, s)
    ensures r == (s == [])
  {
    assert Joined([h] + s, 0);
    r := h == h.next;
  }

  /** QUEUE_HEAD of a list that is not empty. */
  method Head(h: Link, ghost s: seq<Link>) returns (q: Link)
    requires Ring(h, s) && s != []
    ensures q == s[0]
  {
    assert Joined([h] + s, 0);
    q := h.next;
  }

  /** QUEUE_INSERT_TAIL. */
  method InsertTail(h: Link, q: Link, ghost s: seq<Link>)
    requires Ring(h, s) && q != h && q !in s
    modifies h, q, s
    ensures Ring(h, s + [q])
  {
    ghost var c, t := [h] + s, [h] + (s + [q]);
    assert Joined(c, |c| - 1);
    assert forall i :: 0 <= i < |c| ==> t[i] == c[i] && c[i] != q;
    assert Distinct(t);
    q.next := h;
    q.prev := h.prev;
    q.prev.next := q;
    h.prev := q;
    forall i | 0 <= i < |t| ensures Joined(t, i) {
      assert i < |c| ==> old(Joined(c, i));
    }
  }

  /** QUEUE_REMOVE: the link leaves the list but keeps its own pointers. */
  method Remove(h: Link, q: Link, ghost s: seq<Link>, ghost k: nat)
    requires Ring(h, s) && k < |s| && s[k] == q
    modifies h, s
    ensures Ring(h, s[..k] + s[k + 1..])
    ensures q.next == old(q.next) && q.prev == old(q.prev)
  {
    ghost var c, t := [h] + s, [h] + (s[..k] + s[k + 1..]);
    assert Joined(c, k) && Joined(c, k + 1);
    assert forall i :: 0 <= i < |t| ==> t[i] == c[if i <= k then i else i + 1];
    assert Distinct(t);
    q.prev.next := q.next;
    q.next.prev := q.prev;
    forall i | 0 <= i < |t| ensures Joined(t, i) {
      assert old(Joined(c, if i <= k then i else i + 1));
    }
  }

  /** QUEUE_MOVE: everything on h's list goes to n's, in the same order. */
  method Move(h: Link, n: Link, ghost s: seq<Link>)
    requires Ring(h, s) && n != h && n !in s
    modifies h, n, s
    ensures Ring(h, []) && Ring(n, s)
  {
    ghost var c, t := [h] + s, [n] + s;
    assert Joined(c, 0) && Joined(c, |c| - 1);
    assert forall i :: 0 < i < |c| ==> t[i] == c[i] && c[i] == s[i - 1] && c[i] != n;
    assert Distinct(t);
    if h == h.next {
      n.next, n.prev := n, n;
    } else {
      var q := h.next;
      n.prev := h.prev;
      n.prev.next := n;
      n.next := q;
      h.prev := q.prev;
      h.prev.next := h;
      q.prev := n;
    }
    forall i | 0 <= i < |t| ensures Joined(t, i) {
      assert old(Joined(c, i));
    }
  }
}

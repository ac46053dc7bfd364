/**
 The order of a binary heap laid out level by level: entry i's parent is entry
 (i - 1) / 2. What a swap of a parent and a child does to it.
 */
module HeapOrder {
  /** Irreflexive, transitive, and incomparability is transitive. */
  ghost predicate StrictWeakOrder<K(!new)>(less: (K, K) -> bool) {
    && (forall a :: !less(a, a))
    && (forall a, b, c :: less(a, b) && less(b, c) ==> less(a, c))
    && (forall a, b, c :: less(a, c) ==> less(a, b) || less(b, c))
  }

  function Up(i: nat): (p: nat)
    requires i > 0
    ensures p < i && (i == 2 * p + 1 || i == 2 * p + 2)
  {
    (i - 1) / 2
  }

  /** The edge from i to its parent is in order. */
  predicate Edge<K>(less: (K, K) -> bool, ks: seq<K>, i: nat)
    requires 0 < i < |ks|
  {
    !less(ks[i], ks[Up(i)])
  }

  predicate Ordered<K>(less: (K, K) -> bool, ks: seq<K>) {
    forall i {:trigger Edge(less, ks, i)} :: 0 < i < |ks| ==> Edge(less, ks, i)
  }

  /** In order except for the edges at x, across which the order still holds. */
  predicate Around<K>(less: (K, K) -> bool, ks: seq<K>, x: nat) {
    && x < |ks|
    && (forall i {:trigger Edge(less, ks, i)} :: 0 < i < |ks| && i != x && Up(i) != x ==> Edge(less, ks, i))
    && (x > 0 ==> forall i {:trigger Edge(less, ks, i)} :: 0 < i < |ks| && Up(i) == x ==> !less(ks[i], ks[Up(x)]))
  }

  /** Nothing below x is smaller than x. */
  predicate DownDone<K>(less: (K, K) -> bool, ks: seq<K>, x: nat) {
    forall i {:trigger Edge(less, ks, i)} :: 0 < i < |ks| && Up(i) == x ==> Edge(less, ks, i)
  }

  /** No child of x is smaller than k. */
  predicate NoneBelow<K>(less: (K, K) -> bool, ks: seq<K>, x: nat, k: K) {
    forall i {:trigger Edge(less, ks, i)} :: 0 < i < |ks| && Up(i) == x ==> !less(ks[i], k)
  }

  function Swapped<K>(ks: seq<K>, p: nat, c: nat): (r: seq<K>)
    requires p < |ks| && c < |ks|
    ensures |r| == |ks|
  {
    ks[p := ks[c]][c := ks[p]]
  }

  /** Moving x's smaller child c up. */
  lemma SwapDown<K(!new)>(less: (K, K) -> bool, ks: seq<K>, x: nat, c: nat)
    requires StrictWeakOrder(less) && Around(less, ks, x) && 0 < c < |ks| && Up(c) == x
    requires less(ks[c], ks[x])
    requires NoneBelow(less, ks, x, ks[c])
    ensures Around(less, Swapped(ks, x, c), c)
  {
    var r := Swapped(ks, x, c);
    assert !Edge(less, ks, c);
    forall i | 0 < i < |r| && i != c && Up(i) != c ensures Edge(less, r, i) {
      assert Edge(less, ks, i) || i == x || Up(i) == x;
    }
    forall i | 0 < i < |r| && Up(i) == c ensures !less(r[i], r[Up(c)]) {
      assert Edge(less, ks, i);
    }
  }

  /** Moving x above its larger parent. */
  lemma SwapUp<K(!new)>(less: (K, K) -> bool, ks: seq<K>, x: nat)
    requires StrictWeakOrder(less) && Around(less, ks, x) && DownDone(less, ks, x) && x > 0
    requires less(ks[x], ks[Up(x)])
    ensures Around(less, Swapped(ks, Up(x), x), Up(x)) && DownDone(less, Swapped(ks, Up(x), x), Up(x))
  {
    var p, r := Up(x), Swapped(ks, Up(x), x);
    forall i | 0 < i < |r| && i != p && Up(i) != p ensures Edge(less, r, i) {
      assert Edge(less, ks, i);
    }
    forall i | 0 < i < |r| && Up(i) == p ensures Edge(less, r, i) {
      assert i == x || Edge(less, ks, i);
    }
    if p > 0 {
      assert Edge(less, ks, p);
      forall i | 0 < i < |r| && Up(i) == p ensures !less(r[i], r[Up(p)]) {
        assert i == x || Edge(less, ks, i);
      }
    }
  }

  lemma SiftDone<K(!new)>(less: (K, K) -> bool, ks: seq<K>, x: nat)
    requires Around(less, ks, x) && DownDone(less, ks, x) && (x > 0 ==> !less(ks[x], ks[Up(x)]))
    ensures Ordered(less, ks)
  {
  }

  /** Appending an entry, or putting any key in place of entry x, leaves the rest in order. */
  lemma AppendAround<K(!new)>(less: (K, K) -> bool, ks: seq<K>, k: K)
    requires Ordered(less, ks)
    ensures Around(less, ks + [k], |ks|) && DownDone(less, ks + [k], |ks|)
  {
    forall i | 0 < i < |ks| + 1 ensures Up(i) != |ks| {
      assert Up(i) < i;
    }
    forall i | 0 < i < |ks| ensures Edge(less, ks + [k], i) {
      assert Edge(less, ks, i);
    }
  }

  lemma ReplaceAround<K(!new)>(less: (K, K) -> bool, ks: seq<K>, x: nat, k: K)
    requires StrictWeakOrder(less) && Ordered(less, ks) && x < |ks|
    ensures Around(less, ks[x := k], x)
  {
    var r := ks[x := k];
    forall i | 0 < i < |r| && i != x && Up(i) != x ensures Edge(less, r, i) {
      assert Edge(less, ks, i);
    }
    if x > 0 {
      assert Edge(less, ks, x);
      forall i | 0 < i < |r| && Up(i) == x ensures !less(r[i], r[Up(x)]) {
        assert Edge(less, ks, i);
      }
    }
  }

  lemma PrefixOrdered<K(!new)>(less: (K, K) -> bool, ks: seq<K>, n: nat)
    requires Ordered(less, ks) && n <= |ks|
    ensures Ordered(less, ks[..n])
  {
    forall i | 0 < i < n ensures Edge(less, ks[..n], i) {
      assert Edge(less, ks, i);
    }
  }

  /** The root is a least entry. */
  lemma {:induction false} RootLeast<K(!new)>(less: (K, K) -> bool, ks: seq<K>, i: nat)
    requires StrictWeakOrder(less) && Ordered(less, ks) && i < |ks|
    ensures !less(ks[i], ks[0])
  {
    if i > 0 {
      assert Edge(less, ks, i);
      RootLeast(less, ks, Up(i));
    }
  }

  // ------------------------------------------------------------------ the path

  /** The slot, counting the root as 1, reached from slot x by k bits of path, lowest first. */
  function Follow(x: nat, path: nat, k: nat): nat
    decreases k
  {
    if k == 0 then x else Follow(2 * x + path % 2, path / 2, k - 1)
  }

  lemma {:induction false} FollowGrows(x: nat, path: nat, k: nat)
    requires x > 0
    ensures Follow(x, path, k) >= x && (k > 0 ==> Follow(x, path, k) > x)
    decreases k
  {
    if k > 0 { FollowGrows(2 * x + path % 2, path / 2, k - 1); }
  }

  /** The bits of n after the first, collected in reverse: they lead from the root to slot n. */
  method PathTo(count: nat) returns (path: nat, k: nat)
    requires count > 0
    ensures Follow(1, path, k) == count
  {
    var n := count;
    path, k := 0, 0;
    while n >= 2
      invariant n > 0 && Follow(n, path, k) == count
    {
      path := 2 * path + n % 2;
      k := k + 1;
      n := n / 2;
    }
  }
}

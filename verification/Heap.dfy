/**
 heap-inl.h: a binary min heap of nodes linked by left, right and parent
 pointers. Its ghost `slots` lists the nodes level by level, which is what makes
 the tree complete: the bits of the count lead to the last slot.
 */
module Heap {
  import opened HeapOrder

  class Node<K> {
    var left: Node?<K>
    var right: Node?<K>
    var parent: Node?<K>
    var key: K

    constructor (k: K)
      ensures key == k && fresh(this)
    {
      left, right, parent, key := null, null, null, k;
    }
  }

  ghost function At<K>(slots: seq<Node<K>>, i: nat): Node?<K> {
    if i < |slots| then slots[i] else null
  }

  /** Node i points at its children's and its parent's slots. */
  ghost predicate Linked<K>(slots: seq<Node<K>>, i: nat)
    requires i < |slots|
    reads slots[i]
  {
    && slots[i].left == At(slots, 2 * i + 1)
    && slots[i].right == At(slots, 2 * i + 2)
    && slots[i].parent == if i == 0 then null else slots[Up(i)]
  }

  ghost predicate Distinct<K>(slots: seq<Node<K>>) {
    forall i, j :: 0 <= i < j < |slots| ==> slots[i] != slots[j]
  }

  ghost predicate Tree<K>(slots: seq<Node<K>>)
    reads slots
  {
    Distinct(slots) && forall i {:trigger Linked(slots, i)} :: 0 <= i < |slots| ==> Linked(slots, i)
  }

  ghost function Keys<K>(slots: seq<Node<K>>): (ks: seq<K>)
    reads slots`key
    ensures |ks| == |slots| && forall i :: 0 <= i < |slots| ==> ks[i] == slots[i].key
  {
    if slots == [] then [] else Keys(slots[..|slots| - 1]) + [slots[|slots| - 1].key]
  }

  ghost function Present<K>(n: Node?<K>): set<Node<K>> {
    if n == null then {} else {n}
  }

  /** The slots whose node a swap touches. */
  predicate Near(i: nat, p: nat, c: nat) {
    i == p || i == c || (p > 0 && i == Up(p)) || (i > 0 && (Up(i) == p || Up(i) == c))
  }

  lemma NearLinks<K>(s: seq<Node<K>>, p: nat, c: nat)
    requires Tree(s) && 0 < c < |s| && p == Up(c)
    ensures Linked(s, p) && Linked(s, c) && (p > 0 ==> Linked(s, Up(p)))
  {
  }

  lemma Apart<K>(s: seq<Node<K>>, i: nat, j: nat)
    requires Distinct(s) && i < |s| && j < |s| && i != j
    ensures s[i] != s[j]
  {
  }

  lemma SwappedDistinct<K>(s: seq<Node<K>>, p: nat, c: nat)
    requires Distinct(s) && p < |s| && c < |s|
    ensures Distinct(Swapped(s, p, c))
  {
  }

  lemma FarLinked<K>(s: seq<Node<K>>, p: nat, c: nat, i: nat)
    requires 0 < c < |s| && p == Up(c) && i < |s| && !Near(i, p, c) && Linked(s, i)
    ensures Linked(Swapped(s, p, c), i)
  {
  }

  /** A child of a moved node, once it points up at the right one. */
  lemma ChildLinked<K>(s: seq<Node<K>>, p: nat, c: nat, i: nat)
    requires 0 < c < |s| && p == Up(c) && 0 < i < |s| && i != c && (Up(i) == p || Up(i) == c)
    requires s[i].left == At(s, 2 * i + 1) && s[i].right == At(s, 2 * i + 2)
    requires s[i].parent == s[if Up(i) == p then c else p]
    ensures Linked(Swapped(s, p, c), i)
  {
  }

  /** The child, once it has the place its parent had. */
  lemma ChildUp<K>(s: seq<Node<K>>, p: nat, c: nat)
    requires Distinct(s) && 0 < c < |s| && p == Up(c)
    requires s[c].parent == if p == 0 then null else s[Up(p)]
    requires s[c].left == if At(s, 2 * p + 1) == s[c] then s[p] else At(s, 2 * p + 1)
    requires s[c].right == if At(s, 2 * p + 1) == s[c] then At(s, 2 * p + 2) else s[p]
    ensures Linked(Swapped(s, p, c), p)
  {
  }

  /** The parent, once it has the place of its child. */
  lemma ParentDown<K>(s: seq<Node<K>>, p: nat, c: nat)
    requires 0 < c < |s| && p == Up(c)
    requires s[p].parent == s[c] && s[p].left == At(s, 2 * c + 1) && s[p].right == At(s, 2 * c + 2)
    ensures Linked(Swapped(s, p, c), c)
  {
  }

  /** The node above, once it points down at the child. */
  lemma AboveLinked<K>(s: seq<Node<K>>, p: nat, c: nat)
    requires Distinct(s) && 0 < p < |s| && 0 < c < |s| && p == Up(c)
    requires var g := s[Up(p)];
             && g.parent == (if Up(p) == 0 then null else s[Up(Up(p))])
             && g.left == (if At(s, 2 * Up(p) + 1) == s[p] then s[c] else At(s, 2 * Up(p) + 1))
             && g.right == (if At(s, 2 * Up(p) + 1) == s[p] then At(s, 2 * Up(p) + 2) else s[c])
    ensures Linked(Swapped(s, p, c), Up(p))
  {
  }

  ghost function Members<K>(s: seq<Node<K>>): set<Node<K>> {
    set n | n in s
  }

  lemma SwappedMembers<K>(s: seq<Node<K>>, p: nat, c: nat)
    requires p < |s| && c < |s|
    ensures Members(Swapped(s, p, c)) == Members(s)
  {
    var t := Swapped(s, p, c);
    assert t[p] == s[c] && t[c] == s[p];
    forall n | n in s ensures n in t {
      var i :| 0 <= i < |s| && s[i] == n;
      assert i != p && i != c ==> t[i] == n;
    }
  }

  lemma SwappedKeys<K>(s: seq<Node<K>>, p: nat, c: nat)
    requires p < |s| && c < |s|
    ensures Keys(Swapped(s, p, c)) == Swapped(Keys(s), p, c)
  {
    hide Keys;
  }

  /** With neither child of x below k, k a key of x or its children, k is the least of them. */
  lemma Smallest<K(!new)>(less: (K, K) -> bool, ks: seq<K>, x: nat, k: K)
    requires StrictWeakOrder(less) && x < |ks|
    requires 2 * x + 1 < |ks| ==> !less(ks[2 * x + 1], k)
    requires 2 * x + 2 < |ks| ==> !less(ks[2 * x + 2], k)
    ensures NoneBelow(less, ks, x, k)
    ensures k == ks[x] ==> DownDone(less, ks, x)
  {
    forall i | 0 < i < |ks| && Up(i) == x ensures !less(ks[i], k) {
      assert i == 2 * x + 1 || i == 2 * x + 2;
    }
  }

  lemma LessFacts<K(!new)>(less: (K, K) -> bool, a: K, b: K, c: K)
    requires StrictWeakOrder(less)
    ensures less(a, b) && less(b, c) ==> less(a, c)
    ensures !less(a, a) && !less(b, b)
  {
  }

  lemma AttachedKeys<K>(s: seq<Node<K>>, node: Node<K>)
    ensures Keys(s + [node]) == Keys(s) + [node.key]
  {
    assert (s + [node])[..|s|] == s;
  }

  lemma ReplacedMembers<K>(s: seq<Node<K>>, at: nat, child: Node<K>)
    requires Distinct(s) && at < |s| && child !in Members(s)
    ensures forall i :: 0 <= i < |s| ==> s[i] != child
    ensures Distinct(s[at := child]) && Members(s[at := child]) == Members(s) - {s[at]} + {child}
  {
    var t := s[at := child];
    assert t[at] == child;
    forall n | n in s && n != s[at] ensures n in t {
      var i :| 0 <= i < |s| && s[i] == n;
      assert t[i] == n;
    }
  }

  predicate Touches(i: nat, at: nat) {
    i == at || (at > 0 && i == Up(at)) || (i > 0 && Up(i) == at)
  }

  lemma ReplacedChild<K>(s: seq<Node<K>>, at: nat, child: Node<K>, i: nat)
    requires at < |s| && 0 < i < |s| && Up(i) == at && s[i].parent == child
    requires s[i].left == At(s, 2 * i + 1) && s[i].right == At(s, 2 * i + 2)
    ensures Linked(s[at := child], i)
  {
  }

  lemma MovedLast<T>(nodes: set<T>, child: T, node: T)
    requires child in nodes && child != node
    ensures nodes - {child} - {node} + {child} == nodes - {node}
  {
  }

  /** Slots that do not point at slot `at` do not see it replaced. */
  lemma ReplacedFar<K>(s: seq<Node<K>>, at: nat, child: Node<K>, i: nat)
    requires at < |s| && i < |s| && !Touches(i, at) && Linked(s, i)
    ensures Linked(s[at := child], i)
  {
  }

  lemma PrefixKeys<K>(s: seq<Node<K>>, n: nat)
    requires n <= |s|
    ensures Keys(s[..n]) == Keys(s)[..n]
  {
    hide Keys;
  }

  lemma ReplacedKeys<K>(s: seq<Node<K>>, at: nat, child: Node<K>)
    requires at < |s|
    ensures Keys(s[at := child]) == Keys(s)[at := child.key]
  {
    hide Keys;
  }

  /** One bit further down the path. */
  lemma OneDown(at: nat, bit: nat)
    requires at > 0 && bit < 2
    ensures Up(2 * at + bit - 1) == at - 1 && (2 * at + bit) % 2 == bit
  {
  }

  class Heap<K(!new)> {
    const less: (K, K) -> bool
    var min: Node?<K>
    var nelts: nat
    ghost var slots: seq<Node<K>>
    ghost var nodes: set<Node<K>>

    /** The pointers are a complete tree of nelts nodes. */
    ghost predicate Shaped()
      reads this, slots
    {
      nelts == |slots| && min == At(slots, 0) && Tree(slots) && nodes == Members(slots)
    }

    ghost predicate Valid()
      reads this, slots
    {
      StrictWeakOrder(less) && Shaped() && Ordered(less, Keys(slots))
    }

    /** heap_init. */
    constructor (less: (K, K) -> bool)
      requires StrictWeakOrder(less)
      ensures Valid() && nodes == {} && this.less == less
    {
      this.less, min, nelts, slots, nodes := less, null, 0, [], {};
    }

    /** heap_min: a least node, or null when there is none. */
    method Min() returns (m: Node?<K>)
      requires Valid()
      ensures m == min && (m == null <==> nodes == {})
      ensures m != null ==> m in nodes && forall n :: n in nodes ==> !less(n.key, m.key)
    {
      m := min;
      if slots != [] {
        assert slots[0] in nodes;
        forall n | n in nodes ensures !less(n.key, m.key) {
          var i: nat :| i < |slots| && slots[i] == n;
          RootLeast(less, Keys(slots), i);
        }
      }
    }

    /** heap_node_swap on the pointers alone. */
    method SwapLinks(parent: Node<K>, child: Node<K>)
      requires parent != child && (parent.left == child) != (parent.right == child)
      requires parent != parent.left && parent != parent.right && parent != parent.parent
      requires parent != child.left && parent != child.right && child != child.left && child != child.right
      requires child != parent.parent
      requires child.left != null ==> child.left != child.right
      requires parent.left != null ==> parent.left != child.left && parent.left != child.right
      requires parent.right != null ==> parent.right != child.left && parent.right != child.right
      requires parent.parent != null ==> parent.parent != parent.left && parent.parent != parent.right
      requires parent.parent != null ==> parent.parent != child.left && parent.parent != child.right
      requires parent.parent != null ==> parent.parent.left == parent || parent.parent.right == parent
      modifies this`min, parent`left, parent`right, parent`parent, child`left, child`right, child`parent
      modifies Present(parent.left)`parent, Present(parent.right)`parent
      modifies Present(child.left)`parent, Present(child.right)`parent
      modifies Present(parent.parent)`left, Present(parent.parent)`right
      ensures parent.left == old(child.left) && parent.right == old(child.right) && parent.parent == child
      ensures child.left == if old(parent.left) == child then parent else old(parent.left)
      ensures child.right == if old(parent.left) == child then old(parent.right) else parent
      ensures child.parent == old(parent.parent)
      ensures old(parent.left) != null && old(parent.left) != child ==> old(parent.left).parent == child
      ensures old(parent.right) != null && old(parent.right) != child ==> old(parent.right).parent == child
      ensures old(child.left) != null ==> old(child.left).parent == parent
      ensures old(child.right) != null ==> old(child.right).parent == parent
      ensures child.parent != null ==> child.parent.left == if old(parent.parent.left) == parent then child else old(parent.parent.left)
      ensures child.parent != null ==> child.parent.right == if old(parent.parent.left) == parent then old(parent.parent.right) else child
      ensures min == if child.parent == null then child else old(min)
    {
      var tl, tr, tp := parent.left, parent.right, parent.parent;
      parent.left, parent.right, parent.parent := child.left, child.right, child.parent;
      child.left, child.right, child.parent := tl, tr, tp;

      parent.parent := child;
      var sibling: Node?<K>;
      if child.left == child {
        child.left := parent;
        sibling := child.right;
      } else {
        child.right := parent;
        sibling := child.left;
      }
      if sibling != null { sibling.parent := child; }
      if parent.left != null { parent.left.parent := parent; }
      if parent.right != null { parent.right.parent := parent; }
      if child.parent == null {
        min := child;
      } else if child.parent.left == parent {
        child.parent.left := child;
      } else {
        child.parent.right := child;
      }
    }

    /** The same among the nodes of a tree: all slots but the moved nodes' children are right again. */
    method SwapNodes(parent: Node<K>, child: Node<K>, ghost s: seq<Node<K>>, ghost p: nat, ghost c: nat)
      requires Tree(s) && 0 < c < |s| && p == Up(c) && s[p] == parent && s[c] == child && nodes == Members(s)
      modifies this`min, nodes`left, nodes`right, nodes`parent
      ensures forall i {:trigger Linked(Swapped(s, p, c), i)} :: 0 <= i < |s| && !Near(i, p, c) ==> Linked(Swapped(s, p, c), i)
      ensures Linked(Swapped(s, p, c), p) && Linked(Swapped(s, p, c), c) && (p > 0 ==> Linked(Swapped(s, p, c), Up(p)))
      ensures old(parent.left) != null && old(parent.left) != child ==> old(parent.left).parent == child
      ensures old(parent.right) != null && old(parent.right) != child ==> old(parent.right).parent == child
      ensures old(child.left) != null ==> old(child.left).parent == parent
      ensures old(child.right) != null ==> old(child.right).parent == parent
      ensures forall n :: n in s && n !in {parent, child, old(parent.parent)} ==> n.left == old(n.left) && n.right == old(n.right)
      ensures min == if p == 0 then child else old(min)
    {
      hide Up;
      ghost var t := Swapped(s, p, c);
      NearLinks(s, p, c);
      SwapLinks(parent, child);
      forall i | 0 <= i < |t| && !Near(i, p, c) ensures Linked(t, i) {
        assert old(Linked(s, i));
        FarLinked(s, p, c, i);
      }
      ChildUp(s, p, c);
      ParentDown(s, p, c);
      if p > 0 { AboveLinked(s, p, c); }
    }

    /** heap_node_swap: the child at slot c moves up to its parent's slot p. */
    method Swap(parent: Node<K>, child: Node<K>, ghost p: nat, ghost c: nat)
      requires Shaped() && 0 < c < |slots| && p == Up(c) && slots[p] == parent && slots[c] == child
      modifies this`min, this`slots, nodes`left, nodes`right, nodes`parent
      ensures Shaped() && slots == Swapped(old(slots), p, c)
    {
      hide Up, Members, Present;
      ghost var s, t := slots, Swapped(slots, p, c);
      NearLinks(s, p, c);
      SwapNodes(parent, child, s, p, c);
      SwappedDistinct(s, p, c);
      SwappedMembers(s, p, c);
      hide Distinct;
      forall i | 0 < i < |t| && i != c && (Up(i) == p || Up(i) == c) ensures Linked(t, i) {
        assert old(Linked(s, i));
        Apart(s, i, p);
        Apart(s, i, c);
        if p > 0 { Apart(s, i, Up(p)); }
        assert s[i].left == At(s, 2 * i + 1) && s[i].right == At(s, 2 * i + 2);
        ChildLinked(s, p, c, i);
      }
      slots := t;
    }

    /** `while (child->parent != NULL && less_than(child, child->parent))` */
    method SiftUp(node: Node<K>, ghost at: nat)
      requires StrictWeakOrder(less) && Shaped() && at < |slots| && slots[at] == node
      requires Around(less, Keys(slots), at) && DownDone(less, Keys(slots), at)
      modifies this`min, this`slots, nodes`left, nodes`right, nodes`parent
      ensures Valid()
    {
      ghost var x: nat := at;
      hide Up, Around, DownDone, StrictWeakOrder, Distinct, Ordered, Keys, Members;
      assert Linked(slots, x);
      while node.parent != null && less(node.key, node.parent.key)
        invariant Shaped() && x < |slots| && slots[x] == node && Linked(slots, x)
        invariant Around(less, Keys(slots), x) && DownDone(less, Keys(slots), x)
        decreases x
      {
        ghost var s := slots;
        SwapUp(less, Keys(s), x);
        Swap(node.parent, node, Up(x), x);
        SwappedKeys(s, Up(x), x);
        x := Up(x);
        assert Linked(slots, x);
      }
      SiftDone(less, Keys(slots), x);
    }

    /** Walk down: swap with the smallest child while one is smaller. */
    method SiftDown(node: Node<K>, ghost at: nat) returns (ghost x: nat)
      requires StrictWeakOrder(less) && Shaped() && at < |slots| && slots[at] == node
      requires Around(less, Keys(slots), at)
      modifies this`min, this`slots, nodes`left, nodes`right, nodes`parent
      ensures Shaped() && x < |slots| && slots[x] == node
      ensures Around(less, Keys(slots), x) && DownDone(less, Keys(slots), x)
    {
      x := at;
      hide Up, Around, StrictWeakOrder, Distinct, Keys, Members, NoneBelow, DownDone;
      while true
        invariant Shaped() && x < |slots| && slots[x] == node
        invariant Around(less, Keys(slots), x)
        decreases |slots| - x
      {
        assert Linked(slots, x);
        var smallest := node;
        if node.left != null && less(node.left.key, smallest.key) { smallest := node.left; }
        ghost var first := smallest.key;
        if node.right != null && less(node.right.key, smallest.key) { smallest := node.right; }
        ghost var s, l, r := slots, 2 * x + 1, 2 * x + 2;
        if l < |s| { LessFacts(less, s[l].key, smallest.key, first); }
        LessFacts(less, smallest.key, first, node.key);
        Smallest(less, Keys(s), x, smallest.key);
        if smallest == node { break; }
        ghost var c := if smallest == node.right then r else l;
        SwapDown(less, Keys(s), x, c);
        Swap(node, smallest, x, c);
        SwappedKeys(s, x, c);
        x := c;
      }
    }

    /** Follow the bits of `count` from the root: to the last slot, or to the first free one. */
    method Walk(count: nat) returns (parent: Node?<K>, child: Node?<K>, right: bool)
      requires Shaped() && 0 < count <= nelts + 1
      ensures child == At(slots, count - 1)
      ensures parent == if count == 1 then null else slots[Up(count - 1)]
      ensures count > 1 ==> right == (count % 2 == 1)
    {
      hide Up, Members, Distinct;
      var path, k := PathTo(count);
      parent, child, right := null, min, false;
      ghost var at: nat := 1;
      while k > 0
        invariant 0 < at && Follow(at, path, k) == count
        invariant at <= nelts + 1 && child == At(slots, at - 1)
        invariant parent == if at == 1 then null else slots[Up(at - 1)]
        invariant at > 1 ==> right == (at % 2 == 1)
        decreases k
      {
        FollowGrows(at, path, k);
        FollowGrows(2 * at + path % 2, path / 2, k - 1);
        OneDown(at, path % 2);
        assert Linked(slots, at - 1);
        parent := child;
        right := path % 2 == 1;
        child := if right then parent.right else parent.left;
        at := 2 * at + path % 2;
        path, k := path / 2, k - 1;
      }
    }

    /** The new node goes to the first free slot. */
    method Attach(node: Node<K>)
      requires Shaped() && node !in nodes
      modifies this`min, this`nelts, this`slots, this`nodes, node`left, node`right, node`parent, nodes`left, nodes`right
      ensures Shaped() && slots == old(slots) + [node] && nodes == old(nodes) + {node}
    {
      var parent, _, right := Walk(1 + nelts);
      ghost var s, t := slots, slots + [node];
      node.left, node.right, node.parent := null, null, parent;
      if parent == null {
        min := node;
      } else if right {
        parent.right := node;
      } else {
        parent.left := node;
      }
      nelts, slots, nodes := nelts + 1, t, nodes + {node};
      forall i | 0 <= i < |slots| ensures Linked(slots, i) {
        assert i < |s| ==> s[i] in nodes && s[i] != node && old(Linked(s, i));
      }
    }

    /** heap_insert. */
    method Insert(node: Node<K>)
      requires Valid() && node !in nodes
      modifies this`min, this`nelts, this`slots, this`nodes, node`left, node`right, node`parent
      modifies nodes`left, nodes`right, nodes`parent
      ensures Valid() && nodes == old(nodes) + {node} && nelts == old(nelts) + 1
    {
      hide StrictWeakOrder, Ordered, Around, DownDone, Tree, Keys, Members;
      ghost var ks := Keys(slots);
      Attach(node);
      AttachedKeys(old(slots), node);
      AppendAround(less, ks, node.key);
      SiftUp(node, nelts - 1);
    }

    /** Unlink the node in the last slot. */
    method DetachLast() returns (child: Node<K>)
      requires Shaped() && nelts > 0
      modifies this`min, this`nelts, this`slots, this`nodes, nodes`left, nodes`right
      ensures child == old(slots)[|old(slots)| - 1] && child in old(nodes)
      ensures Shaped() && slots == old(slots)[..|old(slots)| - 1] && nodes == old(nodes) - {child}
    {
      var parent, last, right := Walk(nelts);
      child := last;
      ghost var s, n := slots, |slots| - 1;
      ghost var t := s[..n];
      if parent == null {
        min := null;
      } else if right {
        parent.right := null;
      } else {
        parent.left := null;
      }
      nelts, slots, nodes := nelts - 1, t, nodes - {child};
      assert Distinct(t);
      forall i | 0 <= i < |t| ensures Linked(t, i) {
        assert old(Linked(s, i));
      }
    }

    /** `child` takes over the pointers of `node`. */
    method TakeLinks(node: Node<K>, child: Node<K>)
      requires node != child && child != node.left && child != node.right && child != node.parent
      requires node != node.left && node != node.right && node != node.parent
      requires node.left != null ==> node.left != node.right && node.left != node.parent
      requires node.right != null ==> node.right != node.parent
      modifies this`min, child`left, child`right, child`parent
      modifies Present(node.left)`parent, Present(node.right)`parent, Present(node.parent)`left, Present(node.parent)`right
      ensures child.left == old(node.left) && child.right == old(node.right) && child.parent == old(node.parent)
      ensures old(node.left) != null ==> old(node.left).parent == child
      ensures old(node.right) != null ==> old(node.right).parent == child
      ensures child.parent != null ==> child.parent.left == if old(node.parent.left) == node then child else old(node.parent.left)
      ensures child.parent != null ==> child.parent.right == if old(node.parent.left) == node then old(node.parent.right) else child
      ensures min == if child.parent == null then child else old(min)
    {
      child.left, child.right, child.parent := node.left, node.right, node.parent;
      if child.left != null { child.left.parent := child; }
      if child.right != null { child.right.parent := child; }
      if node.parent == null {
        min := child;
      } else if node.parent.left == node {
        node.parent.left := child;
      } else {
        node.parent.right := child;
      }
    }

    /** The same among the nodes of a tree: all slots but the children of `at` are right again. */
    method TakeNodes(node: Node<K>, child: Node<K>, ghost s: seq<Node<K>>, ghost at: nat)
      requires Tree(s) && at < |s| && s[at] == node && nodes == Members(s) && child !in nodes
      modifies this`min, child`left, child`right, child`parent, nodes`left, nodes`right, nodes`parent
      ensures forall i {:trigger Linked(s[at := child], i)} :: 0 <= i < |s| && !Touches(i, at) ==> Linked(s[at := child], i)
      ensures Linked(s[at := child], at) && (at > 0 ==> Linked(s[at := child], Up(at)))
      ensures old(node.left) != null ==> old(node.left).parent == child
      ensures old(node.right) != null ==> old(node.right).parent == child
      ensures forall n :: n in s && n != old(node.parent) ==> n.left == old(n.left) && n.right == old(n.right)
      ensures min == if at == 0 then child else old(min)
    {
      hide Up;
      ghost var t := s[at := child];
      assert Linked(s, at) && (at > 0 ==> Linked(s, Up(at)));
      TakeLinks(node, child);
      forall i | 0 <= i < |t| && !Touches(i, at) ensures Linked(t, i) {
        assert old(Linked(s, i)) && s[i] != child;
        ReplacedFar(s, at, child, i);
      }
    }

    /** `child` takes over the slot of `node`. */
    method TakePlace(node: Node<K>, child: Node<K>, ghost at: nat)
      requires Shaped() && at < |slots| && slots[at] == node && child !in nodes
      modifies this`min, this`slots, this`nodes, child`left, child`right, child`parent, nodes`left, nodes`right, nodes`parent
      ensures Shaped() && slots == old(slots)[at := child] && nodes == old(nodes) - {node} + {child}
    {
      hide Up, Members;
      ghost var s, t := slots, slots[at := child];
      ReplacedMembers(s, at, child);
      assert Linked(s, at);
      TakeNodes(node, child, s, at);
      slots, nodes := t, nodes - {node} + {child};
      forall i | 0 < i < |t| && Up(i) == at ensures Linked(t, i) {
        assert old(Linked(s, i));
        if at > 0 { Apart(s, i, Up(at)); }
        assert s[i].left == At(s, 2 * i + 1) && s[i].right == At(s, 2 * i + 2);
        ReplacedChild(s, at, child, i);
      }
    }

    /** The last node, already unlinked, moves to slot `at` and is sifted to where it belongs. */
    method Refill(node: Node<K>, child: Node<K>, ghost at: nat)
      requires Valid() && at < |slots| && slots[at] == node && child !in nodes
      modifies this`min, this`slots, this`nodes, child`left, child`right, child`parent, nodes`left, nodes`right, nodes`parent
      ensures Valid() && nodes == old(nodes) - {node} + {child} && nelts == old(nelts)
    {
      hide StrictWeakOrder, Ordered, Around, DownDone, Tree, Keys, Members;
      ghost var s := slots;
      ReplaceAround(less, Keys(s), at, child.key);
      TakePlace(node, child, at);
      ReplacedKeys(s, at, child);
      ghost var x := SiftDown(child, at);
      SiftUp(child, x);
    }

    /** heap_remove. */
    method Remove(node: Node<K>)
      requires Valid() && (nelts > 0 ==> node in nodes)
      modifies this`min, this`nelts, this`slots, this`nodes, nodes`left, nodes`right, nodes`parent
      ensures Valid() && nodes == old(nodes) - {node} && nelts == if old(nelts) == 0 then 0 else old(nelts) - 1
    {
      if nelts == 0 { return; }
      ghost var at: nat :| at < |slots| && slots[at] == node;
      hide StrictWeakOrder, Ordered, Keys, Members, Tree;
      ghost var s, n := slots, |slots| - 1;
      PrefixOrdered(less, Keys(s), n);
      var child := DetachLast();
      PrefixKeys(s, n);
      if child == node {
        // the source's `child == heap->min` never holds here: unlinking has cleared heap->min
        return;
      }
      MovedLast(old(nodes), child, node);
      Refill(node, child, at);
    }

    /** heap_dequeue. */
    method Dequeue()
      requires Valid()
      modifies this`min, this`nelts, this`slots, this`nodes, nodes`left, nodes`right, nodes`parent
      ensures Valid() && nodes == old(nodes) - {old(min)}
    {
      if min != null { Remove(min); }
    }
  }
}

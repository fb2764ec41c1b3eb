/** Two nodes of a red-black tree trade places (lib/rbtree.bpf.c:426-525).

    Nodes are embedded in other structures, so a removal moves the node and not
    its key. Whatever the two nodes are to each other, the outcome is the old
    memory with the two addresses exchanged everywhere but in front of the keys:
    this is also what a replacement by a node from outside comes to.
  */
module RbSwitch {
  import opened RedBlack

  /** Exchanging two addresses. */
  function Swap(a: Ptr, b: Ptr, n: Ptr): Ptr { if n == a then b else if n == b then a else n }

  /** The cell of n once a and b are exchanged in every link; the key stays with the address. */
  ghost function Relinked<K>(m: Arena<K, ()>, a: Ptr, b: Ptr, n: Ptr, key: K): Cell<K, ()>
    requires n in m
  {
    Cell(Swap(a, b, m[n].parent), Swap(a, b, m[n].left), Swap(a, b, m[n].right), key, m[n].aug, m[n].red)
  }

  ghost predicate Exchanged<K>(m: Arena<K, ()>, m': Arena<K, ()>, a: Ptr, b: Ptr, nodes: set<Ptr>) {
    forall n <- nodes :: n in m ==>
      && Swap(a, b, n) in m'
      && m'[Swap(a, b, n)] == Relinked(m, a, b, n, m'[Swap(a, b, n)].key)
  }

  /** The tree with a and b exchanged. */
  ghost function Renamed<K>(t: Tree<K, ()>, a: Entry<K>, b: Entry<K>): Tree<K, ()> {
    if t.Leaf? then Leaf
    else
      Node(Renamed(t.left, a, b), RenamedEntry(t.e, a, b), t.aug, t.red, Renamed(t.right, a, b))
  }

  ghost function RenamedEntry<K>(e: Entry<K>, a: Entry<K>, b: Entry<K>): Entry<K> {
    if e.ptr == a.ptr then b else if e.ptr == b.ptr then a else e
  }

  /** Keys do not move. */
  ghost predicate KeysStay<K>(m: Arena<K, ()>, m': Arena<K, ()>, a: Entry<K>, b: Entry<K>, nodes: set<Ptr>) {
    && (forall n <- nodes :: n in m && n in m' && n != a.ptr && n != b.ptr ==> m'[n].key == m[n].key)
    && (a.ptr in m' ==> m'[a.ptr].key == a.key) && (b.ptr in m' ==> m'[b.ptr].key == b.key)
  }

  lemma {:induction false} RenamedRep<K>(m: Arena<K, ()>, m': Arena<K, ()>, t: Tree<K, ()>, parent: Ptr, a: Entry<K>,
                                         b: Entry<K>)
    requires Rep(m, t, parent) && a.ptr != NULL && b.ptr != NULL
    requires Exchanged(m, m', a.ptr, b.ptr, Nodes(t)) && KeysStay(m, m', a, b, Nodes(t))
    ensures Rep(m', Renamed(t, a, b), Swap(a.ptr, b.ptr, parent))
    ensures Root(Renamed(t, a, b)) == Swap(a.ptr, b.ptr, Root(t))
  {
    if t.Node? {
      RenamedRep(m, m', t.left, t.e.ptr, a, b);
      RenamedRep(m, m', t.right, t.e.ptr, a, b);
    }
  }

  lemma {:induction false} RenamedNodes<K>(t: Tree<K, ()>, a: Entry<K>, b: Entry<K>, n: Ptr)
    ensures n in Nodes(Renamed(t, a, b)) <==> Swap(a.ptr, b.ptr, n) in Nodes(t)
  {
    if t.Node? {
      RenamedNodes(t.left, a, b, n);
      RenamedNodes(t.right, a, b, n);
    }
  }

  lemma {:induction false} RenamedDistinct<K>(t: Tree<K, ()>, a: Entry<K>, b: Entry<K>)
    requires Distinct(t)
    ensures Distinct(Renamed(t, a, b))
  {
    if t.Node? {
      RenamedDistinct(t.left, a, b);
      RenamedDistinct(t.right, a, b);
      RenamedNodes(t.left, a, b, RenamedEntry(t.e, a, b).ptr);
      RenamedNodes(t.right, a, b, RenamedEntry(t.e, a, b).ptr);
      forall n <- Nodes(Renamed(t.left, a, b))
        ensures n !in Nodes(Renamed(t.right, a, b))
      {
        RenamedNodes(t.left, a, b, n);
        RenamedNodes(t.right, a, b, n);
      }
    }
  }

  /** The colours stay where they are. */
  lemma {:induction false} RenamedBalanced<K>(t: Tree<K, ()>, a: Entry<K>, b: Entry<K>, h: nat)
    requires Balanced(t, h)
    ensures Balanced(Renamed(t, a, b), h) && Red(Renamed(t, a, b)) == Red(t)
  {
    if t.Node? {
      RenamedBalanced(t.left, a, b, if t.red then h else h - 1);
      RenamedBalanced(t.right, a, b, if t.red then h else h - 1);
    }
  }

  lemma {:induction false} RenamedInOrder<K>(t: Tree<K, ()>, a: Entry<K>, b: Entry<K>)
    ensures |InOrder(Renamed(t, a, b))| == |InOrder(t)|
    ensures forall i :: 0 <= i < |InOrder(t)| ==> InOrder(Renamed(t, a, b))[i] == RenamedEntry(InOrder(t)[i], a, b)
  {
    if t.Node? {
      RenamedInOrder(t.left, a, b);
      RenamedInOrder(t.right, a, b);
    }
  }

  /** The memory and the tree after an exchange. */
  lemma RenamedAt<K>(m: Arena<K, ()>, m': Arena<K, ()>, w: Tree<K, ()>, a: Entry<K>, b: Entry<K>)
    requires At(m, Root(w), Top, w) && a.ptr != NULL && b.ptr != NULL
    requires Exchanged(m, m', a.ptr, b.ptr, Nodes(w)) && KeysStay(m, m', a, b, Nodes(w))
    ensures At(m', Swap(a.ptr, b.ptr, Root(w)), Top, Renamed(w, a, b))
  {
    RenamedRep(m, m', w, NULL, a, b);
    RenamedDistinct(w, a, b);
  }

  // ----- links go both ways -----

  ghost predicate LinksDown<K>(m: Arena<K, ()>, n: Ptr)
    requires n in m
  {
    && (m[n].left != NULL ==> m[n].left in m && m[m[n].left].parent == n && m[n].left != n)
    && (m[n].right != NULL ==> m[n].right in m && m[m[n].right].parent == n && m[n].right != n)
    && (m[n].left == m[n].right ==> m[n].left == NULL)
    && (m[n].parent != NULL ==> m[n].parent != n && m[n].parent != m[n].left && m[n].parent != m[n].right)
  }

  ghost predicate LinksUp<K>(m: Arena<K, ()>, n: Ptr)
    requires n in m
  {
    m[n].parent != NULL ==> m[n].parent in m && (m[m[n].parent].left == n || m[m[n].parent].right == n)
  }

  lemma {:induction false} RepLinks<K>(m: Arena<K, ()>, t: Tree<K, ()>, parent: Ptr, n: Ptr)
    requires Rep(m, t, parent) && Distinct(t) && parent !in Nodes(t) && n in Nodes(t)
    requires parent != NULL && t.Node? ==> parent in m && (m[parent].left == t.e.ptr || m[parent].right == t.e.ptr)
    ensures n in m && n != NULL && LinksDown(m, n) && LinksUp(m, n)
    ensures m[n].parent in Nodes(t) + {parent} && m[n].left in Nodes(t) + {NULL} && m[n].right in Nodes(t) + {NULL}
  {
    assert Nodes(t) == Nodes(t.left) + {t.e.ptr} + Nodes(t.right);
    assert t.left.Node? ==> t.left.e.ptr in Nodes(t.left);
    assert t.right.Node? ==> t.right.e.ptr in Nodes(t.right);
    if n in Nodes(t.left) {
      RepLinks(m, t.left, t.e.ptr, n);
    } else if n in Nodes(t.right) {
      RepLinks(m, t.right, t.e.ptr, n);
    }
  }

  // ----- the neighbours of a node learn of it -----

  ghost function FarCell<K>(m: Arena<K, ()>, n: Ptr, side: Side, x: Ptr): Cell<K, ()>
    requires n in m && x in m
  {
    var c := m[x];
    var p := if x != NULL && (x == m[n].left || x == m[n].right) then n else c.parent;
    var l := if x != NULL && x == m[n].parent && side.Left? then n else c.left;
    var r := if x != NULL && x == m[n].parent && side.Right? then n else c.right;
    Cell(p, l, r, c.key, c.aug, c.red)
  }

  /** What rbnode_adjust_neighbors leaves behind. */
  ghost predicate Adjusted<K>(m: Arena<K, ()>, m': Arena<K, ()>, n: Ptr, side: Side)
    requires n in m
  {
    m'.Keys == m.Keys && forall x <- m :: m'[x] == FarCell(m, n, side, x)
  }

  /** The side of its parent a node hangs on. */
  ghost predicate OnSide<K>(m: Arena<K, ()>, n: Ptr, side: Side)
    requires n in m
  {
    m[n].parent != NULL ==> m[n].parent in m && m[m[n].parent].Kid(side) == n
  }

  /** The steps of rbnode_switch: the two cells trade their links, then the neighbours of each learn of it. */
  ghost predicate Switched<K>(m: Arena<K, ()>, m1: Arena<K, ()>, m2: Arena<K, ()>, m3: Arena<K, ()>, a: Ptr, b: Ptr,
                              aSide: Side, bSide: Side)
    requires a in m && b in m
  {
    && OnSide(m, a, aSide) && OnSide(m, b, bSide)
    && m1 == m[a := Relinked(m, a, b, b, m[a].key)][b := Relinked(m, a, b, a, m[b].key)]
    && Adjusted(m1, m2, a, bSide) && Adjusted(m2, m3, b, aSide)
  }

  /** Both nodes and the links around them are in order. */
  ghost predicate Linked<K>(m: Arena<K, ()>, n: Ptr) {
    n in m && n != NULL && LinksDown(m, n) && LinksUp(m, n)
  }

  /** The first node stands in the place of the second, whose cell is as it shall be. */
  lemma FirstMoved<K>(m: Arena<K, ()>, m1: Arena<K, ()>, m2: Arena<K, ()>, m3: Arena<K, ()>, a: Ptr, b: Ptr,
                      aSide: Side, bSide: Side)
    requires Linked(m, a) && Linked(m, b) && a != b && Switched(m, m1, m2, m3, a, b, aSide, bSide)
    ensures a in m2 && m2[a] == Relinked(m, a, b, b, m[a].key)
    ensures b in m2 && m2[b] == Relinked(m, a, b, a, m[b].key)
  {
    assert a in m1 && m1[a] == Relinked(m, a, b, b, m[a].key);
    assert b in m1 && m1[b] == Relinked(m, a, b, a, m[b].key);
    assert m2[a] == FarCell(m1, a, bSide, a);
    assert m2[b] == FarCell(m1, a, bSide, b);
  }

  lemma BothMoved<K>(m: Arena<K, ()>, m1: Arena<K, ()>, m2: Arena<K, ()>, m3: Arena<K, ()>, a: Ptr, b: Ptr,
                     aSide: Side, bSide: Side)
    requires Linked(m, a) && Linked(m, b) && a != b && Switched(m, m1, m2, m3, a, b, aSide, bSide)
    ensures a in m3 && m3[a] == Relinked(m, a, b, b, m[a].key)
    ensures b in m3 && m3[b] == Relinked(m, a, b, a, m[b].key)
  {
    FirstMoved(m, m1, m2, m3, a, b, aSide, bSide);
    assert m3[a] == FarCell(m2, b, aSide, a);
    assert m3[b] == FarCell(m2, b, aSide, b);
  }

  /** The links between two nodes go both ways. */
  lemma Around<K>(m: Arena<K, ()>, x: Ptr, side: Side, n: Ptr)
    requires Linked(m, x) && Linked(m, n) && n != x && OnSide(m, x, side)
    ensures (n == m[x].left || n == m[x].right) <==> m[n].parent == x
    ensures m[n].left == x <==> m[x].parent == n && side.Left?
    ensures m[n].right == x <==> m[x].parent == n && side.Right?
  {
  }

  lemma OthersFollow<K>(m: Arena<K, ()>, m1: Arena<K, ()>, m2: Arena<K, ()>, m3: Arena<K, ()>, a: Ptr, b: Ptr,
                        aSide: Side, bSide: Side, n: Ptr)
    requires Linked(m, a) && Linked(m, b) && Linked(m, n) && a != b && n != a && n != b
    requires Switched(m, m1, m2, m3, a, b, aSide, bSide)
    ensures n in m3 && m3[n] == Relinked(m, a, b, n, m[n].key)
  {
    FirstMoved(m, m1, m2, m3, a, b, aSide, bSide);
    Around(m, a, aSide, n);
    Around(m, b, bSide, n);
    hide Linked, LinksDown, LinksUp, OnSide;
    assert n in m1 && m1[n] == m[n] && m1[a] == Relinked(m, a, b, b, m[a].key);
    assert m2[n] == FarCell(m1, a, bSide, n);
    assert m3[n] == FarCell(m2, b, aSide, n);
    hide Adjusted, Switched;
    assert n == m1[a].left <==> n == m[b].left;
    assert n == m1[a].right <==> n == m[b].right;
    assert n == m2[b].left <==> n == m[a].left;
    assert n == m2[b].right <==> n == m[a].right;
  }

  /** Switching two nodes of a tree exchanges them everywhere. */
  lemma SwitchExchanges<K>(m: Arena<K, ()>, m1: Arena<K, ()>, m2: Arena<K, ()>, m3: Arena<K, ()>, w: Tree<K, ()>,
                           a: Ptr, b: Ptr, aSide: Side, bSide: Side)
    requires Rep(m, w, NULL) && Distinct(w) && NULL !in Nodes(w) && a in Nodes(w) && b in Nodes(w) && a != b
    requires a in m && b in m && Switched(m, m1, m2, m3, a, b, aSide, bSide)
    ensures m3.Keys == m.Keys && Exchanged(m, m3, a, b, Nodes(w))
    ensures KeysStay(m, m3, Entry(a, m[a].key), Entry(b, m[b].key), Nodes(w))
  {
    RepLinks(m, w, NULL, a);
    RepLinks(m, w, NULL, b);
    BothMoved(m, m1, m2, m3, a, b, aSide, bSide);
    forall n <- Nodes(w) | n != a && n != b
      ensures n in m3 && n in m && m3[n] == Relinked(m, a, b, n, m[n].key)
    {
      RepLinks(m, w, NULL, n);
      OthersFollow(m, m1, m2, m3, a, b, aSide, bSide, n);
    }
    assert m1.Keys == m.Keys;
  }

  /** The steps of rbnode_replace: the new node takes the links of the old one, then the neighbours learn of it. */
  ghost predicate Replaced<K>(m: Arena<K, ()>, m1: Arena<K, ()>, m2: Arena<K, ()>, x: Ptr, r: Ptr, side: Side)
    requires x in m && r in m
  {
    OnSide(m, x, side) && m1 == m[r := m[x].(key := m[r].key)] && Adjusted(m1, m2, r, side)
  }

  lemma ReplacedCell<K>(m: Arena<K, ()>, m1: Arena<K, ()>, m2: Arena<K, ()>, x: Ptr, r: Ptr, side: Side, n: Ptr)
    requires r in m && r != NULL && Linked(m, x) && Linked(m, n) && x != r && n != r && Replaced(m, m1, m2, x, r, side)
    requires r != m[x].parent && r != m[x].left && r != m[x].right
    requires r != m[n].parent && r != m[n].left && r != m[n].right
    ensures Swap(x, r, n) in m2 && m2[Swap(x, r, n)] == Relinked(m, x, r, n, m[Swap(x, r, n)].key)
  {
    assert m1[r] == m[x].(key := m[r].key);
    assert m2[r] == FarCell(m1, r, side, r);
    if n != x {
      Around(m, x, side, n);
      assert m1[n] == m[n] && m2[n] == FarCell(m1, r, side, n);
    }
  }

  /** Replacing a node of a tree by one from outside. */
  lemma ReplaceExchanges<K>(m: Arena<K, ()>, m1: Arena<K, ()>, m2: Arena<K, ()>, w: Tree<K, ()>, x: Ptr, r: Ptr,
                            side: Side)
    requires Rep(m, w, NULL) && Distinct(w) && NULL !in Nodes(w) && x in Nodes(w) && r !in Nodes(w) && r != NULL
    requires r in m && x in m && Replaced(m, m1, m2, x, r, side)
    ensures m2.Keys == m.Keys && Exchanged(m, m2, x, r, Nodes(w))
    ensures KeysStay(m, m2, Entry(x, m[x].key), Entry(r, m[r].key), Nodes(w))
  {
    RepLinks(m, w, NULL, x);
    assert m1.Keys == m.Keys;
    forall n <- Nodes(w)
      ensures n in m && Swap(x, r, n) in m2 && m2[Swap(x, r, n)] == Relinked(m, x, r, n, m[Swap(x, r, n)].key)
    {
      RepLinks(m, w, NULL, n);
      ReplacedCell(m, m1, m2, x, r, side, n);
    }
    assert m2[r] == FarCell(m1, r, side, r) && m2[x] == FarCell(m1, r, side, x);
  }
}

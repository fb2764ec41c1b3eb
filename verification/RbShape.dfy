/** What the operations of an intrusive red-black tree do to its shape, its memory and its order
    (lib/rbtree.bpf.c).
  */
module RbShape {
  import opened RedBlack
  import opened RbSwitch
  import opened Time

  datatype Item = Item(key: u64, value: nat)

  type Shape = Tree<Item, ()>
  type Place = Path<Item, ()>
  type Contents = seq<Entry<Item>>

  /** What an insertion does about a key that is already there. */
  datatype Mode = Default | Update | Duplicate

  /** 0, -EALREADY, -ENOENT and -EINVAL */
  datatype Status = Ok | Already | NoEntry | Invalid

  // ----- order -----

  ghost predicate Sorted(c: Contents) {
    forall i, j :: 0 <= i < j < |c| ==> c[i].key.key <= c[j].key.key
  }

  ghost predicate KeysDiffer(c: Contents) {
    forall i, j :: 0 <= i < j < |c| ==> c[i].key.key != c[j].key.key
  }

  ghost predicate Ordered(mode: Mode, c: Contents) {
    Sorted(c) && (!mode.Duplicate? ==> KeysDiffer(c))
  }

  ghost predicate HasKey(c: Contents, key: u64) {
    exists x <- c :: x.key.key == key
  }

  /** Where an item of this key belongs: in front of all that are not smaller. */
  ghost predicate Between(a: Contents, key: u64, b: Contents) {
    (forall x <- a :: x.key.key < key) && (forall x <- b :: key <= x.key.key)
  }

  /** The new entry stands in front of the first one that is not smaller. */
  ghost predicate Inserted(c: Contents, e: Entry<Item>, d: Contents) {
    exists k :: 0 <= k <= |c| && Between(c[..k], e.key.key, c[k..]) && d == c[..k] + [e] + c[k..]
  }

  /** The new entry stands where the old one of the same key stood. */
  ghost predicate Updated(c: Contents, e: Entry<Item>, d: Contents) {
    exists k :: 0 <= k < |c| && c[k].key.key == e.key.key && d == c[k := e]
  }

  ghost predicate Removed(c: Contents, n: Ptr, d: Contents) {
    exists k :: 0 <= k < |c| && c[k].ptr == n && d == c[..k] + c[k + 1..]
  }

  // ----- the tree in the arena -----

  /** The arena holds a tree with these entries, seen from one of its places. */
  ghost predicate Live(m: Arena<Item, ()>, root: Ptr, c: Contents, p: Place, t: Shape) {
    At(m, root, p, t) && InOrder(Plug(p, t)) == c
  }

  lemma GoUp(m: Arena<Item, ()>, root: Ptr, c: Contents, p: Place, t: Shape)
    requires p.Down? && Live(m, root, c, p, t)
    ensures Live(m, root, c, p.up, Fill(p, t))
  {
    MoveUp(m, root, p, t);
  }

  lemma GoDown(m: Arena<Item, ()>, root: Ptr, c: Contents, p: Place, t: Shape)
    requires p.Down? && Live(m, root, c, p.up, Fill(p, t))
    ensures Live(m, root, c, p, t)
  {
    MoveDown(m, root, p, t);
  }

  lemma GoAcross(m: Arena<Item, ()>, root: Ptr, c: Contents, p: Place, t: Shape)
    requires p.Down? && Live(m, root, c, p, t)
    ensures Live(m, root, c, Across(p, t), p.far) && Across(Across(p, t), p.far) == p
  {
    MoveAcross(m, root, p, t);
  }

  lemma GoTop(m: Arena<Item, ()>, root: Ptr, c: Contents, p: Place, t: Shape)
    ensures Live(m, root, c, p, t) <==> Live(m, root, c, Top, Plug(p, t))
  {
    Zoom(m, root, p, t);
  }

  /** A balanced subtree in a path that accepts it makes a balanced tree. */
  lemma Close(m: Arena<Item, ()>, root: Ptr, c: Contents, p: Place, t: Shape, h: nat)
    requires Live(m, root, c, p, t) && Balanced(t, h) && Accepts(p, h) && !(RedHook(p) && Red(t))
    ensures Live(m, root, c, Top, Plug(p, t)) && Balanced(Plug(p, t), Height(p, h))
  {
    GoTop(m, root, c, p, t);
    PlugBalanced(p, t, h);
  }

  /** What the cells at a place of the tree hold. */
  lemma Look(m: Arena<Item, ()>, root: Ptr, c: Contents, p: Place, t: Shape)
    requires Live(m, root, c, p, t)
    ensures t.Node? ==>
      && t.e.ptr != NULL && t.e.ptr in m
      && m[t.e.ptr] == Cell(Hook(p, NULL), Root(t.left), Root(t.right), t.e.key, t.aug, t.red)
    ensures p.Down? ==>
      && p.e.ptr != NULL && p.e.ptr in m
      && m[p.e.ptr] == MkCell(Hook(p.up, NULL), p.side, Root(t), Root(p.far), p.e.key, p.aug, p.red)
      && (Root(t) == Root(p.far) ==> t.Leaf? && p.far.Leaf?)
    ensures p.Down? && p.far.Node? ==>
      && p.far.e.ptr != NULL && p.far.e.ptr in m
      && m[p.far.e.ptr] == Cell(p.e.ptr, Root(p.far.left), Root(p.far.right), p.far.e.key, p.far.aug, p.far.red)
    ensures p.Top? ==> root == Root(t)
  {
  }

  lemma LookBelow(m: Arena<Item, ()>, root: Ptr, c: Contents, p: Place, t: Shape)
    requires t.Node? && Live(m, root, c, p, t)
    ensures t.e.ptr in m && m[t.e.ptr].left == Root(t.left) && m[t.e.ptr].right == Root(t.right)
    ensures t.left.Node? ==> t.left.e.ptr != NULL && t.left.e.ptr in m && m[t.left.e.ptr].red == t.left.red
    ensures t.right.Node? ==> t.right.e.ptr != NULL && t.right.e.ptr in m && m[t.right.e.ptr].red == t.right.red
  {
    assert Rep(m, t.left, t.e.ptr) && Rep(m, t.right, t.e.ptr);
  }

  lemma LookKids(m: Arena<Item, ()>, root: Ptr, c: Contents, p: Place, t: Shape)
    requires Live(m, root, c, p, t)
    ensures root == NULL <==> p.Top? && t.Leaf?
    ensures t.Node? ==> t.e.ptr != NULL && t.e.ptr in m && m[t.e.ptr].red == t.red
    ensures t.Node? ==> (m[t.e.ptr].parent == NULL <==> p.Top?) && (p.Down? ==> m[t.e.ptr].parent == p.e.ptr)
    ensures p.Down? ==> p.e.ptr != NULL && p.e.ptr in m && m[p.e.ptr].red == p.red
    ensures p.Down? ==> (m[p.e.ptr].parent == NULL <==> p.up.Top?) && (p.up.Down? ==> m[p.e.ptr].parent == p.up.e.ptr)
    ensures p.Down? ==> m[p.e.ptr].Kid(p.side) == Root(t) && m[p.e.ptr].Kid(p.side.Flip()) == Root(p.far)
    ensures p.Down? ==> (Root(p.far) == NULL <==> p.far.Leaf?)
    ensures p.Down? && p.far.Node? ==> p.far.e.ptr in m && m[p.far.e.ptr].red == p.far.red && Root(p.far) == p.far.e.ptr
  {
    Look(m, root, c, p, t);
    if p.Down? && p.up.Down? {
      MoveUp(m, root, p, t);
    }
    HookIsRoot(m, p, t);
  }

  lemma {:induction false} HookIsRoot(m: Arena<Item, ()>, p: Place, t: Shape)
    requires RepPath(m, p, Root(t), NULL)
    ensures p.Down? ==> RootOf(p, Root(t)) != NULL
    decreases p
  {
    if p.Down? {
      HookIsRoot(m, p.up, Fill(p, t));
    }
  }

  // ----- single steps -----

  lemma PaintLive(m: Arena<Item, ()>, root: Ptr, c: Contents, p: Place, t: Shape, red: bool)
    requires t.Node? && Live(m, root, c, p, t)
    ensures t.e.ptr in m && Live(m[t.e.ptr := m[t.e.ptr].(red := red)], root, c, p, t.(red := red))
  {
    var m' := m[t.e.ptr := m[t.e.ptr].(red := red)];
    RepFrame(m, m', t.left, t.e.ptr);
    RepFrame(m, m', t.right, t.e.ptr);
    RepPathFrame(m, m', p, t.e.ptr, NULL);
    PlugInOrder(p, t);
    PlugInOrder(p, t.(red := red));
  }

  lemma InPlace(m: Arena<Item, ()>, root: Ptr, c: Contents, p: Place, t: Shape)
    requires Live(m, root, c, p, t)
    ensures All(p, t) == Ptrs(c)
  {
    Zoom(m, root, p, t);
    NodesArePtrs(Plug(p, t));
  }

  ghost function Turned(s: Side, t: Shape): Shape
    requires t.Node? && t.Kid(s.Flip()).Node?
  {
    Turn(s, t, (), ())
  }

  /** A rotation followed by painting the two nodes it exchanged. */
  ghost function Spun(s: Side, t: Shape, low: bool, high: bool): Shape
    requires t.Node? && t.Kid(s.Flip()).Node?
  {
    var v := t.Kid(s.Flip());
    Mk(s, Mk(s, t.Kid(s), t.e, (), low, v.Kid(s)), v.e, (), high, v.Kid(s.Flip()))
  }

  /** The way from the top of a rotated subtree down to the node that was its root. */
  ghost function SpunPath(p: Place, s: Side, t: Shape, high: bool): Place
    requires t.Node? && t.Kid(s.Flip()).Node?
  {
    var v := t.Kid(s.Flip());
    Down(p, s, v.e, (), high, v.Kid(s.Flip()))
  }

  /** The node a rotation lowers. */
  ghost function Lowered(s: Side, t: Shape): Shape
    requires t.Node? && t.Kid(s.Flip()).Node?
  {
    Mk(s, t.Kid(s), t.e, (), t.red, t.Kid(s.Flip()).Kid(s))
  }

  lemma TurnedIsSpun(p: Place, s: Side, t: Shape, low: bool, high: bool)
    requires t.Node? && t.Kid(s.Flip()).Node?
    ensures Turned(s, t).Node? && Turned(s, t).e == t.Kid(s.Flip()).e
    ensures SpunPath(p, s, t, high).Down? && SpunPath(p, s, t, high).up == p
    ensures Lowered(s, t).Node? && Lowered(s, t).e == t.e
    ensures Turned(s, t).(red := high) == Fill(SpunPath(p, s, t, high), Lowered(s, t))
    ensures Spun(s, t, low, high) == Fill(SpunPath(p, s, t, high), Lowered(s, t).(red := low))
  {
  }

  lemma TurnedLive(c: Contents, p: Place, t: Shape, s: Side)
    requires t.Node? && t.Kid(s.Flip()).Node? && InOrder(Plug(p, t)) == c
    ensures InOrder(Plug(p, Turned(s, t))) == c
  {
    TurnInOrder(s, t, (), ());
    PlugInOrder(p, t);
    PlugInOrder(p, Turned(s, t));
  }

  /** The memory of a rotation: the pivot takes the place of the node, then the node hangs below it. */
  lemma RotatedLive(m: Arena<Item, ()>, m1: Arena<Item, ()>, m': Arena<Item, ()>, root: Ptr, root': Ptr, c: Contents,
                    p: Place, t: Shape, s: Side)
    requires t.Node? && t.Kid(s.Flip()).Node? && Live(m, root, c, p, t) && Swung(m, m1, m', p, t, s, (), ())
    requires RepPath(m1, p, t.Kid(s.Flip()).e.ptr, NULL) && root' == RootOf(p, t.Kid(s.Flip()).e.ptr)
    ensures Live(m', root', c, p, Turned(s, t)) && Same(m, m', Ptrs(c))
  {
    hide Swung, InOrder, Ptrs;
    TurnAt(m, m1, m', root, root', p, t, s, (), ());
    TurnedLive(c, p, t, s);
    InPlace(m, root, c, p, t);
  }

  function Dir(m: Arena<Item, ()>, node: Ptr): Side
    requires node in m && (m[node].parent != NULL ==> m[node].parent in m)
  {
    if m[node].parent == NULL then Left
    else if m[m[node].parent].left == node then Left else Right
  }

  lemma DirIsSide(m: Arena<Item, ()>, root: Ptr, c: Contents, p: Place, t: Shape)
    requires t.Node? && Live(m, root, c, p, t)
    ensures t.e.ptr in m && (p.Down? ==> m[t.e.ptr].parent in m)
    ensures p.Top? ==> m[t.e.ptr].parent == NULL
    ensures p.Down? ==> m[t.e.ptr].parent == p.e.ptr && Dir(m, t.e.ptr) == p.side
  {
    Look(m, root, c, p, t);
  }

  lemma PaintSame(m: Arena<Item, ()>, node: Ptr, red: bool, c: Contents, p: Place, t: Shape)
    requires t.Node? && t.e.ptr == node && node in m && All(p, t) == Ptrs(c)
    ensures Same(m, m[node := m[node].(red := red)], Ptrs(c))
  {
  }

  /** The arena once n hangs in the hole of a path. */
  ghost function Hung(m: Arena<Item, ()>, p: Place, n: Ptr): Arena<Item, ()>
    requires n in m && (p.Down? ==> p.e.ptr in m)
  {
    var m1 := m[n := m[n].(parent := Hook(p, NULL))];
    if p.Top? then m1 else m1[p.e.ptr := m1[p.e.ptr].SetKid(p.side, n)]
  }

  /** Which cells a rotation concerns, and that they are different ones. */
  lemma RotateCells(m: Arena<Item, ()>, root: Ptr, c: Contents, p: Place, t: Shape, s: Side)
    requires t.Node? && t.Kid(s.Flip()).Node? && Live(m, root, c, p, t)
    ensures var v := t.Kid(s.Flip()); var b := v.Kid(s);
      && t.e.ptr in m && v.e.ptr in m && v.e.ptr != NULL && t.e.ptr != v.e.ptr && v.e.ptr !in PathNodes(p)
      && t.e.ptr !in PathNodes(p)
      && m[v.e.ptr].Kid(s) == Root(b)
      && (b.Node? ==>
            b.e.ptr != NULL && b.e.ptr in m && b.e.ptr != t.e.ptr && b.e.ptr != v.e.ptr && b.e.ptr !in PathNodes(p))
      && (p.Down? ==> p.e.ptr in m && p.e.ptr in PathNodes(p) && p.e.ptr != NULL)
  {
    var v := t.Kid(s.Flip());
    var b := v.Kid(s);
    assert Rep(m, v, t.e.ptr) && Distinct(v) && v.e.ptr in Nodes(v)
      && Nodes(v) == Nodes(v.left) + {v.e.ptr} + Nodes(v.right);
    assert Rep(m, b, v.e.ptr) && (b.Node? ==> b.e.ptr in Nodes(b));
    assert Nodes(t) == Nodes(t.left) + {t.e.ptr} + Nodes(t.right);
  }

  lemma HungPath(m: Arena<Item, ()>, root: Ptr, c: Contents, p: Place, t: Shape, n: Ptr)
    requires Live(m, root, c, p, t) && n in m && n !in PathNodes(p)
    ensures p.Down? ==> p.e.ptr in m
    ensures RepPath(Hung(m, p, n), p, n, NULL)
  {
    var m1 := m[n := m[n].(parent := Hook(p, NULL))];
    RepPathFrame(m, m1, p, Root(t), NULL);
    if p.Down? {
      Rehole(m1, p, Root(t), n, NULL);
    }
  }

  /** The cells after a rotation. */
  ghost predicate Rotated(m: Arena<Item, ()>, m': Arena<Item, ()>, node: Ptr, tmp: Ptr, parent: Ptr, parentDir: Side,
                          dir: Side)
    requires node in m && tmp in m && (parent != NULL ==> parent in m)
  {
    var inner := m[tmp].Kid(dir);
    && Same(m, m', {node, tmp, parent, inner})
    && m'[node] == m[node].SetKid(dir.Flip(), inner).(parent := tmp)
    && m'[tmp] == m[tmp].SetKid(dir, node).(parent := parent)
    && (parent != NULL ==> m'[parent] == m[parent].SetKid(parentDir, tmp))
    && (inner != NULL ==> inner in m && m'[inner] == m[inner].(parent := node))
  }

  /** The writes of a rotation, in the order of the code. */
  lemma RelinkSteps(m: Arena<Item, ()>, m1: Arena<Item, ()>, m2: Arena<Item, ()>, m3: Arena<Item, ()>,
                    node: Ptr, tmp: Ptr, inner: Ptr, parent: Ptr, parentDir: Side, dir: Side)
    requires node in m && tmp in m && node != tmp && NULL !in {node, tmp} && (parent != NULL ==> parent in m)
    requires parent != node && parent != tmp && inner == m[tmp].Kid(dir)
    requires inner != NULL ==> inner in m && inner !in {node, tmp, parent}
    requires var n := m[node := m[node].SetKid(dir.Flip(), inner)];
      m1 == if inner == NULL then n else n[inner := n[inner].(parent := node)]
    requires var n := m1[tmp := m1[tmp].SetKid(dir, node)]; var n' := n[node := n[node].(parent := tmp)];
      m2 == n'[tmp := n'[tmp].(parent := parent)]
    requires m3 == if parent == NULL then m2 else m2[parent := m2[parent].SetKid(parentDir, tmp)]
    ensures Rotated(m, m3, node, tmp, parent, parentDir, dir)
  {
    assert m1[node] == m[node].SetKid(dir.Flip(), inner) && m1[tmp] == m[tmp];
    assert m2[node] == m1[node].(parent := tmp) && m2[tmp] == m[tmp].SetKid(dir, node).(parent := parent);
    assert parent != NULL ==> m2[parent] == m[parent];
    assert inner != NULL ==> m2[inner] == m[inner].(parent := node);
  }

  lemma RotateSwings(m: Arena<Item, ()>, m': Arena<Item, ()>, root: Ptr, root': Ptr, c: Contents, p: Place, t: Shape,
                     s: Side)
    requires t.Node? && t.Kid(s.Flip()).Node? && Live(m, root, c, p, t)
    requires t.e.ptr in m && t.Kid(s.Flip()).e.ptr in m && (p.Down? ==> p.e.ptr in m)
    requires Rotated(m, m', t.e.ptr, t.Kid(s.Flip()).e.ptr, Hook(p, NULL), if p.Down? then p.side else Left, s)
    requires root' == if p.Top? then t.Kid(s.Flip()).e.ptr else root
    ensures Live(m', root', c, p, Turned(s, t)) && Same(m, m', Ptrs(c))
  {
    RotateCells(m, root, c, p, t, s);
    var v := t.Kid(s.Flip());
    var m1 := Hung(m, p, v.e.ptr);
    HungPath(m, root, c, p, t, v.e.ptr);
    assert root' == RootOf(p, v.e.ptr);
    HungSwung(m, m1, m', p, t, s);
    RotatedLive(m, m1, m', root, root', c, p, t, s);
  }

  lemma HungSwung(m: Arena<Item, ()>, m1: Arena<Item, ()>, m': Arena<Item, ()>, p: Place, t: Shape, s: Side)
    requires t.Node? && t.Kid(s.Flip()).Node?
    requires var v := t.Kid(s.Flip()); var b := v.Kid(s);
      && t.e.ptr in m && v.e.ptr in m && t.e.ptr != v.e.ptr && v.e.ptr !in PathNodes(p) && t.e.ptr !in PathNodes(p)
      && m[v.e.ptr].Kid(s) == Root(b)
      && (b.Node? ==>
            b.e.ptr != NULL && b.e.ptr in m && b.e.ptr != t.e.ptr && b.e.ptr != v.e.ptr && b.e.ptr !in PathNodes(p))
      && (p.Down? ==> p.e.ptr in m && p.e.ptr in PathNodes(p) && p.e.ptr != NULL)
      && m1 == Hung(m, p, v.e.ptr)
      && Rotated(m, m', t.e.ptr, v.e.ptr, Hook(p, NULL), if p.Down? then p.side else Left, s)
    ensures Swung(m, m1, m', p, t, s, (), ())
  {
    hide PathNodes, Nodes;
    var n, v, inner := t.e.ptr, t.Kid(s.Flip()).e.ptr, Root(t.Kid(s.Flip()).Kid(s));
    Unit(m[n].aug);
    Unit(m[v].aug);
  }

  lemma Unit(u: ())
    ensures u == ()
  {
  }

  // ----- rebalancing -----

  /** A red node under a red parent that has a parent of its own. */
  ghost predicate Clash(p: Place, t: Shape, h: nat) {
    p.Down? && p.red && p.up.Down? && Accepts(p, h) && Balanced(t, h) && Red(t)
  }

  /** The grandparent of a clash once it has been turned below the parent. */
  ghost function Raised(p: Place, t: Shape): Shape
    requires p.Down? && p.up.Down? && p.side == p.up.side
  {
    var g := p.up;
    Mk(g.side.Flip(), Mk(g.side.Flip(), g.far, g.e, (), true, p.far), p.e, (), false, t)
  }

  lemma OuterTurned(p: Place, t: Shape, h: nat)
    requires Clash(p, t, h) && !Red(p.up.far) && p.side == p.up.side
    ensures p.Down? && p.up.Down? && t.Node?
    ensures var top := Fill(p.up, Fill(p, t));
      && top.Node? && top.e.ptr == p.up.e.ptr
      && top.Kid(p.side.Flip().Flip()).Node? && top.Kid(p.side.Flip().Flip()).e.ptr == p.e.ptr
      && Spun(p.side.Flip(), top, true, false) == Raised(p, t)
    ensures Balanced(Raised(p, t), h + 1) && !Red(Raised(p, t)) && Accepts(p.up.up, h + 1)
  {
    InsertOuter(p, t, h, (), ());
  }

  ghost function InnerPath(p: Place, t: Shape): Place
    requires p.Down? && p.up.Down? && t.Node?
  {
    Down(p.up, p.up.side, t.e, (), true, t.Kid(p.up.side.Flip()))
  }

  ghost function InnerKid(p: Place, t: Shape): Shape
    requires p.Down? && p.up.Down? && t.Node?
  {
    Mk(p.up.side, p.far, p.e, (), true, t.Kid(p.up.side))
  }

  lemma InnerTurned(p: Place, t: Shape, h: nat)
    requires Clash(p, t, h) && p.side != p.up.side
    ensures p.Down? && p.up.Down? && t.Node?
    ensures var f := Fill(p, t);
      && f.Node? && f.e == p.e && f.Kid(p.up.side.Flip()).Node?
      && Turned(p.up.side, f) == Fill(InnerPath(p, t), InnerKid(p, t)) && Root(Turned(p.up.side, f)) == t.e.ptr
    ensures Clash(InnerPath(p, t), InnerKid(p, t), h) && InnerPath(p, t).up == p.up
    ensures InnerPath(p, t).side == p.up.side && InnerPath(p, t).e == t.e
  {
    InsertInner(p, t, h, (), ());
  }

  lemma ClashFacts(m: Arena<Item, ()>, root: Ptr, c: Contents, p: Place, t: Shape, h: nat)
    requires Live(m, root, c, p, t) && Clash(p, t, h)
    ensures p.Down? && p.up.Down? && t.Node? && p.e.ptr in m
    ensures t.e.ptr == m[p.e.ptr].Kid(p.up.side.Flip()) <==> p.side != p.up.side
  {
    Look(m, root, c, p, t);
  }

  /** A red node in a path that is balanced but for its parent, which may be red too. */
  ghost predicate Trouble(p: Place, t: Shape, h: nat) {
    Accepts(p, h) && Balanced(t, h) && Red(t)
  }

  lemma TroubleFacts(p: Place, t: Shape, h: nat)
    requires Trouble(p, t, h)
    ensures t.Node? && t.red && Balanced(t, h) && Accepts(p, h)
    ensures p.Top? ==> Plug(p, t) == t
    ensures RedHook(p) <==> p.Down? && p.red
    ensures p.Down? ==> Fill(p, t).Node? && Fill(p, t).e == p.e && Root(Fill(p, t)) == p.e.ptr
    ensures p.Down? && p.red && p.up.Down? ==> Clash(p, t, h) && (Red(p.up.far) <==> p.up.far.Node? && p.up.far.red)
  {
  }

  lemma RootBlack(p: Place, t: Shape, h: nat)
    requires Trouble(p, t, h) && p.Down? && p.up.Top? && p.red
    ensures Fill(p, t).Node? && Fill(p, t).e == p.e && Balanced(Fill(p, t).(red := false), h + 1)
  {
  }

  ghost function Recoloured(p: Place, t: Shape): Shape
    requires p.Down? && p.up.Down? && Red(p.up.far)
  {
    Mk(p.up.side, Mk(p.side, t, p.e, p.aug, false, p.far), p.up.e, p.up.aug, true, p.up.far.(red := false))
  }

  lemma RecolourSteps(p: Place, t: Shape, h: nat)
    requires Clash(p, t, h) && Red(p.up.far)
    ensures p.Down? && p.up.Down? && t.Node? && p.up.far.Node? && Red(p.up.far)
    ensures Trouble(p.up.up, Recoloured(p, t), h + 1) && Recoloured(p, t).Node? && Recoloured(p, t).e == p.up.e
    ensures var f := Fill(p, t);
      && f.Node? && f.e == p.e
      && var f' := f.(red := false); var q := Across(p.up, f'); var far := p.up.far.(red := false);
      && q.Down? && q.up == p.up.up && q.far == f'
      && var g := Across(q, far);
      && g.Down? && g.up == p.up.up && g.far == far && Fill(g, f').Node? && Fill(g, f').e == p.up.e
      && Fill(g, f').(red := true) == Recoloured(p, t)
  {
    InsertRecolour(p, t, h);
  }

  /** The hole is one black node short. */
  ghost predicate Short(p: Place, t: Shape, h: nat) {
    Accepts(p, h + 1) && Balanced(t, h) && !Red(t)
  }

  lemma ShortFacts(p: Place, t: Shape, h: nat)
    requires Short(p, t, h)
    ensures Balanced(t, h)
    ensures p.Top? ==> Plug(p, t) == t
    ensures p.Down? ==> p.far.Node? && Fill(p, t).Node? && Fill(p, t).e == p.e && (Red(p.far) <==> p.far.red)
  {
  }

  /** A black sibling without red children. */
  ghost predicate Plain(p: Place) {
    p.Down? && p.far.Node? && !p.far.red && !Red(p.far.left) && !Red(p.far.right)
  }

  /** The path with a red sibling. */
  ghost function Redder(p: Place): Place
    requires p.Down? && p.far.Node?
  {
    p.(far := p.far.(red := true))
  }

  lemma RedderSteps(p: Place, t: Shape)
    requires p.Down? && p.far.Node?
    ensures Across(p, t).Down? && Across(Across(p, t), p.far.(red := true)) == Redder(p) && Across(p, t).far == t
    ensures Redder(p).Down? && Redder(p).up == p.up
  {
  }

  lemma Faded(p: Place, t: Shape, h: nat)
    requires Short(p, t, h) && Plain(p)
    ensures p.Down? && p.far.Node? && Redder(p).Down?
    ensures Fill(Redder(p), t).Node? && Fill(Redder(p), t).e == p.e
    ensures p.red ==> Balanced(Fill(Redder(p), t).(red := false), h + 1) && Accepts(p.up, h + 1)
    ensures p.red ==> !Red(Fill(Redder(p), t).(red := false))
    ensures !p.red ==> Short(p.up, Fill(Redder(p), t), h + 1)
  {
    EraseRecolour(p, t, h);
  }

  /** A hole that is one black node short, with a black sibling that has a red child. */
  ghost predicate Lopsided(p: Place, t: Shape, h: nat) {
    Short(p, t, h) && p.Down? && p.far.Node? && !p.far.red && (Red(p.far.left) || Red(p.far.right))
  }

  lemma LopsidedFacts(p: Place, t: Shape, h: nat)
    requires Lopsided(p, t, h)
    ensures p.Down? && p.far.Node? && Fill(p, t).Node? && Fill(p, t).e == p.e
    ensures !Red(p.far.Kid(p.side.Flip())) ==> p.far.Kid(p.side).Node?
    ensures Red(p.far.Kid(p.side.Flip())) ==> p.far.Kid(p.side.Flip()).Node?
    ensures Across(p, t).Down?
  {
  }

  /** The path whose sibling has been turned away from the hole. */
  ghost function Swayed(p: Place): Place
    requires p.Down? && p.far.Node? && p.far.Kid(p.side).Node?
  {
    p.(far := Spun(p.side.Flip(), p.far, true, false))
  }

  lemma SwayedSteps(p: Place, t: Shape, h: nat)
    requires Lopsided(p, t, h) && !Red(p.far.Kid(p.side.Flip()))
    ensures p.Down? && p.far.Node? && p.far.Kid(p.side).Node? && p.far.Kid(p.side.Flip().Flip()) == p.far.Kid(p.side)
    ensures Across(p, t).Down? && Across(p, t).far == t
    ensures Across(Across(p, t), Spun(p.side.Flip(), p.far, true, false)) == Swayed(p)
    ensures var q := Swayed(p);
      && q.Down? && q.e == p.e && q.side == p.side && q.far.Node? && q.far.e == p.far.Kid(p.side).e
      && Lopsided(q, t, h) && Red(q.far.Kid(p.side.Flip())) && q.far.Kid(p.side.Flip()).e == p.far.e
  {
    EraseInner(p.far, p.side, h, (), ());
  }

  /** The way down to the distant nephew once the sibling stands above the parent. */
  ghost function LiftedPath(p: Place, t: Shape): Place
    requires p.Down? && p.far.Node?
  {
    Down(p.up, p.side.Flip(), p.far.e, (), p.red, Mk(p.side, t, p.e, (), false, p.far.Kid(p.side)))
  }

  lemma LiftedSteps(p: Place, t: Shape, h: nat)
    requires Lopsided(p, t, h) && Red(p.far.Kid(p.side.Flip()))
    ensures p.Down? && p.far.Node? && p.far.Kid(p.side.Flip()).Node?
    ensures var f := Fill(p, t);
      && f.Node? && f.Kid(p.side.Flip()) == p.far
      && Spun(p.side, f, false, p.red) == Fill(LiftedPath(p, t), p.far.Kid(p.side.Flip()))
    ensures LiftedPath(p, t).Down? && LiftedPath(p, t).up == p.up
    ensures var u := Fill(LiftedPath(p, t), p.far.Kid(p.side.Flip()).(red := false));
      var k := if p.red then h + 1 else h + 2;
      Balanced(u, k) && Accepts(p.up, k) && !(RedHook(p.up) && Red(u))
  {
    EraseOuter(p, t, h, (), ());
  }

  lemma LookNephews(m: Arena<Item, ()>, root: Ptr, c: Contents, p: Place, t: Shape, s: Side)
    requires t.Node? && Live(m, root, c, p, t)
    ensures t.e.ptr in m
    ensures t.Kid(s).Node? ==> m[t.e.ptr].Kid(s) == t.Kid(s).e.ptr
    ensures t.Kid(s.Flip()).Node? ==> m[t.e.ptr].Kid(s.Flip()) == t.Kid(s.Flip()).e.ptr
    ensures m[t.e.ptr].Kid(s.Flip()) == NULL <==> t.Kid(s.Flip()).Leaf?
    ensures m[t.e.ptr].Kid(s.Flip()) != NULL ==> m[t.e.ptr].Kid(s.Flip()) in m
    ensures Red(t.Kid(s.Flip())) <==> m[t.e.ptr].Kid(s.Flip()) != NULL && m[m[t.e.ptr].Kid(s.Flip())].red
  {
    LookBelow(m, root, c, p, t);
  }

  /** The path once the red sibling stands above the parent. */
  ghost function Sunk(p: Place): Place
    requires p.Down? && p.far.Node?
  {
    Down(Down(p.up, p.side, p.far.e, (), false, p.far.Kid(p.side.Flip())), p.side, p.e, (), true, p.far.Kid(p.side))
  }

  lemma SunkSteps(p: Place, t: Shape, h: nat)
    requires Short(p, t, h) && p.Down? && Red(p.far)
    ensures p.far.Node? && Sunk(p).Down? && Sunk(p).up.Down? && Sunk(p).up.up == p.up
    ensures Sunk(p).e == p.e && Sunk(p).side == p.side && Sunk(p).red && Sunk(p).far.Node? && !Sunk(p).far.red
    ensures Short(Sunk(p), t, h)
    ensures var f := Fill(p, t);
      && f.Node? && f.Kid(p.side.Flip()) == p.far && Spun(p.side, f, true, false) == Fill(Sunk(p).up, Fill(Sunk(p), t))
  {
    EraseRedSibling(p, t, h, (), ());
  }

  lemma NephewCases(p: Place, t: Shape, h: nat)
    requires Short(p, t, h) && p.Down? && p.far.Node? && !p.far.red
    ensures Across(p, t).Down?
    ensures if Red(p.far.left) || Red(p.far.right) then Lopsided(p, t, h) else Plain(p)
  {
  }

  // ----- taking a node out -----

  /** What remains of a subtree without its root, which has at most one child. */
  ghost function Heir(t: Shape): Shape
    requires t.Node?
  {
    if t.left.Leaf? then t.right else t.left
  }

  ghost function Without(p: Place, t: Shape): Contents
    requires t.Node?
  {
    Before(p) + InOrder(Heir(t)) + After(p)
  }

  /** An only child is red, and its parent black. */
  lemma OnlyChild(t: Shape, h: nat)
    requires t.Node? && Balanced(t, h) && t.left.Leaf? != t.right.Leaf?
    ensures !t.red && Heir(t).Node? && Heir(t).red && Balanced(Heir(t).(red := false), h)
    ensures !Red(Heir(t).(red := false))
    ensures Heir(t) == t.left || Heir(t) == t.right
  {
  }

  lemma WithoutPtrs(p: Place, t: Shape)
    requires t.Node?
    ensures Ptrs(Without(p, t)) <= All(p, t)
  {
    var u := Plug(p, Heir(t));
    PlugInOrder(p, Heir(t));
    NodesArePtrs(u);
    HeldTop(map[], p, Heir(t), NULL);
  }

  /** A child hung into the place of its parent. */
  lemma Bypassed(m: Arena<Item, ()>, root: Ptr, c: Contents, p: Place, t: Shape, u: Shape)
    requires Live(m, root, c, p, t) && t.Node? && (u == t.left || u == t.right) && u == Heir(t) && u.Node?
    ensures u.e.ptr in m && (p.Down? ==> p.e.ptr in m)
    ensures Live(Hung(m, p, u.e.ptr), if p.Top? then u.e.ptr else root, Without(p, t), p, u)
    ensures Same(m, Hung(m, p, u.e.ptr), All(p, t))
  {
    assert Rep(m, u, t.e.ptr) && Distinct(u) && Nodes(u) <= Nodes(t) && u.e.ptr in Nodes(u);
    assert u.e.ptr !in PathNodes(p);
    HungPath(m, root, c, p, t, u.e.ptr);
    var m' := Hung(m, p, u.e.ptr);
    HungTree(m, p, u, t.e.ptr);
    PlugInOrder(p, u);
    assert p.Down? ==> p.e.ptr in PathNodes(p);
  }

  lemma HungTree(m: Arena<Item, ()>, p: Place, u: Shape, parent: Ptr)
    requires Rep(m, u, parent) && Distinct(u) && u.Node? && Nodes(u) !! PathNodes(p) && (p.Down? ==> p.e.ptr in m)
    ensures Rep(Hung(m, p, u.e.ptr), u, Hook(p, NULL))
  {
    var m' := Hung(m, p, u.e.ptr);
    assert p.Down? ==> p.e.ptr in PathNodes(p);
    assert Nodes(u) == Nodes(u.left) + {u.e.ptr} + Nodes(u.right);
    RepFrame(m, m', u.left, u.e.ptr);
    RepFrame(m, m', u.right, u.e.ptr);
  }

  lemma HungIs(m: Arena<Item, ()>, m': Arena<Item, ()>, p: Place, n: Ptr, parent: Ptr, dir: Side)
    requires n in m && (p.Down? ==> p.e.ptr in m) && (p.Top? <==> parent == NULL)
    requires p.Down? ==> parent == p.e.ptr && dir == p.side
    requires var m1 := m[n := m[n].(parent := parent)];
      m' == if parent == NULL then m1 else m1[parent := m1[parent].SetKid(dir, n)]
    ensures m' == Hung(m, p, n)
  {
  }

  lemma HeirCell(m: Arena<Item, ()>, root: Ptr, c: Contents, p: Place, t: Shape)
    requires Live(m, root, c, p, t) && t.Node? && t.left.Leaf? != t.right.Leaf?
    ensures t.e.ptr in m && Heir(t).Node? && Heir(t).e.ptr in m
    ensures Heir(t).e.ptr == if m[t.e.ptr].left != NULL then m[t.e.ptr].left else m[t.e.ptr].right
    ensures p.Down? ==> p.e.ptr in m && p.e.ptr != Heir(t).e.ptr && p.e.ptr != NULL
  {
    LookBelow(m, root, c, p, t);
    assert Heir(t).e.ptr in Nodes(t);
  }

  /** Unlinking a node without children. */
  lemma LeafOut(m: Arena<Item, ()>, root: Ptr, c: Contents, p: Place, t: Shape, h: nat)
    requires Live(m, root, c, p, t) && t.Node? && t.left.Leaf? && t.right.Leaf?
    requires Balanced(t, h) && Accepts(p, h) && !(RedHook(p) && Red(t))
    ensures p.Top? ==> Live(m, NULL, Without(p, t), Top, Leaf)
    ensures p.Down? ==>
      && p.e.ptr in m && t.e.ptr in m && p.e.ptr != t.e.ptr
      && var m' := m[p.e.ptr := m[p.e.ptr].SetKid(p.side, NULL)];
      && Live(m', root, Without(p, t), p, Leaf) && Same(m, m', All(p, t))
    ensures Balanced<Item, ()>(Leaf, 0) && !Red<Item, ()>(Leaf)
    ensures if t.red then Accepts(p, 0) else Short(p, Leaf, 0)
  {
    PlugInOrder(p, Leaf);
    if p.Down? {
      Rehole(m, p, t.e.ptr, NULL, NULL);
      assert p.e.ptr in PathNodes(p);
    }
  }

  lemma ChildCells(m: Arena<Item, ()>, root: Ptr, c: Contents, p: Place, t: Shape)
    requires Live(m, root, c, p, t) && t.Node?
    ensures t.e.ptr in m && (m[t.e.ptr].left == NULL <==> t.left.Leaf?) && (m[t.e.ptr].right == NULL <==> t.right.Leaf?)
  {
    LookBelow(m, root, c, p, t);
  }

  // ----- two nodes trade places -----

  /** Every link leads to some other node, or nowhere. */
  ghost predicate Neat(m: Arena<Item, ()>, n: Ptr) {
    && n in m && n != NULL && LinkOk(m, n, m[n].left) && LinkOk(m, n, m[n].right) && LinkOk(m, n, m[n].parent)
  }

  ghost predicate LinkOk(m: Arena<Item, ()>, n: Ptr, x: Ptr) { x != NULL ==> x in m && x != n }

  lemma {:induction false} RootOnly(m: Arena<Item, ()>, t: Shape, parent: Ptr, n: Ptr)
    requires Rep(m, t, parent) && Distinct(t) && parent !in Nodes(t) && n in Nodes(t)
    ensures n in m && (m[n].parent == parent <==> n == t.e.ptr)
  {
    if n in Nodes(t.left) {
      RootOnly(m, t.left, t.e.ptr, n);
      NodeParent(m, t.left, t.e.ptr, n);
    } else if n in Nodes(t.right) {
      RootOnly(m, t.right, t.e.ptr, n);
      NodeParent(m, t.right, t.e.ptr, n);
    }
  }

  lemma {:induction false} NodeParent(m: Arena<Item, ()>, t: Shape, parent: Ptr, n: Ptr)
    requires Rep(m, t, parent) && n in Nodes(t)
    ensures n in m && n != NULL && m[n].parent in Nodes(t) + {parent}
  {
    if n in Nodes(t.left) {
      NodeParent(m, t.left, t.e.ptr, n);
    } else if n in Nodes(t.right) {
      NodeParent(m, t.right, t.e.ptr, n);
    }
  }

  lemma {:induction false} NoNull(m: Arena<Item, ()>, t: Shape, parent: Ptr)
    requires Rep(m, t, parent)
    ensures NULL !in Nodes(t)
  {
    if t.Node? {
      NoNull(m, t.left, t.e.ptr);
      NoNull(m, t.right, t.e.ptr);
    }
  }

  lemma SwitchReady(m: Arena<Item, ()>, root: Ptr, c: Contents, w: Shape, a: Ptr)
    requires Live(m, root, c, Top, w) && a in Nodes(w)
    ensures Neat(m, a) && Linked(m, a) && a in m && (m[a].parent != NULL ==> m[a].parent in m)
    ensures OnSide(m, a, Dir(m, a))
    ensures m[a].parent == NULL <==> a == root
  {
    NoNull(m, w, NULL);
    RepLinks(m, w, NULL, a);
    RootOnly(m, w, NULL, a);
  }

  lemma NeatFacts(m: Arena<Item, ()>, n: Ptr)
    requires Neat(m, n)
    ensures n in m && n != NULL && n !in {m[n].left, m[n].right, m[n].parent}
    ensures m[n].left != NULL ==> m[n].left in m
    ensures m[n].right != NULL ==> m[n].right in m
    ensures m[n].parent != NULL ==> m[n].parent in m
  {
  }

  /** The writes of rbnode_adjust_neighbors, one after the other. */
  lemma AdjustSteps(m: Arena<Item, ()>, m1: Arena<Item, ()>, m2: Arena<Item, ()>, m3: Arena<Item, ()>, n: Ptr,
                    dir: Side)
    requires Neat(m, n)
    requires var x := m[n].left; m1 == if x == NULL then m else m[x := m[x].(parent := n)]
    requires n in m1 && var x := m1[n].right; x != NULL ==> x in m1
    requires var x := m1[n].right; m2 == if x == NULL then m1 else m1[x := m1[x].(parent := n)]
    requires n in m2 && var x := m2[n].parent; x != NULL ==> x in m2
    requires var x := m2[n].parent; m3 == if x == NULL then m2 else m2[x := m2[x].SetKid(dir, n)]
    ensures Adjusted(m, m3, n, dir)
  {
    NeatFacts(m, n);
    hide Neat;
    assert m1[n] == m[n] && m2[n] == m[n];
    assert m3.Keys == m.Keys;
    forall x <- m
      ensures m3[x] == FarCell(m, n, dir, x)
    {
      var l, r, p := m[n].left, m[n].right, m[n].parent;
      var c1 := if x != NULL && x == l then m[x].(parent := n) else m[x];
      assert m1[x] == c1;
      var c2 := if x != NULL && x == r then c1.(parent := n) else c1;
      assert m2[x] == c2;
      var c3 := if x != NULL && x == p then c2.SetKid(dir, n) else c2;
      assert m3[x] == c3;
    }
  }

  function Fixed(c: Cell<Item, ()>, n1: Ptr, n2: Ptr): Cell<Item, ()> {
    c.(left := if c.left == n1 then n2 else c.left,
       right := if c.right == n1 then n2 else c.right,
       parent := if c.parent == n1 then n2 else c.parent)
  }

  /** Trading cells and fixing the links between the two exchanges the two addresses. */
  lemma SwapCells(m1: Arena<Item, ()>, m: Arena<Item, ()>, a: Ptr, b: Ptr, x: Cell<Item, ()>, y: Cell<Item, ()>)
    requires Neat(m, a) && Neat(m, b) && a != b && x == m[a] && y == m[b]
    requires m1 == m[a := y.(key := x.key)][b := x.(key := y.key)]
    ensures m1[b := Fixed(m1[b], b, a)][a := Fixed(m1[a], a, b)]
         == m[a := Relinked(m, a, b, b, m[a].key)][b := Relinked(m, a, b, a, m[b].key)]
  {
    NeatFacts(m, a);
    NeatFacts(m, b);
    assert Fixed(m1[b], b, a) == Relinked(m, a, b, a, m[b].key);
    assert Fixed(m1[a], a, b) == Relinked(m, a, b, b, m[a].key);
  }

  lemma SwapNeat(m: Arena<Item, ()>, m1: Arena<Item, ()>, a: Ptr, b: Ptr)
    requires Neat(m, a) && Neat(m, b) && a != b
    requires m1 == m[a := Relinked(m, a, b, b, m[a].key)][b := Relinked(m, a, b, a, m[b].key)]
    ensures Neat(m1, a) && Neat(m1, b) && m1[a].parent == Swap(a, b, m[b].parent)
  {
  }

  lemma SwitchHalf(m: Arena<Item, ()>, m1: Arena<Item, ()>, m2: Arena<Item, ()>, a: Ptr, b: Ptr, bSide: Side)
    requires Neat(m, a) && Neat(m, b) && a != b && Linked(m, a) && Linked(m, b) && OnSide(m, b, bSide)
    requires m1 == m[a := Relinked(m, a, b, b, m[a].key)][b := Relinked(m, a, b, a, m[b].key)]
    requires Adjusted(m1, m2, a, bSide)
    ensures Neat(m2, b) && m2[b].parent == Swap(a, b, m[a].parent)
  {
    SwapNeat(m, m1, a, b);
    assert m2[b] == FarCell(m1, a, bSide, b);
  }

  /** The tree after a switch. */
  lemma SwitchDone(m: Arena<Item, ()>, m1: Arena<Item, ()>, m2: Arena<Item, ()>, m3: Arena<Item, ()>, root: Ptr,
                   root': Ptr, c: Contents, w: Shape, a: Ptr, b: Ptr, aSide: Side, bSide: Side)
    requires Live(m, root, c, Top, w) && a in Nodes(w) && b in Nodes(w) && a != b
    requires a in m && b in m && OnSide(m, a, aSide) && OnSide(m, b, bSide)
    requires m1 == m[a := Relinked(m, a, b, b, m[a].key)][b := Relinked(m, a, b, a, m[b].key)]
    requires Adjusted(m1, m2, a, bSide) && b in m2 && Adjusted(m2, m3, b, aSide)
    requires m1[a].parent == Swap(a, b, m[b].parent) && m2[b].parent == Swap(a, b, m[a].parent)
    requires root' == if m2[b].parent == NULL then b else if m1[a].parent == NULL then a else root
    ensures Exchanged(m, m3, a, b, Nodes(w)) && Same(m, m3, Ptrs(c))
    ensures var w' := Renamed(w, Entry(a, m[a].key), Entry(b, m[b].key)); Live(m3, root', InOrder(w'), Top, w')
  {
    NoNull(m, w, NULL);
    RootOnly(m, w, NULL, a);
    RootOnly(m, w, NULL, b);
    assert Switched(m, m1, m2, m3, a, b, aSide, bSide);
    hide Switched, Adjusted;
    SwitchExchanges(m, m1, m2, m3, w, a, b, aSide, bSide);
    RenamedAt(m, m3, w, Entry(a, m[a].key), Entry(b, m[b].key));
    NodesArePtrs(w);
    SwitchSame(m, m1, m2, m3, w, a, b, aSide, bSide);
  }

  /** Nodes outside the tree are left alone. */
  lemma SwitchSame(m: Arena<Item, ()>, m1: Arena<Item, ()>, m2: Arena<Item, ()>, m3: Arena<Item, ()>, w: Shape, a: Ptr,
                   b: Ptr, aSide: Side, bSide: Side)
    requires Rep(m, w, NULL) && Distinct(w) && NULL !in Nodes(w) && a in Nodes(w) && b in Nodes(w) && a != b
    requires a in m && b in m && Switched(m, m1, m2, m3, a, b, aSide, bSide)
    ensures Same(m, m3, Nodes(w))
  {
    RepLinks(m, w, NULL, a);
    RepLinks(m, w, NULL, b);
    forall n <- m | n != NULL && n !in Nodes(w)
      ensures n in m3 && m3[n] == m[n]
    {
      StrangerStays(m, m1, m2, m3, a, b, aSide, bSide, n);
    }
    assert m1.Keys == m.Keys;
  }

  lemma StrangerStays(m: Arena<Item, ()>, m1: Arena<Item, ()>, m2: Arena<Item, ()>, m3: Arena<Item, ()>, a: Ptr, b: Ptr,
                      aSide: Side, bSide: Side, n: Ptr)
    requires Linked(m, a) && Linked(m, b) && a != b && n in m && n != NULL && n != a && n != b
    requires Switched(m, m1, m2, m3, a, b, aSide, bSide)
    requires n !in {m[a].left, m[a].right, m[a].parent, m[b].left, m[b].right, m[b].parent}
    ensures n in m3 && m3[n] == m[n]
  {
    FirstMoved(m, m1, m2, m3, a, b, aSide, bSide);
    assert n in m1 && m1[n] == m[n] && m1[a] == Relinked(m, a, b, b, m[a].key);
    assert m2[n] == FarCell(m1, a, bSide, n) && m3[n] == FarCell(m2, b, aSide, n);
    hide Linked, LinksDown, LinksUp, OnSide, Switched, Adjusted;
  }

  // ----- which entry leaves -----

  lemma LeastLeft(u: Shape)
    requires u.Node? && u.left.Node?
    ensures InOrder(u) != [] && InOrder(u.left) != [] && InOrder(u)[0] == InOrder(u.left)[0]
  {
  }

  lemma RemovedOrdered(mode: Mode, c: Contents, n: Ptr, d: Contents)
    requires Ordered(mode, c) && Removed(c, n, d)
    ensures Ordered(mode, d)
  {
    var k :| 0 <= k < |c| && c[k].ptr == n && d == c[..k] + c[k + 1..];
    DropAt(c, k);
    ThinnedOrdered(mode, c, d, k);
  }

  lemma ThinnedOrdered(mode: Mode, c: Contents, d: Contents, k: nat)
    requires Ordered(mode, c) && |d| == |c| - 1
    requires forall i {:trigger d[i]} :: 0 <= i < |d| ==> d[i] == if i < k then c[i] else c[i + 1]
    ensures Ordered(mode, d)
  {
    forall i, j | 0 <= i < j < |d|
      ensures d[i].key.key <= d[j].key.key && (!mode.Duplicate? ==> d[i].key.key != d[j].key.key)
    {
      var i' := if i < k then i else i + 1;
      var j' := if j < k then j else j + 1;
      assert d[i] == c[i'];
      assert d[j] == c[j'];
      assert i' < j';
    }
  }

  lemma DropAt(c: Contents, k: nat)
    requires k < |c|
    ensures var d := c[..k] + c[k + 1..];
      |d| == |c| - 1 && forall i :: 0 <= i < |d| ==> d[i] == if i < k then c[i] else c[i + 1]
  {
  }

  lemma Locate(m: Arena<Item, ()>, root: Ptr, c: Contents, w: Shape, n: Ptr) returns (p: Place, t: Shape)
    requires Live(m, root, c, Top, w) && n in Ptrs(c)
    ensures Live(m, root, c, p, t) && t.Node? && t.e.ptr == n && Plug(p, t) == w && n in Nodes(w)
    ensures t.left.Leaf? || t.right.Leaf? ==> Removed(c, n, Without(p, t))
  {
    NodesArePtrs(w);
    p, t := Find(w, n);
    GoTop(m, root, c, p, t);
    if t.left.Leaf? || t.right.Leaf? {
      WithoutRemoves(p, t);
    }
  }

  lemma {:induction false} PtrsDiffer(t: Shape)
    requires Distinct(t)
    ensures forall i, j :: 0 <= i < j < |InOrder(t)| ==> InOrder(t)[i].ptr != InOrder(t)[j].ptr
  {
    if t.Node? {
      PtrsDiffer(t.left);
      PtrsDiffer(t.right);
      NodesArePtrs(t.left);
      NodesArePtrs(t.right);
      var l, r, c := InOrder(t.left), InOrder(t.right), InOrder(t);
      forall i, j | 0 <= i < j < |c|
        ensures c[i].ptr != c[j].ptr
      {
        assert i < |l| ==> c[i] == l[i] && l[i].ptr in Nodes(t.left);
        assert i > |l| ==> c[i] == r[i - |l| - 1];
        assert j < |l| ==> c[j] == l[j];
        assert j > |l| ==> c[j] == r[j - |l| - 1] && r[j - |l| - 1].ptr in Nodes(t.right);
      }
    }
  }

  lemma NextUp(m: Arena<Item, ()>, root: Ptr, c: Contents, p: Place, t: Shape)
    requires Live(m, root, c, p, t) && t.Node? && t.right.Node?
    ensures t.e.ptr in m && m[t.e.ptr].right == t.right.e.ptr && Rep(m, t.right, t.e.ptr)
  {
  }

  /** The leftmost node of the right subtree comes next in order. */
  lemma Successor(m: Arena<Item, ()>, root: Ptr, c: Contents, p: Place, t: Shape, a: Ptr)
    requires Live(m, root, c, p, t) && t.Node? && InOrder(t.right) != [] && InOrder(t.right)[0].ptr == a
    requires a in Nodes(t.right)
    ensures a in Nodes(Plug(p, t)) && t.e.ptr in Nodes(Plug(p, t)) && a != t.e.ptr
    ensures Follows(c, t.e.ptr, a)
  {
    PlugInOrder(p, t);
    HeldTop(m, p, t, NULL);
    var l, r := Before(p) + InOrder(t.left), InOrder(t.right);
    Regroup(Before(p), InOrder(t.left), [t.e], r, After(p));
    assert c == l + ([t.e] + r + After(p));
    var k := |l|;
    assert c[k] == t.e && c[k + 1] == r[0];
  }

  ghost predicate Follows(c: Contents, n: Ptr, a: Ptr) {
    exists k :: 0 <= k < |c| - 1 && c[k].ptr == n && c[k + 1].ptr == a
  }

  /** After a node has traded places with the next one, taking it out gives the same sequence. */
  lemma RemovedAfterSwitch(c: Contents, c1: Contents, n: Ptr, a: Ptr, en: Entry<Item>, ea: Entry<Item>, d: Contents)
    requires forall i, j :: 0 <= i < j < |c| ==> c[i].ptr != c[j].ptr
    requires en in c && ea in c && en.ptr == n && ea.ptr == a && n != a && Follows(c, n, a)
    requires |c1| == |c| && forall i :: 0 <= i < |c| ==> c1[i] == RenamedEntry(c[i], ea, en)
    requires Removed(c1, n, d)
    ensures Removed(c, n, d)
  {
    var k :| 0 <= k < |c| - 1 && c[k].ptr == n && c[k + 1].ptr == a;
    var j :| 0 <= j < |c1| && c1[j].ptr == n && d == c1[..j] + c1[j + 1..];
    assert c[k] == en && c[k + 1] == ea;
    assert c1[j] == RenamedEntry(c[j], ea, en);
    assert j == k + 1;
    assert c1[k] == ea;
    forall i | 0 <= i < |c| && i != k && i != k + 1
      ensures c1[i] == c[i]
    {
      assert c[i].ptr != n && c[i].ptr != a;
    }
    SwappedDrop(c, c1, k, ea);
    assert d == c[..k] + c[k + 1..];
  }

  lemma SwappedDrop(c: Contents, c1: Contents, k: nat, ea: Entry<Item>)
    requires k + 1 < |c| == |c1| && c1[k] == ea == c[k + 1]
    requires forall i :: 0 <= i < |c| && i != k && i != k + 1 ==> c1[i] == c[i]
    ensures c1[..k + 1] + c1[k + 2..] == c[..k] + c[k + 1..]
  {
    assert c1[..k + 1] == c[..k] + [ea];
    assert c1[k + 2..] == c[k + 2..];
    assert c[k + 1..] == [ea] + c[k + 2..];
  }

  lemma EntryOf(m: Arena<Item, ()>, c: Contents, n: Ptr)
    requires n in Ptrs(c) && forall x <- c :: x.ptr != NULL && x.ptr in m && m[x.ptr].key == x.key
    ensures n in m && Entry(n, m[n].key) in c
  {
  }

  /** The node now stands where the next one stood, without a left child. */
  lemma MovedDown(m: Arena<Item, ()>, m': Arena<Item, ()>, root: Ptr, root': Ptr, c: Contents, c1: Contents, w: Shape,
                  p: Place, t: Shape, a: Ptr, h: nat)
    requires Live(m, root, c, Top, w) && Plug(p, t) == w && Balanced(w, h)
    requires t.Node? && a in Nodes(w) && t.e.ptr in Nodes(w) && a != t.e.ptr && Follows(c, t.e.ptr, a)
    requires a in m && t.e.ptr in m && m[a].left == NULL && Exchanged(m, m', a, t.e.ptr, Nodes(w))
    requires c1 == InOrder(Renamed(w, Entry(a, m[a].key), Entry(t.e.ptr, m[t.e.ptr].key)))
    requires Live(m', root', c1, Top, Renamed(w, Entry(a, m[a].key), Entry(t.e.ptr, m[t.e.ptr].key)))
    ensures Balanced(Renamed(w, Entry(a, m[a].key), Entry(t.e.ptr, m[t.e.ptr].key)), h)
    ensures t.e.ptr in m' && m'[t.e.ptr].left == NULL
    ensures Ptrs(c1) == Ptrs(c) && t.e.ptr in Ptrs(c1)
    ensures forall d :: Removed(c1, t.e.ptr, d) ==> Removed(c, t.e.ptr, d)
  {
    var n := t.e.ptr;
    var ea, en := Entry(a, m[a].key), Entry(n, m[n].key);
    RenamedBalanced(w, ea, en, h);
    RenamedInOrder(w, ea, en);
    RepKeys(m, w, NULL);
    PtrsDiffer(w);
    NodesArePtrs(w);
    RenamedPtrs(w, ea, en);
    assert Swap(a, n, a) == n;
    EntryOf(m, c, n);
    EntryOf(m, c, a);
    forall d | Removed(c1, n, d)
      ensures Removed(c, n, d)
    {
      RemovedAfterSwitch(c, c1, n, a, en, ea, d);
    }
  }

  lemma RenamedPtrs(w: Shape, ea: Entry<Item>, en: Entry<Item>)
    requires ea.ptr in Nodes(w) && en.ptr in Nodes(w)
    ensures Ptrs(InOrder(Renamed(w, ea, en))) == Ptrs(InOrder(w))
  {
    var w1 := Renamed(w, ea, en);
    NodesArePtrs(w);
    NodesArePtrs(w1);
    forall n: Ptr
      ensures n in Nodes(w1) <==> n in Nodes(w)
    {
      RenamedNodes(w, ea, en, n);
    }
  }

  lemma WithoutRemoves(p: Place, t: Shape)
    requires t.Node? && (t.left.Leaf? || t.right.Leaf?)
    ensures Removed(InOrder(Plug(p, t)), t.e.ptr, Without(p, t))
  {
    PlugInOrder(p, t);
    var a, b, l, r := Before(p), After(p), InOrder(t.left), InOrder(t.right);
    var c := a + (l + [t.e] + r) + b;
    var k := |a| + |l|;
    SplitAt(a, l, t.e, r, b);
    assert Heir(t) == (if t.left.Leaf? then t.right else t.left) && (t.left.Leaf? ==> l == [])
      && (t.right.Leaf? ==> r == []);
    assert (a + l) + (r + b) == Without(p, t);
  }

  lemma SplitAt<T>(a: seq<T>, l: seq<T>, e: T, r: seq<T>, b: seq<T>)
    ensures var c := a + (l + [e] + r) + b; var k := |a| + |l|;
      c[k] == e && c[..k] == a + l && c[k + 1..] == r + b
  {
  }

  // ----- looking for a key -----

  /** Strictly between. */
  ghost predicate Apart(a: Contents, key: u64, b: Contents) {
    (forall x <- a :: x.key.key < key) && (forall x <- b :: key < x.key.key)
  }

  ghost function Below(p: Place, t: Shape, s: Side): Place
    requires t.Node?
  {
    Down(p, s, t.e, t.aug, t.red, t.Kid(s.Flip()))
  }

  function SideOf(key: u64, node: u64): Side { if key <= node then Left else Right }

  /** The key belongs into an empty place right below t. */
  ghost predicate Vacant(p: Place, t: Shape, key: u64) {
    && t.Node? && t.Kid(SideOf(key, t.e.key.key)).Leaf?
    && var q := Below(p, t, SideOf(key, t.e.key.key)); Between(Before(q), key, After(q))
  }

  lemma StartSearch(m: Arena<Item, ()>, root: Ptr, c: Contents, w: Shape, key: u64)
    requires Live(m, root, c, Top, w)
    ensures Plug(Top, w) == w && (root == NULL <==> w.Leaf?) && (w.Node? ==> root == w.e.ptr)
    ensures root == NULL ==> c == []
    ensures Apart(Before<Item, ()>(Top), key, After<Item, ()>(Top))
    ensures Between(Before<Item, ()>(Top), key, After<Item, ()>(Top))
  {
  }

  lemma Narrow(c: Contents, p: Place, t: Shape, key: u64)
    requires InOrder(Plug(p, t)) == c && Sorted(c) && t.Node? && Between(Before(p), key, After(p))
    ensures var q := Below(p, t, SideOf(key, t.e.key.key)); Between(Before(q), key, After(q))
    ensures Apart(Before(p), key, After(p)) && key != t.e.key.key ==>
      var q := Below(p, t, SideOf(key, t.e.key.key)); Apart(Before(q), key, After(q))
  {
    PlugInOrder(p, t);
    var a, l, r, b := Before(p), InOrder(t.left), InOrder(t.right), After(p);
    Regroup(a, l, [t.e], r, b);
    assert a + (l + [t.e] + r) + b == (a + l) + [t.e] + (r + b);
    SortedAround(a + l, t.e, r + b);
    assert forall x <- l :: x in a + l;
    assert forall x <- r :: x in r + b;
  }

  lemma SortedAround(a: Contents, e: Entry<Item>, b: Contents)
    requires Sorted(a + [e] + b)
    ensures forall x <- a :: x.key.key <= e.key.key
    ensures forall x <- b :: e.key.key <= x.key.key
  {
    var c := a + [e] + b;
    assert c[|a|] == e;
    forall x <- a ensures x.key.key <= e.key.key {
      var i :| 0 <= i < |a| && a[i] == x;
      assert c[i] == x;
    }
    forall x <- b ensures e.key.key <= x.key.key {
      var i :| 0 <= i < |b| && b[i] == x;
      assert c[|a| + 1 + i] == x;
    }
  }

  /** One step of a search down the tree. */
  lemma SearchStep(m: Arena<Item, ()>, root: Ptr, c: Contents, p: Place, t: Shape, key: u64)
    requires Live(m, root, c, p, t) && Sorted(c) && t.Node? && Between(Before(p), key, After(p))
    ensures t.e.ptr in m && m[t.e.ptr].key == t.e.key && (t.e.key.key == key ==> HasKey(c, key))
    ensures var s := SideOf(key, t.e.key.key); var q := Below(p, t, s);
      && s == (if key <= t.e.key.key then Left else Right)
      && q.Down? && q.up == p && Fill(q, t.Kid(s)) == t && Plug(q, t.Kid(s)) == Plug(p, t)
      && Between(Before(q), key, After(q))
      && (m[t.e.ptr].Kid(s) == NULL <==> t.Kid(s).Leaf?)
      && (t.Kid(s).Node? ==> m[t.e.ptr].Kid(s) == t.Kid(s).e.ptr && t.Kid(s) < t)
      && (t.Kid(s).Leaf? ==> Vacant(p, t, key))
      && (Apart(Before(p), key, After(p)) && key != t.e.key.key ==>
            && Apart(Before(q), key, After(q))
            && (t.Kid(s).Leaf? ==> !HasKey(c, key)))
  {
    LookBelow(m, root, c, p, t);
    Narrow(c, p, t, key);
    HoldsKey(c, p, t);
    var s := SideOf(key, t.e.key.key);
    var q := Below(p, t, s);
    if t.Kid(s).Leaf? {
      PlugLeaf(q);
    }
  }

  lemma HoldsKey(c: Contents, p: Place, t: Shape)
    requires InOrder(Plug(p, t)) == c && t.Node?
    ensures HasKey(c, t.e.key.key)
  {
    PlugInOrder(p, t);
    assert c[|Before(p)| + |InOrder(t.left)|] == t.e;
  }

  // ----- putting a node in -----

  /** What an insertion does, by the mode of the tree and whether the key is there. */
  ghost predicate InsertOutcome(mode: Mode, c: Contents, e: Entry<Item>, r: Status, d: Contents) {
    if HasKey(c, e.key.key) && mode.Default? then r.Already? && d == c
    else if HasKey(c, e.key.key) && mode.Update? then r.Ok? && Updated(c, e, d)
    else r.Ok? && Inserted(c, e, d)
  }

  lemma ReplaceReady(m: Arena<Item, ()>, m1: Arena<Item, ()>, root: Ptr, c: Contents, w: Shape, x: Ptr, r: Ptr)
    requires Live(m, root, c, Top, w) && x in Nodes(w) && r in m && r != NULL && r !in Nodes(w) && x in m
    requires m1 == m[r := m[x].(key := m[r].key)]
    ensures Neat(m1, r)
  {
    NoNull(m, w, NULL);
    RepLinks(m, w, NULL, x);
  }

  lemma ReplaceDone(m: Arena<Item, ()>, m1: Arena<Item, ()>, m2: Arena<Item, ()>, root: Ptr, root': Ptr, c: Contents,
                    w: Shape, x: Ptr, r: Ptr, side: Side)
    requires Live(m, root, c, Top, w) && x in Nodes(w) && r in m && r != NULL && r !in Nodes(w) && x in m
    requires OnSide(m, x, side) && m1 == m[r := m[x].(key := m[r].key)] && Adjusted(m1, m2, r, side)
    requires root' == if m1[r].parent == NULL then r else root
    ensures var w' := Renamed(w, Entry(x, m[x].key), Entry(r, m[r].key)); Live(m2, root', InOrder(w'), Top, w')
    ensures Same(m, m2, Ptrs(c) + {r})
  {
    NoNull(m, w, NULL);
    RootOnly(m, w, NULL, x);
    RepLinks(m, w, NULL, x);
    NodesArePtrs(w);
    assert Replaced(m, m1, m2, x, r, side);
    forall n <- m | n != NULL && n != r && n !in Nodes(w)
      ensures n in m2 && m2[n] == m[n]
    {
      assert m1[n] == m[n] && m2[n] == FarCell(m1, r, side, n);
    }
    assert m1.Keys == m.Keys;
    hide Replaced, Adjusted;
    ReplaceExchanges(m, m1, m2, w, x, r, side);
    RenamedAt(m, m2, w, Entry(x, m[x].key), Entry(r, m[r].key));
  }

  /** The node lies in the arena as a new leaf n, outside the tree. */
  ghost predicate Fresh(m: Arena<Item, ()>, c: Contents, node: Ptr, n: Shape) {
    && node in m && node != NULL && node !in Ptrs(c)
    && n.Node? && n.e.ptr == node && n.left.Leaf? && n.right.Leaf? && n.red
    && m[node] == Cell(NULL, NULL, NULL, n.e.key, n.aug, true)
  }

  ghost function Grown(p: Place, t: Shape, n: Shape): Contents
    requires t.Node? && n.Node?
  {
    var q := Below(p, t, SideOf(n.e.key.key, t.e.key.key));
    Before(q) + [n.e] + After(q)
  }

  lemma LinkCells(m: Arena<Item, ()>, root: Ptr, c: Contents, p: Place, t: Shape, node: Ptr, n: Shape)
    requires Live(m, root, c, p, t) && t.Node? && Fresh(m, c, node, n) && Vacant(p, t, n.e.key.key)
    ensures n.Node? && node in m && t.e.ptr in m && t.e.ptr != node
    ensures m[node].key == n.e.key && m[t.e.ptr].key == t.e.key
    ensures SideOf(n.e.key.key, t.e.key.key) == if n.e.key.key <= t.e.key.key then Left else Right
    ensures var s := SideOf(n.e.key.key, t.e.key.key);
      var m1 := m[node := m[node].(parent := t.e.ptr)];
      var m2 := m1[t.e.ptr := m1[t.e.ptr].SetKid(s, node)];
      Live(m2, root, Grown(p, t, n), Below(p, t, s), n) && Same(m, m2, Ptrs(c) + {node})
  {
    var s := SideOf(n.e.key.key, t.e.key.key);
    var q := Below(p, t, s);
    InPlace(m, root, c, p, t);
    GoDown(m, root, c, q, t.Kid(s));
    InPlace(m, root, c, q, t.Kid(s));
    var m1 := m[node := m[node].(parent := t.e.ptr)];
    RepPathFrame(m, m1, q, NULL, NULL);
    Rehole(m1, q, NULL, node, NULL);
    PlugInOrder(q, n);
    var m2 := m1[t.e.ptr := m1[t.e.ptr].SetKid(s, node)];
    LeafRep(m2, n, t.e.ptr);
    assert All(q, t.Kid(s)) == PathNodes(q);
  }

  lemma LeafRep(m: Arena<Item, ()>, n: Shape, parent: Ptr)
    requires n.Node? && n.left.Leaf? && n.right.Leaf? && n.red && n.e.ptr != NULL && n.e.ptr in m
    requires m[n.e.ptr] == Cell(parent, NULL, NULL, n.e.key, n.aug, true)
    ensures Rep(m, n, parent) && Distinct(n) && Nodes(n) == {n.e.ptr} && InOrder(n) == [n.e]
  {
  }

  lemma BlankNode(m: Arena<Item, ()>, m': Arena<Item, ()>, root: Ptr, c: Contents, w: Shape, node: Ptr, n: Shape)
    requires Live(m, root, c, Top, w) && node in m && node != NULL && node !in Ptrs(c)
    requires m' == m[node := m[node].(red := true, left := NULL, right := NULL, parent := NULL)]
    requires n == Node(Leaf, Entry(node, m[node].key), m[node].aug, true, Leaf)
    ensures Live(m', root, c, Top, w) && Fresh(m', c, node, n) && Same(m, m', Ptrs(c) + {node})
  {
    NodesArePtrs(w);
    RepFrame(m, m', w, NULL);
  }

  lemma FirstNode(m: Arena<Item, ()>, mode: Mode, c: Contents, node: Ptr, n: Shape)
    requires Fresh(m, c, node, n) && c == []
    ensures Live(m, node, [n.e], Top, n) && Balanced(n, 0) && Ordered(mode, [n.e])
    ensures InsertOutcome(mode, c, n.e, Ok, [n.e])
  {
    LeafRep(m, n, NULL);
    assert c[..0] + [n.e] + c[0..] == [n.e] && Between(c[..0], n.e.key.key, c[0..]);
  }

  lemma FoundPlace(m: Arena<Item, ()>, root: Ptr, c: Contents, p: Place, t: Shape)
    requires Live(m, root, c, p, t) && t.Node?
    ensures t.e.ptr in m && m[t.e.ptr].key == t.e.key && t.e == Entry(t.e.ptr, m[t.e.ptr].key)
    ensures t.e.ptr in Nodes(Plug(p, t))
  {
    Look(m, root, c, p, t);
    HeldTop(m, p, t, NULL);
  }

  lemma AlreadyThere(mode: Mode, c: Contents, e: Entry<Item>)
    requires HasKey(c, e.key.key) && mode.Default?
    ensures InsertOutcome(mode, c, e, Already, c)
  {
  }

  lemma UpdateDone(m: Arena<Item, ()>, root: Ptr, c: Contents, p: Place, t: Shape, e: Entry<Item>, h: nat, mode: Mode)
    requires Live(m, root, c, p, t) && t.Node? && t.e.key.key == e.key.key && e.ptr !in Ptrs(c)
    requires Balanced(Plug(p, t), h) && Ordered(mode, c) && mode.Update?
    ensures var w := Renamed(Plug(p, t), t.e, e);
      Balanced(w, h) && Ordered(mode, InOrder(w)) && InsertOutcome(mode, c, e, Ok, InOrder(w))
  {
    var w := Plug(p, t);
    var d := InOrder(Renamed(w, t.e, e));
    GoTop(m, root, c, p, t);
    RenamedBalanced(w, t.e, e, h);
    RenamedInOrder(w, t.e, e);
    HoldsKey(c, p, t);
    PtrsDiffer(w);
    var k := IndexOf(c, p, t);
    forall i | 0 <= i < |c|
      ensures d[i] == c[k := e][i]
    {
      assert c[i].ptr in Ptrs(c);
      assert i != k ==> c[i].ptr != t.e.ptr;
    }
    assert d == c[k := e];
    KeysKept(mode, c, k, e);
  }

  lemma IndexOf(c: Contents, p: Place, t: Shape) returns (k: nat)
    requires InOrder(Plug(p, t)) == c && t.Node?
    ensures k < |c| && c[k] == t.e
  {
    PlugInOrder(p, t);
    k := |Before(p)| + |InOrder(t.left)|;
  }

  lemma KeysKept(mode: Mode, c: Contents, k: nat, e: Entry<Item>)
    requires k < |c| && c[k].key.key == e.key.key && Ordered(mode, c)
    ensures Ordered(mode, c[k := e])
  {
    var d := c[k := e];
    assert forall i :: 0 <= i < |c| ==> d[i].key.key == c[i].key.key;
  }

  lemma InsertReady(mode: Mode, c: Contents, p: Place, t: Shape, n: Shape, h: nat)
    requires InOrder(Plug(p, t)) == c && Balanced(Plug(p, t), h) && Ordered(mode, c)
    requires n.Node? && n.left.Leaf? && n.right.Leaf? && n.red && Vacant(p, t, n.e.key.key)
    requires !mode.Duplicate? ==> !HasKey(c, n.e.key.key)
    ensures Trouble(Below(p, t, SideOf(n.e.key.key, t.e.key.key)), n, 0)
    ensures Ordered(mode, Grown(p, t, n)) && InsertOutcome(mode, c, n.e, Ok, Grown(p, t, n))
    ensures Ptrs(Grown(p, t, n)) == Ptrs(c) + {n.e.ptr}
  {
    var q := Below(p, t, SideOf(n.e.key.key, t.e.key.key));
    assert Plug(q, Leaf) == Plug(p, t);
    PlugLeaf(q);
    var k := UnplugBalanced(q, Leaf, h);
    Grows(mode, c, Before(q), n.e, After(q));
  }

  lemma Grows(mode: Mode, c: Contents, a: Contents, e: Entry<Item>, b: Contents)
    requires c == a + b && Ordered(mode, c) && Between(a, e.key.key, b) && (!mode.Duplicate? ==> !HasKey(c, e.key.key))
    ensures Ordered(mode, a + [e] + b) && InsertOutcome(mode, c, e, Ok, a + [e] + b)
    ensures Ptrs(a + [e] + b) == Ptrs(c) + {e.ptr}
  {
    var d := a + [e] + b;
    assert c[..|a|] == a && c[|a|..] == b;
    assert d == c[..|a|] + [e] + c[|a|..];
    assert Inserted(c, e, d);
    PtrsGrow(a, e, b);
    forall i, j | 0 <= i < j < |d|
      ensures d[i].key.key <= d[j].key.key && (!mode.Duplicate? ==> d[i].key.key != d[j].key.key)
    {
      GrowsAt(mode, c, a, e, b, i, j);
    }
  }

  lemma PtrsGrow(a: Contents, e: Entry<Item>, b: Contents)
    ensures Ptrs(a + [e] + b) == Ptrs(a + b) + {e.ptr}
  {
    assert e in a + [e] + b;
    assert forall x <- a + b :: x in a + [e] + b;
  }

  lemma GrowsAt(mode: Mode, c: Contents, a: Contents, e: Entry<Item>, b: Contents, i: nat, j: nat)
    requires c == a + b && Ordered(mode, c) && Between(a, e.key.key, b) && (!mode.Duplicate? ==> !HasKey(c, e.key.key))
    requires i < j < |c| + 1
    ensures var d := a + [e] + b;
      d[i].key.key <= d[j].key.key && (!mode.Duplicate? ==> d[i].key.key != d[j].key.key)
  {
    var d := a + [e] + b;
    var i', j' := if i < |a| then i else i - 1, if j < |a| then j else j - 1;
    assert i != |a| ==> d[i] == c[i'] && (i < |a| ==> c[i'] in a) && (i > |a| ==> c[i'] in b);
    assert j != |a| ==> d[j] == c[j'] && (j < |a| ==> c[j'] in a) && (j > |a| ==> c[j'] in b);
    assert i != |a| ==> c[i'] in c;
    assert j != |a| ==> c[j'] in c;
  }

  ghost predicate HasItem(c: Contents, item: Item) {
    exists x <- c :: x.key == item
  }

  lemma HoldsItem(c: Contents, p: Place, t: Shape)
    requires InOrder(Plug(p, t)) == c && t.Node?
    ensures HasItem(c, t.e.key)
  {
    var k := IndexOf(c, p, t);
    assert c[k] in c;
  }

  lemma Keyless(c: Contents, key: u64)
    ensures c == [] ==> !HasKey(c, key)
  {
  }

  lemma WholeTree(m: Arena<Item, ()>, root: Ptr, c: Contents, w: Shape)
    requires Live(m, root, c, Top, w)
    ensures root == NULL <==> c == []
    ensures root == NULL <==> w.Leaf?
    ensures w.Node? ==> w.e.ptr == root && Rep(m, w, NULL) && InOrder(w) == c
    ensures forall i :: 0 <= i < |c| ==>
      c[i].ptr in m && c[i] == Entry(c[i].ptr, m[c[i].ptr].key) && c[i].ptr in Ptrs(c)
    ensures forall i, j :: 0 <= i < j < |c| ==> c[i].ptr != c[j].ptr
  {
    RepKeys(m, w, NULL);
    PtrsDiffer(w);
    assert forall i :: 0 <= i < |c| ==> c[i] in c;
  }

  lemma FirstRemoved(c: Contents, n: Ptr, d: Contents)
    requires forall i, j :: 0 <= i < j < |c| ==> c[i].ptr != c[j].ptr
    requires c != [] && c[0].ptr == n && Removed(c, n, d)
    ensures d == c[1..]
  {
    var k :| 0 <= k < |c| && c[k].ptr == n && d == c[..k] + c[k + 1..];
    assert k == 0;
  }
}

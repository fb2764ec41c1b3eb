/** Red-black trees threaded through an arena by parent, left and right pointers.

    A tree is described three times over: as memory cells in the arena, as a
    value of type `Tree`, and as the sequence of its entries in order. A place in
    a tree is a `Path` (the way up from a hole) together with the subtree that
    fills the hole, so that a loop walking up the parent pointers has a value to
    talk about. `K` is what a node holds while it is queued; `A` is what the node
    caches about its subtree.
  */
module RedBlack {

  type Ptr = nat
  const NULL: Ptr := 0

  datatype Side = Left | Right
  {
    function Flip(): Side { if Left? then Right else Left }
  }

  /** A node as it lies in the arena. */
  datatype Cell<K, A> = Cell(parent: Ptr, left: Ptr, right: Ptr, key: K, aug: A, red: bool)
  {
    function Kid(s: Side): Ptr { if s.Left? then left else right }

    function SetKid(s: Side, child: Ptr): Cell<K, A> {
      if s.Left? then this.(left := child) else this.(right := child)
    }
  }

  type Arena<K, A> = map<Ptr, Cell<K, A>>

  datatype Entry<K> = Entry(ptr: Ptr, key: K)

  datatype Tree<K, A> =
    | Leaf
    | Node(left: Tree<K, A>, e: Entry<K>, aug: A, red: bool, right: Tree<K, A>)
  {
    ghost function Kid(s: Side): Tree<K, A>
      requires Node?
    {
      if s.Left? then left else right
    }
  }

  /** The way up from a hole: it is the `side` child of `e`, whose other child is `far`. */
  datatype Path<K, A> =
    | Top
    | Down(up: Path<K, A>, side: Side, e: Entry<K>, aug: A, red: bool, far: Tree<K, A>)

  ghost function Mk<K, A>(s: Side, near: Tree<K, A>, e: Entry<K>, aug: A, red: bool, far: Tree<K, A>): Tree<K, A> {
    if s.Left? then Node(near, e, aug, red, far) else Node(far, e, aug, red, near)
  }

  /** The tree one step above the hole. */
  ghost function Fill<K, A>(p: Path<K, A>, t: Tree<K, A>): Tree<K, A>
    requires p.Down?
  {
    Mk(p.side, t, p.e, p.aug, p.red, p.far)
  }

  ghost function Plug<K, A>(p: Path<K, A>, t: Tree<K, A>): Tree<K, A> {
    if p.Top? then t else Plug(p.up, Fill(p, t))
  }

  // ----- order -----

  ghost function InOrder<K, A>(t: Tree<K, A>): seq<Entry<K>> {
    if t.Leaf? then [] else InOrder(t.left) + [t.e] + InOrder(t.right)
  }

  ghost function Before<K, A>(p: Path<K, A>): seq<Entry<K>> {
    if p.Top? then []
    else if p.side.Left? then Before(p.up)
    else Before(p.up) + InOrder(p.far) + [p.e]
  }

  ghost function After<K, A>(p: Path<K, A>): seq<Entry<K>> {
    if p.Top? then []
    else if p.side.Left? then [p.e] + InOrder(p.far) + After(p.up)
    else After(p.up)
  }

  lemma Regroup<T>(a: seq<T>, b: seq<T>, c: seq<T>, d: seq<T>, e: seq<T>)
    ensures a + (b + c + d) + e == a + b + (c + d + e) == (a + b + c) + d + e
  {
  }

  lemma {:induction false} PlugInOrder<K, A>(p: Path<K, A>, t: Tree<K, A>)
    ensures InOrder(Plug(p, t)) == Before(p) + InOrder(t) + After(p)
  {
    if p.Down? {
      PlugInOrder(p.up, Fill(p, t));
      Regroup(Before(p.up), InOrder(t), [p.e], InOrder(p.far), After(p.up));
      Regroup(Before(p.up), InOrder(p.far), [p.e], InOrder(t), After(p.up));
    }
  }

  lemma PlugLeaf<K, A>(p: Path<K, A>)
    ensures InOrder(Plug(p, Leaf)) == Before(p) + After(p)
  {
    PlugInOrder(p, Leaf);
    assert Before(p) + [] + After(p) == Before(p) + After(p);
  }

  // ----- colours -----

  ghost predicate Red<K, A>(t: Tree<K, A>) { t.Node? && t.red }

  ghost predicate RedHook<K, A>(p: Path<K, A>) { p.Down? && p.red }

  /** No red node has a red child and every way down to a leaf passes h black nodes. */
  ghost predicate Balanced<K, A>(t: Tree<K, A>, h: nat) {
    if t.Leaf? then h == 0
    else if t.red then !Red(t.left) && !Red(t.right) && Balanced(t.left, h) && Balanced(t.right, h)
    else h > 0 && Balanced(t.left, h - 1) && Balanced(t.right, h - 1)
  }

  ghost function BlackHeight<K, A>(t: Tree<K, A>): nat {
    if t.Leaf? then 0 else BlackHeight(t.left) + if t.red then 0 else 1
  }

  lemma {:induction false} HeightUnique<K, A>(t: Tree<K, A>, h: nat)
    requires Balanced(t, h)
    ensures h == BlackHeight(t)
  {
    if t.Node? {
      HeightUnique(t.left, if t.red then h else h - 1);
    }
  }

  /** The path is balanced around a hole whose subtree has h black nodes on every way down. */
  ghost predicate Accepts<K, A>(p: Path<K, A>, h: nat) {
    p.Down? ==>
      && Balanced(p.far, h)
      && (p.red ==> !Red(p.far) && !RedHook(p.up))
      && Accepts(p.up, if p.red then h else h + 1)
  }

  ghost function Height<K, A>(p: Path<K, A>, h: nat): nat {
    if p.Top? then h else Height(p.up, if p.red then h else h + 1)
  }

  lemma {:induction false} PlugBalanced<K, A>(p: Path<K, A>, t: Tree<K, A>, h: nat)
    requires Accepts(p, h) && Balanced(t, h) && !(RedHook(p) && Red(t))
    ensures Balanced(Plug(p, t), Height(p, h))
  {
    if p.Down? {
      PlugBalanced(p.up, Fill(p, t), if p.red then h else h + 1);
    }
  }

  lemma {:induction false} UnplugBalanced<K, A>(p: Path<K, A>, t: Tree<K, A>, h: nat) returns (k: nat)
    requires Balanced(Plug(p, t), h)
    ensures Accepts(p, k) && Balanced(t, k) && !(RedHook(p) && Red(t))
  {
    if p.Top? {
      k := h;
    } else {
      var j := UnplugBalanced(p.up, Fill(p, t), h);
      k := if p.red then j else j - 1;
    }
  }

  /** The root of the tree, which the path leads to, is black. */
  ghost predicate BlackTop<K, A>(p: Path<K, A>) {
    p.Down? ==> if p.up.Top? then !p.red else BlackTop(p.up)
  }

  lemma {:induction false} BlackTopPlug<K, A>(p: Path<K, A>, t: Tree<K, A>)
    ensures p.Down? ==> (BlackTop(p) <==> !Red(Plug(p, t)))
  {
    if p.Down? {
      BlackTopPlug(p.up, Fill(p, t));
    }
  }

  // ----- nodes -----

  ghost function Ptrs<K>(c: seq<Entry<K>>): set<Ptr> {
    set x <- c :: x.ptr
  }

  lemma {:induction false} NodesArePtrs<K, A>(t: Tree<K, A>)
    ensures Nodes(t) == Ptrs(InOrder(t))
  {
    if t.Node? {
      NodesArePtrs(t.left);
      NodesArePtrs(t.right);
    }
  }

  ghost function Nodes<K, A>(t: Tree<K, A>): set<Ptr> {
    if t.Leaf? then {} else Nodes(t.left) + {t.e.ptr} + Nodes(t.right)
  }

  ghost function PathNodes<K, A>(p: Path<K, A>): set<Ptr> {
    if p.Top? then {} else PathNodes(p.up) + {p.e.ptr} + Nodes(p.far)
  }

  ghost predicate Distinct<K, A>(t: Tree<K, A>) {
    t.Node? ==>
      && t.e.ptr !in Nodes(t.left) + Nodes(t.right)
      && Nodes(t.left) !! Nodes(t.right)
      && Distinct(t.left) && Distinct(t.right)
  }

  ghost predicate DistinctPath<K, A>(p: Path<K, A>) {
    p.Down? ==>
      && p.e.ptr !in PathNodes(p.up) + Nodes(p.far)
      && PathNodes(p.up) !! Nodes(p.far)
      && DistinctPath(p.up) && Distinct(p.far)
  }

  // ----- memory -----

  ghost function Root<K, A>(t: Tree<K, A>): Ptr { if t.Leaf? then NULL else t.e.ptr }

  /** The node a hole hangs from, `top` when the path is empty. */
  ghost function Hook<K, A>(p: Path<K, A>, top: Ptr): Ptr { if p.Top? then top else p.e.ptr }

  ghost function RootOf<K, A>(p: Path<K, A>, hole: Ptr): Ptr {
    if p.Top? then hole else RootOf(p.up, p.e.ptr)
  }

  ghost function MkCell<K, A>(parent: Ptr, s: Side, near: Ptr, far: Ptr, key: K, aug: A, red: bool): Cell<K, A> {
    if s.Left? then Cell(parent, near, far, key, aug, red) else Cell(parent, far, near, key, aug, red)
  }

  /** The cells of `t` lie in the arena and its root hangs from `parent`. */
  ghost predicate Rep<K, A>(m: Arena<K, A>, t: Tree<K, A>, parent: Ptr) {
    t.Node? ==>
      && t.e.ptr != NULL && t.e.ptr in m
      && m[t.e.ptr] == Cell(parent, Root(t.left), Root(t.right), t.e.key, t.aug, t.red)
      && Rep(m, t.left, t.e.ptr) && Rep(m, t.right, t.e.ptr)
  }

  /** The cells of `p` lie in the arena; `hole` hangs at its end, and the path itself from `top`. */
  ghost predicate RepPath<K, A>(m: Arena<K, A>, p: Path<K, A>, hole: Ptr, top: Ptr) {
    p.Down? ==>
      && p.e.ptr != NULL && p.e.ptr in m
      && m[p.e.ptr] == MkCell(Hook(p.up, top), p.side, hole, Root(p.far), p.e.key, p.aug, p.red)
      && Rep(m, p.far, p.e.ptr) && RepPath(m, p.up, p.e.ptr, top)
  }

  /** `m'` is `m` but for the nodes in `s`. */
  ghost predicate Same<K, A>(m: Arena<K, A>, m': Arena<K, A>, s: set<Ptr>) {
    m.Keys == m'.Keys && forall n <- m :: n != NULL && n !in s ==> m'[n] == m[n]
  }

  lemma SameAt<K, A>(m: Arena<K, A>, m': Arena<K, A>, s: set<Ptr>, n: Ptr)
    requires Same(m, m', s) && n in m && n != NULL && n !in s
    ensures n in m' && m'[n] == m[n]
  {
  }

  lemma SameTrans<K, A>(m0: Arena<K, A>, m1: Arena<K, A>, m2: Arena<K, A>, s: set<Ptr>)
    requires Same(m0, m1, s) && Same(m1, m2, s)
    ensures Same(m0, m2, s) && m2.Keys == m0.Keys
  {
  }

  lemma SameMore<K, A>(m: Arena<K, A>, m': Arena<K, A>, s: set<Ptr>, s': set<Ptr>)
    requires Same(m, m', s) && s <= s'
    ensures Same(m, m', s') && m'.Keys == m.Keys
  {
  }

  lemma SameUpdate<K, A>(m: Arena<K, A>, n: Ptr, c: Cell<K, A>)
    requires n in m
    ensures Same(m, m[n := c], {n})
  {
  }

  lemma {:induction false} RepFrame<K, A>(m: Arena<K, A>, m': Arena<K, A>, t: Tree<K, A>, parent: Ptr)
    requires Rep(m, t, parent)
    requires forall n <- Nodes(t) :: n != NULL && n in m ==> n in m' && m'[n] == m[n]
    ensures Rep(m', t, parent)
  {
    if t.Node? {
      RepFrame(m, m', t.left, t.e.ptr);
      RepFrame(m, m', t.right, t.e.ptr);
    }
  }

  lemma {:induction false} RepPathFrame<K, A>(m: Arena<K, A>, m': Arena<K, A>, p: Path<K, A>, hole: Ptr, top: Ptr)
    requires RepPath(m, p, hole, top)
    requires forall n <- PathNodes(p) :: n != NULL && n in m ==> n in m' && m'[n] == m[n]
    ensures RepPath(m', p, hole, top)
  {
    if p.Down? {
      RepFrame(m, m', p.far, p.e.ptr);
      RepPathFrame(m, m', p.up, p.e.ptr, top);
    }
  }

  /** Hanging something else into the hole of a path. */
  lemma Rehole<K, A>(m: Arena<K, A>, p: Path<K, A>, hole: Ptr, hole': Ptr, top: Ptr)
    requires p.Down? && DistinctPath(p) && RepPath(m, p, hole, top)
    ensures RepPath(m[p.e.ptr := m[p.e.ptr].SetKid(p.side, hole')], p, hole', top)
  {
    var m' := m[p.e.ptr := m[p.e.ptr].SetKid(p.side, hole')];
    RepFrame(m, m', p.far, p.e.ptr);
    RepPathFrame(m, m', p.up, p.e.ptr, top);
  }

  /** Hanging a tree from another node. */
  lemma Reparent<K, A>(m: Arena<K, A>, t: Tree<K, A>, parent: Ptr, parent': Ptr)
    requires t.Node? && Distinct(t) && Rep(m, t, parent)
    ensures Rep(m[t.e.ptr := m[t.e.ptr].(parent := parent')], t, parent')
  {
    var m' := m[t.e.ptr := m[t.e.ptr].(parent := parent')];
    RepFrame(m, m', t.left, t.e.ptr);
    RepFrame(m, m', t.right, t.e.ptr);
  }

  /** Hanging a path from another node. */
  lemma {:induction false} Retop<K, A>(m: Arena<K, A>, p: Path<K, A>, hole: Ptr, top: Ptr, top': Ptr)
    requires p.Down? && DistinctPath(p) && RepPath(m, p, hole, top)
    ensures RootOf(p, hole) in PathNodes(p) && RootOf(p, hole) in m
    ensures RepPath(m[RootOf(p, hole) := m[RootOf(p, hole)].(parent := top')], p, hole, top')
  {
    var r := RootOf(p, hole);
    if p.up.Top? {
      assert r == RootOf(p.up, p.e.ptr) == p.e.ptr;
      RepFrame(m, m[r := m[r].(parent := top')], p.far, r);
    } else {
      Retop(m, p.up, p.e.ptr, top, top');
      RepFrame(m, m[r := m[r].(parent := top')], p.far, p.e.ptr);
    }
  }

  lemma {:induction false} RepKeys<K, A>(m: Arena<K, A>, t: Tree<K, A>, parent: Ptr)
    requires Rep(m, t, parent)
    ensures forall x <- InOrder(t) :: x.ptr != NULL && x.ptr in m && m[x.ptr].key == x.key
  {
    if t.Node? {
      RepKeys(m, t.left, t.e.ptr);
      RepKeys(m, t.right, t.e.ptr);
    }
  }

  ghost function All<K, A>(p: Path<K, A>, t: Tree<K, A>): set<Ptr> { PathNodes(p) + Nodes(t) }

  /** The arena holds the tree `Plug(p, t)`, which hangs from `top`, looked at from the hole of `p`. */
  ghost predicate Held<K, A>(m: Arena<K, A>, p: Path<K, A>, t: Tree<K, A>, top: Ptr) {
    && Rep(m, t, Hook(p, top)) && RepPath(m, p, Root(t), top)
    && Distinct(t) && DistinctPath(p) && PathNodes(p) !! Nodes(t)
  }

  /** The same for the whole tree below `root`. */
  ghost predicate At<K, A>(m: Arena<K, A>, root: Ptr, p: Path<K, A>, t: Tree<K, A>) {
    Held(m, p, t, NULL) && root == RootOf(p, Root(t))
  }

  lemma HeldUp<K, A>(m: Arena<K, A>, p: Path<K, A>, t: Tree<K, A>, top: Ptr)
    requires p.Down?
    ensures Held(m, p, t, top) <==> Held(m, p.up, Fill(p, t), top)
    ensures All(p.up, Fill(p, t)) == All(p, t)
  {
  }

  lemma {:induction false} HeldTop<K, A>(m: Arena<K, A>, p: Path<K, A>, t: Tree<K, A>, top: Ptr)
    ensures Held(m, p, t, top) <==> Held(m, Top, Plug(p, t), top)
    ensures All(p, t) == Nodes(Plug(p, t)) && RootOf(p, Root(t)) == Root(Plug(p, t))
  {
    if p.Down? {
      HeldUp(m, p, t, top);
      HeldTop(m, p.up, Fill(p, t), top);
    }
  }

  lemma MoveUp<K, A>(m: Arena<K, A>, root: Ptr, p: Path<K, A>, t: Tree<K, A>)
    requires p.Down? && At(m, root, p, t)
    ensures At(m, root, p.up, Fill(p, t))
  {
    HeldUp(m, p, t, NULL);
  }

  lemma MoveDown<K, A>(m: Arena<K, A>, root: Ptr, p: Path<K, A>, t: Tree<K, A>)
    requires p.Down? && At(m, root, p.up, Fill(p, t))
    ensures At(m, root, p, t)
  {
    HeldUp(m, p, t, NULL);
  }

  /** The hole of the sibling. */
  ghost function Across<K, A>(p: Path<K, A>, t: Tree<K, A>): Path<K, A>
    requires p.Down?
  {
    Down(p.up, p.side.Flip(), p.e, p.aug, p.red, t)
  }

  lemma MoveAcross<K, A>(m: Arena<K, A>, root: Ptr, p: Path<K, A>, t: Tree<K, A>)
    requires p.Down? && At(m, root, p, t)
    ensures At(m, root, Across(p, t), p.far) && Plug(Across(p, t), p.far) == Plug(p, t)
  {
    MoveUp(m, root, p, t);
    MoveDown(m, root, Across(p, t), p.far);
  }

  /** Looking at a tree from one of its places or from its root is the same. */
  lemma Zoom<K, A>(m: Arena<K, A>, root: Ptr, p: Path<K, A>, t: Tree<K, A>)
    ensures At(m, root, p, t) <==> At(m, root, Top, Plug(p, t))
    ensures All(p, t) == Nodes(Plug(p, t))
  {
    HeldTop(m, p, t, NULL);
  }

  /** Changing what the node above the hole caches. */
  lemma CacheHeld<K, A>(m: Arena<K, A>, p: Path<K, A>, t: Tree<K, A>, top: Ptr, aug: A)
    requires p.Down? && Held(m, p, t, top)
    ensures p.e.ptr in m && Held(m[p.e.ptr := m[p.e.ptr].(aug := aug)], p.(aug := aug), t, top)
  {
    var m' := m[p.e.ptr := m[p.e.ptr].(aug := aug)];
    RepFrame(m, m', t, p.e.ptr);
    RepFrame(m, m', p.far, p.e.ptr);
    RepPathFrame(m, m', p.up, p.e.ptr, top);
  }

  // ----- rotation -----

  /** The rotation towards `s`: the child on the other side takes the place of the root. */
  ghost function Turn<K, A>(s: Side, t: Tree<K, A>, low: A, high: A): Tree<K, A>
    requires t.Node? && t.Kid(s.Flip()).Node?
  {
    var v := t.Kid(s.Flip());
    Mk(s, Mk(s, t.Kid(s), t.e, low, t.red, v.Kid(s)), v.e, high, v.red, v.Kid(s.Flip()))
  }

  lemma TurnInOrder<K, A>(s: Side, t: Tree<K, A>, low: A, high: A)
    requires t.Node? && t.Kid(s.Flip()).Node?
    ensures InOrder(Turn(s, t, low, high)) == InOrder(t)
  {
    var v := t.Kid(s.Flip());
    var a, b, c := InOrder(t.Kid(s)), InOrder(v.Kid(s)), InOrder(v.Kid(s.Flip()));
    if s.Left? {
      assert a + [t.e] + (b + [v.e] + c) == (a + [t.e] + b) + [v.e] + c;
    } else {
      assert (c + [v.e] + b) + [t.e] + a == c + [v.e] + (b + [t.e] + a);
    }
  }

  lemma TurnNodes<K, A>(s: Side, t: Tree<K, A>, low: A, high: A)
    requires t.Node? && t.Kid(s.Flip()).Node?
    ensures Nodes(Turn(s, t, low, high)) == Nodes(t)
    ensures Distinct(t) ==> Distinct(Turn(s, t, low, high))
  {
    var v := t.Kid(s.Flip());
    assert Nodes(v) == Nodes(v.left) + {v.e.ptr} + Nodes(v.right);
    if Distinct(t) {
      assert Distinct(v);
    }
  }

  lemma TurnRep<K, A>(m: Arena<K, A>, m': Arena<K, A>, t: Tree<K, A>, s: Side, parent: Ptr, parent': Ptr, low: A,
                      high: A)
    requires t.Node? && t.Kid(s.Flip()).Node? && Distinct(t)
    requires Rep(m, t, parent)
    requires var v := t.Kid(s.Flip()); var b := v.Kid(s);
      && (forall n <- Nodes(t) :: n != NULL && n in m && n !in {t.e.ptr, v.e.ptr, Root(b)} ==> n in m' && m'[n] == m[n])
      && v.e.ptr in m' && t.e.ptr in m'
      && m'[t.e.ptr] == MkCell(v.e.ptr, s, Root(t.Kid(s)), Root(b), t.e.key, low, t.red)
      && m'[v.e.ptr] == MkCell(parent', s, t.e.ptr, Root(v.Kid(s.Flip())), v.e.key, high, v.red)
      && (b.Node? ==> b.e.ptr in m && b.e.ptr in m' && m'[b.e.ptr] == m[b.e.ptr].(parent := t.e.ptr))
    ensures Rep(m', Turn(s, t, low, high), parent')
  {
    var n := t.e.ptr;
    var a, v := t.Kid(s), t.Kid(s.Flip());
    var b, c := v.Kid(s), v.Kid(s.Flip());
    assert Distinct(v) && Rep(m, v, n);
    RepFrame(m, m', a, n);
    RepFrame(m, m', c, v.e.ptr);
    if b.Node? {
      assert Distinct(b) && Rep(m, b, v.e.ptr) && Nodes(b) == Nodes(b.left) + {b.e.ptr} + Nodes(b.right);
      RepFrame(m, m', b.left, b.e.ptr);
      RepFrame(m, m', b.right, b.e.ptr);
    }
  }

  /** The cells of a rotation in place: first the pivot replaces the root of t in the path (m to m1),
      then the cells of the root, the pivot and the subtree between them change (m1 to m'). */
  ghost predicate Swung<K, A>(m: Arena<K, A>, m1: Arena<K, A>, m': Arena<K, A>,
                              p: Path<K, A>, t: Tree<K, A>, s: Side, low: A, high: A)
    requires t.Node? && t.Kid(s.Flip()).Node?
  {
    var n, v, inner := t.e.ptr, t.Kid(s.Flip()).e.ptr, Root(t.Kid(s.Flip()).Kid(s));
    && Same(m, m1, PathNodes(p) + {v}) && n in m1 && v in m && m1[v] == m[v].(parent := Hook(p, NULL))
    && Same(m1, m', {n, v, inner})
    && m'[n] == m1[n].SetKid(s.Flip(), inner).(parent := v, aug := low)
    && m'[v] == m1[v].SetKid(s, n).(aug := high)
    && (inner != NULL ==> inner in m1 && m'[inner] == m1[inner].(parent := n))
  }

  lemma SwungRep<K, A>(m: Arena<K, A>, m1: Arena<K, A>, m': Arena<K, A>,
                       p: Path<K, A>, t: Tree<K, A>, s: Side, low: A, high: A)
    requires t.Node? && t.Kid(s.Flip()).Node? && Swung(m, m1, m', p, t, s, low, high)
    requires Rep(m, t, Hook(p, NULL)) && Distinct(t) && PathNodes(p) !! Nodes(t)
    ensures Rep(m', Turn(s, t, low, high), Hook(p, NULL))
  {
    var v := t.Kid(s.Flip());
    var b := v.Kid(s);
    assert Rep(m, v, t.e.ptr) && Distinct(v) && Nodes(v) == Nodes(v.left) + {v.e.ptr} + Nodes(v.right);
    assert b.Node? ==> Rep(m, b, v.e.ptr) && b.e.ptr in Nodes(v);
    TurnRep(m, m', t, s, Hook(p, NULL), Hook(p, NULL), low, high);
  }

  lemma TurnAt<K, A>(m: Arena<K, A>, m1: Arena<K, A>, m': Arena<K, A>, root: Ptr, root': Ptr,
                     p: Path<K, A>, t: Tree<K, A>, s: Side, low: A, high: A)
    requires t.Node? && t.Kid(s.Flip()).Node? && Swung(m, m1, m', p, t, s, low, high)
    requires At(m, root, p, t)
    requires RepPath(m1, p, t.Kid(s.Flip()).e.ptr, NULL) && root' == RootOf(p, t.Kid(s.Flip()).e.ptr)
    ensures At(m', root', p, Turn(s, t, low, high)) && Same(m, m', All(p, t))
  {
    SwungRep(m, m1, m', p, t, s, low, high);
    TurnNodes(s, t, low, high);
    var v := t.Kid(s.Flip());
    var b := v.Kid(s);
    assert Nodes(v) == Nodes(v.left) + {v.e.ptr} + Nodes(v.right) && (b.Node? ==> b.e.ptr in Nodes(v));
    RepPathFrame(m1, m', p, v.e.ptr, NULL);
  }

  // ----- the shape of a tree, whatever its nodes cache -----

  ghost function Bare<K, A>(t: Tree<K, A>): Tree<K, ()> {
    if t.Leaf? then Leaf else Node(Bare(t.left), t.e, (), t.red, Bare(t.right))
  }

  ghost function BarePath<K, A>(p: Path<K, A>): Path<K, ()> {
    if p.Top? then Top else Down(BarePath(p.up), p.side, p.e, (), p.red, Bare(p.far))
  }

  lemma {:induction false} BareSame<K, A>(t: Tree<K, A>)
    ensures InOrder(Bare(t)) == InOrder(t) && Nodes(Bare(t)) == Nodes(t) && Root(Bare(t)) == Root(t)
    ensures Distinct(Bare(t)) == Distinct(t) && Red(Bare(t)) == Red(t)
  {
    if t.Node? {
      BareSame(t.left);
      BareSame(t.right);
    }
  }

  lemma {:induction false} BareBalanced<K, A>(t: Tree<K, A>, h: nat)
    ensures Balanced(Bare(t), h) == Balanced(t, h) && Red(Bare(t)) == Red(t)
  {
    if t.Node? && (t.red || h > 0) {
      BareBalanced(t.left, if t.red then h else h - 1);
      BareBalanced(t.right, if t.red then h else h - 1);
    }
  }

  lemma {:induction false} BareAccepts<K, A>(p: Path<K, A>, h: nat)
    ensures Accepts(BarePath(p), h) == Accepts(p, h) && RedHook(BarePath(p)) == RedHook(p)
  {
    if p.Down? {
      BareBalanced(p.far, h);
      BareAccepts(p.up, if p.red then h else h + 1);
    }
  }

  lemma {:induction false} BareBlackTop<K, A>(p: Path<K, A>)
    ensures BlackTop(BarePath(p)) == BlackTop(p)
  {
    if p.Down? {
      BareBlackTop(p.up);
    }
  }

  lemma {:induction false} BarePlug<K, A>(p: Path<K, A>, t: Tree<K, A>)
    ensures Bare(Plug(p, t)) == Plug(BarePath(p), Bare(t))
  {
    if p.Down? {
      BarePlug(p.up, Fill(p, t));
    }
  }

  /** A place in the shape of a tree is a place in the tree. */
  lemma {:induction false} Reopen<K, A>(p: Path<K, ()>, t: Tree<K, ()>, w: Tree<K, A>)
    returns (p': Path<K, A>, t': Tree<K, A>)
    requires Bare(w) == Plug(p, t)
    ensures Plug(p', t') == w && BarePath(p') == p && Bare(t') == t
  {
    if p.Top? {
      p', t' := Top, w;
    } else {
      var q, u := Reopen(p.up, Fill(p, t), w);
      p' := Down(q, p.side, u.e, u.aug, u.red, u.Kid(p.side.Flip()));
      t' := u.Kid(p.side);
    }
  }

  // ----- one path inside another -----

  ghost function Compose<K, A>(inner: Path<K, A>, outer: Path<K, A>): Path<K, A> {
    if inner.Top? then outer
    else Down(Compose(inner.up, outer), inner.side, inner.e, inner.aug, inner.red, inner.far)
  }

  lemma {:induction false} ComposePlug<K, A>(inner: Path<K, A>, outer: Path<K, A>, t: Tree<K, A>)
    ensures Plug(Compose(inner, outer), t) == Plug(outer, Plug(inner, t))
  {
    if inner.Down? {
      ComposePlug(inner.up, outer, Fill(inner, t));
    }
  }

  /** Which node stands above an inner path makes no difference to its colours. */
  lemma {:induction false} ComposeSwap<K, A>(inner: Path<K, A>, outer: Path<K, A>, outer': Path<K, A>, h: nat)
    requires outer.Down? && outer'.Down? && outer.up == outer'.up && outer.red == outer'.red && outer.far == outer'.far
    ensures Accepts(Compose(inner, outer), h) == Accepts(Compose(inner, outer'), h)
    ensures RedHook(Compose(inner, outer)) == RedHook(Compose(inner, outer'))
    ensures BlackTop(Compose(inner, outer)) == BlackTop(Compose(inner, outer'))
  {
    if inner.Down? {
      ComposeSwap(inner.up, outer, outer', if inner.red then h else h + 1);
    }
  }

  // ----- finding a node -----

  lemma {:induction false} Find<K, A>(t: Tree<K, A>, n: Ptr) returns (p: Path<K, A>, u: Tree<K, A>)
    requires n in Nodes(t)
    ensures Plug(p, u) == t && u.Node? && u.e.ptr == n
  {
    p, u := FindFrom(Top, t, n);
  }

  lemma {:induction false} FindFrom<K, A>(q: Path<K, A>, t: Tree<K, A>, n: Ptr) returns (p: Path<K, A>, u: Tree<K, A>)
    requires n in Nodes(t)
    ensures Plug(p, u) == Plug(q, t) && u.Node? && u.e.ptr == n
    decreases t
  {
    if t.e.ptr == n {
      p, u := q, t;
    } else if n in Nodes(t.left) {
      p, u := FindFrom(Down(q, Left, t.e, t.aug, t.red, t.right), t.left, n);
    } else {
      p, u := FindFrom(Down(q, Right, t.e, t.aug, t.red, t.left), t.right, n);
    }
  }

  // ----- rebalancing after an insertion -----

  /** A red uncle: the grandparent turns red and the trouble, if any, moves up two levels. */
  lemma InsertRecolour<K, A>(p: Path<K, A>, t: Tree<K, A>, h: nat)
    requires p.Down? && p.red && p.up.Down? && Accepts(p, h) && Balanced(t, h) && Red(t) && Red(p.up.far)
    ensures !p.up.red
    ensures var g := p.up;
      Balanced(Mk(g.side, Mk(p.side, t, p.e, p.aug, false, p.far), g.e, g.aug, true, g.far.(red := false)), h + 1)
    ensures Accepts(p.up.up, h + 1)
  {
  }

  /** A black uncle and a red child on the outside: one rotation ends the repair. */
  lemma InsertOuter<K, A>(p: Path<K, A>, t: Tree<K, A>, h: nat, low: A, high: A)
    requires p.Down? && p.red && p.up.Down? && Accepts(p, h) && Balanced(t, h) && Red(t) && !Red(p.up.far)
    requires p.side == p.up.side
    ensures !p.up.red
    ensures var g := p.up;
      var u := Turn(g.side.Flip(), Mk(g.side, Mk(p.side, t, p.e, p.aug, false, p.far), g.e, g.aug, true, g.far),
        low, high);
      Balanced(u, h + 1) && !Red(u)
    ensures Accepts(p.up.up, h + 1)
  {
  }

  /** A red child on the inside of a red parent: turning the parent puts it on the outside. */
  lemma InsertInner<K, A>(p: Path<K, A>, t: Tree<K, A>, h: nat, low: A, high: A)
    requires p.Down? && p.red && p.up.Down? && Accepts(p, h) && Balanced(t, h) && Red(t)
    requires p.side != p.up.side
    ensures var u := Turn(p.up.side, Fill(p, t), low, high);
      && u.Node? && u.red && u.Kid(p.up.side).Node?
      && var c := u.Kid(p.up.side); var q := Down(p.up, p.up.side, u.e, u.aug, true, u.Kid(p.side));
      && u == Fill(q, c) && Red(c) && Balanced(c, h) && Accepts(q, h)
  {
  }

  // ----- rebalancing after a removal: the hole is one black node short -----

  lemma EraseRedSibling<K, A>(p: Path<K, A>, t: Tree<K, A>, h: nat, low: A, high: A)
    requires p.Down? && Accepts(p, h + 1) && Balanced(t, h) && !Red(t) && Red(p.far)
    ensures !p.red && !Red(p.far.left) && !Red(p.far.right) && p.far.left.Node? && p.far.right.Node?
    ensures var s := p.side;
      var q := Down(Down(p.up, s, p.far.e, high, false, p.far.Kid(s.Flip())), s, p.e, low, true, p.far.Kid(s));
      && Accepts(q, h + 1)
      && Turn(s, Mk(s, t, p.e, p.aug, true, p.far.(red := false)), low, high) == Fill(q.up, Fill(q, t))
  {
    assert Balanced(p.far.left, h + 1) && Balanced(p.far.right, h + 1);
  }

  lemma EraseRecolour<K, A>(p: Path<K, A>, t: Tree<K, A>, h: nat)
    requires p.Down? && Accepts(p, h + 1) && Balanced(t, h) && !Red(t)
    requires !Red(p.far) && !Red(p.far.left) && !Red(p.far.right)
    ensures Balanced(Mk(p.side, t, p.e, p.aug, false, p.far.(red := true)), h + 1)
    ensures Accepts(p.up, if p.red then h + 1 else h + 2)
  {
  }

  lemma EraseInner<K, A>(t: Tree<K, A>, s: Side, h: nat, low: A, high: A)
    requires Balanced(t, h + 1) && !Red(t) && Red(t.Kid(s)) && !Red(t.Kid(s.Flip()))
    ensures var n := t.Kid(s);
      var u := Turn(s.Flip(), Mk(s, n.(red := false), t.e, t.aug, true, t.Kid(s.Flip())), low, high);
      Balanced(u, h + 1) && !Red(u) && Red(u.Kid(s.Flip()))
  {
    var n := t.Kid(s);
    assert Balanced(n, h) && Balanced(t.Kid(s.Flip()), h);
    assert Balanced(n.left, h) && Balanced(n.right, h) && !Red(n.left) && !Red(n.right);
  }

  lemma EraseOuter<K, A>(p: Path<K, A>, t: Tree<K, A>, h: nat, low: A, high: A)
    requires p.Down? && Accepts(p, h + 1) && Balanced(t, h) && !Red(t)
    requires !Red(p.far) && Red(p.far.Kid(p.side.Flip()))
    ensures var s := p.side; var f := p.far;
      var g := Mk(s, f.Kid(s), f.e, f.aug, p.red, f.Kid(s.Flip()).(red := false));
      var u := Turn(s, Mk(s, t, p.e, p.aug, false, g), low, high);
      var k := if p.red then h + 1 else h + 2;
      Balanced(u, k) && Accepts(p.up, k) && u.red == p.red && !(RedHook(p.up) && Red(u))
  {
    var n := p.far.Kid(p.side.Flip());
    assert Balanced(p.far, h + 1) && Balanced(n, h) && Balanced(p.far.Kid(p.side), h);
    assert Balanced(n.(red := false), h + 1);
  }
}

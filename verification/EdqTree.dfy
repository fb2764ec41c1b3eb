/** What an eligible deadline queue keeps in its nodes: the key of a queued task, and the
    earliest eligibility and the shortest slice of the subtree below it. */
module EdqTree {
  import opened RedBlack
  import opened Time

  datatype Key = Key(deadline: u64, eligibility: u64, slice: u64, seqno: u64)
  datatype Mins = Mins(eligibility: u64, slice: u64)

  type EdqTree = Tree<Key, Mins>
  type EdqPath = Path<Key, Mins>
  type Contents = seq<Entry<Key>>

  // ----- the order of the queue -----

  predicate NodeLess(a: Key, b: Key) {
    if a.deadline != b.deadline then TimeBefore(a.deadline, b.deadline) else a.seqno < b.seqno
  }

  /** The order NodeLess means for deadlines within one half range. */
  ghost predicate Less(base: u64, a: Key, b: Key) {
    Sub(a.deadline, base) < Sub(b.deadline, base) || (a.deadline == b.deadline && a.seqno < b.seqno)
  }

  ghost predicate Sorted(base: u64, s: Contents) {
    forall i, j :: 0 <= i < j < |s| ==> Less(base, s[i].key, s[j].key)
  }

  /** Every queued deadline is in the half range from db, every eligibility in the one from eb. */
  ghost predicate Windowed(db: u64, eb: u64, s: Contents) {
    forall i :: 0 <= i < |s| ==> InWindow(db, s[i].key.deadline) && InWindow(eb, s[i].key.eligibility)
  }

  lemma LessIsNodeLess(base: u64, a: Key, b: Key)
    requires InWindow(base, a.deadline) && InWindow(base, b.deadline)
    ensures NodeLess(a, b) <==> Less(base, a, b)
  {
    WindowOrder(base, a.deadline, b.deadline);
  }

  // ----- the cached minimums -----

  ghost function Min(a: int, b: int): int { if a < b then a else b }

  /** The least distance from base of an eligibility in t, 2^64 for no node. */
  ghost function MinElig(base: u64, t: EdqTree): nat {
    if t.Leaf? then TWO64
    else Min(Sub(t.e.key.eligibility, base), Min(MinElig(base, t.left), MinElig(base, t.right)))
  }

  ghost function MinSlice(t: EdqTree): nat {
    if t.Leaf? then TWO64
    else Min(t.e.key.slice, Min(MinSlice(t.left), MinSlice(t.right)))
  }

  ghost predicate InRange(base: u64, t: EdqTree) {
    t.Node? ==> InWindow(base, t.e.key.eligibility) && InRange(base, t.left) && InRange(base, t.right)
  }

  /** Every node caches exactly the minimums of its subtree. */
  ghost predicate Exact(base: u64, t: EdqTree) {
    t.Node? ==>
      && Sub(t.aug.eligibility, base) == MinElig(base, t) && t.aug.slice == MinSlice(t)
      && Exact(base, t.left) && Exact(base, t.right)
  }

  /** The nodes of a path cache what they should when the minimums of its hole are e and s. */
  ghost predicate ExactPath(base: u64, p: EdqPath, e: int, s: int) {
    p.Down? ==>
      && Exact(base, p.far)
      && Sub(p.aug.eligibility, base) == Min(Sub(p.e.key.eligibility, base), Min(e, MinElig(base, p.far)))
      && p.aug.slice == Min(p.e.key.slice, Min(s, MinSlice(p.far)))
      && ExactPath(base, p.up, Sub(p.aug.eligibility, base), p.aug.slice)
  }

  /** The first node of a path may cache anything; the nodes above it agree with what it does cache. */
  ghost predicate Stale(base: u64, p: EdqPath) {
    p.Down? ==> Exact(base, p.far) && ExactPath(base, p.up, Sub(p.aug.eligibility, base), p.aug.slice)
  }

  ghost predicate PathInRange(base: u64, p: EdqPath) {
    p.Down? ==> InWindow(base, p.e.key.eligibility) && InRange(base, p.far) && PathInRange(base, p.up)
  }

  lemma {:induction false} PlugInRange(base: u64, p: EdqPath, t: EdqTree)
    ensures InRange(base, Plug(p, t)) <==> PathInRange(base, p) && InRange(base, t)
  {
    if p.Down? {
      PlugInRange(base, p.up, Fill(p, t));
    }
  }

  lemma {:induction false} PlugExact(base: u64, p: EdqPath, t: EdqTree)
    ensures Exact(base, Plug(p, t)) <==> ExactPath(base, p, MinElig(base, t), MinSlice(t)) && Exact(base, t)
  {
    if p.Down? {
      var u := Fill(p, t);
      PlugExact(base, p.up, u);
    }
  }

  /** The minimums a node takes over from a child. */
  ghost function Join(x: Mins, t: EdqTree): Mins {
    if t.Leaf? then x
    else Mins(if TimeBefore(t.aug.eligibility, x.eligibility) then t.aug.eligibility else x.eligibility,
              if t.aug.slice < x.slice then t.aug.slice else x.slice)
  }

  /** What node_update stores in a node with these children. */
  ghost function Fresh(l: EdqTree, k: Key, r: EdqTree): Mins {
    Join(Join(Mins(k.eligibility, k.slice), l), r)
  }

  /** The arena shows what the root of t caches. */
  ghost predicate Shows(m: Arena<Key, Mins>, t: EdqTree) {
    t.Node? ==> t.e.ptr != NULL && t.e.ptr in m && m[t.e.ptr].aug == t.aug
  }

  lemma JoinExact(base: u64, x: Mins, t: EdqTree)
    requires InWindow(base, x.eligibility) && InRange(base, t) && Exact(base, t)
    ensures InWindow(base, Join(x, t).eligibility)
    ensures Sub(Join(x, t).eligibility, base) == Min(Sub(x.eligibility, base), MinElig(base, t))
    ensures Join(x, t).slice == Min(x.slice, MinSlice(t))
  {
    if t.Node? {
      WindowOrder(base, t.aug.eligibility, x.eligibility);
    }
  }

  lemma FreshExact(base: u64, l: EdqTree, e: Entry<Key>, red: bool, r: EdqTree)
    requires InWindow(base, e.key.eligibility) && InRange(base, l) && InRange(base, r)
    requires Exact(base, l) && Exact(base, r)
    ensures Exact(base, Node(l, e, Fresh(l, e.key, r), red, r))
  {
    var own := Mins(e.key.eligibility, e.key.slice);
    JoinExact(base, own, l);
    JoinExact(base, Join(own, l), r);
    NodeExact(base, l, e, Fresh(l, e.key, r), red, r);
  }

  lemma NodeExact(base: u64, l: EdqTree, e: Entry<Key>, aug: Mins, red: bool, r: EdqTree)
    requires Exact(base, l) && Exact(base, r)
    requires Sub(aug.eligibility, base) == Min(Min(Sub(e.key.eligibility, base), MinElig(base, l)), MinElig(base, r))
    requires aug.slice == Min(Min(e.key.slice, MinSlice(l)), MinSlice(r))
    ensures Exact(base, Node(l, e, aug, red, r))
  {
  }

  /** A rotation that gives the pivot the minimums of the node it replaces leaves every cache exact. */
  lemma TurnExact(base: u64, s: Side, t: EdqTree)
    requires t.Node? && t.Kid(s.Flip()).Node?
    requires InRange(base, t) && Exact(base, t)
    ensures var u := TurnFresh(s, t); Exact(base, u) && InRange(base, u)
    ensures MinElig(base, TurnFresh(s, t)) == MinElig(base, t) && MinSlice(TurnFresh(s, t)) == MinSlice(t)
  {
    var v := t.Kid(s.Flip());
    assert Exact(base, v) && InRange(base, v);
    if s.Left? {
      FreshExact(base, t.left, t.e, t.red, v.left);
    } else {
      FreshExact(base, v.right, t.e, t.red, t.right);
    }
  }

  ghost function FreshOf(s: Side, near: EdqTree, k: Key, far: EdqTree): Mins {
    if s.Left? then Fresh(near, k, far) else Fresh(far, k, near)
  }

  /** The rotation with its new minimums. */
  ghost function TurnFresh(s: Side, t: EdqTree): EdqTree
    requires t.Node? && t.Kid(s.Flip()).Node?
  {
    Turn(s, t, FreshOf(s, t.Kid(s), t.e.key, t.Kid(s.Flip()).Kid(s)), t.aug)
  }

  /** Refreshing the node above the hole: its subtree becomes exact, and when its cache did not change so
      does the whole tree. */
  lemma StepExact(base: u64, p: EdqPath, t: EdqTree)
    requires p.Down? && PathInRange(base, p) && InRange(base, t) && Exact(base, t) && Stale(base, p)
    ensures var aug := FreshOf(p.side, t, p.e.key, p.far); var u := Fill(p.(aug := aug), t);
      && InRange(base, u) && Exact(base, u) && Stale(base, p.up) && PathInRange(base, p.up)
      && (aug == p.aug ==> Exact(base, Plug(p.up, u)))
  {
    var aug := FreshOf(p.side, t, p.e.key, p.far);
    if p.side.Left? {
      FreshExact(base, t, p.e, p.red, p.far);
    } else {
      FreshExact(base, p.far, p.e, p.red, t);
    }
    PlugExact(base, p.up, Fill(p.(aug := aug), t));
  }

  lemma {:induction false} BareMins(base: u64, t: EdqTree, u: EdqTree)
    requires Bare(t) == Bare(u)
    ensures MinElig(base, t) == MinElig(base, u) && MinSlice(t) == MinSlice(u) && InRange(base, t) == InRange(base, u)
  {
    if t.Node? {
      BareMins(base, t.left, u.left);
      BareMins(base, t.right, u.right);
    }
  }

  /** What a queue operation knows of the tree while it works on it: its entries, and the half range of
      their eligibilities. */
  datatype View = View(base: u64, contents: Contents)

  ghost predicate Sane(v: View, w: EdqTree) {
    InOrder(w) == v.contents && Nodes(w) == Ptrs(v.contents) && InRange(v.base, w) && Exact(v.base, w)
  }

  /** The tree in the arena, seen from p and t, has the entries of the view and caches exact minimums. */
  ghost predicate Live(m: Arena<Key, Mins>, root: Ptr, v: View, p: EdqPath, t: EdqTree) {
    At(m, root, p, t) && Sane(v, Plug(p, t))
  }

  lemma GoUp(m: Arena<Key, Mins>, root: Ptr, v: View, p: EdqPath, t: EdqTree)
    requires p.Down? && Live(m, root, v, p, t)
    ensures Live(m, root, v, p.up, Fill(p, t))
  {
    MoveUp(m, root, p, t);
  }

  lemma GoDown(m: Arena<Key, Mins>, root: Ptr, v: View, p: EdqPath, t: EdqTree)
    requires p.Down? && Live(m, root, v, p.up, Fill(p, t))
    ensures Live(m, root, v, p, t)
  {
    MoveDown(m, root, p, t);
  }

  lemma GoAcross(m: Arena<Key, Mins>, root: Ptr, v: View, p: EdqPath, t: EdqTree)
    requires p.Down? && Live(m, root, v, p, t)
    ensures Live(m, root, v, Across(p, t), p.far)
  {
    MoveAcross(m, root, p, t);
  }

  lemma GoTop(m: Arena<Key, Mins>, root: Ptr, v: View, p: EdqPath, t: EdqTree)
    requires Live(m, root, v, p, t)
    ensures Live(m, root, v, Top, Plug(p, t))
  {
    Zoom(m, root, p, t);
  }

  /** A balanced subtree in a path that accepts it makes a balanced tree. */
  lemma Close(m: Arena<Key, Mins>, root: Ptr, v: View, p: EdqPath, t: EdqTree, h: nat)
    requires Live(m, root, v, p, t)
    requires Balanced(t, h) && Accepts(p, h) && !(RedHook(p) && Red(t)) && BlackTop(p) && (p.Top? ==> !Red(t))
    ensures Live(m, root, v, Top, Plug(p, t)) && Balanced(Plug(p, t), Height(p, h)) && !Red(Plug(p, t))
  {
    GoTop(m, root, v, p, t);
    PlugBalanced(p, t, h);
    BlackTopPlug(p, t);
  }

  lemma GoTo(m: Arena<Key, Mins>, root: Ptr, v: View, p: EdqPath, t: EdqTree)
    requires Live(m, root, v, Top, Plug(p, t))
    ensures Live(m, root, v, p, t)
  {
    Zoom(m, root, p, t);
  }

  /** What the cells at a place of the tree hold. */
  lemma Look(m: Arena<Key, Mins>, root: Ptr, v: View, p: EdqPath, t: EdqTree)
    requires Live(m, root, v, p, t)
    ensures t.Node? ==>
      && t.e.ptr != NULL && t.e.ptr in m
      && m[t.e.ptr] == Cell(Hook(p, NULL), Root(t.left), Root(t.right), t.e.key, t.aug, t.red)
    ensures p.Down? ==>
      && p.e.ptr != NULL && p.e.ptr in m
      && m[p.e.ptr] == MkCell(Hook(p.up, NULL), p.side, Root(t), Root(p.far), p.e.key, p.aug, p.red)
      && (Root(t) == Root(p.far) ==> t.Leaf? && p.far.Leaf?)
    ensures p.Down? && p.far.Node? ==>
      && p.far.e.ptr != NULL && p.far.e.ptr in m
      && m[p.far.e.ptr] == Cell(p.e.ptr, Root(p.far.left), Root(p.far.right), p.far.e.key, p.far.aug, p.far.red)
  {
  }

  lemma LookBelow(m: Arena<Key, Mins>, root: Ptr, v: View, p: EdqPath, t: EdqTree)
    requires t.Node? && Live(m, root, v, p, t)
    ensures t.e.ptr in m && m[t.e.ptr].left == Root(t.left) && m[t.e.ptr].right == Root(t.right)
    ensures t.left.Node? ==> t.left.e.ptr != NULL && t.left.e.ptr in m && m[t.left.e.ptr].red == t.left.red
    ensures t.right.Node? ==> t.right.e.ptr != NULL && t.right.e.ptr in m && m[t.right.e.ptr].red == t.right.red
  {
    assert Rep(m, t.left, t.e.ptr) && Rep(m, t.right, t.e.ptr);
  }

  lemma PaintSane(v: View, p: EdqPath, t: EdqTree, red: bool)
    requires t.Node? && Sane(v, Plug(p, t))
    ensures Sane(v, Plug(p, t.(red := red)))
  {
    var u := t.(red := red);
    PlugInOrder(p, t);
    PlugInOrder(p, u);
    NodesArePtrs(Plug(p, u));
    PlugInRange(v.base, p, t);
    PlugInRange(v.base, p, u);
    PlugExact(v.base, p, t);
    PlugExact(v.base, p, u);
  }

  lemma TurnSane(v: View, p: EdqPath, t: EdqTree, s: Side)
    requires t.Node? && t.Kid(s.Flip()).Node? && Sane(v, Plug(p, t))
    ensures Sane(v, Plug(p, TurnFresh(s, t)))
  {
    var u := TurnFresh(s, t);
    PlugInRange(v.base, p, t);
    PlugExact(v.base, p, t);
    TurnExact(v.base, s, t);
    TurnInOrder(s, t, FreshOf(s, t.Kid(s), t.e.key, t.Kid(s.Flip()).Kid(s)), t.aug);
    PlugInOrder(p, t);
    PlugInOrder(p, u);
    NodesArePtrs(Plug(p, u));
    PlugInRange(v.base, p, u);
    PlugExact(v.base, p, u);
  }

  // ----- the contents -----

  ghost function LeastSlice(c: Contents): nat {
    if c == [] then TWO64 else Min(c[0].key.slice, LeastSlice(c[1..]))
  }

  lemma {:induction false} LeastSliceConcat(a: Contents, b: Contents)
    ensures LeastSlice(a + b) == Min(LeastSlice(a), LeastSlice(b))
  {
    if a == [] {
      assert a + b == b;
    } else {
      assert (a + b)[1..] == a[1..] + b;
      LeastSliceConcat(a[1..], b);
    }
  }

  /** The least slice of a queue is that of an entry, and at most that of each. */
  lemma {:induction false} LeastSliceIs(c: Contents) returns (k: nat)
    requires c != []
    ensures k < |c| && LeastSlice(c) == c[k].key.slice && forall i :: 0 <= i < |c| ==> c[k].key.slice <= c[i].key.slice
  {
    if |c| == 1 {
      k := 0;
      assert LeastSlice(c[1..]) == TWO64;
    } else {
      var j := LeastSliceIs(c[1..]);
      k := if c[0].key.slice < c[1..][j].key.slice then 0 else j + 1;
      assert forall i :: 1 <= i < |c| ==> c[i] == c[1..][i - 1];
    }
  }

  lemma {:induction false} MinSliceIsLeast(t: EdqTree)
    ensures MinSlice(t) == LeastSlice(InOrder(t))
  {
    if t.Node? {
      MinSliceIsLeast(t.left);
      MinSliceIsLeast(t.right);
      LeastSliceConcat(InOrder(t.left) + [t.e], InOrder(t.right));
      LeastSliceConcat(InOrder(t.left), [t.e]);
      assert LeastSlice([t.e]) == t.e.key.slice;
    }
  }

  /** key goes between the entries a and the entries b. */
  ghost predicate Between(db: u64, a: Contents, key: Key, b: Contents) {
    && (forall x <- a :: Less(db, x.key, key))
    && (forall x <- b :: Less(db, key, x.key))
  }

  lemma BetweenSorted(db: u64, a: Contents, x: Entry<Key>, b: Contents)
    requires Sorted(db, a + b) && Between(db, a, x.key, b)
    ensures Sorted(db, a + [x] + b)
  {
    var c, d := a + b, a + [x] + b;
    forall i, j | 0 <= i < j < |d|
      ensures Less(db, d[i].key, d[j].key)
    {
      assert i < |a| ==> d[i] == c[i] && d[i] in a;
      assert i > |a| ==> d[i] == c[i - 1];
      assert j < |a| ==> d[j] == c[j];
      assert j > |a| ==> d[j] == c[j - 1] && d[j] == b[j - |a| - 1];
    }
  }

  lemma {:induction false} WindowedInRange(db: u64, eb: u64, t: EdqTree)
    requires Windowed(db, eb, InOrder(t))
    ensures InRange(eb, t)
  {
    if t.Node? {
      var c, k := InOrder(t), |InOrder(t.left)|;
      assert c[k] == t.e;
      assert forall i :: 0 <= i < k ==> InOrder(t.left)[i] == c[i];
      assert forall i :: 0 <= i < |InOrder(t.right)| ==> InOrder(t.right)[i] == c[k + 1 + i];
      WindowedInRange(db, eb, t.left);
      WindowedInRange(db, eb, t.right);
    }
  }

  /** A tree with the shape of Plug(p, n), n a red node without children, fit to be rebalanced from n. */
  lemma LeafFits(p: EdqPath, n: EdqTree, w: EdqTree, h: nat) returns (p': EdqPath, n': EdqTree)
    requires n.Node? && n.left.Leaf? && n.right.Leaf? && n.red
    requires Balanced(Plug(p, Leaf), h) && !Red(Plug(p, Leaf))
    requires Bare(w) == Bare(Plug(p, n))
    ensures Plug(p', n') == w && n'.Node? && n'.e == n.e && Red(n')
    ensures Balanced(n', 0) && Accepts(p', 0) && BlackTop(p')
  {
    BarePlug(p, n);
    p', n' := Reopen(BarePath(p), Bare(n), w);
    var k := UnplugBalanced(p, Leaf, h);
    BareAccepts(p, 0);
    BareAccepts(p', 0);
    BareBalanced(n, 0);
    BareBalanced(n', 0);
    BlackTopPlug(p, Leaf);
    BareBlackTop(p);
    BareBlackTop(p');
  }

  lemma ShapeSane(v: View, u: EdqTree, w: EdqTree)
    requires Bare(u) == Bare(w) && InOrder(u) == v.contents && InRange(v.base, u) && Exact(v.base, w)
    ensures Sane(v, w) && Root(u) == Root(w)
  {
    BareSame(u);
    BareSame(w);
    NodesArePtrs(w);
    BareMins(v.base, u, w);
  }

  /** d is c with x put in somewhere. */
  ghost predicate Inserted(c: Contents, x: Entry<Key>, d: Contents) {
    exists k :: 0 <= k <= |c| && d == c[..k] + [x] + c[k..]
  }

  /** The head of the queue after an insertion between a and b. */
  lemma HeadAfter(db: u64, eb: u64, a: Contents, x: Entry<Key>, b: Contents)
    requires Between(db, a, x.key, b) && Windowed(db, eb, a + b) && InWindow(db, x.key.deadline)
    ensures a + b != [] ==> (NodeLess(x.key, (a + b)[0].key) <==> a == [])
  {
    if a + b != [] {
      var y := (a + b)[0];
      assert if a == [] then y == b[0] && y in b else y == a[0] && y in a;
      LessIsNodeLess(db, x.key, y.key);
    }
  }

  // ----- the whole tree -----

  /** The tree w lies in the arena below root: a red-black tree with a black root and exact minimums. */
  ghost predicate Tidy(m: Arena<Key, Mins>, root: Ptr, w: EdqTree, eb: u64) {
    && Live(m, root, View(eb, InOrder(w)), Top, w)
    && Balanced(w, BlackHeight(w)) && !Red(w)
  }

  ghost predicate Ordered(db: u64, eb: u64, c: Contents, next: int) {
    Sorted(db, c) && Windowed(db, eb, c) && forall x <- c :: x.key.seqno < next
  }

  /** Equal deadlines leave in order of arrival: what stands behind the newest entry has a later deadline. */
  lemma ArrivalOrder(db: u64, eb: u64, c: Contents, next: int, i: nat, j: nat)
    requires Ordered(db, eb, c, next) && i < j < |c|
    ensures c[i].key.deadline == c[j].key.deadline ==> c[i].key.seqno < c[j].key.seqno
    ensures c[i].key.seqno == next - 1 ==> TimeBefore(c[i].key.deadline, c[j].key.deadline)
  {
    assert Less(db, c[i].key, c[j].key) && c[j] in c;
    WindowOrder(db, c[i].key.deadline, c[j].key.deadline);
  }

  lemma InsertOrdered(db: u64, eb: u64, a: Contents, x: Entry<Key>, b: Contents)
    requires Ordered(db, eb, a + b, x.key.seqno) && Between(db, a, x.key, b)
    requires InWindow(db, x.key.deadline) && InWindow(eb, x.key.eligibility)
    ensures Ordered(db, eb, a + [x] + b, x.key.seqno + 1) && Inserted(a + b, x, a + [x] + b)
    ensures Ptrs(a + [x] + b) == Ptrs(a + b) + {x.ptr}
    ensures |a + [x] + b| == |a + b| + 1
    ensures a + b != [] ==> (a + b)[0] in a + b && (NodeLess(x.key, (a + b)[0].key) <==> a == [])
    ensures a + b == [] ==> a == []
    ensures (a + [x] + b)[0] == if a == [] then x else (a + b)[0]
  {
    BetweenSorted(db, a, x, b);
    HeadAfter(db, eb, a, x, b);
    var c, d := a + b, a + [x] + b;
    forall i | 0 <= i < |d|
      ensures InWindow(db, d[i].key.deadline) && InWindow(eb, d[i].key.eligibility)
    {
      assert i < |a| ==> d[i] == c[i];
      assert i > |a| ==> d[i] == c[i - 1];
    }
    assert c[..|a|] == a && c[|a|..] == b;
    assert forall y :: y in d <==> y == x || y in c;
  }

  lemma MakeTidy(m: Arena<Key, Mins>, root: Ptr, v: View, w: EdqTree, k: nat)
    requires Live(m, root, v, Top, w) && Balanced(w, k) && !Red(w)
    ensures InOrder(w) == v.contents && Tidy(m, root, w, v.base)
  {
    HeightUnique(w, k);
  }

  lemma TidyRoot(m: Arena<Key, Mins>, root: Ptr, w: EdqTree, eb: u64)
    requires Tidy(m, root, w, eb)
    ensures root == NULL <==> InOrder(w) == []
    ensures root != NULL ==> root in m && m[root].aug.slice == LeastSlice(InOrder(w))
    ensures Nodes(w) == Ptrs(InOrder(w))
    ensures forall x <- InOrder(w) :: x.ptr != NULL && x.ptr in m && m[x.ptr].key == x.key
  {
    MinSliceIsLeast(w);
    RepKeys(m, w, NULL);
  }

  /** The new leaf n hangs in the hole of p, and nothing else has changed in the tree w. */
  ghost predicate Placed(m: Arena<Key, Mins>, root: Ptr, w: EdqTree, p: EdqPath, n: EdqTree, eb: u64) {
    && Plug(p, Leaf) == w && Balanced(w, BlackHeight(w)) && !Red(w) && InRange(eb, w) && Exact(eb, w)
    && n.Node? && n == Node(Leaf, n.e, Mins(n.e.key.eligibility, n.e.key.slice), true, Leaf)
    && InWindow(eb, n.e.key.eligibility)
    && At(m, root, p, n)
  }

  lemma PlacedFacts(m: Arena<Key, Mins>, root: Ptr, w: EdqTree, p: EdqPath, n: EdqTree, eb: u64)
    requires Placed(m, root, w, p, n, eb)
    ensures Held(m, p, n, NULL) && root == Root(Plug(p, n))
    ensures PathInRange(eb, p) && InRange(eb, n) && Exact(eb, n) && Stale(eb, p) && InRange(eb, Plug(p, n))
    ensures InOrder(Plug(p, n)) == Before(p) + [n.e] + After(p)
    ensures PathNodes(p) <= Ptrs(Before(p) + [n.e] + After(p))
  {
    assert InOrder(n) == [n.e];
    hide InOrder, Before, After, Ptrs;
    PlugExact(eb, p, Leaf);
    PlugInRange(eb, p, Leaf);
    PlugInRange(eb, p, n);
    PlugInOrder(p, n);
    HeldTop(m, p, n, NULL);
    NodesArePtrs(Plug(p, n));
  }

  /** After the minimums are refreshed, the tree can be rebalanced from the new leaf. */
  lemma ReadyToFix(m: Arena<Key, Mins>, root: Ptr, w0: EdqTree, p: EdqPath, n: EdqTree, v: View, w: EdqTree)
      returns (p': EdqPath, n': EdqTree)
    requires Plug(p, Leaf) == w0 && Balanced(w0, BlackHeight(w0)) && !Red(w0)
    requires n.Node? && n.left.Leaf? && n.right.Leaf? && n.red
    requires Held(m, Top, w, NULL) && Bare(w) == Bare(Plug(p, n)) && root == Root(Plug(p, n))
    requires InOrder(Plug(p, n)) == v.contents && InRange(v.base, Plug(p, n)) && Exact(v.base, w)
    ensures Live(m, root, v, p', n') && n'.Node? && n'.e == n.e && Red(n')
    ensures Balanced(n', 0) && Accepts(p', 0) && BlackTop(p')
  {
    ShapeSane(v, Plug(p, n), w);
    p', n' := LeafFits(p, n, w, BlackHeight(w0));
    GoTo(m, root, v, p', n');
  }

  /** A hole at the end of a descent: everything in the tree is on one side of it. */
  ghost predicate Hole(m: Arena<Key, Mins>, root: Ptr, w: EdqTree, p: EdqPath) {
    At(m, root, p, Leaf) && Plug(p, Leaf) == w
  }

  lemma HoleFacts(m: Arena<Key, Mins>, root: Ptr, w: EdqTree, p: EdqPath)
    requires Hole(m, root, w, p)
    ensures InOrder(w) == Before(p) + After(p) && PathNodes(p) == Ptrs(InOrder(w))
  {
    hide InOrder, Before, After, Ptrs;
    HeldTop(m, p, Leaf, NULL);
    NodesArePtrs(w);
    PlugLeaf(p);
  }

  lemma FillHole(m0: Arena<Key, Mins>, m: Arena<Key, Mins>, root: Ptr, w: EdqTree, root': Ptr, p: EdqPath, n: EdqTree,
                 eb: u64)
    requires Tidy(m0, root, w, eb) && Plug(p, Leaf) == w && At(m, root', p, n)
    requires n.Node? && n == Node(Leaf, n.e, Mins(n.e.key.eligibility, n.e.key.slice), true, Leaf)
    requires InWindow(eb, n.e.key.eligibility)
    ensures Placed(m, root', w, p, n, eb)
    ensures forall x <- InOrder(w) :: x.ptr != NULL && x.ptr in m && m[x.ptr].key == x.key
  {
    HeldTop(m, p, n, NULL);
    RepKeys(m, Plug(p, n), NULL);
    PlugInOrder(p, n);
    PlugInOrder(p, Leaf);
  }

  // ----- taking a node out -----

  /** What the colours owe after a node is gone: nothing, or one black node in the hole of q. */
  datatype Debt = Even(h: nat) | Short(q: Path<Key, ()>)

  ghost predicate Owes(w: Tree<Key, ()>, d: Debt) {
    match d
    case Even(h) => Balanced(w, h) && !Red(w)
    case Short(q) => q.Down? && Plug(q, Leaf) == w && Accepts(q, 1) && BlackTop(q)
  }

  /** The subtree that takes the place of a node with at most one child. */
  ghost function Heir(t: EdqTree): EdqTree
    requires t.Node?
  {
    if t.left.Node? then t.left.(red := t.red) else if t.right.Node? then t.right.(red := t.red) else Leaf
  }

  lemma HeirDebt(p: EdqPath, t: EdqTree, h: nat) returns (d: Debt)
    requires t.Node? && (t.left.Leaf? || t.right.Leaf?) && Balanced(Plug(p, t), h) && !Red(Plug(p, t))
    ensures Owes(Bare(Plug(p, Heir(t))), d)
    ensures d.Short? <==> Heir(t).Leaf? && !t.red && p.Down?
    ensures d.Short? ==> d.q == BarePath(p)
  {
    var k := UnplugBalanced(p, t, h);
    var r := Heir(t);
    BlackTopPlug(p, t);
    BlackTopPlug(p, r);
    BarePlug(p, r);
    if r.Leaf? && !t.red && p.Down? {
      d := Short(BarePath(p));
      BareAccepts(p, 1);
      BareBlackTop(p);
    } else {
      var j := if p.Top? && r.Leaf? then 0 else k;
      assert Balanced(r, j) && Accepts(p, j) && !(RedHook(p) && Red(r));
      PlugBalanced(p, r, j);
      d := Even(Height(p, j));
      BareBalanced(Plug(p, r), Height(p, j));
    }
  }

  /** The entry of the hole's node passes to the leftmost node u of its right subtree, and u's child moves up. */
  ghost function Promoted(p: EdqPath, t: EdqTree, u: EdqTree): EdqPath
    requires t.Node? && u.Node?
  {
    Down(p, Right, u.e, t.aug, t.red, t.left)
  }

  ghost function Blackened(t: EdqTree): EdqTree {
    if t.Leaf? then Leaf else t.(red := false)
  }

  lemma SuccessorDebt(p: EdqPath, t: EdqTree, q: EdqPath, u: EdqTree, h: nat) returns (d: Debt)
    requires t.Node? && t.right == Plug(q, u) && u.Node? && u.left.Leaf?
    requires Balanced(Plug(p, t), h) && !Red(Plug(p, t))
    ensures Owes(Bare(Plug(Compose(q, Promoted(p, t, u)), Blackened(u.right))), d)
    ensures d.Short? <==> u.right.Leaf? && !u.red
    ensures d.Short? ==> d.q == BarePath(Compose(q, Promoted(p, t, u)))
  {
    var was, now := Down(p, Right, t.e, t.aug, t.red, t.left), Promoted(p, t, u);
    var full, full' := Compose(q, was), Compose(q, now);
    ComposePlug(q, was, u);
    assert Plug(full, u) == Plug(p, t);
    var k := UnplugBalanced(full, u, h);
    ComposeSwap(q, was, now, k);
    BlackTopPlug(full, u);
    var r := Blackened(u.right);
    BlackTopPlug(full', r);
    BarePlug(full', r);
    if r.Leaf? && !u.red {
      d := Short(BarePath(full'));
      BareAccepts(full', 1);
      BareBlackTop(full');
    } else {
      PlugBalanced(full', r, k);
      d := Even(Height(full', k));
      BareBalanced(Plug(full', r), Height(full', k));
    }
  }

  lemma HeldFrame(m: Arena<Key, Mins>, m': Arena<Key, Mins>, p: EdqPath, t: EdqTree, top: Ptr)
    requires Held(m, p, t, top)
    requires forall n <- All(p, t) :: n != NULL && n in m ==> n in m' && m'[n] == m[n]
    ensures Held(m', p, t, top)
  {
    RepFrame(m, m', t, Hook(p, top));
    RepPathFrame(m, m', p, Root(t), top);
  }

  /** Without its leftmost node u, the nodes of a subtree on the way to it still agree with what they cached. */
  lemma LiftedExact(eb: u64, q: EdqPath, u: EdqTree)
    requires u.Node? && InRange(eb, Plug(q, u)) && Exact(eb, Plug(q, u))
    ensures PathInRange(eb, q) && InRange(eb, u.right) && Exact(eb, u.right) && Stale(eb, q)
  {
    PlugExact(eb, q, u);
    PlugInRange(eb, q, u);
  }

  lemma SameNodes(t: EdqTree, u: EdqTree)
    requires Bare(t) == Bare(u)
    ensures Nodes(t) == Nodes(u) && Root(t) == Root(u) && InOrder(t) == InOrder(u) && (Distinct(t) <==> Distinct(u))
  {
    BareSame(t);
    BareSame(u);
  }

  lemma SameKeeps(m: Arena<Key, Mins>, m': Arena<Key, Mins>, s: set<Ptr>, n: Ptr)
    requires Same(m, m', s) && n in m && n != NULL && n !in s
    ensures n in m' && m'[n] == m[n]
  {
  }

  lemma LookAt(m: Arena<Key, Mins>, root: Ptr, p: EdqPath, t: EdqTree)
    requires p.Down? && At(m, root, p, t)
    ensures p.e.ptr in m && m[p.e.ptr].red == p.red
  {
  }

  /** A tree of the shape of u with exact minimums: it is in order, or short of one black node at q. */
  lemma Settled(m: Arena<Key, Mins>, root: Ptr, u: EdqTree, w: EdqTree, d: Debt, v: View) returns (q: EdqPath)
    requires Held(m, Top, w, NULL) && Bare(w) == Bare(u) && root == Root(u)
    requires InOrder(u) == v.contents && InRange(v.base, u) && Exact(v.base, w) && Owes(Bare(u), d)
    ensures d.Even? ==> Tidy(m, root, w, v.base) && InOrder(w) == v.contents
    ensures d.Short? ==>
      && Live(m, root, v, q, Leaf) && q.Down? && q.e.ptr == d.q.e.ptr && q.e.ptr != NULL
      && Accepts(q, 1) && BlackTop(q)
  {
    ShapeSane(v, u, w);
    match d {
      case Even(h) =>
        BareBalanced(w, h);
        q := Top;
        MakeTidy(m, root, v, w, h);
      case Short(b) =>
        var t: EdqTree;
        q, t := Reopen(b, Leaf, w);
        assert t == Leaf;
        GoTo(m, root, v, q, t);
        Look(m, root, v, q, t);
        BareAccepts(q, 1);
        BareBlackTop(q);
    }
  }

  /** d is c without its entry for n. */
  ghost predicate Removed(c: Contents, n: Ptr, d: Contents) {
    exists k :: 0 <= k < |c| && c[k].ptr == n && d == c[..k] + c[k + 1..]
  }

  /** A tree from which a node has been cut: the minimums above t are stale and the colours owe d. */
  ghost predicate Cut(m: Arena<Key, Mins>, root: Ptr, p: EdqPath, t: EdqTree, d: Debt, v: View) {
    && At(m, root, p, t)
    && PathInRange(v.base, p) && InRange(v.base, t) && Exact(v.base, t) && Stale(v.base, p)
    && InOrder(Plug(p, t)) == v.contents && Owes(Bare(Plug(p, t)), d)
  }

  lemma CutOne(w: EdqTree, p: EdqPath, t: EdqTree, eb: u64) returns (d: Debt, k: nat)
    requires Plug(p, t) == w && t.Node? && (t.left.Leaf? || t.right.Leaf?)
    requires Balanced(w, BlackHeight(w)) && !Red(w) && InRange(eb, w) && Exact(eb, w)
    ensures k < |InOrder(w)| && InOrder(w)[k] == t.e
    ensures InOrder(Plug(p, Heir(t))) == InOrder(w)[..k] + InOrder(w)[k + 1..]
    ensures PathInRange(eb, p) && InRange(eb, Heir(t)) && Exact(eb, Heir(t)) && Stale(eb, p)
    ensures Owes(Bare(Plug(p, Heir(t))), d)
    ensures d.Short? <==> Heir(t).Leaf? && !t.red && p.Down?
    ensures d.Short? ==> d.q.e.ptr == p.e.ptr
  {
    d := HeirDebt(p, t, BlackHeight(w));
    PlugInRange(eb, p, t);
    PlugExact(eb, p, t);
    k := CutOneOrder(p, t);
  }

  lemma HeirInOrder(t: EdqTree)
    requires t.Node? && (t.left.Leaf? || t.right.Leaf?)
    ensures InOrder(t) == InOrder(t.left) + [t.e] + InOrder(t.right)
    ensures InOrder(Heir(t)) == InOrder(t.left) + InOrder(t.right)
  {
  }

  lemma CutOneOrder(p: EdqPath, t: EdqTree) returns (k: nat)
    requires t.Node? && (t.left.Leaf? || t.right.Leaf?)
    ensures k < |InOrder(Plug(p, t))| && InOrder(Plug(p, t))[k] == t.e
    ensures InOrder(Plug(p, Heir(t))) == InOrder(Plug(p, t))[..k] + InOrder(Plug(p, t))[k + 1..]
  {
    hide *;
    HeirInOrder(t);
    PlugInOrder(p, t);
    PlugInOrder(p, Heir(t));
    k := |Before(p)| + |InOrder(t.left)|;
    Without(Before(p), InOrder(t.left), t.e, InOrder(t.right), After(p));
  }

  lemma Without(a: Contents, l: Contents, e: Entry<Key>, r: Contents, b: Contents)
    ensures var c := a + (l + [e] + r) + b; var k := |a| + |l|;
      c[k] == e && c[..k] + c[k + 1..] == a + (l + r) + b
  {
    var c := a + (l + [e] + r) + b;
    var k := |a| + |l|;
    assert c[..k] == a + l;
    assert c[k + 1..] == r + b;
  }

  lemma CutTwo(w: EdqTree, p: EdqPath, t: EdqTree, q: EdqPath, u: EdqTree, r: EdqTree, eb: u64)
    returns (d: Debt, k: nat)
    requires Plug(p, t) == w && t.Node? && t.right == Plug(q, u) && Before(q) == [] && u.Node? && u.left.Leaf?
    requires Bare(r) == Bare(Plug(q, Blackened(u.right))) && Exact(eb, r)
    requires Balanced(w, BlackHeight(w)) && !Red(w) && InRange(eb, w) && Exact(eb, w)
    ensures k < |InOrder(w)| && InOrder(w)[k] == t.e
    ensures InOrder(Plug(Promoted(p, t, u), r)) == InOrder(w)[..k] + InOrder(w)[k + 1..]
    ensures PathInRange(eb, Promoted(p, t, u)) && InRange(eb, r) && Stale(eb, Promoted(p, t, u))
    ensures Owes(Bare(Plug(Promoted(p, t, u), r)), d)
    ensures d.Short? <==> u.right.Leaf? && !u.red
    ensures d.Short? ==> d.q.e.ptr == Hook(q, u.e.ptr)
  {
    var now, c := Promoted(p, t, u), Blackened(u.right);
    d := SuccessorDebt(p, t, q, u, BlackHeight(w));
    BarePlug(now, r);
    BarePlug(now, Plug(q, c));
    ComposePlug(q, now, c);
    PlugInRange(eb, p, t);
    PlugExact(eb, p, t);
    PlugInRange(eb, q, u);
    PlugInRange(eb, q, c);
    BareMins(eb, r, Plug(q, c));
    k := CutTwoOrder(p, t, q, u, r);
  }

  lemma CutTwoOrder(p: EdqPath, t: EdqTree, q: EdqPath, u: EdqTree, r: EdqTree) returns (k: nat)
    requires t.Node? && t.right == Plug(q, u) && Before(q) == [] && u.Node? && u.left.Leaf?
    requires Bare(r) == Bare(Plug(q, Blackened(u.right)))
    ensures var c := InOrder(Plug(p, t));
      k < |c| && c[k] == t.e && InOrder(Plug(Promoted(p, t, u), r)) == c[..k] + c[k + 1..]
  {
    var now := Promoted(p, t, u);
    HeadOfRight(q, u, r);
    PlugInOrder(p, t);
    PlugInOrder(now, r);
    k := |Before(p)| + |InOrder(t.left)|;
    Gather(Before(p), InOrder(t.left), u.e, InOrder(r), After(p));
    Without(Before(p), InOrder(t.left), t.e, InOrder(t.right), After(p));
  }

  lemma Gather(a: Contents, l: Contents, e: Entry<Key>, r: Contents, b: Contents)
    ensures (a + l + [e]) + r + b == a + (l + ([e] + r)) + b
  {
  }

  lemma Head(e: Entry<Key>, r: Contents, b: Contents)
    ensures [] + ([e] + r) + b == [e] + ([] + r + b)
  {
  }

  lemma HeadOfRight(q: EdqPath, u: EdqTree, r: EdqTree)
    requires Before(q) == [] && u.Node? && u.left.Leaf?
    requires Bare(r) == Bare(Plug(q, Blackened(u.right)))
    ensures InOrder(Plug(q, u)) == [u.e] + InOrder(r)
  {
    var b := Blackened(u.right);
    assert InOrder(b) == InOrder(u.right);
    assert InOrder(u) == [u.e] + InOrder(u.right);
    hide *;
    SameNodes(r, Plug(q, b));
    PlugInOrder(q, b);
    PlugInOrder(q, u);
    Head(u.e, InOrder(u.right), After(q));
  }

  ghost predicate NoRepeats(c: Contents) {
    forall i, j :: 0 <= i < |c| && 0 <= j < |c| && c[i].ptr == c[j].ptr ==> i == j
  }

  /** No node is queued twice. */
  lemma TidyNoRepeats(m: Arena<Key, Mins>, root: Ptr, w: EdqTree, db: u64, eb: u64, next: int)
    requires Tidy(m, root, w, eb) && Ordered(db, eb, InOrder(w), next)
    ensures NoRepeats(InOrder(w))
  {
    var c := InOrder(w);
    TidyRoot(m, root, w, eb);
    forall i, j | 0 <= i < |c| && 0 <= j < |c| && c[i].ptr == c[j].ptr
      ensures i == j
    {
      assert c[i] in c && c[j] in c;
      assert c[i].key == c[j].key;
    }
  }

  lemma RemoveOrdered(c: Contents, db: u64, eb: u64, next: int, k: nat)
    requires NoRepeats(c) && Ordered(db, eb, c, next) && k < |c|
    ensures var d := c[..k] + c[k + 1..];
      && Ordered(db, eb, d, next) && Removed(c, c[k].ptr, d) && Ptrs(d) == Ptrs(c) - {c[k].ptr}
      && (c[0].ptr == c[k].ptr <==> k == 0)
      && (d != [] ==> d[0] == if k == 0 then c[1] else c[0])
  {
    var d := c[..k] + c[k + 1..];
    assert forall i :: 0 <= i < |d| ==> d[i] == if i < k then c[i] else c[i + 1];
    assert forall x <- d :: x in c;
    RemovePtrs(c, k);
  }

  lemma RemovePtrs(c: Contents, k: nat)
    requires NoRepeats(c) && k < |c|
    ensures Ptrs(c[..k] + c[k + 1..]) == Ptrs(c) - {c[k].ptr}
  {
    var d := c[..k] + c[k + 1..];
    forall n
      ensures n in Ptrs(d) <==> n in Ptrs(c) && n != c[k].ptr
    {
      if n in Ptrs(d) {
        var i :| 0 <= i < |d| && d[i].ptr == n;
        assert d[i] == c[if i < k then i else i + 1];
      }
      if n in Ptrs(c) && n != c[k].ptr {
        var i :| 0 <= i < |c| && c[i].ptr == n;
        assert d[if i < k then i else i - 1] == c[i];
      }
    }
  }

  /** The second entry of a queue whose first node is at p and t. */
  lemma {:induction false} SecondEntry(p: EdqPath)
    requires Before(p) == []
    ensures p.Down? ==> After(p) != [] && After(p)[0] == p.e
    ensures p.Top? ==> After(p) == []
  {
  }

  lemma FrontNode(p: EdqPath, t: EdqTree)
    requires t.Node? && NoRepeats(InOrder(Plug(p, t)))
    ensures |InOrder(Plug(p, t))| > 0
    ensures InOrder(Plug(p, t))[0].ptr == t.e.ptr ==> Before(p) == [] && t.left.Leaf?
  {
    PlugInOrder(p, t);
    var c := InOrder(Plug(p, t));
    assert c[|Before(p)| + |InOrder(t.left)|] == t.e;
  }

  lemma CutKeys(m: Arena<Key, Mins>, root: Ptr, p: EdqPath, t: EdqTree, d: Debt, v: View)
    requires Cut(m, root, p, t, d, v)
    ensures forall x <- v.contents :: x.ptr != NULL && x.ptr in m && m[x.ptr].key == x.key
  {
    HeldTop(m, p, t, NULL);
    RepKeys(m, Plug(p, t), NULL);
  }

  lemma TidyAt(m: Arena<Key, Mins>, root: Ptr, w: EdqTree, eb: u64, p: EdqPath, t: EdqTree)
    requires Tidy(m, root, w, eb) && Plug(p, t) == w
    ensures At(m, root, p, t) && (t.Node? ==> t.e.ptr != NULL && t.e.ptr in m)
  {
    Zoom(m, root, p, t);
  }

  /** What the tree of a tidy queue tells about one of its nodes. */
  lemma TidyNode(m: Arena<Key, Mins>, root: Ptr, w: EdqTree, eb: u64, p: EdqPath, t: EdqTree)
    requires Tidy(m, root, w, eb) && Plug(p, t) == w && t.Node?
    ensures At(m, root, p, t) && InRange(eb, t) && Exact(eb, t) && All(p, t) == Ptrs(InOrder(w))
    ensures t.e.ptr in m && (m[t.e.ptr].left == NULL <==> t.left.Leaf?) && (m[t.e.ptr].right == NULL <==> t.right.Leaf?)
    ensures Balanced(w, BlackHeight(w)) && !Red(w) && InRange(eb, w) && Exact(eb, w)
  {
    HeldTop(m, p, t, NULL);
    NodesArePtrs(w);
    PlugInRange(eb, p, t);
    PlugExact(eb, p, t);
    assert Rep(m, t.left, t.e.ptr) && Rep(m, t.right, t.e.ptr);
  }
}

/** The eligible deadline queue (lib/edq.bpf.c): an intrusive red-black tree of tasks by deadline and order of
    arrival, in which every node caches the least eligibility and the least slice of its subtree.

    Time stamps wrap around. db and eb name the half ranges of stamps that the deadlines and the eligibilities lie in.
  */
module Edq {
  import opened Options
  import opened RedBlack
  import opened Time
  import opened EdqTree
  import opened EdqSearch

  const EBUSY := 16
  const EINVAL := 22
  const EALREADY := 114
  const ECANCELED := 125

  datatype Owner = Nobody | Dead | Here | Elsewhere

  class Edq {
    var arena: Arena<Key, Mins>
    var owner: map<Ptr, Owner>
    var root: Ptr
    var first: Ptr
    var firstDeadline: u64
    var minSlice: u64
    var nr: nat
    var seqno: nat
    var holds: map<Ptr, nat>
    ghost var tree: EdqTree

    /** An empty queue over tasks that are in no queue. */
    constructor (tasks: Arena<Key, Mins>, ghost db: u64, ghost eb: u64)
      requires NULL !in tasks
      ensures Valid(db, eb) && Contents() == [] && arena == tasks
      ensures seqno == 0 && owner == (map n <- tasks :: Nobody) && holds == map n <- tasks :: 0
    {
      holds := map n <- tasks :: 0;
      arena := tasks;
      owner := map n <- tasks :: Nobody;
      root, first, firstDeadline, minSlice, nr, seqno := NULL, NULL, 0, 0, 0, 0;
      tree := Leaf;
    }

    // ----- primitive steps, each at a place of the tree -----

    method ReplaceChild(parent: Ptr, was: Ptr, heir: Ptr, ghost p: EdqPath)
      requires DistinctPath(p) && RepPath(arena, p, was, NULL) && root == RootOf(p, was)
      requires was != NULL && was !in PathNodes(p)
      requires heir != NULL ==> heir in arena && heir !in PathNodes(p)
      requires parent == Hook(p, NULL)
      modifies this`arena, this`root
      ensures RepPath(arena, p, heir, NULL) && root == RootOf(p, heir)
      ensures Same(old(arena), arena, PathNodes(p) + {heir})
      ensures heir != NULL ==> arena[heir] == old(arena[heir]).(parent := parent)
    {
      if parent == NULL {
        root := heir;
      } else if arena[parent].left == was {
        arena := arena[parent := arena[parent].(left := heir)];
      } else {
        arena := arena[parent := arena[parent].(right := heir)];
      }
      if p.Down? {
        Rehole(old(arena), p, was, heir, NULL);
      }
      ghost var m := arena;
      if heir != NULL {
        arena := arena[heir := arena[heir].(parent := parent)];
        RepPathFrame(m, arena, p, heir, NULL);
      }
    }

    method Paint(n: Ptr, red: bool, ghost p: EdqPath, ghost t: EdqTree)
      requires At(arena, root, p, t) && t.Node? && t.e.ptr == n
      modifies this`arena
      ensures At(arena, root, p, t.(red := red)) && Same(old(arena), arena, {n})
    {
      arena := arena[n := arena[n].(red := red)];
      RepFrame(old(arena), arena, t.left, n);
      RepFrame(old(arena), arena, t.right, n);
      RepPathFrame(old(arena), arena, p, n, NULL);
    }

    method SetColor(n: Ptr, red: bool, ghost p: EdqPath, ghost t: EdqTree, ghost v: View)
      requires Live(arena, root, v, p, t) && t.Node? && t.e.ptr == n
      modifies this`arena
      ensures Live(arena, root, v, p, t.(red := red))
      ensures Same(old(arena), arena, Ptrs(v.contents))
    {
      hide At;
      Paint(n, red, p, t);
      PaintSane(v, p, t, red);
      Zoom(arena, root, p, t);
    }

    method NodeUpdate(n: Ptr, ghost l: EdqTree, ghost r: EdqTree)
      requires n in arena && arena[n].left == Root(l) && arena[n].right == Root(r)
      requires Shows(arena, l) && Shows(arena, r)
      modifies this`arena
      ensures arena == old(arena)[n := old(arena[n]).(aug := Fresh(l, old(arena[n]).key, r))]
    {
      var c := arena[n];
      var e, s := c.key.eligibility, c.key.slice;
      if c.left != NULL && TimeBefore(arena[c.left].aug.eligibility, e) {
        e := arena[c.left].aug.eligibility;
      }
      if c.right != NULL && TimeBefore(arena[c.right].aug.eligibility, e) {
        e := arena[c.right].aug.eligibility;
      }
      if c.left != NULL && arena[c.left].aug.slice < s {
        s := arena[c.left].aug.slice;
      }
      if c.right != NULL && arena[c.right].aug.slice < s {
        s := arena[c.right].aug.slice;
      }
      arena := arena[n := c.(aug := Mins(e, s))];
    }

    method Swing(node: Ptr, pivot: Ptr, s: Side, ghost a: EdqTree, ghost b: EdqTree)
      requires node in arena && pivot in arena && node != pivot
      requires Root(a) == arena[node].Kid(s) && Shows(arena, a) && Root(a) != node && Root(a) != pivot
      requires Root(b) == arena[pivot].Kid(s) && Shows(arena, b) && Root(b) != node && Root(b) != pivot
      modifies this`arena
      ensures Same(old(arena), arena, {node, pivot, Root(b)})
      ensures arena[node] == old(arena[node]).SetKid(s.Flip(), Root(b)).(parent := pivot,
        aug := FreshOf(s, a, old(arena[node]).key, b))
      ensures arena[pivot] == old(arena[pivot]).SetKid(s, node).(aug := old(arena[node].aug))
      ensures b.Node? ==> arena[Root(b)] == old(arena[Root(b)]).(parent := node)
    {
      var inner := arena[pivot].Kid(s);
      arena := arena[node := arena[node].SetKid(s.Flip(), inner)];
      if inner != NULL {
        arena := arena[inner := arena[inner].(parent := node)];
      }
      arena := arena[pivot := arena[pivot].SetKid(s, node)];
      arena := arena[node := arena[node].(parent := pivot)];
      arena := arena[pivot := arena[pivot].(aug := arena[node].aug)];
      if s.Left? { NodeUpdate(node, a, b); } else { NodeUpdate(node, b, a); }
    }

    method Rotate(node: Ptr, s: Side, ghost p: EdqPath, ghost t: EdqTree, ghost v: View) returns (pivot: Ptr)
      requires Live(arena, root, v, p, t) && t.Node? && t.e.ptr == node && t.Kid(s.Flip()).Node?
      modifies this`arena, this`root
      ensures pivot == t.Kid(s.Flip()).e.ptr
      ensures Live(arena, root, v, p, TurnFresh(s, t))
      ensures Same(old(arena), arena, Ptrs(v.contents))
    {
      ghost var f := t.Kid(s.Flip());
      ghost var a, b := t.Kid(s), f.Kid(s);
      assert Rep(arena, f, node) && Distinct(f) && Rep(arena, a, node) && Rep(arena, b, f.e.ptr);
      assert a.Node? ==> Root(a) in Nodes(a);
      assert b.Node? ==> Root(b) in Nodes(f);
      pivot := arena[node].Kid(s.Flip());
      var parent := arena[node].parent;
      ReplaceChild(parent, node, pivot, p);
      ghost var m1 := arena;
      Swing(node, pivot, s, a, b);
      TurnAt(old(arena), m1, arena, old(root), root, p, t, s, FreshOf(s, a, t.e.key, b), t.aug);
      TurnSane(v, p, t, s);
      Zoom(old(arena), old(root), p, t);
    }

    /** One step of the walk: recomputes the cache of the parent of the hole; an unchanged cache ends the walk. */
    method PropagateStep(node: Ptr, stop: Ptr, ghost p: EdqPath, ghost t: EdqTree, ghost base: u64)
        returns (ghost u: EdqTree)
      requires Held(arena, p, t, stop) && p.Down? && node == p.e.ptr && node != stop
      requires stop == NULL || stop !in PathNodes(p)
      requires PathInRange(base, p) && InRange(base, t) && Exact(base, t) && Stale(base, p)
      modifies this`arena
      ensures Held(arena, p.up, u, stop) && node in arena && arena[node].parent == Hook(p.up, stop)
      ensures stop == NULL || stop !in PathNodes(p.up)
      ensures PathInRange(base, p.up) && InRange(base, u) && Exact(base, u) && Stale(base, p.up)
      ensures node in old(arena) && (arena[node].aug == old(arena)[node].aug ==> Exact(base, Plug(p.up, u)))
      ensures Bare(Plug(p.up, u)) == Bare(Plug(p, t))
      ensures PathNodes(p.up) <= PathNodes(p) && Same(old(arena), arena, PathNodes(p))
    {
      assert p.Down? && Shows(arena, t) && Shows(arena, p.far) && arena[node].aug == p.aug
        && arena[node].parent == Hook(p.up, stop);
      assert arena[node].Kid(p.side) == Root(t) && arena[node].Kid(p.side.Flip()) == Root(p.far)
        && arena[node].key == p.e.key;
      hide Held, Exact, InRange, Stale;
      CacheHeld(arena, p, t, stop, FreshOf(p.side, t, p.e.key, p.far));
      NodeUpdate(node, if p.side.Left? then t else p.far, if p.side.Left? then p.far else t);
      StepExact(base, p, t);
      ghost var q := p.(aug := FreshOf(p.side, t, p.e.key, p.far));
      HeldUp(arena, q, t, stop);
      BarePlug(p.up, Fill(p, t));
      BarePlug(p.up, Fill(q, t));
      u := Fill(q, t);
    }

    /** Refreshes the minimums from `start` up to, not including, `stop`. */
    method Propagate(start: Ptr, stop: Ptr, ghost p0: EdqPath, ghost t0: EdqTree, ghost base: u64)
        returns (ghost w: EdqTree)
      requires Held(arena, p0, t0, stop) && start == Hook(p0, stop) && (stop == NULL || stop !in PathNodes(p0))
      requires PathInRange(base, p0) && InRange(base, t0) && Exact(base, t0) && Stale(base, p0)
      modifies this`arena
      ensures Held(arena, Top, w, stop) && Exact(base, w)
      ensures Bare(w) == Bare(Plug(p0, t0))
      ensures Same(old(arena), arena, PathNodes(p0))
    {
      var node := start;
      ghost var p, t := p0, t0;
      while node != NULL && node != stop
        invariant Held(arena, p, t, stop) && node == Hook(p, stop) && (stop == NULL || stop !in PathNodes(p))
        invariant PathInRange(base, p) && InRange(base, t) && Exact(base, t) && Stale(base, p)
        invariant Bare(Plug(p, t)) == Bare(Plug(p0, t0))
        invariant PathNodes(p) <= PathNodes(p0) && Same(old(arena), arena, PathNodes(p0))
        decreases p
      {
        var was := arena[node].aug;
        ghost var u := PropagateStep(node, stop, p, t, base);
        hide Held, Exact, InRange, Stale, Plug;
        p, t := p.up, u;
        if arena[node].aug == was {
          w := Plug(p, t);
          HeldTop(arena, p, t, stop);
          return;
        }
        node := arena[node].parent;
      }
      w := t;
    }

    // ----- insertion -----

    method RecolourUncle(parent: Ptr, gparent: Ptr, uncle: Ptr, ghost p: EdqPath, ghost t: EdqTree, ghost v: View)
        returns (ghost u: EdqTree)
      requires p.Down? && p.up.Down? && p.up.far.Node? && Live(arena, root, v, p, t)
      requires parent == p.e.ptr && gparent == p.up.e.ptr && uncle == p.up.far.e.ptr
      modifies this`arena
      ensures u.Node? && u.e.ptr == gparent
      ensures u == Mk(p.up.side, Mk(p.side, t, p.e, p.aug, false, p.far), p.up.e, p.up.aug, true,
        p.up.far.(red := false))
      ensures Live(arena, root, v, p.up.up, u)
      ensures Same(old(arena), arena, Ptrs(v.contents))
    {
      hide Live;
      ghost var g := p.up;
      ghost var t1 := Fill(p, t);
      GoUp(arena, root, v, p, t);
      GoAcross(arena, root, v, g, t1);
      SetColor(uncle, false, Across(g, t1), g.far, v);
      ghost var g' := g.(far := g.far.(red := false));
      GoAcross(arena, root, v, Across(g, t1), g'.far);
      SetColor(parent, false, g', t1, v);
      ghost var t2 := t1.(red := false);
      GoUp(arena, root, v, g', t2);
      SetColor(gparent, true, g.up, Fill(g', t2), v);
      u := Fill(g', t2).(red := true);
    }

    /** A red child on the inside of its red parent: turn it above the parent. */
    method TurnInner(parent: Ptr, side: Side, ghost p: EdqPath, ghost t: EdqTree, ghost h: nat, ghost v: View)
        returns (ghost q: EdqPath, ghost u: EdqTree)
      requires p.Down? && p.red && p.up.Down? && p.side != side && p.up.side == side && Live(arena, root, v, p, t)
      requires Accepts(p, h) && Balanced(t, h) && Red(t) && parent == p.e.ptr
      modifies this`arena, this`root
      ensures q.Down? && q.up == p.up && q.side == side && q.red && q.e == t.e
      ensures Live(arena, root, v, q, u) && Accepts(q, h) && Balanced(u, h) && Red(u)
      ensures Same(old(arena), arena, Ptrs(v.contents))
    {
      hide Live;
      GoUp(arena, root, v, p, t);
      var _ := Rotate(parent, side, p.up, Fill(p, t), v);
      ghost var w := TurnFresh(side, Fill(p, t));
      InsertInner(p, t, h, FreshOf(side, p.far, p.e.key, t.Kid(side)), p.aug);
      q, u := Down(p.up, side, w.e, w.aug, true, w.Kid(p.side)), w.Kid(side);
      GoDown(arena, root, v, q, u);
    }

    /** The last rotation of an insertion: the red parent goes above the grandparent. */
    method TurnOuter(parent: Ptr, gparent: Ptr, side: Side, ghost p: EdqPath, ghost t: EdqTree, ghost h: nat,
                     ghost v: View)
        returns (ghost u: EdqTree)
      requires p.Down? && p.red && p.up.Down? && p.side == side && p.up.side == side && Live(arena, root, v, p, t)
      requires Accepts(p, h) && Balanced(t, h) && Red(t) && !Red(p.up.far)
      requires parent == p.e.ptr && gparent == p.up.e.ptr
      modifies this`arena, this`root
      ensures Live(arena, root, v, p.up.up, u) && Balanced(u, h + 1) && !Red(u) && Accepts(p.up.up, h + 1)
      ensures Same(old(arena), arena, Ptrs(v.contents))
    {
      hide Live;
      ghost var g := p.up;
      ghost var t1 := Fill(p, t);
      GoUp(arena, root, v, p, t);
      SetColor(parent, false, g, t1, v);
      ghost var t2 := t1.(red := false);
      GoUp(arena, root, v, g, t2);
      SetColor(gparent, true, g.up, Fill(g, t2), v);
      ghost var t3 := Fill(g, t2).(red := true);
      var _ := Rotate(gparent, side.Flip(), g.up, t3, v);
      u := TurnFresh(g.side.Flip(), t3);
      InsertOuter(p, t, h, FreshOf(g.side.Flip(), t3.Kid(g.side.Flip()), t3.e.key, t3.Kid(g.side).Kid(g.side.Flip())),
        t3.aug);
    }

    method InsertFixup(start: Ptr, ghost p0: EdqPath, ghost t0: EdqTree, ghost h0: nat, ghost v: View)
        returns (ghost w: EdqTree, ghost k: nat)
      requires Live(arena, root, v, p0, t0) && t0.Node? && t0.e.ptr == start
      requires Red(t0) && Balanced(t0, h0) && Accepts(p0, h0) && BlackTop(p0)
      modifies this`arena, this`root
      ensures Live(arena, root, v, Top, w) && Balanced(w, k) && !Red(w)
      ensures Same(old(arena), arena, Ptrs(v.contents))
    {
      hide Live;
      var node := start;
      ghost var p, t, h := p0, t0, h0;
      while true
        invariant Live(arena, root, v, p, t) && t.Node? && t.e.ptr == node
        invariant Red(t) && Balanced(t, h) && Accepts(p, h) && BlackTop(p)
        invariant Same(old(arena), arena, Ptrs(v.contents))
        decreases p
      {
        Look(arena, root, v, p, t);
        var parent := arena[node].parent;
        if parent == NULL {
          SetColor(node, false, p, t, v);
          w, k := t.(red := false), h + 1;
          return;
        }
        if !arena[parent].red {
          w, k := Plug(p, t), Height(p, h);
          Close(arena, root, v, p, t, h);
          return;
        }
        // A red parent is never the root.
        GoUp(arena, root, v, p, t);
        Look(arena, root, v, p.up, Fill(p, t));
        var gparent := arena[parent].parent;
        var side := if parent == arena[gparent].left then Left else Right;
        assert side == p.up.side;
        var uncle := arena[gparent].Kid(side.Flip());
        if uncle != NULL && arena[uncle].red {
          InsertRecolour(p, t, h);
          t := RecolourUncle(parent, gparent, uncle, p, t, v);
          node, p, h := gparent, p.up.up, h + 1;
        } else {
          w, k := InsertTurn(node, parent, gparent, side, p, t, h, v);
          return;
        }
      }
    }

    /** A black uncle: at most two rotations end the repair. */
    method InsertTurn(node: Ptr, parent: Ptr, gparent: Ptr, side: Side, ghost p: EdqPath, ghost t: EdqTree,
                      ghost h: nat, ghost v: View)
        returns (ghost w: EdqTree, ghost k: nat)
      requires p.Down? && p.red && p.up.Down? && p.up.side == side && Live(arena, root, v, p, t)
      requires Accepts(p, h) && Balanced(t, h) && Red(t) && !Red(p.up.far) && BlackTop(p)
      requires node == t.e.ptr && parent == p.e.ptr && gparent == p.up.e.ptr
      modifies this`arena, this`root
      ensures Live(arena, root, v, Top, w) && Balanced(w, k) && !Red(w)
      ensures Same(old(arena), arena, Ptrs(v.contents))
    {
      hide Live;
      Look(arena, root, v, p, t);
      ghost var q, u := p, t;
      var upper := parent;
      if node == arena[parent].Kid(side.Flip()) {
        q, u := TurnInner(parent, side, p, t, h, v);
        upper := node;
      }
      ghost var r := TurnOuter(upper, gparent, side, q, u, h, v);
      w, k := Plug(p.up.up, r), Height(p.up.up, h + 1);
      Close(arena, root, v, p.up.up, r, h + 1);
    }

    // ----- removal -----

    /** A red sibling: turn it above the parent, which leaves a black sibling. */
    method EraseRed(parent: Ptr, sibling: Ptr, s: Side, ghost p: EdqPath, ghost t: EdqTree, ghost h: nat, ghost v: View)
        returns (ghost q: EdqPath)
      requires p.Down? && p.side == s && Live(arena, root, v, p, t)
      requires Accepts(p, h + 1) && Balanced(t, h) && !Red(t) && Red(p.far)
      requires parent == p.e.ptr && sibling == p.far.e.ptr
      modifies this`arena, this`root
      ensures q.Down? && q.up.Down? && q.up.up == p.up && q.side == s && q.e == p.e && q.red && !q.up.red && !Red(q.far)
      ensures Live(arena, root, v, q, t) && Accepts(q, h + 1)
      ensures Same(old(arena), arena, Ptrs(v.contents))
    {
      hide Live;
      EraseRedSibling(p, t, h, p.aug, p.aug);
      GoAcross(arena, root, v, p, t);
      SetColor(sibling, false, Across(p, t), p.far, v);
      ghost var p1 := p.(far := p.far.(red := false));
      GoAcross(arena, root, v, Across(p, t), p1.far);
      GoUp(arena, root, v, p1, t);
      SetColor(parent, true, p.up, Fill(p1, t), v);
      ghost var t1 := Fill(p1, t).(red := true);
      var _ := Rotate(parent, s, p.up, t1, v);
      ghost var low := FreshOf(s, t, p.e.key, p.far.Kid(s));
      EraseRedSibling(p, t, h, low, p.aug);
      q := Down(Down(p.up, s, p.far.e, p.aug, false, p.far.Kid(s.Flip())), s, p.e, low, true, p.far.Kid(s));
      GoDown(arena, root, v, q.up, Fill(q, t));
      GoDown(arena, root, v, q, t);
    }

    /** A black sibling with a red child on the inside only: turn that child above the sibling. */
    method EraseTurnInner(sibling: Ptr, inner: Ptr, s: Side, ghost p: EdqPath, ghost t: EdqTree, ghost h: nat,
                          ghost v: View)
        returns (pivot: Ptr, ghost q: EdqPath)
      requires p.Down? && p.side == s && Live(arena, root, v, p, t)
      requires Accepts(p, h + 1) && Balanced(t, h) && !Red(t) && !Red(p.far)
      requires p.far.Node? && Red(p.far.Kid(s)) && !Red(p.far.Kid(s.Flip()))
      requires sibling == p.far.e.ptr && inner == p.far.Kid(s).e.ptr
      modifies this`arena, this`root
      ensures q.Down? && q == p.(far := q.far) && q.far.Node? && pivot == q.far.e.ptr
      ensures Live(arena, root, v, q, t) && Accepts(q, h + 1) && !Red(q.far) && Red(q.far.Kid(s.Flip()))
      ensures Same(old(arena), arena, Ptrs(v.contents))
    {
      hide Live;
      ghost var x, f := Across(p, t), p.far;
      ghost var down := Down(x, s, f.e, f.aug, f.red, f.Kid(s.Flip()));
      GoAcross(arena, root, v, p, t);
      GoDown(arena, root, v, down, f.Kid(s));
      SetColor(inner, false, down, f.Kid(s), v);
      GoUp(arena, root, v, down, f.Kid(s).(red := false));
      ghost var f1 := Fill(down, f.Kid(s).(red := false));
      SetColor(sibling, true, x, f1, v);
      ghost var f2 := f1.(red := true);
      pivot := Rotate(sibling, s.Flip(), x, f2, v);
      ghost var f3 := TurnFresh(s.Flip(), f2);
      EraseInner(f, s, h, FreshOf(s.Flip(), f2.Kid(s.Flip()), f2.e.key, f2.Kid(s).Kid(s.Flip())), f2.aug);
      q := p.(far := f3);
      GoAcross(arena, root, v, x, f3);
    }

    /** A black sibling with a red child on the outside: one rotation ends the repair. */
    method EraseTurnOuter(parent: Ptr, sibling: Ptr, s: Side, ghost p: EdqPath, ghost t: EdqTree, ghost h: nat,
                          ghost v: View)
        returns (ghost u: EdqTree, ghost k: nat)
      requires p.Down? && p.side == s && Live(arena, root, v, p, t)
      requires Accepts(p, h + 1) && Balanced(t, h) && !Red(t)
      requires p.far.Node? && !p.far.red && Red(p.far.Kid(s.Flip()))
      requires parent == p.e.ptr && sibling == p.far.e.ptr
      modifies this`arena, this`root
      ensures Live(arena, root, v, p.up, u) && Balanced(u, k) && Accepts(p.up, k)
      ensures u.Node? && u.red == p.red && !(RedHook(p.up) && Red(u))
      ensures Same(old(arena), arena, Ptrs(v.contents))
    {
      hide Live;
      ghost var x, f := Across(p, t), p.far;
      Look(arena, root, v, p, t);
      GoAcross(arena, root, v, p, t);
      SetColor(sibling, arena[parent].red, x, f, v);
      ghost var f1 := f.(red := p.red);
      ghost var p1 := p.(far := f1);
      GoAcross(arena, root, v, x, f1);
      GoUp(arena, root, v, p1, t);
      SetColor(parent, false, p.up, Fill(p1, t), v);
      ghost var p2 := p1.(red := false);
      GoDown(arena, root, v, p2, t);
      GoAcross(arena, root, v, p2, t);
      Look(arena, root, v, Across(p2, t), f1);
      var outer := arena[sibling].Kid(s.Flip());
      ghost var down := Down(Across(p2, t), s.Flip(), f.e, f.aug, p.red, f.Kid(s));
      GoDown(arena, root, v, down, f.Kid(s.Flip()));
      SetColor(outer, false, down, f.Kid(s.Flip()), v);
      ghost var f3 := Fill(down, f.Kid(s.Flip()).(red := false));
      GoUp(arena, root, v, down, f.Kid(s.Flip()).(red := false));
      GoUp(arena, root, v, Across(p2, t), f3);
      ghost var t3 := Fill(Across(p2, t), f3);
      var _ := Rotate(parent, s, p.up, t3, v);
      u := TurnFresh(s, t3);
      k := if p.red then h + 1 else h + 2;
      EraseOuter(p, t, h, FreshOf(s, t, p.e.key, f.Kid(s)), p.aug);
    }

    /** A black sibling without red children turns red; so the parent's side is short too, or was red and pays. */
    method EraseRepaint(parent: Ptr, sibling: Ptr, ghost p: EdqPath, ghost t: EdqTree, ghost h: nat, ghost v: View)
        returns (paid: bool, ghost u: EdqTree)
      requires p.Down? && Live(arena, root, v, p, t)
      requires Accepts(p, h + 1) && Balanced(t, h) && !Red(t)
      requires p.far.Node? && !p.far.red && !Red(p.far.left) && !Red(p.far.right)
      requires parent == p.e.ptr && sibling == p.far.e.ptr
      modifies this`arena
      ensures paid == p.red
      ensures u.Node? && u.e == p.e && Live(arena, root, v, p.up, u) && Balanced(u, h + 1) && !Red(u)
      ensures Accepts(p.up, if paid then h + 1 else h + 2)
      ensures Same(old(arena), arena, Ptrs(v.contents))
    {
      hide Live;
      ghost var x, f := Across(p, t), p.far;
      GoAcross(arena, root, v, p, t);
      SetColor(sibling, true, x, f, v);
      ghost var p1 := p.(far := f.(red := true));
      GoAcross(arena, root, v, x, p1.far);
      Look(arena, root, v, p1, t);
      paid := arena[parent].red;
      GoUp(arena, root, v, p1, t);
      if paid {
        SetColor(parent, false, p.up, Fill(p1, t), v);
      }
      u := Fill(p1, t).(red := false);
      EraseRecolour(p, t, h);
    }

    method EraseFixup(start: Ptr, ghost p0: EdqPath, ghost v: View)
        returns (ghost w: EdqTree, ghost k: nat)
      requires Live(arena, root, v, p0, Leaf) && p0.Down? && p0.e.ptr == start
      requires Accepts(p0, 1) && BlackTop(p0)
      modifies this`arena, this`root
      ensures Live(arena, root, v, Top, w) && Balanced(w, k) && !Red(w)
      ensures Same(old(arena), arena, Ptrs(v.contents))
    {
      hide Live;
      var node, parent := NULL, start;
      ghost var p, t: EdqTree, h := p0, Leaf, 0;
      Look(arena, root, v, p, t);
      while parent != NULL
        invariant Live(arena, root, v, p, t) && Root(t) == node && Hook(p, NULL) == parent
        invariant p.Down? ==> parent != NULL
        invariant Accepts(p, h + 1) && Balanced(t, h) && !Red(t) && BlackTop(p)
        invariant Same(old(arena), arena, Ptrs(v.contents))
        decreases p
      {
        Look(arena, root, v, p, t);
        var s := if node == arena[parent].left then Left else Right;
        assert s == p.side;
        var sibling := arena[parent].Kid(s.Flip());
        if arena[sibling].red {
          p := EraseRed(parent, sibling, s, p, t, h, v);
          Look(arena, root, v, p, t);
          sibling := arena[parent].Kid(s.Flip());
        }
        GoAcross(arena, root, v, p, t);
        LookBelow(arena, root, v, Across(p, t), p.far);
        var inner, outer := arena[sibling].Kid(s), arena[sibling].Kid(s.Flip());
        if !(inner != NULL && arena[inner].red) && !(outer != NULL && arena[outer].red) {
          var paid;
          paid, t := EraseRepaint(parent, sibling, p, t, h, v);
          if paid {
            w, k := Plug(p.up, t), Height(p.up, h + 1);
            Close(arena, root, v, p.up, t, h + 1);
            return;
          }
          p, h := p.up, h + 1;
          Look(arena, root, v, p, t);
          node := parent;
          parent := arena[node].parent;
        } else {
          w, k := EraseTurn(parent, sibling, inner, outer, s, p, t, h, v);
          return;
        }
      }
      w, k := t, h;
    }

    /** A black sibling with a red child: at most two rotations end the repair. */
    method EraseTurn(parent: Ptr, sibling: Ptr, inner: Ptr, outer: Ptr, s: Side, ghost p: EdqPath, ghost t: EdqTree,
                     ghost h: nat, ghost v: View)
        returns (ghost w: EdqTree, ghost k: nat)
      requires p.Down? && p.side == s && Live(arena, root, v, p, t) && BlackTop(p)
      requires Accepts(p, h + 1) && Balanced(t, h) && !Red(t) && p.far.Node? && !Red(p.far)
      requires parent == p.e.ptr && sibling == p.far.e.ptr
      requires inner == Root(p.far.Kid(s)) && outer == Root(p.far.Kid(s.Flip()))
      requires Red(p.far.Kid(s)) || Red(p.far.Kid(s.Flip()))
      modifies this`arena, this`root
      ensures Live(arena, root, v, Top, w) && Balanced(w, k) && !Red(w)
      ensures Same(old(arena), arena, Ptrs(v.contents))
    {
      hide Live;
      GoAcross(arena, root, v, p, t);
      LookBelow(arena, root, v, Across(p, t), p.far);
      var pivot := sibling;
      ghost var q := p;
      if !(outer != NULL && arena[outer].red) {
        pivot, q := EraseTurnInner(sibling, inner, s, p, t, h, v);
      }
      ghost var u, j := EraseTurnOuter(parent, pivot, s, q, t, h, v);
      w, k := Plug(p.up, u), Height(p.up, j);
      Close(arena, root, v, p.up, u, j);
    }

    // ----- the queue -----

    ghost function Contents(): Contents
      reads this`tree
    {
      InOrder(tree)
    }

    /** The fields the queue keeps beside the tree. */
    ghost predicate Cached(c: Contents)
      reads this`nr, this`first, this`firstDeadline, this`minSlice
    {
      && nr == |c|
      && first == (if c == [] then NULL else c[0].ptr)
      && firstDeadline == (if c == [] then 0 else c[0].key.deadline)
      && minSlice == (if c == [] then 0 else LeastSlice(c))
    }

    ghost predicate Valid(db: u64, eb: u64)
      reads this
    {
      && Tidy(arena, root, tree, eb)
      && Ordered(db, eb, Contents(), seqno)
      && Cached(Contents())
      && owner.Keys == arena.Keys == holds.Keys
      && (forall n <- owner :: owner[n] == Here <==> n in Ptrs(Contents()))
    }

    /** Clears and fills in the node of a task that is in no queue. */
    method Blank(task: Ptr, key: Key, ghost eb: u64)
      requires Tidy(arena, root, tree, eb) && task != NULL && task in arena && task !in Ptrs(Contents())
      modifies this`arena
      ensures Tidy(arena, root, tree, eb)
      ensures arena == old(arena)[task := Cell(NULL, NULL, NULL, key, Mins(key.eligibility, key.slice), true)]
    {
      TidyRoot(arena, root, tree, eb);
      arena := arena[task := Cell(NULL, NULL, NULL, key, Mins(key.eligibility, key.slice), true)];
      RepFrame(old(arena), arena, tree, NULL);
    }

    /** The place of a new key: the hole at the end of the descent. */
    method Descend(key: Key, ghost db: u64, ghost eb: u64) returns (parent: Ptr, ghost p: EdqPath)
      requires Tidy(arena, root, tree, eb) && Ordered(db, eb, Contents(), key.seqno)
      requires InWindow(db, key.deadline)
      ensures Hole(arena, root, tree, p) && parent == Hook(p, NULL)
      ensures Between(db, Before(p), key, After(p))
    {
      parent := NULL;
      var cur := root;
      p := Top;
      ghost var t := tree;
      while cur != NULL
        invariant At(arena, root, p, t) && Plug(p, t) == tree && parent == Hook(p, NULL) && cur == Root(t)
        invariant Between(db, Before(p), key, After(p))
        decreases t
      {
        PlugInOrder(p, t);
        Passes(db, eb, Before(p), InOrder(t.left), t.e, InOrder(t.right), After(p), key);
        parent := cur;
        if NodeLess(key, arena[cur].key) {
          cur := arena[cur].left;
          p, t := Down(p, Left, t.e, t.aug, t.red, t.right), t.left;
        } else {
          cur := arena[cur].right;
          p, t := Down(p, Right, t.e, t.aug, t.red, t.left), t.right;
        }
        MoveDown(arena, root, p, t);
      }
    }

    method LinkLeaf(task: Ptr, parent: Ptr, ghost p: EdqPath, ghost n: EdqTree)
      requires Hole(arena, root, tree, p) && parent == Hook(p, NULL)
      requires n.Node? && n.left.Leaf? && n.right.Leaf? && n.e.ptr == task && task != NULL && task !in PathNodes(p)
      requires task in arena && arena[task] == Cell(NULL, NULL, NULL, n.e.key, n.aug, n.red)
      requires p.Down? ==> (NodeLess(n.e.key, p.e.key) <==> p.side.Left?)
      modifies this`arena, this`root
      ensures At(arena, root, p, n) && Same(old(arena), arena, PathNodes(p) + {task})
    {
      assert p.Down? ==> p.e.ptr != NULL;
      arena := arena[task := arena[task].(parent := parent)];
      if parent == NULL {
        root := task;
      } else if NodeLess(arena[task].key, arena[parent].key) {
        arena := arena[parent := arena[parent].(left := task)];
      } else {
        arena := arena[parent := arena[parent].(right := task)];
      }
      if p.Down? {
        RepFrame(old(arena), arena, p.far, parent);
        RepPathFrame(old(arena), arena, p.up, parent, NULL);
      }
    }

    /** Writes the node of a new entry and links it where it belongs. */
    method Place(task: Ptr, key: Key, ghost db: u64, ghost eb: u64)
      returns (parent: Ptr, ghost p: EdqPath, ghost n: EdqTree)
      requires Tidy(arena, root, tree, eb) && Ordered(db, eb, Contents(), key.seqno)
      requires task != NULL && task in arena && task !in Ptrs(Contents())
      requires InWindow(db, key.deadline) && InWindow(eb, key.eligibility)
      modifies this`arena, this`root
      ensures Placed(arena, root, tree, p, n, eb) && n.Node? && n.e == Entry(task, key) && parent == Hook(p, NULL)
      ensures Contents() == Before(p) + After(p) && Between(db, Before(p), key, After(p))
      ensures Same(old(arena), arena, Ptrs(Contents()) + {task})
      ensures forall x <- Contents() :: x.ptr != NULL && x.ptr in arena && arena[x.ptr].key == x.key
    {
      hide Tidy, Ordered, At, Hole, Placed, Between, InWindow, InOrder, Before, After, PathNodes, Ptrs;
      Blank(task, key, eb);
      ghost var m, root0 := arena, root;
      parent, p := Descend(key, db, eb);
      HoleFacts(arena, root, tree, p);
      SideOfKey(db, eb, p, key);
      n := Node(Leaf, Entry(task, key), Mins(key.eligibility, key.slice), true, Leaf);
      LinkLeaf(task, parent, p, n);
      FillHole(m, arena, root0, tree, root, p, n, eb);
    }

    /** What an insertion does once the new leaf n is linked. */
    method Settle(task: Ptr, parent: Ptr, ghost p: EdqPath, ghost n: EdqTree, ghost eb: u64) returns (ghost w: EdqTree)
      requires Placed(arena, root, tree, p, n, eb) && n.e.ptr == task && parent == Hook(p, NULL)
      modifies this`arena, this`root
      ensures Tidy(arena, root, w, eb) && InOrder(w) == Before(p) + [n.e] + After(p)
      ensures Same(old(arena), arena, Ptrs(InOrder(w)))
    {
      PlacedFacts(arena, root, tree, p, n, eb);
      ghost var v := View(eb, Before(p) + [n.e] + After(p));
      hide At, Held, Exact, InRange, Balanced, Live, Tidy, Ptrs, Before, After, PathNodes;
      w := Propagate(parent, NULL, p, n, eb);
      ghost var p', n' := ReadyToFix(arena, root, tree, p, n, v, w);
      ghost var k;
      w, k := InsertFixup(task, p', n', 0, v);
      MakeTidy(arena, root, v, w, k);
    }

    method StoreMinSlice(ghost eb: u64)
      requires Tidy(arena, root, tree, eb)
      modifies this`minSlice
      ensures minSlice == (if Contents() == [] then 0 else LeastSlice(Contents()))
    {
      TidyRoot(arena, root, tree, eb);
      minSlice := if root != NULL then arena[root].aug.slice else 0;
    }

    /** The part of an insertion that is left once the task is claimed. */
    method Enqueue(task: Ptr, key: Key, ghost db: u64, ghost eb: u64)
      requires Tidy(arena, root, tree, eb) && Ordered(db, eb, Contents(), key.seqno) && Cached(Contents())
      requires task != NULL && task in arena && task !in Ptrs(Contents())
      requires InWindow(db, key.deadline) && InWindow(eb, key.eligibility)
      modifies this`arena, this`root, this`first, this`firstDeadline, this`nr, this`minSlice, this`tree
      ensures Tidy(arena, root, tree, eb) && Ordered(db, eb, Contents(), key.seqno + 1) && Cached(Contents())
      ensures Inserted(old(Contents()), Entry(task, key), Contents())
      ensures Ptrs(Contents()) == old(Ptrs(Contents())) + {task}
      ensures Same(old(arena), arena, Ptrs(Contents())) && arena.Keys == old(arena.Keys)
    {
      hide Tidy, Ordered, Placed, InOrder, Before, After, Between, NodeLess, LeastSlice, Inserted, InWindow, Ptrs, Same;
      var parent;
      ghost var p, n;
      parent, p, n := Place(task, key, db, eb);
      ghost var x, a, b := n.e, Before(p), After(p);
      ghost var m, c := arena, Contents();
      InsertOrdered(db, eb, a, x, b);
      if first == NULL || NodeLess(key, arena[first].key) {
        first := task;
        firstDeadline := key.deadline;
      }
      nr := nr + 1;
      ghost var d := a + [x] + b;
      assert nr == |d| && first == d[0].ptr && firstDeadline == d[0].key.deadline;
      tree := Settle(task, parent, p, n, eb);
      TidyRoot(arena, root, tree, eb);
      SameTrans(old(arena), m, arena, Ptrs(d));
      StoreMinSlice(eb);
    }

    method Insert(task: Ptr, deadline: u64, eligibility: u64, slice: u64, ghost db: u64, ghost eb: u64)
      returns (ret: int)
      requires Valid(db, eb) && task != NULL && task in owner
      requires owner[task] == Nobody ==> InWindow(db, deadline) && InWindow(eb, eligibility) && seqno + 1 < TWO64
      modifies this
      ensures ret == match old(owner[task]) case Nobody => 0 case Dead => -ECANCELED case _ => -EALREADY
      ensures ret != 0 ==> unchanged(this)
      ensures ret == 0 ==>
        && Valid(db, eb)
        && Inserted(old(Contents()), Entry(task, Key(deadline, eligibility, slice, old(seqno))), Contents())
        && owner == old(owner)[task := Here] && seqno == old(seqno) + 1 && holds == old(holds)
        && Same(old(arena), arena, Ptrs(Contents()))
    {
      hide Tidy, Ordered, InOrder, Inserted, InWindow, Ptrs, Same, LeastSlice;
      if owner[task] != Nobody {
        ret := if owner[task] == Dead then -ECANCELED else -EALREADY;
        return;
      }
      var key := Key(deadline, eligibility, slice, seqno);
      owner := owner[task := Here];
      seqno := seqno + 1;
      Enqueue(task, key, db, eb);
      ret := 0;
    }

    // ----- taking a node out -----

    method Leftmost(n: Ptr, ghost t: EdqTree, ghost parent: Ptr) returns (r: Ptr, ghost q: EdqPath, ghost u: EdqTree)
      requires t.Node? && t.e.ptr == n && Rep(arena, t, parent)
      ensures Plug(q, u) == t && u.Node? && u.left.Leaf? && u.e.ptr == r
      ensures Before(q) == [] && (q.Down? ==> q.side.Left?)
    {
      r := n;
      q, u := Top, t;
      while arena[r].left != NULL
        invariant u.Node? && u.e.ptr == r && Rep(arena, u, Hook(q, parent)) && Plug(q, u) == t
        invariant Before(q) == [] && (q.Down? ==> q.side.Left?)
        decreases u
      {
        r := arena[r].left;
        q, u := Down(q, Left, u.e, u.aug, u.red, u.right), u.left;
      }
    }

    /** Hangs the only child of a node into its place. */
    method Bypass(node: Ptr, child: Ptr, ghost p: EdqPath, ghost t: EdqTree, ghost c: EdqTree)
      requires At(arena, root, p, t) && t.Node? && t.e.ptr == node && child == Root(c)
      requires (c == t.left && t.right.Leaf?) || (c == t.right && t.left.Leaf?)
      modifies this`arena, this`root
      ensures At(arena, root, p, c) && Same(old(arena), arena, All(p, t))
    {
      assert Rep(arena, c, node) && Distinct(c) && Nodes(c) !! PathNodes(p) && node !in PathNodes(p);
      assert c.Node? ==> child in Nodes(c) && child != NULL && child in arena;
      ReplaceChild(arena[node].parent, node, child, p);
      if c.Node? {
        RepFrame(old(arena), arena, c.left, child);
        RepFrame(old(arena), arena, c.right, child);
      }
    }

    /** A node with at most one child: the child takes its place and its color. */
    method SpliceOne(node: Ptr, ghost p: EdqPath, ghost t: EdqTree) returns (from: Ptr, rebalance: Ptr)
      requires At(arena, root, p, t) && t.Node? && t.e.ptr == node && (t.left.Leaf? || t.right.Leaf?)
      modifies this`arena, this`root
      ensures At(arena, root, p, Heir(t)) && from == Hook(p, NULL)
      ensures rebalance == if Heir(t).Leaf? && !t.red then from else NULL
      ensures Same(old(arena), arena, All(p, t))
    {
      var cell := arena[node];
      var child := if cell.left != NULL then cell.left else cell.right;
      ghost var side := if t.left.Node? then Left else Right;
      ghost var c := t.Kid(side);
      assert Rep(arena, c, node) && child == Root(c) && (c.Node? ==> child != NULL && child in All(p, t));
      hide At;
      ghost var q := Down(p, side, t.e, t.aug, t.red, t.Kid(side.Flip()));
      ghost var u := t;
      rebalance := NULL;
      if child != NULL {
        MoveDown(arena, root, q, c);
        Paint(child, cell.red, q, c);
        c := c.(red := t.red);
        u := Fill(q, c);
        MoveUp(arena, root, q, c);
      } else if !cell.red {
        rebalance := cell.parent;
      }
      from := cell.parent;
      assert All(p, u) == All(p, t);
      ghost var m := arena;
      Bypass(node, child, p, u, c);
      SameMore(old(arena), m, All(p, t), All(p, t));
      SameTrans(old(arena), m, arena, All(p, t));
    }

    /** Takes the leftmost node u out of the subtree below q, and hangs the subtree from it. */
    method Unhook(succ: Ptr, ghost q: EdqPath, ghost u: EdqTree, ghost top: Ptr) returns (parent: Ptr, child: Ptr)
      requires q.Down? && q.side.Left? && u.Node? && u.left.Leaf? && u.e.ptr == succ && Held(arena, q, u, top)
      modifies this`arena
      ensures parent == q.e.ptr && child == Root(u.right)
      ensures Held(arena, q, u.right, top)
      ensures Same(old(arena), arena, All(q, u)) && arena[succ] == old(arena[succ])
    {
      assert Rep(arena, u.right, succ) && Distinct(u.right) && Nodes(u) == {succ} + Nodes(u.right);
      parent := arena[succ].parent;
      child := arena[succ].right;
      arena := arena[parent := arena[parent].(left := child)];
      Rehole(old(arena), q, succ, child, top);
      RepFrame(old(arena), arena, u.right, succ);
      ghost var m := arena;
      if child != NULL {
        arena := arena[child := arena[child].(parent := parent)];
        Reparent(m, u.right, succ, parent);
        RepPathFrame(m, arena, q, child, top);
      }
    }

    /** Hangs the rest of the subtree from the node that was taken out. */
    method Hang(succ: Ptr, below: Ptr, ghost q: EdqPath, ghost c: EdqTree, ghost top: Ptr)
      requires q.Down? && Held(arena, q, c, top) && below == RootOf(q, Root(c))
      requires succ in arena && succ !in All(q, c)
      modifies this`arena
      ensures Same(old(arena), arena, All(q, c) + {succ})
      ensures Held(arena, q, c, succ) && arena[succ] == old(arena[succ]).(right := below)
    {
      arena := arena[succ := arena[succ].(right := below)];
      RepPathFrame(old(arena), arena, q, Root(c), top);
      ghost var m := arena;
      Retop(m, q, Root(c), top, succ);
      arena := arena[below := arena[below].(parent := succ)];
      RepFrame(old(arena), arena, c, q.e.ptr);
    }

    /** The successor of a node with two children, lifted out of the right subtree r that it now heads. */
    method Lift(node: Ptr, ghost t: EdqTree, ghost up: Ptr, ghost eb: u64)
        returns (succ: Ptr, parent: Ptr, child: Ptr, ghost q: EdqPath, ghost u: EdqTree)
      requires t.Node? && t.e.ptr == node && t.left.Node? && t.right.Node? && Rep(arena, t, up) && Distinct(t)
      modifies this`arena
      ensures t.right == Plug(q, u) && Before(q) == [] && u.Node? && u.left.Leaf? && u.e.ptr == succ
      ensures parent == Hook(q, succ) && child == Root(u.right) && (child == NULL <==> u.right.Leaf?)
      ensures Held(arena, q, u.right, succ) && succ !in All(q, u.right) && All(q, u.right) + {succ} == Nodes(t.right)
      ensures succ != NULL && succ in arena && arena[succ].right == Root(Plug(q, u.right))
      ensures arena[succ].key == u.e.key && arena[succ].red == u.red
      ensures Same(old(arena), arena, Nodes(t.right))
    {
      assert Rep(arena, t.right, node) && Held(arena, Top, t.right, node);
      succ := arena[node].right;
      if arena[succ].left == NULL {
        q, u := Top, t.right;
        assert Rep(arena, u.left, succ) && u.left.Leaf?;
        assert Nodes(u) == {succ} + Nodes(u.right) && Held(arena, Top, u.right, succ);
        parent, child := succ, arena[succ].right;
      } else {
        succ, q, u := Leftmost(succ, t.right, node);
        HeldTop(arena, q, u, node);
        assert Nodes(u) == {succ} + Nodes(u.right);
        parent, child := Unhook(succ, q, u, node);
        HeldTop(arena, q, u.right, node);
        ghost var m := arena;
        Hang(succ, arena[node].right, q, u.right, node);
      }
    }

    /** Puts the successor, which heads the subtree r, into the place of the node. */
    method Install(node: Ptr, succ: Ptr, ghost p: EdqPath, ghost l: EdqTree, ghost n: EdqTree, ghost r: EdqTree)
      requires l.Node? && Held(arena, Top, l, node) && Held(arena, Top, r, succ)
      requires DistinctPath(p) && RepPath(arena, p, node, NULL) && root == RootOf(p, node)
      requires n.Node? && n.left == l && n.right == r && n.e.ptr == succ && Distinct(n) && Nodes(n) !! PathNodes(p)
      requires succ != NULL && succ in arena && arena[succ].right == Root(r)
      requires arena[succ].key == n.e.key && arena[succ].aug == n.aug && arena[succ].red == n.red
      requires node != NULL && node in arena && arena[node].left == l.e.ptr && arena[node].parent == Hook(p, NULL)
      requires node !in PathNodes(p) && node !in Nodes(n)
      modifies this`arena, this`root
      ensures At(arena, root, p, n) && Same(old(arena), arena, All(p, n)) && arena[node] == old(arena[node])
    {
      var left := arena[node].left;
      arena := arena[succ := arena[succ].(left := left)];
      ghost var m := arena;
      RepFrame(old(arena), m, l, node);
      arena := arena[left := arena[left].(parent := succ)];
      Reparent(m, l, node, succ);
      RepFrame(old(arena), arena, r, succ);
      RepPathFrame(old(arena), arena, p, node, NULL);
      ghost var m2 := arena;
      ReplaceChild(arena[node].parent, node, succ, p);
      RepFrame(m2, arena, l, succ);
      RepFrame(m2, arena, r, succ);
    }

    /** Lifts the successor and refreshes the minimums on the way up to it. */
    method Raise(node: Ptr, ghost t: EdqTree, ghost up: Ptr, ghost eb: u64)
        returns (succ: Ptr, parent: Ptr, child: Ptr, ghost q: EdqPath, ghost u: EdqTree, ghost r: EdqTree)
      requires t.Node? && t.e.ptr == node && t.left.Node? && t.right.Node? && Rep(arena, t, up) && Distinct(t)
      requires InRange(eb, t.right) && Exact(eb, t.right)
      modifies this`arena
      ensures t.right == Plug(q, u) && Before(q) == [] && u.Node? && u.left.Leaf? && u.e.ptr == succ
      ensures parent == Hook(q, succ) && child == Root(u.right) && (child == NULL <==> u.right.Leaf?)
      ensures Held(arena, Top, r, succ) && Bare(r) == Bare(Plug(q, u.right)) && Exact(eb, r)
      ensures succ !in Nodes(r) && Nodes(r) + {succ} == Nodes(t.right)
      ensures succ != NULL && succ in arena && arena[succ].right == Root(r)
      ensures arena[succ].key == u.e.key && arena[succ].aug == t.aug && arena[succ].red == u.red
      ensures Same(old(arena), arena, Nodes(t.right))
    {
      assert node in arena && arena[node].aug == t.aug && node != NULL && node !in Nodes(t.right);
      hide Rep, RepPath, Held, InRange, Exact, Distinct, DistinctPath;
      succ, parent, child, q, u := Lift(node, t, up, eb);
      assert arena[node].aug == t.aug;
      hide Same;
      ghost var m, s := arena, Nodes(t.right);
      arena := arena[succ := arena[succ].(aug := arena[node].aug)];
      SameUpdate(m, succ, arena[succ]);
      SameMore(m, arena, {succ}, s);
      SameTrans(old(arena), m, arena, s);
      HeldFrame(m, arena, q, u.right, succ);
      HeldTop(arena, q, u.right, succ);
      LiftedExact(eb, q, u);
      r := u.right;
      if parent != succ {
        ghost var m2 := arena;
        r := Propagate(parent, succ, q, u.right, eb);
        SameKeeps(m2, arena, PathNodes(q), succ);
        SameMore(m2, arena, PathNodes(q), s);
        SameTrans(old(arena), m2, arena, s);
      }
      SameNodes(r, Plug(q, u.right));
    }

    /** Moves the successor into the place of a node with two children. */
    method Promote(node: Ptr, ghost p: EdqPath, ghost t: EdqTree, ghost eb: u64)
        returns (succ: Ptr, parent: Ptr, child: Ptr, ghost q: EdqPath, ghost u: EdqTree, ghost r: EdqTree)
      requires At(arena, root, p, t) && t.Node? && t.e.ptr == node && t.left.Node? && t.right.Node?
      requires InRange(eb, t) && Exact(eb, t)
      modifies this`arena, this`root
      ensures t.right == Plug(q, u) && Before(q) == [] && u.Node? && u.left.Leaf? && u.e.ptr == succ
      ensures parent == Hook(q, succ) && child == Root(u.right) && (child == NULL <==> u.right.Leaf?)
      ensures Bare(r) == Bare(Plug(q, u.right)) && Exact(eb, r)
      ensures At(arena, root, p, Node(t.left, u.e, t.aug, u.red, r))
      ensures Same(old(arena), arena, All(p, t)) && All(p, Node(t.left, u.e, t.aug, u.red, r)) <= All(p, t)
    {
      ghost var s := All(p, t);
      assert node in arena && node != NULL && arena[node].left == t.left.e.ptr && arena[node].parent == Hook(p, NULL);
      succ, parent, child, q, u, r := Raise(node, t, Hook(p, NULL), eb);
      ghost var m := arena;
      ghost var n := Node(t.left, u.e, t.aug, u.red, r);
      RepFrame(old(arena), arena, t.left, node);
      RepPathFrame(old(arena), arena, p, node, NULL);
      hide Rep, RepPath, Exact, InRange;
      Install(node, succ, p, t.left, n, r);
      SameMore(old(arena), m, Nodes(t.right), s);
      SameMore(m, arena, All(p, n), s);
      SameTrans(old(arena), m, arena, s);
    }

    /** A node with two children: its successor takes its place and its color. */
    method SpliceTwo(node: Ptr, ghost p: EdqPath, ghost t: EdqTree, ghost eb: u64)
        returns (succ: Ptr, rebalance: Ptr, ghost q: EdqPath, ghost u: EdqTree, ghost r: EdqTree)
      requires At(arena, root, p, t) && t.Node? && t.e.ptr == node && t.left.Node? && t.right.Node?
      requires InRange(eb, t) && Exact(eb, t)
      modifies this`arena, this`root
      ensures t.right == Plug(q, u) && Before(q) == [] && u.Node? && u.left.Leaf? && u.e.ptr == succ
      ensures At(arena, root, Promoted(p, t, u), r)
      ensures Bare(r) == Bare(Plug(q, Blackened(u.right))) && Exact(eb, r)
      ensures rebalance == if u.right.Leaf? && !u.red then Hook(q, succ) else NULL
      ensures Same(old(arena), arena, All(p, t))
    {
      var color := arena[node].red;
      hide At, Held, InRange, Exact, Bare, Same;
      var parent, child;
      ghost var s := All(p, t);
      succ, parent, child, q, u, r := Promote(node, p, t, eb);
      ghost var m := arena;
      ghost var p0 := Down(p, Right, u.e, t.aug, u.red, t.left);
      MoveDown(arena, root, p0, r);
      LookAt(arena, root, p0, r);
      rebalance := NULL;
      if child != NULL {
        ghost var below := Nodes(r);
        r := PaintBelow(child, p0, r, q, u.right, eb);
        SameMore(m, arena, below, s);
        SameTrans(old(arena), m, arena, s);
      } else if !arena[succ].red {
        rebalance := parent;
      }
      MoveUp(arena, root, p0, r);
      ghost var m2 := arena;
      Paint(succ, color, p, Fill(p0, r));
      SameMore(m2, arena, {succ}, s);
      SameTrans(old(arena), m2, arena, s);
      MoveDown(arena, root, Promoted(p, t, u), r);
    }

    /** Paints the root of c black, somewhere below the subtree r. */
    method PaintBelow(child: Ptr, ghost p: EdqPath, ghost r: EdqTree, ghost q: EdqPath, ghost c: EdqTree, ghost eb: u64)
        returns (ghost r': EdqTree)
      requires At(arena, root, p, r) && Bare(r) == Bare(Plug(q, c)) && c.Node? && c.e.ptr == child && Exact(eb, r)
      modifies this`arena
      ensures At(arena, root, p, r') && Bare(r') == Bare(Plug(q, c.(red := false))) && Exact(eb, r')
      ensures Same(old(arena), arena, Nodes(r))
    {
      BarePlug(q, c);
      ghost var q', c' := Reopen(BarePath(q), Bare(c), r);
      ComposePlug(q', p, c');
      Zoom(arena, root, p, r);
      Zoom(arena, root, Compose(q', p), c');
      Paint(child, false, Compose(q', p), c');
      ghost var d := c'.(red := false);
      r' := Plug(q', d);
      ComposePlug(q', p, d);
      Zoom(arena, root, p, r');
      Zoom(arena, root, Compose(q', p), d);
      BarePlug(q', d);
      BarePlug(q, c.(red := false));
      PlugExact(eb, q', c');
      PlugExact(eb, q', d);
      HeldTop(arena, q', c', Hook(p, NULL));
    }

    /** Refreshes the minimums and pays what the colours owe. */
    method Repair(from: Ptr, rebalance: Ptr, ghost p: EdqPath, ghost t: EdqTree, ghost d: Debt, ghost v: View)
        returns (ghost w: EdqTree)
      requires At(arena, root, p, t) && from == Hook(p, NULL)
      requires PathInRange(v.base, p) && InRange(v.base, t) && Exact(v.base, t) && Stale(v.base, p)
      requires InOrder(Plug(p, t)) == v.contents && Owes(Bare(Plug(p, t)), d)
      requires rebalance == if d.Short? then d.q.e.ptr else NULL
      modifies this`arena, this`root
      ensures Tidy(arena, root, w, v.base) && InOrder(w) == v.contents
      ensures Same(old(arena), arena, Ptrs(v.contents))
    {
      hide Exact, InRange, Stale, PathInRange, Held, Live, Same, Balanced, Accepts, Tidy, InOrder;
      ghost var u, s := Plug(p, t), Ptrs(v.contents);
      HeldTop(arena, p, t, NULL);
      PlugInRange(v.base, p, t);
      NodesArePtrs(u);
      w := Propagate(from, NULL, p, t, v.base);
      SameMore(old(arena), arena, PathNodes(p), s);
      ghost var q := Settled(arena, root, u, w, d, v);
      ghost var m := arena;
      if rebalance != NULL {
        ghost var k;
        w, k := EraseFixup(rebalance, q, v);
        MakeTidy(arena, root, v, w, k);
        SameTrans(old(arena), m, arena, s);
      }
    }

    /** The node that comes first once the first node is gone. */
    method NextFirst(node: Ptr, ghost p: EdqPath, ghost t: EdqTree) returns (next: Ptr)
      requires At(arena, root, p, t) && t.Node? && t.e.ptr == node && t.left.Leaf? && Before(p) == []
      ensures var c := InOrder(Plug(p, t)); |c| > 0 && next == if |c| == 1 then NULL else c[1].ptr
    {
      PlugInOrder(p, t);
      SecondEntry(p);
      if arena[node].right != NULL {
        ghost var q, u;
        next, q, u := Leftmost(arena[node].right, t.right, node);
        PlugInOrder(q, u);
        assert InOrder(t.right)[0] == u.e;
      } else {
        assert Rep(arena, t.right, node) && t.right.Leaf?;
        next := arena[node].parent;
        assert p.Down? ==> p.e.ptr != NULL;
      }
    }

    /** Cuts a node out of the tree: what is left to do starts at `from`, and at `rebalance` for the colours. */
    method Splice(node: Ptr, ghost p: EdqPath, ghost t: EdqTree, ghost eb: u64)
        returns (from: Ptr, rebalance: Ptr, ghost q: EdqPath, ghost u: EdqTree, ghost d: Debt, ghost k: nat)
      requires Tidy(arena, root, tree, eb) && Plug(p, t) == tree && t.Node? && t.e.ptr == node
      modifies this`arena, this`root
      ensures k < |Contents()| && Contents()[k].ptr == node
      ensures Cut(arena, root, q, u, d, View(eb, Contents()[..k] + Contents()[k + 1..]))
      ensures from == Hook(q, NULL) && rebalance == if d.Short? then d.q.e.ptr else NULL
      ensures Same(old(arena), arena, Ptrs(Contents()))
    {
      hide Tidy, Balanced, InRange, Exact, Stale, PathInRange, Owes, Before, After, BlackHeight;
      hide At, Held, Same, InOrder, Ptrs, All, Plug, Bare, Red;
      TidyNode(arena, root, tree, eb, p, t);
      if arena[node].left == NULL || arena[node].right == NULL {
        from, rebalance := SpliceOne(node, p, t);
        q, u := p, Heir(t);
        d, k := CutOne(tree, p, t, eb);
      } else {
        ghost var x, y;
        from, rebalance, x, y, u := SpliceTwo(node, p, t, eb);
        q := Promoted(p, t, y);
        d, k := CutTwo(tree, p, t, x, y, u, eb);
      }
    }

    /** A node without links, ready to be inserted as a leaf. */
    ghost predicate Cleared(cell: Cell<Key, Mins>) {
      && cell.parent == NULL && cell.left == NULL && cell.right == NULL && cell.red
      && cell.aug == Mins(cell.key.eligibility, cell.key.slice)
    }

    /** Resets the node of a task that has left the tree. */
    method Clear(node: Ptr, ghost p: EdqPath, ghost t: EdqTree, ghost d: Debt, ghost v: View)
      requires Cut(arena, root, p, t, d, v) && node in arena && node != NULL && node !in Ptrs(v.contents)
      modifies this`arena
      ensures Cut(arena, root, p, t, d, v)
      ensures Same(old(arena), arena, {node}) && node in arena && Cleared(arena[node])
    {
      HeldTop(arena, p, t, NULL);
      NodesArePtrs(Plug(p, t));
      var key := arena[node].key;
      arena := arena[node := Cell(NULL, NULL, NULL, key, Mins(key.eligibility, key.slice), true)];
      HeldFrame(old(arena), arena, p, t, NULL);
    }

    /** The first part of a removal: the node leaves the tree and the head of the queue moves on. */
    method Unlink(node: Ptr, ghost db: u64, ghost eb: u64)
        returns (from: Ptr, rebalance: Ptr, ghost q: EdqPath, ghost u: EdqTree, ghost d: Debt, ghost v: View)
      requires Tidy(arena, root, tree, eb) && Ordered(db, eb, Contents(), seqno) && Cached(Contents())
      requires node in Ptrs(Contents())
      modifies this`arena, this`root, this`first, this`firstDeadline, this`nr
      ensures v.base == eb && Cut(arena, root, q, u, d, v) && from == Hook(q, NULL)
      ensures rebalance == if d.Short? then d.q.e.ptr else NULL
      ensures Ordered(db, eb, v.contents, seqno) && Removed(Contents(), node, v.contents)
      ensures Ptrs(v.contents) == Ptrs(Contents()) - {node} && node != NULL && node in arena
      ensures var c := v.contents;
        && nr == |c|
        && first == (if c == [] then NULL else c[0].ptr) && firstDeadline == (if c == [] then 0 else c[0].key.deadline)
      ensures Same(old(arena), arena, Ptrs(Contents()))
    {
      hide Tidy, Ordered, At, Cut, NoRepeats, InOrder, Ptrs, Same, LeastSlice, Removed, Plug, Before, Nodes;
      ghost var c, s := Contents(), Ptrs(Contents());
      TidyRoot(arena, root, tree, eb);
      TidyNoRepeats(arena, root, tree, db, eb, seqno);
      ghost var p, t := Find(tree, node);
      TidyAt(arena, root, tree, eb, p, t);
      FrontNode(p, t);
      var nextFirst := NULL;
      if first == node {
        nextFirst := NextFirst(node, p, t);
      }
      ghost var k;
      from, rebalance, q, u, d, k := Splice(node, p, t, eb);
      v := View(eb, c[..k] + c[k + 1..]);
      RemoveOrdered(c, db, eb, seqno, k);
      CutKeys(arena, root, q, u, d, v);
      SameMore(old(arena), arena, s, s);
      nr := nr - 1;
      if first == node {
        first := nextFirst;
        firstDeadline := if nextFirst != NULL then arena[nextFirst].key.deadline else 0;
      }
    }

    /** The part of a removal that concerns the queue. */
    method Dequeue(node: Ptr, ghost db: u64, ghost eb: u64)
      requires Tidy(arena, root, tree, eb) && Ordered(db, eb, Contents(), seqno) && Cached(Contents())
      requires node in Ptrs(Contents())
      modifies this`arena, this`root, this`first, this`firstDeadline, this`nr, this`minSlice, this`tree
      ensures Tidy(arena, root, tree, eb) && Ordered(db, eb, Contents(), seqno) && Cached(Contents())
      ensures Removed(old(Contents()), node, Contents())
      ensures Ptrs(Contents()) == old(Ptrs(Contents())) - {node}
      ensures Same(old(arena), arena, old(Ptrs(Contents()))) && arena.Keys == old(arena.Keys)
      ensures node in arena && Cleared(arena[node])
    {
      hide Tidy, Ordered, Cut, InOrder, Ptrs, Same, LeastSlice, Removed, Cleared;
      ghost var s := Ptrs(Contents());
      var from, rebalance;
      ghost var q, u, d, v;
      from, rebalance, q, u, d, v := Unlink(node, db, eb);
      ghost var m := arena;
      Clear(node, q, u, d, v);
      SameMore(m, arena, {node}, s);
      SameTrans(old(arena), m, arena, s);
      m := arena;
      tree := Mend(from, rebalance, q, u, d, v);
      SameAt(m, arena, Ptrs(v.contents), node);
      SameMore(m, arena, Ptrs(v.contents), s);
      SameTrans(old(arena), m, arena, s);
      StoreMinSlice(eb);
    }

    method RemoveLocked(task: Ptr, dead: bool, ghost db: u64, ghost eb: u64) returns (ret: int)
      requires Valid(db, eb) && task in owner
      modifies this
      ensures ret == if old(owner[task]) == Here then 0 else -EINVAL
      ensures ret != 0 ==> unchanged(this)
      ensures ret == 0 ==>
        && Valid(db, eb)
        && Removed(old(Contents()), task, Contents())
        && owner == old(owner)[task := if dead then Dead else Nobody] && seqno == old(seqno) && holds == old(holds)
        && Same(old(arena), arena, old(Ptrs(Contents()))) && task in arena && Cleared(arena[task])
    {
      hide Tidy, Ordered, InOrder, Ptrs, Same, LeastSlice, Removed, Cleared;
      if owner[task] != Here {
        ret := -EINVAL;
        return;
      }
      Dequeue(task, db, eb);
      owner := owner[task := if dead then Dead else Nobody];
      ret := 0;
    }

    method Mend(from: Ptr, rebalance: Ptr, ghost p: EdqPath, ghost t: EdqTree, ghost d: Debt, ghost v: View)
        returns (ghost w: EdqTree)
      requires Cut(arena, root, p, t, d, v) && from == Hook(p, NULL)
      requires rebalance == if d.Short? then d.q.e.ptr else NULL
      modifies this`arena, this`root
      ensures Tidy(arena, root, w, v.base) && InOrder(w) == v.contents
      ensures Same(old(arena), arena, Ptrs(v.contents))
    {
      w := Repair(from, rebalance, p, t, d, v);
    }

    // ----- looking -----

    method FirstEligible(cutoff: u64, ghost db: u64, ghost eb: u64) returns (node: Ptr)
      requires Valid(db, eb) && InWindow(eb, cutoff)
      ensures node == match EarliestEligible(Contents(), cutoff) case Some(x) => x.ptr case None => NULL
    {
      node := root;
      if node == NULL {
        return;
      }
      RootDecides(eb, tree, cutoff);
      if !TimeBeforeEq(arena[node].aug.eligibility, cutoff) {
        node := NULL;
        return;
      }
      ghost var t, up := tree, NULL;
      while true
        invariant t.Node? && t.e.ptr == node && Rep(arena, t, up) && InRange(eb, t) && Exact(eb, t)
        invariant EarliestEligible(InOrder(t), cutoff).Some?
        invariant EarliestEligible(InOrder(t), cutoff) == EarliestEligible(Contents(), cutoff)
        decreases t
      {
        hide EarliestEligible, InOrder, Valid;
        var left := arena[node].left;
        ScanNode(t, cutoff);
        if t.left.Node? {
          RootDecides(eb, t.left, cutoff);
        }
        if left != NULL && TimeBeforeEq(arena[left].aug.eligibility, cutoff) {
          t, up := t.left, node;
          node := left;
        } else {
          NoneInLeaf(t.left, cutoff);
          if TimeBeforeEq(arena[node].key.eligibility, cutoff) {
            return;
          }
          // Something in this subtree is eligible, so it is on the right.
          NoneInLeaf(t.right, cutoff);
          t, up := t.right, node;
          node := arena[node].right;
        }
      }
    }

    /** The descent of a cursor: the first entry beyond it is the last node where it went left. */
    method DescendPast(cur: Cursor, ghost db: u64, ghost eb: u64) returns (next: Ptr)
      requires Tidy(arena, root, tree, eb) && Sorted(db, Contents()) && Windowed(db, eb, Contents())
      requires CursorFits(db, cur) && !cur.Start?
      ensures next == match NextOf(cur, Contents()) case Some(x) => x.ptr case None => NULL
    {
      assert Held(arena, Top, tree, NULL) && root == Root(tree);
      hide Tidy, NextOf, Sorted, Windowed, Splits;
      EmptySplit(cur);
      next := NULL;
      var node := root;
      ghost var p: EdqPath, t := Top, tree;
      while node != NULL
        invariant Held(arena, p, t, NULL) && Plug(p, t) == tree && node == Root(t)
        invariant Splits(cur, Before(p), After(p))
        invariant next == if After(p) == [] then NULL else After(p)[0].ptr
        decreases t
      {
        hide KeyBefore;
        PlugInOrder(p, t);
        CursorPasses(db, eb, Before(p), InOrder(t.left), t.e, InOrder(t.right), After(p), cur);
        if KeyBefore(cur, arena[node].key) {
          next := node;
          node := arena[node].left;
          p, t := Down(p, Left, t.e, t.aug, t.red, t.right), t.left;
        } else {
          node := arena[node].right;
          p, t := Down(p, Right, t.e, t.aug, t.red, t.left), t.right;
        }
        HeldUp(arena, p, t, NULL);
      }
      EndOfDescent(cur, p, tree);
    }

    /** The first task beyond a cursor, and the cursor behind it. */
    method PeekNext(cur: Cursor, ghost db: u64, ghost eb: u64) returns (task: Ptr, after: Cursor)
      requires Valid(db, eb) && CursorFits(db, cur)
      ensures task == (match NextOf(cur, Contents()) case Some(x) => x.ptr case None => NULL)
      ensures task != NULL ==> task in arena
      ensures after == Advance(NextOf(cur, Contents())) && CursorFits(db, after)
      ensures after == if task == NULL then Start else Past(arena[task].key.deadline, arena[task].key.seqno)
    {
      TidyRoot(arena, root, tree, eb);
      NextBeyond(cur, Contents());
      hide Tidy, Sorted, InOrder;
      if cur.Start? {
        task := first;
      } else {
        task := DescendPast(cur, db, eb);
      }
      if task != NULL {
        after := Past(arena[task].key.deadline, arena[task].key.seqno);
      } else {
        after := Start;
      }
    }

    /** Looks at the next task and holds it, unless the lock is taken. */
    method TryPeekNext(taken: bool, cur: Cursor, ghost db: u64, ghost eb: u64)
      returns (ret: int, task: Ptr, after: Cursor)
      requires Valid(db, eb) && CursorFits(db, cur)
      modifies this`holds
      ensures Valid(db, eb) && CursorFits(db, after)
      ensures taken ==> ret == -EBUSY && task == NULL && after == cur && holds == old(holds)
      ensures !taken ==>
        && ret == 0 && task == (match NextOf(cur, Contents()) case Some(x) => x.ptr case None => NULL)
        && after == Advance(NextOf(cur, Contents())) && (task != NULL ==> task in arena)
        && after == (if task == NULL then Start else Past(arena[task].key.deadline, arena[task].key.seqno))
        && (task == NULL ==> holds == old(holds))
        && (task != NULL ==> task in old(holds) && holds == old(holds)[task := old(holds)[task] + 1])
    {
      hide *;
      ValidMeans(db, eb);
      if taken {
        return -EBUSY, NULL, cur;
      }
      task, after := PeekNext(cur, db, eb);
      if task != NULL {
        holds := holds[task := holds[task] + 1];
      }
      ret := 0;
      ValidMeans(db, eb);
    }

    /** The part of validity that hold counts have a share in. */
    lemma ValidMeans(db: u64, eb: u64)
      ensures Valid(db, eb) <==>
        && Tidy(arena, root, tree, eb) && Ordered(db, eb, Contents(), seqno) && Cached(Contents())
        && owner.Keys == arena.Keys == holds.Keys
        && (forall n <- owner :: owner[n] == Here <==> n in Ptrs(Contents()))
    {
      hide Tidy, Ordered, Cached, InOrder, Ptrs;
    }

    /** A queue that is valid for one pair of half ranges is valid for every pair that holds its entries. */
    lemma Rebase(db: u64, eb: u64, db': u64, eb': u64)
      requires Valid(db, eb) && Windowed(db', eb', Contents())
      ensures Valid(db', eb')
    {
      RebaseSorted(db, db', eb, eb', Contents());
      WindowedInRange(db', eb', tree);
      RebaseExact(eb, eb', tree);
    }

    // ----- popping -----

    /** The hold counts after a task has left with or without a hold on it. */
    ghost function Holding(task: Ptr, hold: bool): map<Ptr, nat>
      reads this`holds
    {
      if hold && task in holds then holds[task := holds[task] + 1] else holds
    }

    method PopNode(node: Ptr, hold: bool, ghost db: u64, ghost eb: u64) returns (task: Ptr)
      requires Valid(db, eb) && (node != NULL ==> node in Ptrs(Contents()))
      modifies this
      ensures task == node
      ensures node == NULL ==> unchanged(this)
      ensures node != NULL ==>
        && Valid(db, eb) && Removed(old(Contents()), node, Contents())
        && owner == old(owner)[node := Nobody] && seqno == old(seqno)
        && node in old(holds) && holds == old(Holding(node, hold))
    {
      TidyRoot(arena, root, tree, eb);
      hide Tidy, Ordered, Removed, InOrder, LeastSlice;
      if node == NULL {
        return NULL;
      }
      if hold {
        holds := holds[node := holds[node] + 1];
      }
      var ret := RemoveLocked(node, false, db, eb);
      task := node;
    }

    method Pop(hold: bool, ghost db: u64, ghost eb: u64) returns (task: Ptr)
      requires Valid(db, eb)
      modifies this
      ensures Valid(db, eb)
      ensures old(Contents()) == [] ==> task == NULL && unchanged(this)
      ensures old(Contents()) != [] ==>
        && task == old(Contents())[0].ptr && Contents() == old(Contents())[1..]
        && owner == old(owner)[task := Nobody] && task in old(holds) && holds == old(Holding(Contents()[0].ptr, hold))
    {
      TidyNoRepeats(arena, root, tree, db, eb, seqno);
      TidyRoot(arena, root, tree, eb);
      assert Contents() != [] ==> Contents()[0] in Contents();
      hide Tidy, Ordered;
      task := PopNode(first, hold, db, eb);
    }

    /** The task that a pop of the first eligible entry takes, or else of the first entry. */
    ghost function EligibleOrFirst(cutoff: u64): Ptr
      reads this
      requires Contents() != []
    {
      match EarliestEligible(Contents(), cutoff) case Some(x) => x.ptr case None => Contents()[0].ptr
    }

    method PopFirstEligibleOrFirst(cutoff: u64, hold: bool, ghost db: u64, ghost eb: u64) returns (task: Ptr)
      requires Valid(db, eb) && InWindow(eb, cutoff)
      modifies this
      ensures Valid(db, eb)
      ensures old(Contents()) == [] ==> task == NULL && unchanged(this)
      ensures old(Contents()) != [] ==>
        && task == old(EligibleOrFirst(cutoff)) && Removed(old(Contents()), task, Contents())
        && owner == old(owner)[task := Nobody] && task in old(holds)
        && holds == old(Holding(EligibleOrFirst(cutoff), hold))
    {
      TidyRoot(arena, root, tree, eb);
      assert Contents() != [] ==> Contents()[0] in Contents();
      EligibleIsQueued(Contents(), cutoff);
      var node := FirstEligible(cutoff, db, eb);
      hide Tidy, Ordered, Removed, EarliestEligible;
      if node == NULL {
        node := first;
      }
      task := PopNode(node, hold, db, eb);
    }
  }

  lemma EmptySplit(cur: Cursor)
    ensures Splits(cur, [], [])
  {
  }

  lemma EndOfDescent(cur: Cursor, p: EdqPath, w: EdqTree)
    requires Plug(p, Leaf) == w && Splits(cur, Before(p), After(p))
    ensures NextOf(cur, InOrder(w)) == if After(p) == [] then None else Some(After(p)[0])
  {
    PlugInOrder(p, Leaf);
    NextSplits(cur, Before(p), After(p));
    assert Before(p) + [] + After(p) == Before(p) + After(p);
  }

  lemma NoneInLeaf(t: EdqTree, cutoff: u64)
    ensures t.Leaf? ==> EarliestEligible(InOrder(t), cutoff) == None
  {
  }

  lemma {:induction false} EligibleIsQueued(c: Contents, cutoff: u64)
    ensures EarliestEligible(c, cutoff).Some? ==> EarliestEligible(c, cutoff).value in c
  {
    if c != [] {
      EligibleIsQueued(c[1..], cutoff);
    }
  }

  /** Comparing the cursor with one entry decides for everything on its other side. */
  lemma CursorPasses(db: u64, eb: u64, before: Contents, l: Contents, e: Entry<Key>, r: Contents, after: Contents,
                     cur: Cursor)
    requires Sorted(db, before + (l + [e] + r) + after) && Windowed(db, eb, before + (l + [e] + r) + after)
    requires CursorFits(db, cur) && !cur.Start? && Splits(cur, before, after)
    ensures KeyBefore(cur, e.key) ==> Splits(cur, before, [e] + r + after)
    ensures !KeyBefore(cur, e.key) ==> Splits(cur, before + l + [e], after)
  {
    var c := before + (l + [e] + r) + after;
    var k := |before| + |l|;
    assert c[k] == e;
    forall i | 0 <= i < |[e] + r| && KeyBefore(cur, e.key)
      ensures Beyond(cur, ([e] + r)[i].key)
    {
      assert c[k + i] == ([e] + r)[i];
      if i > 0 {
        BeyondIsUpward(db, cur, e.key, r[i - 1].key);
      }
    }
    assert before + l + [e] == before + (l + [e]);
    forall i | 0 <= i < |l + [e]| && !KeyBefore(cur, e.key)
      ensures !Beyond(cur, (l + [e])[i].key)
    {
      assert c[|before| + i] == (l + [e])[i];
      if i < |l| && Beyond(cur, l[i].key) {
        BeyondIsUpward(db, cur, l[i].key, e.key);
      }
    }
  }

  /** A key that belongs into a hole compares with the node above as the side of the hole says. */
  lemma SideOfKey(db: u64, eb: u64, p: EdqPath, key: Key)
    requires Ordered(db, eb, Before(p) + After(p), key.seqno) && InWindow(db, key.deadline)
    requires Between(db, Before(p), key, After(p))
    ensures p.Down? ==> (NodeLess(key, p.e.key) <==> p.side.Left?)
  {
    if p.Down? {
      var i := if p.side.Left? then |Before(p)| else |Before(p)| - 1;
      assert (Before(p) + After(p))[i] == p.e;
      assert p.e in if p.side.Left? then After(p) else Before(p);
      LessIsNodeLess(db, key, p.e.key);
    }
  }

  /** Comparing with one entry places a key against everything on its other side. */
  lemma Passes(db: u64, eb: u64, before: Contents, l: Contents, e: Entry<Key>, r: Contents, after: Contents, key: Key)
    requires Sorted(db, before + (l + [e] + r) + after) && Windowed(db, eb, before + (l + [e] + r) + after)
    requires Between(db, before, key, after) && InWindow(db, key.deadline)
    requires e.key.seqno != key.seqno
    ensures NodeLess(key, e.key) ==> Between(db, before, key, [e] + r + after)
    ensures !NodeLess(key, e.key) ==> Between(db, before + l + [e], key, after)
  {
    var c := before + (l + [e] + r) + after;
    var k := |before| + |l|;
    assert c[k] == e;
    LessIsNodeLess(db, key, e.key);
    if NodeLess(key, e.key) {
      forall x <- [e] + r
        ensures Less(db, key, x.key)
      {
        var i :| 0 <= i < |[e] + r| && ([e] + r)[i] == x;
        assert c[k + i] == x;
      }
    } else {
      forall x <- l + [e]
        ensures Less(db, x.key, key)
      {
        var i :| 0 <= i < |l + [e]| && (l + [e])[i] == x;
        assert c[|before| + i] == x;
      }
    }
  }
}

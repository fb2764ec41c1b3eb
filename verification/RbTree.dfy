/** The intrusive red-black tree of lib/rbtree.bpf.c.

    Nodes belong to the caller, so an insertion or a removal relinks exactly the
    node it is given. The root may be of either colour.
  */
module RbTree {
  import opened RedBlack
  import opened RbShape
  import opened RbSwitch
  import opened Time

  class Rbtree {
    var arena: Arena<Item, ()>
    var root: Ptr
    const insert: Mode
    ghost var tree: Shape

    ghost function Contents(): Contents
      reads this`tree
    {
      InOrder(tree)
    }

    ghost predicate Valid()
      reads this
    {
      Live(arena, root, Contents(), Top, tree) && Balanced(tree, BlackHeight(tree)) && Ordered(insert, Contents())
    }

    constructor (nodes: Arena<Item, ()>, mode: Mode)
      ensures Valid() && Contents() == [] && arena == nodes && insert == mode
    {
      arena, root, insert, tree := nodes, NULL, mode, Leaf;
    }

    method Paint(node: Ptr, red: bool, ghost c: Contents, ghost p: Place, ghost t: Shape)
      requires t.Node? && t.e.ptr == node && Live(arena, root, c, p, t)
      modifies this`arena
      ensures Live(arena, root, c, p, t.(red := red)) && Same(old(arena), arena, Ptrs(c))
    {
      hide *;
      Look(arena, root, c, p, t);
      PaintLive(arena, root, c, p, t, red);
      InPlace(arena, root, c, p, t);
      PaintSame(arena, node, red, c, p, t);
      arena := arena[node := arena[node].(red := red)];
    }

    /** The pointer writes of a rotation. */
    method Relink(node: Ptr, tmp: Ptr, parent: Ptr, parentDir: Side, dir: Side)
      requires node in arena && tmp in arena && node != tmp && NULL !in {node, tmp}
      requires parent != NULL ==> parent in arena
      requires parent != node && parent != tmp && arena[node].parent == parent
      requires var inner := arena[tmp].Kid(dir); inner != NULL ==> inner in arena && inner !in {node, tmp, parent}
      modifies this`arena, this`root
      ensures Rotated(old(arena), arena, node, tmp, parent, parentDir, dir)
      ensures root == if parent == NULL then tmp else old(root)
    {
      hide *;
      ghost var m := arena;
      var inner := arena[tmp].Kid(dir);
      arena := arena[node := arena[node].SetKid(dir.Flip(), inner)];
      if inner != NULL {
        arena := arena[inner := arena[inner].(parent := node)];
      }
      ghost var m1 := arena;
      arena := arena[tmp := arena[tmp].SetKid(dir, node)];
      arena := arena[node := arena[node].(parent := tmp)];
      arena := arena[tmp := arena[tmp].(parent := parent)];
      ghost var m2 := arena;
      if parent != NULL {
        arena := arena[parent := arena[parent].SetKid(parentDir, tmp)];
      } else {
        root := tmp;
      }
      RelinkSteps(m, m1, m2, arena, node, tmp, inner, parent, parentDir, dir);
    }

    /** The child on the other side takes the place of the node; without one nothing happens. */
    method Rotate(node: Ptr, dir: Side, ghost c: Contents, ghost p: Place, ghost t: Shape) returns (r: Status)
      requires t.Node? && t.e.ptr == node && Live(arena, root, c, p, t)
      modifies this`arena, this`root
      ensures r == if t.Kid(dir.Flip()).Node? then Ok else Invalid
      ensures r.Invalid? ==> arena == old(arena) && root == old(root)
      ensures r.Ok? ==> Live(arena, root, c, p, Turned(dir, t)) && Same(old(arena), arena, Ptrs(c))
    {
      LookBelow(arena, root, c, p, t);
      DirIsSide(arena, root, c, p, t);
      var parent := arena[node].parent;
      var parentDir := Dir(arena, node);
      var tmp := arena[node].Kid(dir.Flip());
      if tmp == NULL {
        return Invalid;
      }
      RotateCells(arena, root, c, p, t, dir);
      ghost var m, root0 := arena, root;
      Relink(node, tmp, parent, parentDir, dir);
      RotateSwings(m, arena, root0, root, c, p, t, dir);
      return Ok;
    }

    /** A rotation, and the colours of the two nodes it exchanged. */
    method Spin(node: Ptr, pivot: Ptr, dir: Side, low: bool, high: bool, ghost c: Contents, ghost p: Place,
                ghost t: Shape)
      requires t.Node? && t.e.ptr == node && Live(arena, root, c, p, t)
      requires t.Kid(dir.Flip()).Node? && t.Kid(dir.Flip()).e.ptr == pivot
      modifies this`arena, this`root
      ensures Live(arena, root, c, p, Spun(dir, t, low, high)) && Same(old(arena), arena, Ptrs(c))
    {
      hide *;
      TurnedIsSpun(p, dir, t, low, high);
      ghost var m := arena;
      var r := Rotate(node, dir, c, p, t);
      ghost var m1 := arena;
      ghost var q := SpunPath(p, dir, t, high);
      ghost var n := Lowered(dir, t);
      Paint(pivot, high, c, p, Turned(dir, t));
      SameTrans(m, m1, arena, Ptrs(c));
      ghost var m2 := arena;
      GoDown(arena, root, c, q, n);
      Paint(node, low, c, q, n);
      SameTrans(m, m2, arena, Ptrs(c));
      GoUp(arena, root, c, q, n.(red := low));
    }

    // ----- insertion -----

    /** A red node under a red parent with a black uncle: one or two rotations end the repair. */
    method InsertTurn(node: Ptr, above: Ptr, grandparent: Ptr, dir: Side, ghost c: Contents, ghost p: Place,
                      ghost t: Shape, ghost h: nat)
      returns (ghost w: Shape, ghost k: nat)
      requires Live(arena, root, c, p, t) && Clash(p, t, h) && !Red(p.up.far)
      requires t.e.ptr == node && p.e.ptr == above && p.up.e.ptr == grandparent && p.up.side == dir
      modifies this`arena, this`root
      ensures Live(arena, root, c, Top, w) && Balanced(w, k) && Same(old(arena), arena, Ptrs(c))
    {
      hide *;
      ClashFacts(arena, root, c, p, t, h);
      var parent := above;
      ghost var m := arena;
      ghost var q, u := p, t;
      SameMore(m, m, {}, Ptrs(c));
      if node == arena[parent].Kid(dir.Flip()) {
        GoUp(arena, root, c, p, t);
        InnerTurned(p, t, h);
        var r := Rotate(parent, dir, c, p.up, Fill(p, t));
        q, u := InnerPath(p, t), InnerKid(p, t);
        LookKids(arena, root, c, p.up, Turned(dir, Fill(p, t)));
        GoDown(arena, root, c, q, u);
        parent := arena[grandparent].Kid(dir);
      }
      OuterTurned(q, u, h);
      GoUp(arena, root, c, q, u);
      GoUp(arena, root, c, q.up, Fill(q, u));
      ghost var m1 := arena;
      Spin(grandparent, parent, dir.Flip(), true, false, c, q.up.up, Fill(q.up, Fill(q, u)));
      SameTrans(m, m1, arena, Ptrs(c));
      w, k := Plug(q.up.up, Raised(q, u)), Height(q.up.up, h + 1);
      Close(arena, root, c, q.up.up, Raised(q, u), h + 1);
    }

    /** A red uncle: both parents turn black, the grandparent red. */
    method Recolour(parent: Ptr, uncle: Ptr, grandparent: Ptr, ghost c: Contents, ghost p: Place, ghost t: Shape,
                    ghost h: nat)
      requires Live(arena, root, c, p, t) && Clash(p, t, h) && Red(p.up.far)
      requires p.e.ptr == parent && p.up.e.ptr == grandparent && p.up.far.e.ptr == uncle
      modifies this`arena, this`root
      ensures p.Down? && p.up.Down? && Red(p.up.far) && Recoloured(p, t).Node?
      ensures Live(arena, root, c, p.up.up, Recoloured(p, t)) && Same(old(arena), arena, Ptrs(c))
      ensures Trouble(p.up.up, Recoloured(p, t), h + 1) && Recoloured(p, t).e.ptr == grandparent
    {
      hide *;
      RecolourSteps(p, t, h);
      ghost var m := arena;
      ghost var f := Fill(p, t);
      GoUp(arena, root, c, p, t);
      Paint(parent, false, c, p.up, f);
      ghost var f' := f.(red := false);
      GoAcross(arena, root, c, p.up, f');
      ghost var m1 := arena;
      ghost var q := Across(p.up, f');
      Paint(uncle, false, c, q, p.up.far);
      SameTrans(m, m1, arena, Ptrs(c));
      ghost var far := p.up.far.(red := false);
      GoAcross(arena, root, c, q, far);
      ghost var g := Across(q, far);
      GoUp(arena, root, c, g, f');
      ghost var m2 := arena;
      Paint(grandparent, true, c, p.up.up, Fill(g, f'));
      SameTrans(m, m2, arena, Ptrs(c));
    }

    method InsertFixup(start: Ptr, ghost c: Contents, ghost p0: Place, ghost t0: Shape)
      returns (ghost w: Shape, ghost k: nat)
      requires Live(arena, root, c, p0, t0) && Trouble(p0, t0, 0) && t0.e.ptr == start
      modifies this`arena, this`root
      ensures Live(arena, root, c, Top, w) && Balanced(w, k) && Same(old(arena), arena, Ptrs(c))
    {
      hide *;
      var node := start;
      ghost var m, p, t, h := arena, p0, t0, 0;
      TroubleFacts(p, t, h);
      SameMore(m, m, {}, Ptrs(c));
      while true
        invariant Live(arena, root, c, p, t) && Trouble(p, t, h) && t.Node? && t.e.ptr == node
        invariant Same(m, arena, Ptrs(c))
        decreases p
      {
        TroubleFacts(p, t, h);
        LookKids(arena, root, c, p, t);
        var parent := arena[node].parent;
        if parent == NULL {
          w, k := t, h;
          return;
        }
        if !arena[parent].red {
          Close(arena, root, c, p, t, h);
          w, k := Plug(p, t), Height(p, h);
          return;
        }
        var grandparent := arena[parent].parent;
        GoUp(arena, root, c, p, t);
        ghost var m1 := arena;
        if grandparent == NULL {
          RootBlack(p, t, h);
          Paint(parent, false, c, p.up, Fill(p, t));
          SameTrans(m, m1, arena, Ptrs(c));
          w, k := Fill(p, t).(red := false), h + 1;
          return;
        }
        LookKids(arena, root, c, p.up, Fill(p, t));
        DirIsSide(arena, root, c, p.up, Fill(p, t));
        var dir := Dir(arena, parent);
        var uncle := arena[grandparent].Kid(dir.Flip());
        if uncle == NULL || !arena[uncle].red {
          w, k := InsertTurn(node, parent, grandparent, dir, c, p, t, h);
          SameTrans(m, m1, arena, Ptrs(c));
          return;
        }
        Recolour(parent, uncle, grandparent, c, p, t, h);
        SameTrans(m, m1, arena, Ptrs(c));
        node := grandparent;
        p, t, h := p.up.up, Recoloured(p, t), h + 1;
      }
    }

    // ----- removal -----

    /** The black sibling turns red. */
    method FadeSibling(sibling: Ptr, ghost c: Contents, ghost p: Place, ghost t: Shape)
      requires Live(arena, root, c, p, t) && p.Down? && p.far.Node? && p.far.e.ptr == sibling
      modifies this`arena, this`root
      ensures Live(arena, root, c, p.up, Fill(Redder(p), t)) && Same(old(arena), arena, Ptrs(c))
    {
      hide *;
      RedderSteps(p, t);
      GoAcross(arena, root, c, p, t);
      Paint(sibling, true, c, Across(p, t), p.far);
      GoAcross(arena, root, c, Across(p, t), p.far.(red := true));
      GoUp(arena, root, c, Redder(p), t);
    }

    /** The red parent of a black sibling without red children: they trade colours. */
    method Fade(parent: Ptr, sibling: Ptr, ghost c: Contents, ghost p: Place, ghost t: Shape, ghost h: nat)
      returns (ghost w: Shape, ghost k: nat)
      requires Live(arena, root, c, p, t) && Short(p, t, h) && Plain(p) && p.red
      requires p.far.e.ptr == sibling && p.e.ptr == parent
      modifies this`arena, this`root
      ensures Live(arena, root, c, Top, w) && Balanced(w, k) && Same(old(arena), arena, Ptrs(c))
    {
      hide *;
      ghost var m := arena;
      Faded(p, t, h);
      FadeSibling(sibling, c, p, t);
      ghost var m1 := arena;
      ghost var f := Fill(Redder(p), t);
      Paint(parent, false, c, p.up, f);
      SameTrans(m, m1, arena, Ptrs(c));
      Close(arena, root, c, p.up, f.(red := false), h + 1);
      w, k := Plug(p.up, f.(red := false)), Height(p.up, h + 1);
    }

    method HasRedChildren(node: Ptr, ghost c: Contents, ghost p: Place, ghost t: Shape) returns (b: bool)
      requires Live(arena, root, c, p, t) && t.Node? && t.e.ptr == node
      ensures b <==> Red(t.left) || Red(t.right)
    {
      LookBelow(arena, root, c, p, t);
      if arena[node].left != NULL && arena[arena[node].left].red {
        return true;
      }
      return arena[node].right != NULL && arena[arena[node].right].red;
    }

    /** The close nephew is the red one: it becomes the sibling, so that the distant nephew is red. */
    method TurnSibling(sibling: Ptr, close: Ptr, dir: Side, ghost c: Contents, ghost p: Place, ghost t: Shape,
                       ghost h: nat)
      requires Live(arena, root, c, p, t) && Lopsided(p, t, h) && !Red(p.far.Kid(dir.Flip()))
      requires p.side == dir && p.far.e.ptr == sibling && p.far.Kid(dir).Node? && p.far.Kid(dir).e.ptr == close
      modifies this`arena, this`root
      ensures p.Down? && p.far.Node? && p.far.Kid(dir).Node?
      ensures Live(arena, root, c, Swayed(p), t) && Same(old(arena), arena, Ptrs(c)) && Lopsided(Swayed(p), t, h)
    {
      hide *;
      SwayedSteps(p, t, h);
      GoAcross(arena, root, c, p, t);
      Spin(sibling, close, dir.Flip(), true, false, c, Across(p, t), p.far);
      GoAcross(arena, root, c, Across(p, t), Spun(dir.Flip(), p.far, true, false));
    }

    /** The distant nephew is red: the sibling takes the place and the colour of the parent. */
    method TurnParent(parent: Ptr, sibling: Ptr, distant: Ptr, dir: Side, ghost c: Contents, ghost p: Place,
                      ghost t: Shape, ghost h: nat)
      returns (ghost w: Shape, ghost k: nat)
      requires Live(arena, root, c, p, t) && Lopsided(p, t, h) && Red(p.far.Kid(dir.Flip()))
      requires p.side == dir && p.e.ptr == parent && p.far.e.ptr == sibling && p.far.Kid(dir.Flip()).e.ptr == distant
      modifies this`arena, this`root
      ensures Live(arena, root, c, Top, w) && Balanced(w, k) && Same(old(arena), arena, Ptrs(c))
    {
      hide *;
      LopsidedFacts(p, t, h);
      LiftedSteps(p, t, h);
      LookKids(arena, root, c, p, t);
      ghost var m := arena;
      GoUp(arena, root, c, p, t);
      Spin(parent, sibling, dir, false, arena[parent].red, c, p.up, Fill(p, t));
      ghost var m1 := arena;
      ghost var q, n := LiftedPath(p, t), p.far.Kid(dir.Flip());
      GoDown(arena, root, c, q, n);
      Paint(distant, false, c, q, n);
      SameTrans(m, m1, arena, Ptrs(c));
      GoUp(arena, root, c, q, n.(red := false));
      ghost var u := Fill(q, n.(red := false));
      ghost var j := if p.red then h + 1 else h + 2;
      Close(arena, root, c, p.up, u, j);
      w, k := Plug(p.up, u), Height(p.up, j);
    }

    method EraseTurn(parent: Ptr, above: Ptr, dir: Side, ghost c: Contents, ghost p: Place, ghost t: Shape,
                     ghost h: nat)
      returns (ghost w: Shape, ghost k: nat)
      requires Live(arena, root, c, p, t) && Lopsided(p, t, h)
      requires p.side == dir && p.e.ptr == parent && p.far.e.ptr == above
      modifies this`arena, this`root
      ensures Live(arena, root, c, Top, w) && Balanced(w, k) && Same(old(arena), arena, Ptrs(c))
    {
      hide *;
      LopsidedFacts(p, t, h);
      GoAcross(arena, root, c, p, t);
      LookNephews(arena, root, c, Across(p, t), p.far, dir);
      ghost var m, q := arena, p;
      SameMore(m, m, {}, Ptrs(c));
      var sibling := above;
      var close := arena[sibling].Kid(dir);
      var distant := arena[sibling].Kid(dir.Flip());
      if distant == NULL || !arena[distant].red {
        TurnSibling(sibling, close, dir, c, p, t, h);
        SwayedSteps(p, t, h);
        q := Swayed(p);
        distant := sibling;
        sibling := close;
      }
      ghost var m1 := arena;
      w, k := TurnParent(parent, sibling, distant, dir, c, q, t, h);
      SameTrans(m, m1, arena, Ptrs(c));
    }

    /** A red sibling takes the place of the parent, which turns red below it. */
    method RaiseSibling(parent: Ptr, sibling: Ptr, dir: Side, ghost c: Contents, ghost p: Place, ghost t: Shape,
                        ghost h: nat)
      requires Live(arena, root, c, p, t) && Short(p, t, h) && p.Down? && Red(p.far)
      requires p.side == dir && p.e.ptr == parent && p.far.e.ptr == sibling
      modifies this`arena, this`root
      ensures Live(arena, root, c, Sunk(p), t) && Same(old(arena), arena, Ptrs(c))
    {
      hide *;
      SunkSteps(p, t, h);
      ShortFacts(p, t, h);
      GoUp(arena, root, c, p, t);
      Spin(parent, sibling, dir, true, false, c, p.up, Fill(p, t));
      GoDown(arena, root, c, Sunk(p).up, Fill(Sunk(p), t));
      GoDown(arena, root, c, Sunk(p), t);
    }

    /** Gives the hole under firstParent the black node it is short of. */
    method EraseFixup(initial: Ptr, firstParent: Ptr, firstDir: Side, ghost c: Contents, ghost p0: Place)
      returns (ghost w: Shape, ghost k: nat)
      requires Live(arena, root, c, p0, Leaf) && Short(p0, Leaf, 0)
      requires p0.Down? && p0.e.ptr == firstParent && p0.side == firstDir
      modifies this`arena, this`root
      ensures Live(arena, root, c, Top, w) && Balanced(w, k) && Same(old(arena), arena, Ptrs(c))
    {
      hide *;
      var node, parent, dir, sibling := initial, firstParent, firstDir, NULL;
      ghost var m, p, t: Shape, h := arena, p0, Leaf, 0;
      SameMore(m, m, {}, Ptrs(c));
      LookKids(arena, root, c, p, t);
      while true
        invariant Live(arena, root, c, p, t) && Short(p, t, h) && Same(m, arena, Ptrs(c))
        invariant (parent == NULL <==> p.Top?) && (p.Down? ==> parent == p.e.ptr && dir == p.side)
        invariant node == initial || (t.Node? && t.e.ptr == node)
        decreases p
      {
        ShortFacts(p, t, h);
        LookKids(arena, root, c, p, t);
        ghost var m1 := arena;
        if parent == NULL {
          w, k := t, h;
          return;
        }
        sibling := arena[parent].Kid(dir.Flip());
        if arena[sibling].red {
          SunkSteps(p, t, h);
          RaiseSibling(parent, sibling, dir, c, p, t, h);
          SameTrans(m, m1, arena, Ptrs(c));
          p := Sunk(p);
          ShortFacts(p, t, h);
          LookKids(arena, root, c, p, t);
          sibling := arena[parent].Kid(dir.Flip());
          GoAcross(arena, root, c, p, t);
          var b := HasRedChildren(sibling, c, Across(p, t), p.far);
          NephewCases(p, t, h);
          if b {
            break;
          }
          ghost var m2 := arena;
          w, k := Fade(parent, sibling, c, p, t, h);
          SameTrans(m, m2, arena, Ptrs(c));
          return;
        }
        GoAcross(arena, root, c, p, t);
        var b := HasRedChildren(sibling, c, Across(p, t), p.far);
        NephewCases(p, t, h);
        if b {
          break;
        }
        if arena[parent].red {
          w, k := Fade(parent, sibling, c, p, t, h);
          SameTrans(m, m1, arena, Ptrs(c));
          return;
        }
        Faded(p, t, h);
        FadeSibling(sibling, c, p, t);
        SameTrans(m, m1, arena, Ptrs(c));
        p, t, h := p.up, Fill(Redder(p), t), h + 1;
        node := parent;
        LookKids(arena, root, c, p, t);
        DirIsSide(arena, root, c, p, t);
        parent := arena[node].parent;
        dir := Dir(arena, node);
      }
      if node != initial {
        DirIsSide(arena, root, c, p, t);
        LookKids(arena, root, c, p, t);
        dir := Dir(arena, node);
        parent := arena[node].parent;
        sibling := arena[parent].Kid(dir.Flip());
      }
      ghost var m3 := arena;
      w, k := EraseTurn(parent, sibling, dir, c, p, t, h);
      SameTrans(m, m3, arena, Ptrs(c));
    }

    /** A node with one child: the child takes its place and turns black. */
    method RemoveSingleChild(node: Ptr, ghost c: Contents, ghost p: Place, ghost t: Shape, ghost h: nat)
      returns (ghost w: Shape, ghost k: nat)
      requires Live(arena, root, c, p, t) && t.Node? && t.e.ptr == node && t.left.Leaf? != t.right.Leaf?
      requires Balanced(t, h) && Accepts(p, h)
      modifies this`arena, this`root
      ensures Live(arena, root, Without(p, t), Top, w) && Balanced(w, k) && Same(old(arena), arena, Ptrs(c))
    {
      hide *;
      OnlyChild(t, h);
      Bypassed(arena, root, c, p, t, Heir(t));
      DirIsSide(arena, root, c, p, t);
      HeirCell(arena, root, c, p, t);
      ghost var m := arena;
      var parent := arena[node].parent;
      var dir := Dir(arena, node);
      var child := if arena[node].left != NULL then arena[node].left else arena[node].right;
      arena := arena[child := arena[child].(parent := parent)];
      if parent != NULL {
        arena := arena[parent := arena[parent].SetKid(dir, child)];
      } else {
        root := child;
      }
      HungIs(m, arena, p, child, parent, dir);
      ghost var m1, d := arena, Without(p, t);
      Paint(child, false, d, p, Heir(t));
      WithoutPtrs(p, t);
      InPlace(m, old(root), c, p, t);
      SameMore(m1, arena, Ptrs(d), Ptrs(c));
      SameTrans(m, m1, arena, Ptrs(c));
      Close(arena, root, d, p, Heir(t).(red := false), h);
      w, k := Plug(p, Heir(t).(red := false)), Height(p, h);
    }

    /** A node without children. */
    method RemoveLeaf(node: Ptr, ghost c: Contents, ghost p: Place, ghost t: Shape, ghost h: nat)
      returns (ghost w: Shape, ghost k: nat)
      requires Live(arena, root, c, p, t) && t.Node? && t.e.ptr == node && t.left.Leaf? && t.right.Leaf?
      requires Balanced(t, h) && Accepts(p, h) && !(RedHook(p) && Red(t))
      modifies this`arena, this`root
      ensures Live(arena, root, Without(p, t), Top, w) && Balanced(w, k) && Same(old(arena), arena, Ptrs(c))
    {
      hide *;
      DirIsSide(arena, root, c, p, t);
      LeafOut(arena, root, c, p, t, h);
      InPlace(arena, root, c, p, t);
      WithoutPtrs(p, t);
      ghost var m, d := arena, Without(p, t);
      SameMore(m, m, {}, Ptrs(c));
      LookKids(arena, root, c, p, t);
      var parent := arena[node].parent;
      if parent == NULL {
        root := NULL;
        w, k := Leaf, 0;
        return;
      }
      var dir := Dir(arena, node);
      arena := arena[parent := arena[parent].SetKid(dir, NULL)];
      var red := arena[node].red;
      ghost var m1 := arena;
      if red {
        Close(arena, root, d, p, Leaf, 0);
        w, k := Plug(p, Leaf), Height(p, 0);
        return;
      }
      w, k := EraseFixup(node, parent, dir, d, p);
      SameMore(m1, arena, Ptrs(d), Ptrs(c));
      SameTrans(m, m1, arena, Ptrs(c));
    }

    /** A node with at most one child. */
    method RemoveSimple(node: Ptr, ghost c: Contents, ghost p: Place, ghost t: Shape, ghost h: nat)
      returns (ghost w: Shape, ghost k: nat)
      requires Live(arena, root, c, p, t) && t.Node? && t.e.ptr == node && (t.left.Leaf? || t.right.Leaf?)
      requires Balanced(Plug(p, t), h)
      modifies this`arena, this`root
      ensures Live(arena, root, Without(p, t), Top, w) && Balanced(w, k) && Same(old(arena), arena, Ptrs(c))
    {
      hide *;
      ghost var j := UnplugBalanced(p, t, h);
      ChildCells(arena, root, c, p, t);
      if (arena[node].left == NULL) != (arena[node].right == NULL) {
        w, k := RemoveSingleChild(node, c, p, t, j);
      } else {
        w, k := RemoveLeaf(node, c, p, t, j);
      }
    }

    /** The neighbours of a node, or the root, point back at it. */
    method AdjustNeighbors(node: Ptr, dir: Side)
      requires Neat(arena, node)
      modifies this`arena, this`root
      ensures Adjusted(old(arena), arena, node, dir)
      ensures root == if old(arena)[node].parent == NULL then node else old(root)
    {
      ghost var m := arena;
      NeatFacts(m, node);
      hide *;
      var left := arena[node].left;
      if left != NULL {
        arena := arena[left := arena[left].(parent := node)];
      }
      ghost var m1 := arena;
      var right := arena[node].right;
      if right != NULL {
        arena := arena[right := arena[right].(parent := node)];
      }
      ghost var m2 := arena;
      var parent := arena[node].parent;
      if parent != NULL {
        arena := arena[parent := arena[parent].SetKid(dir, node)];
      } else {
        root := node;
      }
      AdjustSteps(m, m1, m2, arena, node, dir);
    }

    /** A link of one node that leads to the node itself is led to the other. */
    method FixupPointers(n1: Ptr, n2: Ptr)
      requires n1 in arena
      modifies this`arena
      ensures arena == old(arena)[n1 := Fixed(old(arena)[n1], n1, n2)]
    {
      if arena[n1].left == n1 {
        arena := arena[n1 := arena[n1].(left := n2)];
      }
      if arena[n1].right == n1 {
        arena := arena[n1 := arena[n1].(right := n2)];
      }
      if arena[n1].parent == n1 {
        arena := arena[n1 := arena[n1].(parent := n2)];
      }
    }

    /** Two nodes trade their links and colours. */
    method SwapValues(a: Ptr, b: Ptr)
      requires Neat(arena, a) && Neat(arena, b) && a != b
      modifies this`arena
      ensures var m := old(arena); arena == m[a := Relinked(m, a, b, b, m[a].key)][b := Relinked(m, a, b, a, m[b].key)]
    {
      var x, y := arena[a], arena[b];
      arena := arena[a := y.(key := x.key)][b := x.(key := y.key)];
      SwapCells(arena, old(arena), a, b, x, y);
      hide *;
      FixupPointers(b, a);
      FixupPointers(a, b);
    }

    method Switch(a: Ptr, b: Ptr, ghost c: Contents, ghost w: Shape)
      requires Live(arena, root, c, Top, w) && a in Nodes(w) && b in Nodes(w) && a != b
      modifies this`arena, this`root
      ensures a in old(arena) && b in old(arena) && Exchanged(old(arena), arena, a, b, Nodes(w))
      ensures var ea, eb := Entry(a, old(arena)[a].key), Entry(b, old(arena)[b].key);
        Live(arena, root, InOrder(Renamed(w, ea, eb)), Top, Renamed(w, ea, eb))
      ensures Same(old(arena), arena, Ptrs(c))
    {
      hide *;
      SwitchReady(arena, root, c, w, a);
      SwitchReady(arena, root, c, w, b);
      ghost var m, root0 := arena, root;
      var aDir, bDir := Dir(arena, a), Dir(arena, b);
      SwapValues(a, b);
      ghost var m1 := arena;
      SwapNeat(m, m1, a, b);
      AdjustNeighbors(a, bDir);
      ghost var m2 := arena;
      SwitchHalf(m, m1, m2, a, b, bDir);
      AdjustNeighbors(b, aDir);
      SwitchDone(m, m1, m2, arena, root0, root, c, w, a, b, aDir, bDir);
    }

    method Least(subtree: Ptr, ghost t: Shape, ghost parent: Ptr) returns (r: Ptr)
      requires t.Node? && t.e.ptr == subtree && Rep(arena, t, parent)
      ensures r in Nodes(t) && InOrder(t) != [] && InOrder(t)[0].ptr == r && r in arena && arena[r].left == NULL
    {
      r := subtree;
      ghost var u, up := t, parent;
      while arena[r].left != NULL
        invariant u.Node? && u.e.ptr == r && Rep(arena, u, up) && Nodes(u) <= Nodes(t)
        invariant InOrder(u) != [] && InOrder(t) != [] && InOrder(u)[0] == InOrder(t)[0]
        decreases u
      {
        LeastLeft(u);
        up := r;
        r := arena[r].left;
        u := u.left;
      }
    }

    lemma Unfold()
      requires Valid()
      ensures Live(arena, root, Contents(), Top, tree) && Balanced(tree, BlackHeight(tree))
      ensures Ordered(insert, Contents())
      ensures Contents() == InOrder(tree)
    {
    }

    lemma Refold(c: Contents, h: nat)
      requires Live(arena, root, c, Top, tree) && Balanced(tree, h) && Ordered(insert, c)
      ensures Valid() && Contents() == c
    {
      HeightUnique(tree, h);
    }

    /** Takes out exactly the given node; the order of the others and the balance are kept. */
    method RemoveNode(node: Ptr) returns (r: Status)
      requires Valid() && node in Ptrs(Contents())
      modifies this
      ensures r.Ok? && Valid() && Removed(old(Contents()), node, Contents())
      ensures Same(old(arena), arena, Ptrs(old(Contents()))) && arena.Keys == old(arena.Keys)
    {
      hide *;
      Unfold();
      ghost var c, m, h := Contents(), arena, BlackHeight(tree);
      ghost var p, t := Locate(arena, root, c, tree, node);
      ChildCells(arena, root, c, p, t);
      ghost var c1 := c;
      SameMore(m, m, {}, Ptrs(c));
      if arena[node].left != NULL && arena[node].right != NULL {
        NextUp(arena, root, c, p, t);
        var replace := Least(arena[node].right, t.right, node);
        Successor(arena, root, c, p, t, replace);
        Switch(replace, node, c, tree);
        ghost var ea, eb := Entry(replace, m[replace].key), Entry(node, m[node].key);
        c1 := InOrder(Renamed(tree, ea, eb));
        MovedDown(m, arena, old(root), root, c, c1, tree, p, t, replace, h);
        p, t := Locate(arena, root, c1, Renamed(tree, ea, eb), node);
        ChildCells(arena, root, c1, p, t);
      }
      ghost var m1 := arena;
      ghost var w, k := RemoveSimple(node, c1, p, t, h);
      assert Removed(c, node, Without(p, t)) && Ptrs(c1) == Ptrs(c);
      SameTrans(m, m1, arena, Ptrs(c));
      tree := w;
      RemovedOrdered(insert, c, node, Without(p, t));
      Refold(Without(p, t), k);
      return Ok;
    }

    // ----- looking for a key -----

    /** The node that holds the key, or the one that would be its parent. */
    method FindNode(key: u64, ghost c: Contents) returns (node: Ptr, ghost p: Place, ghost t: Shape)
      requires Live(arena, root, c, Top, tree) && Sorted(c)
      ensures node == NULL <==> root == NULL
      ensures root != NULL ==> Live(arena, root, c, p, t) && Plug(p, t) == tree && t.Node? && t.e.ptr == node
      ensures root != NULL ==> if t.e.key.key == key then HasKey(c, key) else Vacant(p, t, key) && !HasKey(c, key)
    {
      hide *;
      p, t := Top, tree;
      node := root;
      StartSearch(arena, root, c, tree, key);
      if root == NULL {
        return;
      }
      while true
        invariant Live(arena, root, c, p, t) && Plug(p, t) == tree && t.Node? && t.e.ptr == node && node != NULL
        invariant Apart(Before(p), key, After(p)) && Between(Before(p), key, After(p))
        decreases t
      {
        SearchStep(arena, root, c, p, t, key);
        if arena[node].key.key == key {
          break;
        }
        var dir := if key < arena[node].key.key then Left else Right;
        if arena[node].Kid(dir) == NULL {
          break;
        }
        node := arena[node].Kid(dir);
        GoDown(arena, root, c, Below(p, t, dir), t.Kid(dir));
        p, t := Below(p, t, dir), t.Kid(dir);
      }
    }

    /** The parent for a new node in front of all nodes that are not smaller. */
    method LeastUpperBound(key: u64, ghost c: Contents) returns (node: Ptr, ghost p: Place, ghost t: Shape)
      requires Live(arena, root, c, Top, tree) && Sorted(c)
      ensures node == NULL <==> root == NULL
      ensures root != NULL ==>
        Live(arena, root, c, p, t) && Plug(p, t) == tree && t.Node? && t.e.ptr == node && Vacant(p, t, key)
    {
      hide *;
      p, t := Top, tree;
      node := root;
      StartSearch(arena, root, c, tree, key);
      if root == NULL {
        return;
      }
      while true
        invariant Live(arena, root, c, p, t) && Plug(p, t) == tree && t.Node? && t.e.ptr == node && node != NULL
        invariant Between(Before(p), key, After(p))
        decreases t
      {
        SearchStep(arena, root, c, p, t, key);
        var dir := if key <= arena[node].key.key then Left else Right;
        if arena[node].Kid(dir) == NULL {
          break;
        }
        node := arena[node].Kid(dir);
        GoDown(arena, root, c, Below(p, t, dir), t.Kid(dir));
        p, t := Below(p, t, dir), t.Kid(dir);
      }
    }

    // ----- the operations -----

    /** A node outside the tree gets its key and its value. */
    method Label(node: Ptr, item: Item)
      requires Valid() && node in arena && node !in Ptrs(Contents())
      modifies this`arena
      ensures Valid() && Contents() == old(Contents()) && arena == old(arena)[node := old(arena)[node].(key := item)]
    {
      ghost var m := arena;
      arena := arena[node := arena[node].(key := item)];
      NodesArePtrs(tree);
      RepFrame(m, arena, tree, NULL);
    }

    lemma Distinctness()
      requires Valid()
      ensures forall i, j :: 0 <= i < j < |Contents()| ==> Contents()[i].ptr != Contents()[j].ptr
      ensures Sorted(Contents()) && Ptrs(Contents()) <= arena.Keys
    {
      WholeTree(arena, root, Contents(), tree);
    }

    /** A node from outside takes the place of one in the tree. */
    method Replace(existing: Ptr, replacement: Ptr, ghost c: Contents, ghost w: Shape) returns (r: Status)
      requires Live(arena, root, c, Top, w) && existing in Nodes(w)
      requires replacement in arena && replacement != NULL && replacement !in Nodes(w)
      modifies this`arena, this`root
      ensures var x := old(arena)[replacement];
        r == if x.parent != NULL || x.left != NULL || x.right != NULL then Invalid else Ok
      ensures r.Invalid? ==> arena == old(arena) && root == old(root)
      ensures existing in old(arena)
      ensures var ex, er := Entry(existing, old(arena)[existing].key), Entry(replacement, old(arena)[replacement].key);
        r.Ok? ==> Live(arena, root, InOrder(Renamed(w, ex, er)), Top, Renamed(w, ex, er))
      ensures Same(old(arena), arena, Ptrs(c) + {replacement})
    {
      hide *;
      SwitchReady(arena, root, c, w, existing);
      ghost var m, root0 := arena, root;
      SameMore(m, m, {}, Ptrs(c) + {replacement});
      var x := arena[replacement];
      if x.parent != NULL || x.left != NULL || x.right != NULL {
        return Invalid;
      }
      var dir := Dir(arena, existing);
      arena := arena[replacement := arena[existing].(key := x.key)];
      ghost var m1 := arena;
      ReplaceReady(m, m1, root, c, w, existing, replacement);
      AdjustNeighbors(replacement, dir);
      ReplaceDone(m, m1, arena, root0, root, c, w, existing, replacement, dir);
      return Ok;
    }

    /** Hangs a new leaf below parent. */
    method Link(node: Ptr, parent: Ptr, ghost c: Contents, ghost p: Place, ghost t: Shape, ghost n: Shape)
      requires Live(arena, root, c, p, t) && t.Node? && t.e.ptr == parent && Fresh(arena, c, node, n)
      requires Vacant(p, t, n.e.key.key)
      modifies this`arena, this`root
      ensures Live(arena, root, Grown(p, t, n), Below(p, t, SideOf(n.e.key.key, t.e.key.key)), n)
      ensures Same(old(arena), arena, Ptrs(c) + {node})
    {
      hide *;
      LinkCells(arena, root, c, p, t, node, n);
      ghost var m := arena;
      arena := arena[node := arena[node].(parent := parent)];
      var dir := if arena[node].key.key <= arena[parent].key.key then Left else Right;
      arena := arena[parent := arena[parent].SetKid(dir, node)];
    }

    method InsertNode(node: Ptr) returns (r: Status)
      requires Valid() && node != NULL && node in arena && node !in Ptrs(Contents())
      modifies this
      ensures Valid() && Same(old(arena), arena, Ptrs(old(Contents())) + {node}) && arena.Keys == old(arena.Keys)
      ensures InsertOutcome(insert, old(Contents()), Entry(node, old(arena)[node].key), r, Contents())
    {
      hide *;
      Unfold();
      ghost var c, m, e, h := Contents(), arena, Entry(node, arena[node].key), BlackHeight(tree);
      var key := arena[node].key.key;
      arena := arena[node := arena[node].(red := true, left := NULL, right := NULL, parent := NULL)];
      ghost var n: Shape := Node(Leaf, e, arena[node].aug, true, Leaf);
      BlankNode(m, arena, root, c, tree, node, n);
      StartSearch(arena, root, c, tree, key);
      if root == NULL {
        root := node;
        tree := n;
        FirstNode(arena, insert, c, node, n);
        Refold([e], 0);
        return Ok;
      }
      ghost var m1 := arena;
      var parent;
      ghost var p, t;
      if insert != Duplicate {
        parent, p, t := FindNode(key, c);
      } else {
        parent, p, t := LeastUpperBound(key, c);
      }
      FoundPlace(arena, root, c, p, t);
      if key == arena[parent].key.key && insert != Duplicate {
        if insert == Update {
          NodesArePtrs(tree);
          r := Replace(parent, node, c, tree);
          UpdateDone(m1, old(root), c, p, t, e, h, insert);
          tree := Renamed(tree, t.e, e);
          Refold(InOrder(tree), h);
          SameTrans(m, m1, arena, Ptrs(c) + {node});
          return;
        }
        Refold(c, h);
        AlreadyThere(insert, c, e);
        return Already;
      }
      Link(node, parent, c, p, t, n);
      InsertReady(insert, c, p, t, n, h);
      ghost var m2, d := arena, Grown(p, t, n);
      SameTrans(m, m1, m2, Ptrs(c) + {node});
      ghost var w, k := InsertFixup(node, d, Below(p, t, SideOf(key, t.e.key.key)), n);
      SameMore(m2, arena, Ptrs(d), Ptrs(c) + {node});
      SameTrans(m, m2, arena, Ptrs(c) + {node});
      tree := w;
      Refold(d, k);
      return Ok;
    }

    method Find(key: u64) returns (r: Status, value: nat)
      requires Valid()
      ensures r == if HasKey(Contents(), key) then Ok else Invalid
      ensures r.Ok? ==> HasItem(Contents(), Item(key, value))
    {
      hide *;
      Unfold();
      ghost var c := Contents();
      StartSearch(arena, root, c, tree, key);
      Keyless(c, key);
      value := 0;
      var node, p, t := FindNode(key, c);
      if node == NULL {
        return Invalid, 0;
      }
      FoundPlace(arena, root, c, p, t);
      if arena[node].key.key != key {
        return Invalid, 0;
      }
      HoldsItem(c, p, t);
      return Ok, arena[node].key.value;
    }

    method LeastItem() returns (r: Status, item: Item)
      requires Valid()
      ensures r == if Contents() == [] then NoEntry else Ok
      ensures r.Ok? ==> item == Contents()[0].key
    {
      item := Item(0, 0);
      hide *;
      Unfold();
      WholeTree(arena, root, Contents(), tree);
      if root == NULL {
        return NoEntry, item;
      }
      var node := Least(root, tree, NULL);
      return Ok, arena[node].key;
    }

    /** Takes out the first entry in order: one of the least key. */
    method Pop() returns (r: Status, item: Item, node: Ptr)
      requires Valid()
      modifies this
      ensures Valid() && Same(old(arena), arena, Ptrs(old(Contents()))) && arena.Keys == old(arena.Keys)
      ensures r == if old(Contents()) == [] then NoEntry else Ok
      ensures r.NoEntry? ==> Contents() == old(Contents())
      ensures r.Ok? ==> Entry(node, item) == old(Contents())[0] && Contents() == old(Contents())[1..]
    {
      item, node := Item(0, 0), NULL;
      hide *;
      Unfold();
      ghost var c := Contents();
      SameMore(arena, arena, {}, Ptrs(c));
      WholeTree(arena, root, c, tree);
      if root == NULL {
        r := NoEntry;
        return;
      }
      node := Least(root, tree, NULL);
      item := arena[node].key;
      r := RemoveNode(node);
      FirstRemoved(c, node, Contents());
    }
  }
}

/**
 * The dyadic tree behind a buddy chunk. A chunk of order `n` holds 2^n items; a block of order
 * `k` is an aligned run of 2^k items, and splitting a block gives its two halves.
 */
module BuddyTree {
  datatype Kind = Free | Live | Meta

  datatype Tree = Leaf(kind: Kind) | Split(left: Tree, right: Tree)

  datatype Block = Block(idx: nat, order: nat, kind: Kind) {
    predicate Covers(i: nat) {
      idx <= i < idx + Pow2(order)
    }
  }

  function Pow2(n: nat): (p: nat)
    ensures p > 0
  {
    if n == 0 then 1 else 2 * Pow2(n - 1)
  }

  /** The position of the highest set bit. */
  function Log2(n: nat): (k: nat)
    requires n > 0
    ensures Pow2(k) <= n < 2 * Pow2(k)
  {
    if n == 1 then 0 else Log2(n / 2) + 1
  }

  /** The tree fits a block of order `n`. */
  predicate Fits(t: Tree, n: nat) {
    t.Split? ==> n > 0 && Fits(t.left, n - 1) && Fits(t.right, n - 1)
  }

  /** The leaves of a tree of order `n` that starts at `base`. */
  function Blocks(t: Tree, base: nat, n: nat): set<Block>
    requires Fits(t, n)
  {
    match t
    case Leaf(kind) => {Block(base, n, kind)}
    case Split(l, r) => Blocks(l, base, n - 1) + Blocks(r, base + Pow2(n - 1), n - 1)
  }

  /** The blocks that are not free. */
  function Used(t: Tree, base: nat, n: nat): set<Block>
    requires Fits(t, n)
  {
    set b | b in Blocks(t, base, n) && b.kind != Free
  }

  function Frees(t: Tree, base: nat, n: nat): set<Block>
    requires Fits(t, n)
  {
    set b | b in Blocks(t, base, n) && b.kind == Free
  }

  /** No two free buddies stand side by side. */
  predicate Canonical(t: Tree) {
    t.Split? ==> Canonical(t.left) && Canonical(t.right) && !(t.left == Leaf(Free) && t.right == Leaf(Free))
  }

  // ----- tiling -----

  lemma {:induction false} Inside(t: Tree, base: nat, n: nat)
    requires Fits(t, n)
    ensures forall b :: b in Blocks(t, base, n) ==>
      base <= b.idx && b.idx + Pow2(b.order) <= base + Pow2(n) && b.order <= n
    ensures forall b :: b in Blocks(t, base, n) && b.order == n ==> t.Leaf? && b == Block(base, n, t.kind)
  {
    if t.Split? {
      Inside(t.left, base, n - 1);
      Inside(t.right, base + Pow2(n - 1), n - 1);
    }
  }

  /** Every item lies in exactly one block. */
  lemma {:induction false} Tiles(t: Tree, base: nat, n: nat, i: nat) returns (b: Block)
    requires Fits(t, n) && base <= i < base + Pow2(n)
    ensures b in Blocks(t, base, n) && b.Covers(i)
    ensures forall c :: c in Blocks(t, base, n) && c.Covers(i) ==> c == b
  {
    match t
    case Leaf(kind) => b := Block(base, n, kind);
    case Split(l, r) =>
      Inside(l, base, n - 1);
      Inside(r, base + Pow2(n - 1), n - 1);
      if i < base + Pow2(n - 1) {
        b := Tiles(l, base, n - 1, i);
      } else {
        b := Tiles(r, base + Pow2(n - 1), n - 1, i);
      }
  }

  lemma Disjoint(t: Tree, base: nat, n: nat, a: Block, b: Block)
    requires Fits(t, n) && a in Blocks(t, base, n) && b in Blocks(t, base, n) && a != b
    ensures a.idx + Pow2(a.order) <= b.idx || b.idx + Pow2(b.order) <= a.idx
  {
    Inside(t, base, n);
    var i := if a.idx < b.idx then b.idx else a.idx;
    if a.Covers(i) && b.Covers(i) {
      var c := Tiles(t, base, n, i);
    }
  }

  // ----- canonical form -----

  lemma {:induction false} NothingUsed(t: Tree, base: nat, n: nat)
    requires Fits(t, n) && Canonical(t) && Used(t, base, n) == {}
    ensures t == Leaf(Free)
  {
    if t.Split? {
      assert forall b :: b in Blocks(t.left, base, n - 1) ==> b in Blocks(t, base, n);
      assert forall b :: b in Blocks(t.right, base + Pow2(n - 1), n - 1) ==> b in Blocks(t, base, n);
      assert forall b :: b in Blocks(t, base, n) ==> b !in Used(t, base, n);
      assert Used(t.left, base, n - 1) == {};
      assert Used(t.right, base + Pow2(n - 1), n - 1) == {};
      NothingUsed(t.left, base, n - 1);
      NothingUsed(t.right, base + Pow2(n - 1), n - 1);
    } else {
      assert Block(base, n, t.kind) !in Used(t, base, n);
    }
  }

  lemma UsedSplit(t: Tree, base: nat, n: nat)
    requires Fits(t, n) && t.Split?
    ensures Used(t.left, base, n - 1) == set b | b in Used(t, base, n) && b.idx < base + Pow2(n - 1)
    ensures Used(t.right, base + Pow2(n - 1), n - 1) == set b | b in Used(t, base, n) && b.idx >= base + Pow2(n - 1)
  {
    Inside(t.left, base, n - 1);
    Inside(t.right, base + Pow2(n - 1), n - 1);
    PowPositive(n);
  }

  lemma PowPositive(n: nat)
    ensures forall k: nat :: Pow2(k) > 0
  {
  }

  /** The used blocks determine a canonical tree, and so its free blocks. */
  lemma {:induction false} Determined(t: Tree, u: Tree, base: nat, n: nat)
    requires Fits(t, n) && Fits(u, n) && Canonical(t) && Canonical(u) && Used(t, base, n) == Used(u, base, n)
    ensures t == u
  {
    Inside(t, base, n);
    Inside(u, base, n);
    if t.Split? && u.Split? {
      UsedSplit(t, base, n);
      UsedSplit(u, base, n);
      Determined(t.left, u.left, base, n - 1);
      Determined(t.right, u.right, base + Pow2(n - 1), n - 1);
    } else {
      var leaf, other := if t.Leaf? then t else u, if t.Leaf? then u else t;
      if leaf.kind == Free {
        assert Used(leaf, base, n) == {};
        NothingUsed(other, base, n);
      } else {
        assert Block(base, n, leaf.kind) in Used(leaf, base, n);
        assert Block(base, n, leaf.kind) in Used(other, base, n);
      }
    }
  }

  // ----- a tree with a hole -----

  /** The way from a hole up to the root: the side the hole is on and its sibling, level by level. */
  datatype Path = Top | Down(up: Path, right: bool, sib: Tree)

  function Depth(p: Path): nat {
    if p.Top? then 0 else 1 + Depth(p.up)
  }

  function Plug(p: Path, t: Tree): Tree {
    match p
    case Top => t
    case Down(up, right, sib) => Plug(up, if right then Split(sib, t) else Split(t, sib))
  }

  predicate PathFits(p: Path, h: nat) {
    p.Down? ==> Fits(p.sib, h) && PathFits(p.up, h + 1)
  }

  /** Where a hole of order `h` starts. */
  function Base(p: Path, h: nat): nat {
    match p
    case Top => 0
    case Down(up, right, _) => Base(up, h + 1) + if right then Pow2(h) else 0
  }

  /** Where its sibling starts. */
  function SibBase(p: Path, h: nat): nat
    requires p.Down?
  {
    Base(p.up, h + 1) + if p.right then 0 else Pow2(h)
  }

  /** The blocks around a hole of order `h`. */
  function Around(p: Path, h: nat): set<Block>
    requires PathFits(p, h)
  {
    match p
    case Top => {}
    case Down(up, _, sib) => Blocks(sib, SibBase(p, h), h) + Around(up, h + 1)
  }

  lemma {:induction false} PlugBlocks(p: Path, t: Tree, h: nat)
    requires Fits(t, h) && PathFits(p, h)
    ensures Fits(Plug(p, t), h + Depth(p))
    ensures Blocks(Plug(p, t), 0, h + Depth(p)) == Around(p, h) + Blocks(t, Base(p, h), h)
  {
    if p.Down? {
      var u := if p.right then Split(p.sib, t) else Split(t, p.sib);
      assert Plug(p, t) == Plug(p.up, u) && Fits(u, h + 1);
      assert Blocks(u, Base(p.up, h + 1), h + 1) == Blocks(p.sib, SibBase(p, h), h) + Blocks(t, Base(p, h), h);
      hide Plug, Blocks, Base;
      PlugBlocks(p.up, u, h + 1);
    }
  }

  /** The blocks around a hole keep out of it. */
  lemma {:induction false} AroundOutside(p: Path, h: nat)
    requires PathFits(p, h)
    ensures Base(p, h) + Pow2(h) <= Pow2(h + Depth(p))
    ensures forall b :: b in Around(p, h) ==>
      && b.order < h + Depth(p) && b.idx + Pow2(b.order) <= Pow2(h + Depth(p))
      && (b.idx + Pow2(b.order) <= Base(p, h) || Base(p, h) + Pow2(h) <= b.idx)
  {
    if p.Down? {
      AroundOutside(p.up, h + 1);
      Inside(p.sib, SibBase(p, h), h);
    }
  }

  lemma {:induction false} PlugCanonical(p: Path, t: Tree)
    ensures Canonical(Plug(p, t)) <==>
      Canonical(t) && PathCanonical(p) && !(t == Leaf(Free) && p.Down? && p.sib == Leaf(Free))
  {
    if p.Down? {
      PlugCanonical(p.up, if p.right then Split(p.sib, t) else Split(t, p.sib));
    }
  }

  predicate PathCanonical(p: Path) {
    p.Down? ==> Canonical(p.sib) && PathCanonical(p.up)
  }

  /** Every block of a tree is reached by a path. */
  lemma {:induction false} Reach(p: Path, t: Tree, h: nat, b: Block) returns (q: Path)
    requires Fits(t, h) && PathFits(p, h) && b in Blocks(t, Base(p, h), h)
    ensures PathFits(q, b.order) && Plug(q, Leaf(b.kind)) == Plug(p, t) && Base(q, b.order) == b.idx
    ensures b.order + Depth(q) == h + Depth(p)
    decreases t
  {
    match t
    case Leaf(_) => q := p;
    case Split(l, r) =>
      if b in Blocks(l, Base(p, h), h - 1) {
        q := Reach(Down(p, false, r), l, h - 1, b);
      } else {
        q := Reach(Down(p, true, l), r, h - 1, b);
      }
  }

  /** The leftmost block of a tree; it is the whole tree unless the tree is split. */
  lemma {:induction false} FirstBlock(t: Tree, base: nat, n: nat) returns (b: Block)
    requires Fits(t, n)
    ensures b in Blocks(t, base, n) && b.idx == base && (t.Split? ==> b.order < n)
    ensures t.Leaf? ==> b == Block(base, n, t.kind)
  {
    if t.Split? {
      b := FirstBlock(t.left, base, n - 1);
    } else {
      b := Block(base, n, t.kind);
    }
  }

  // ----- alignment -----

  /** Flips bit `k` of an index. */
  function Flip(i: nat, k: nat): (j: int) {
    if i / Pow2(k) % 2 == 0 then i + Pow2(k) else i - Pow2(k)
  }

  /** The number of the hole among the blocks of its order. */
  function Rank(p: Path): nat {
    match p
    case Top => 0
    case Down(up, right, _) => 2 * Rank(up) + if right then 1 else 0
  }

  lemma {:induction false} BaseIsRank(p: Path, h: nat)
    ensures Base(p, h) == Rank(p) * Pow2(h)
  {
    if p.Down? {
      BaseIsRank(p.up, h + 1);
      Regroup(Rank(p.up), Pow2(h), if p.right then 1 else 0);
    }
  }

  lemma Regroup(m: nat, k: nat, c: nat)
    ensures m * (2 * k) + c * k == (2 * m + c) * k
  {
  }

  lemma DivMul(a: nat, k: nat)
    requires k > 0
    ensures a * k / k == a && a * k % k == 0
  {
    var x := a * k;
    var q, r := x / k, x % k;
    assert x == q * k + r;
    if a > q {
      Grows(a - q, k);
    } else if q > a {
      Grows(q - a, k);
    }
    assert (a - q) * k == r;
  }

  lemma Grows(d: nat, k: nat)
    requires d > 0
    ensures d * k >= k
  {
  }

  lemma BaseAligned(p: Path, h: nat)
    ensures Base(p, h) % Pow2(h) == 0 && Base(p, h) / Pow2(h) == Rank(p)
  {
    BaseIsRank(p, h);
    DivMul(Rank(p), Pow2(h));
  }

  /** The sibling of a hole starts where the hole does but for one bit. */
  lemma FlipIsSibling(p: Path, h: nat)
    requires p.Down?
    ensures Flip(Base(p, h), h) == SibBase(p, h)
  {
    hide *;
    BaseAligned(p, h);
    FlipByRank(Base(p, h), h, Rank(p));
    Sides(p, h);
  }

  lemma Sides(p: Path, h: nat)
    requires p.Down?
    ensures Rank(p) % 2 == if p.right then 1 else 0
    ensures SibBase(p, h) == if p.right then Base(p, h) - Pow2(h) else Base(p, h) + Pow2(h)
  {
    assert Rank(p) == 2 * Rank(p.up) + if p.right then 1 else 0;
    OddEven(Rank(p.up));
    hide Rank, Pow2;
  }

  lemma OddEven(r: nat)
    ensures (2 * r) % 2 == 0 && (2 * r + 1) % 2 == 1
  {
  }

  lemma FlipByRank(i: nat, k: nat, r: nat)
    requires i / Pow2(k) == r
    ensures Flip(i, k) == if r % 2 == 0 then i + Pow2(k) else i - Pow2(k)
  {
    hide Pow2;
  }

  // ----- carving -----

  /** A free block of order `n` cut down so that only its first 2^r items are in use. */
  function Carved(n: nat, r: nat, kind: Kind): Tree
    requires r <= n
  {
    if n == r then Leaf(kind) else Split(Carved(n - 1, r, kind), Leaf(Free))
  }

  /** The halves a carving gives back: one free block of each order from `r` up to `n`. */
  function Leftovers(base: nat, r: nat, n: nat): (blocks: set<Block>)
    requires r <= n
    ensures forall b :: b in blocks ==> b.kind == Free && r <= b.order < n && b.idx == base + Pow2(b.order)
  {
    if n == r then {} else Leftovers(base, r, n - 1) + {Block(base + Pow2(n - 1), n - 1, Free)}
  }

  lemma {:induction false} CarvedBlocks(n: nat, r: nat, kind: Kind, base: nat)
    requires r <= n
    ensures Fits(Carved(n, r, kind), n)
    ensures Blocks(Carved(n, r, kind), base, n) == {Block(base, r, kind)} + Leftovers(base, r, n)
    ensures kind != Free ==> Canonical(Carved(n, r, kind)) && Carved(n, r, kind) != Leaf(Free)
  {
    if n > r {
      CarvedBlocks(n - 1, r, kind, base);
    }
  }

  /** The path to the first 2^k items of the hole at the end of `p`, the rest of it being free. */
  function Spine(p: Path, h: nat, k: nat): Path
    requires k <= h
    decreases h - k
  {
    if k == h then p else Down(Spine(p, h, k + 1), false, Leaf(Free))
  }

  /** What `q` says of the first 2^k items of the hole at the end of `p`. */
  ghost predicate Spines(p: Path, h: nat, k: nat, q: Path)
    requires k <= h && PathFits(p, h)
  {
    && PathFits(q, k) && k + Depth(q) == h + Depth(p) && Base(q, k) == Base(p, h)
    && Around(q, k) == Around(p, h) + Leftovers(Base(p, h), k, h) && (PathCanonical(p) ==> PathCanonical(q))
  }

  lemma {:induction false} SpineAround(p: Path, h: nat, k: nat)
    requires k <= h && PathFits(p, h)
    ensures Spines(p, h, k, Spine(p, h, k))
    decreases h - k
  {
    if k < h {
      SpineAround(p, h, k + 1);
      assert Spine(p, h, k) == Down(Spine(p, h, k + 1), false, Leaf(Free));
      hide *;
      SpineDown(p, h, k, Spine(p, h, k + 1));
    }
  }

  lemma SpineDown(p: Path, h: nat, k: nat, q: Path)
    requires k < h && PathFits(p, h) && Spines(p, h, k + 1, q)
    ensures Spines(p, h, k, Down(q, false, Leaf(Free)))
  {
    hide Around, Base, PathFits, Depth, Leftovers, PathCanonical, Pow2;
    LeftoversBelow(Base(p, h), k, h);
    SpineStep(q, k);
    Regrouped({Block(Base(p, h) + Pow2(k), k, Free)}, Around(p, h), Leftovers(Base(p, h), k + 1, h));
  }

  lemma SpineStep(q: Path, k: nat)
    requires PathFits(q, k + 1)
    ensures var r := Down(q, false, Leaf(Free)); (
      && PathFits(r, k) && Depth(r) == 1 + Depth(q) && Base(r, k) == Base(q, k + 1)
      && Around(r, k) == {Block(Base(q, k + 1) + Pow2(k), k, Free)} + Around(q, k + 1)
      && (PathCanonical(q) ==> PathCanonical(r)))
  {
  }

  lemma Regrouped(a: set<Block>, b: set<Block>, c: set<Block>)
    ensures a + (b + c) == b + (a + c) == b + a + c
  {
  }

  lemma {:induction false} LeftoversBelow(base: nat, r: nat, n: nat)
    requires r < n
    ensures Leftovers(base, r, n) == {Block(base + Pow2(r), r, Free)} + Leftovers(base, r + 1, n)
  {
    if r + 1 < n {
      LeftoversBelow(base, r, n - 1);
    }
  }

  lemma {:induction false} PowGrows(i: nat, o: nat)
    requires i < o
    ensures 2 * Pow2(i) <= Pow2(o)
  {
    if i + 1 < o {
      PowGrows(i, o - 1);
    }
  }

  lemma PowOrders()
    ensures Pow2(16) == 0x1_0000
  {
    assert Pow2(4) == 16;
    assert Pow2(8) == 2 * (2 * (2 * (2 * Pow2(4))));
    assert Pow2(12) == 2 * (2 * (2 * (2 * Pow2(8))));
    assert Pow2(16) == 2 * (2 * (2 * (2 * Pow2(12))));
  }

  /** The block in a hole is not one of those around it. */
  lemma AroundIs(p: Path, h: nat, kind: Kind)
    requires PathFits(p, h)
    ensures Fits(Plug(p, Leaf(kind)), h + Depth(p))
    ensures Around(p, h) == Blocks(Plug(p, Leaf(kind)), 0, h + Depth(p)) - {Block(Base(p, h), h, kind)}
  {
    PlugBlocks(p, Leaf(kind), h);
    AroundOutside(p, h);
  }

}

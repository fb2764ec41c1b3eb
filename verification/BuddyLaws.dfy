/** What the contracts of a chunk add up to: fragmentation, restoration and addresses. */
module BuddyLaws {
  import opened BuddyTree
  import opened BuddyLists

  const MIN_ALLOC_BYTES: nat := 16
  const CHUNK_BYTES: nat := 0x10_0000

  // ----- an allocation fails only when no aligned run is clear -----

  /** Some used block shares an item with the run of 2^r items at `i`. */
  ghost predicate Meets(used: set<Block>, i: nat, r: nat) {
    exists b :: b in used && b.idx < i + Pow2(r) && i < b.idx + Pow2(b.order)
  }

  lemma {:induction false} PowSum(a: nat, b: nat)
    ensures Pow2(a + b) == Pow2(a) * Pow2(b)
  {
    if a > 0 {
      PowSum(a - 1, b);
      assert Pow2(a + b) == 2 * Pow2(a - 1 + b);
      Double(Pow2(a - 1), Pow2(b));
    }
  }

  lemma Double(x: nat, y: nat)
    ensures 2 * (x * y) == (2 * x) * y
  {
  }

  /** Run `m` of order `r` lies in the lower or in the upper half of a block of order `n`. */
  lemma RunSide(m: nat, r: nat, n: nat) returns (k: nat)
    requires r < n && m * Pow2(r) + Pow2(r) <= Pow2(n)
    ensures m < k ==> m * Pow2(r) + Pow2(r) <= Pow2(n - 1)
    ensures m >= k ==> m * Pow2(r) == Pow2(n - 1) + (m - k) * Pow2(r)
  {
    k := Pow2(n - 1 - r);
    PowSum(n - 1 - r, r);
    if m < k {
      Monotone(m + 1, k, Pow2(r));
    } else {
      Distribute(k, m - k, Pow2(r));
    }
  }

  lemma Monotone(a: nat, b: nat, c: nat)
    requires a <= b
    ensures a * c <= b * c && (a >= 1 ==> (a - 1) * c + c == a * c)
  {
  }

  lemma Distribute(a: nat, b: nat, c: nat)
    ensures (a + b) * c == a * c + b * c
  {
  }

  lemma UsedParts(t: Tree, base: nat, n: nat)
    requires Fits(t, n) && t.Split?
    ensures Used(t, base, n) == Used(t.left, base, n - 1) + Used(t.right, base + Pow2(n - 1), n - 1)
    ensures Frees(t, base, n) == Frees(t.left, base, n - 1) + Frees(t.right, base + Pow2(n - 1), n - 1)
  {
  }

  /** A run that meets no used block lies in a free block. */
  lemma {:induction false} ClearRunIsFree(t: Tree, base: nat, n: nat, r: nat, m: nat) returns (b: Block)
    requires Fits(t, n) && Canonical(t) && r <= n && m * Pow2(r) + Pow2(r) <= Pow2(n)
    requires !Meets(Used(t, base, n), base + m * Pow2(r), r)
    ensures b in Frees(t, base, n) && b.order >= r
    decreases t
  {
    var i := base + m * Pow2(r);
    if t.Leaf? {
      b := Block(base, n, t.kind);
      assert b in Blocks(t, base, n);
      assert b.idx < i + Pow2(r) && i < b.idx + Pow2(b.order);
    } else if r == n {
      b := Block(base, n, Free);
      WholeMeets(t, base, n, m);
    } else {
      UsedParts(t, base, n);
      var k := RunSide(m, r, n);
      hide Used, Frees, Pow2, Fits, Canonical;
      if m < k {
        b := ClearRunIsFree(t.left, base, n - 1, r, m);
      } else {
        b := ClearRunIsFree(t.right, base + Pow2(n - 1), n - 1, r, m - k);
      }
    }
  }

  /** The whole of a split canonical tree meets a used block. */
  lemma WholeMeets(t: Tree, base: nat, n: nat, m: nat)
    requires Fits(t, n) && Canonical(t) && t.Split? && m * Pow2(n) + Pow2(n) <= Pow2(n)
    ensures Meets(Used(t, base, n), base + m * Pow2(n), n)
  {
    if m > 0 {
      Monotone(1, m, Pow2(n));
    }
    if Used(t, base, n) == {} {
      NothingUsed(t, base, n);
    }
    var b :| b in Used(t, base, n);
    Inside(t, base, n);
    assert b.idx < base + Pow2(n) && base < b.idx + Pow2(b.order);
  }

  /** Every block starts at a multiple of its size, and so of every smaller size. */
  lemma BlockAligned(t: Tree, n: nat, b: Block, r: nat) returns (m: nat)
    requires Fits(t, n) && b in Blocks(t, 0, n) && r <= b.order
    ensures b.idx == m * Pow2(r)
  {
    var p := Reach(Top, t, n, b);
    BaseIsRank(p, b.order);
    PowSum(b.order - r, r);
    m := Rank(p) * Pow2(b.order - r);
    Associate(Rank(p), Pow2(b.order - r), Pow2(r));
  }

  lemma Associate(a: nat, b: nat, c: nat)
    ensures a * (b * c) == (a * b) * c
  {
  }

  /** Run `m` of order `r` lies in a chunk of order `n` and meets no used block. */
  ghost predicate ClearRun(t: Tree, n: nat, r: nat, m: nat)
    requires Fits(t, n)
  {
    m * Pow2(r) + Pow2(r) <= Pow2(n) && !Meets(Used(t, 0, n), m * Pow2(r), r)
  }

  lemma FreeIsClear(t: Tree, n: nat, r: nat, b: Block) returns (m: nat)
    requires Fits(t, n) && b in Frees(t, 0, n) && r <= b.order
    ensures ClearRun(t, n, r, m)
  {
    m := BlockAligned(t, n, b, r);
    Inside(t, 0, n);
    if r < b.order {
      PowGrows(r, b.order);
    }
    forall c | c in Used(t, 0, n) ensures !(c.idx < b.idx + Pow2(r) && b.idx < c.idx + Pow2(c.order)) {
      Disjoint(t, 0, n, b, c);
    }
  }

  /**
   * Canonical form keeps the chunk unfragmented: some free block is large enough exactly when some aligned run
   * is clear.
   */
  lemma RoomExactly(t: Tree, n: nat, r: nat)
    requires Fits(t, n) && Canonical(t) && r <= n
    ensures (exists b :: b in Frees(t, 0, n) && b.order >= r) <==> (exists m :: ClearRun(t, n, r, m))
  {
    if b :| b in Frees(t, 0, n) && b.order >= r {
      var m := FreeIsClear(t, n, r, b);
    } else {
      forall m | ClearRun(t, n, r, m) ensures false {
        var b := ClearRunIsFree(t, 0, n, r, m);
      }
    }
  }

  // ----- the free sets depend only on the live blocks -----

  /** What an allocation or a release does to the used blocks. */
  ghost predicate Changed(t: Tree, t': Tree, n: nat, b: Block)
    requires Fits(t, n) && Fits(t', n)
  {
    b.kind == Live && (Used(t', 0, n) == Used(t, 0, n) + {b} || Used(t', 0, n) == Used(t, 0, n) - {b})
  }

  ghost predicate NoneLive(t: Tree, n: nat)
    requires Fits(t, n)
  {
    forall b :: b in Used(t, 0, n) ==> b.kind == Meta
  }

  ghost function Metas(t: Tree, n: nat): set<Block>
    requires Fits(t, n)
  {
    set b | b in Used(t, 0, n) && b.kind == Meta
  }

  lemma {:induction false} MetasStay(ts: seq<Tree>, bs: seq<Block>, n: nat)
    requires |ts| == |bs| + 1 && (forall t :: t in ts ==> Fits(t, n))
    requires forall i :: 0 <= i < |bs| ==> Changed(ts[i], ts[i + 1], n, bs[i])
    ensures Metas(ts[0], n) == Metas(ts[|bs|], n)
  {
    if bs != [] {
      var k := |bs| - 1;
      MetasStay(ts[..k + 1], bs[..k], n);
      assert Changed(ts[k], ts[k + 1], n, bs[k]);
    }
  }

  /** Freeing everything, in any order and after any history, gives back the chunk as it was. */
  lemma FreeAllRestores(ts: seq<Tree>, bs: seq<Block>, n: nat)
    requires |ts| == |bs| + 1 && (forall t :: t in ts ==> Fits(t, n) && Canonical(t))
    requires forall i :: 0 <= i < |bs| ==> Changed(ts[i], ts[i + 1], n, bs[i])
    requires NoneLive(ts[0], n) && NoneLive(ts[|bs|], n)
    ensures ts[|bs|] == ts[0]
  {
    MetasStay(ts, bs, n);
    assert Used(ts[0], 0, n) == Metas(ts[0], n);
    assert Used(ts[|bs|], 0, n) == Metas(ts[|bs|], n);
    Determined(ts[0], ts[|bs|], 0, n);
  }

  /** Allocating a block and freeing it again restores every free list's contents. */
  lemma AllocThenFree(t: Tree, u: Tree, v: Tree, n: nat, b: Block)
    requires Fits(t, n) && Fits(u, n) && Fits(v, n) && Canonical(t) && Canonical(v) && b !in Used(t, 0, n)
    requires Used(u, 0, n) == Used(t, 0, n) + {b} && Used(v, 0, n) == Used(u, 0, n) - {b}
    ensures v == t && Frees(v, 0, n) == Frees(t, 0, n)
  {
    assert Used(v, 0, n) == Used(t, 0, n);
    Determined(t, v, 0, n);
  }

  // ----- addresses -----

  function AddressOf(base: nat, idx: nat): nat {
    base + idx * MIN_ALLOC_BYTES
  }

  /** An address names its chunk and its item, and is aligned to the size of its block. */
  lemma AddressRoundTrip(base: nat, t: Tree, b: Block)
    requires base % CHUNK_BYTES == 0 && Fits(t, NUM_ORDERS) && b in Blocks(t, 0, NUM_ORDERS)
    ensures var a := AddressOf(base, b.idx); (
      && a / CHUNK_BYTES * CHUNK_BYTES == base && a % CHUNK_BYTES / MIN_ALLOC_BYTES == b.idx && a % MIN_ALLOC_BYTES == 0
      && exists q :: a == q * (MIN_ALLOC_BYTES * Pow2(b.order)))
  {
    Inside(t, 0, NUM_ORDERS);
    PowOrders();
    var c, o, s := base / CHUNK_BYTES, b.order, MIN_ALLOC_BYTES * Pow2(b.order);
    var m := BlockAligned(t, NUM_ORDERS, b, o);
    PowSum(NUM_ORDERS - o, o);
    var k := Pow2(NUM_ORDERS - o);
    Aligns(c, k, m, Pow2(o));
    assert AddressOf(base, b.idx) == (c * k + m) * s;
  }

  lemma Aligns(c: nat, k: nat, m: nat, p: nat)
    requires k * p == ITEMS
    ensures c * CHUNK_BYTES + (m * p) * MIN_ALLOC_BYTES == (c * k + m) * (MIN_ALLOC_BYTES * p)
  {
    calc {
      (c * k + m) * (MIN_ALLOC_BYTES * p);
      { Distribute(c * k, m, MIN_ALLOC_BYTES * p); }
      (c * k) * (MIN_ALLOC_BYTES * p) + m * (MIN_ALLOC_BYTES * p);
      { Associate(c, k, MIN_ALLOC_BYTES * p); Associate(m, p, MIN_ALLOC_BYTES); Associate(k, p, MIN_ALLOC_BYTES); }
      c * (ITEMS * MIN_ALLOC_BYTES) + (m * p) * MIN_ALLOC_BYTES;
    }
  }
}

/**
 * Which cgroups have a context, which ancestor each of them caps against, and how large its
 * quota may be. The hierarchy changes by adding and removing leaves; a context appears when a
 * cgroup gains a finite quota and stays for the cgroup's life.
 */
module CgroupQuota {
  type Id = nat

  /** The hierarchy below one root: every cgroup's parent and depth. */
  datatype Tree = Tree(root: Id, parent: map<Id, Id>, level: map<Id, nat>) {
    ghost predicate Valid() {
      && root in level && level[root] == 0
      && (forall x :: x in level && x != root ==> x in parent && parent[x] in level && level[x] == level[parent[x]] + 1)
    }

    predicate Has(x: Id) {
      x in level
    }
  }

  /** A context: the ancestor it caps against, its own quota and the bound on it. */
  datatype Ctx = Ctx(effParent: Id, nquota: nat, bound: nat)

  type Ctxs = map<Id, Ctx>

  /** An infinite quota. */
  const INF: nat := 0x7FFF_FFFF_FFFF_FFFF

  const E2BIG := 7
  const ENOMEM := 12
  const ENOSPC := 28

  /** The interval at the end of which budgets are filled up, in nanoseconds. */
  const REPLENISH_PERIOD: nat := 100_000_000

  /** What cpu.max asks for, in microseconds. */
  datatype Bandwidth = Infinite | Finite(period: nat, quota: nat)

  const TWO64: nat := 0x1_0000_0000_0000_0000

  function Quotient(a: nat, p: nat): nat
    requires p > 0
  {
    a / p
  }

  /** The quota for one replenish interval, rounded up, as 64-bit words give it. */
  function Normalized(b: Bandwidth): nat
    requires b.Finite? ==> b.period > 0
  {
    if b.Infinite? then INF else Quotient((b.quota * REPLENISH_PERIOD + b.period - 1) % TWO64, b.period)
  }

  /** The least quota for an interval that grants at least the share of time asked for. */
  ghost predicate Grants(b: Bandwidth, n: nat)
    requires b.Finite?
  {
    forall m: nat :: m >= n <==> m * b.period >= b.quota * REPLENISH_PERIOD
  }

  /** The rounded quota is the one to grant, exactly if what is rounded fits into 64 bits. */
  lemma NormalizedExactly(b: Bandwidth)
    requires b.Finite? && 0 < b.period < TWO64
    ensures Grants(b, Normalized(b)) <==> b.quota * REPLENISH_PERIOD + b.period - 1 < TWO64
  {
    var q, p := b.quota * REPLENISH_PERIOD, b.period;
    var n := (q + p - 1) / p;
    forall m: nat ensures m >= n <==> m * p >= q {
      RoundedUp(q, p, m);
    }
    assert Grants(b, n);
    if q + p - 1 >= TWO64 {
      var low := Normalized(b);
      Smaller(q + p - 1, p);
      RoundedUp(q, p, low);
      assert low >= low && !(low * b.period >= b.quota * REPLENISH_PERIOD);
    }
  }

  lemma RoundedUp(q: nat, p: nat, n: nat)
    requires p > 0
    ensures n >= (q + p - 1) / p <==> n * p >= q
  {
    var m := (q + p - 1) / p;
    assert m * p <= q + p - 1 < m * p + p by { Division(q + p - 1, p); }
    if n >= m {
      Monotone(m, n, p);
    } else {
      Monotone(n + 1, m, p);
    }
  }

  /** A sum that wraps around gives a smaller quotient. */
  lemma Smaller(sum: nat, p: nat)
    requires 0 < p < TWO64 <= sum
    ensures Quotient(sum % TWO64, p) < sum / p
  {
    var low := sum % TWO64;
    assert low + TWO64 <= sum;
    Division(low, p);
    Division(sum, p);
    if sum / p <= low / p {
      Monotone(sum / p, low / p, p);
    }
  }

  lemma Division(a: nat, p: nat)
    requires p > 0
    ensures a / p * p <= a < a / p * p + p
  {
  }

  lemma Monotone(a: nat, b: nat, p: nat)
    requires a <= b
    ensures a * p <= b * p && (a + 1) * p == a * p + p
  {
  }

  function Min(a: nat, b: nat): nat {
    if a <= b then a else b
  }

  lemma MinIs(m: nat, a: nat, b: nat)
    requires m <= a && m <= b && (m == a || m == b)
    ensures m == Min(a, b)
  {
  }

  /** `x` is `c` or one of its descendants. */
  ghost predicate Within(h: Tree, x: Id, c: Id)
    requires h.Valid() && h.Has(x)
    decreases h.level[x]
  {
    x == c || (x != h.root && Within(h, h.parent[x], c))
  }

  /** The nearest proper ancestor with a context; the root always has one. */
  ghost function Nearest(h: Tree, ctxs: Ctxs, x: Id): (a: Id)
    requires h.Valid() && h.Has(x) && x != h.root
    ensures h.Has(a) && h.level[a] < h.level[x] && (a == h.root || a in ctxs)
    decreases h.level[x]
  {
    var p := h.parent[x];
    if p == h.root || p in ctxs then p else Nearest(h, ctxs, p)
  }

  /** The least quota of a cgroup and its ancestors that have contexts. */
  ghost function Least(h: Tree, ctxs: Ctxs, x: Id): nat
    requires h.Valid() && h.Has(x) && h.root in ctxs
    decreases h.level[x]
  {
    if x == h.root then ctxs[x].nquota
    else if x in ctxs then Min(ctxs[x].nquota, Least(h, ctxs, h.parent[x]))
    else Least(h, ctxs, h.parent[x])
  }

  /** Every context caps against its nearest managed ancestor and carries the least quota above it. */
  ghost predicate Right(h: Tree, ctxs: Ctxs, x: Id)
    requires h.Valid() && h.Has(x) && x in ctxs && h.root in ctxs
  {
    (x != h.root ==> ctxs[x].effParent == Nearest(h, ctxs, x)) && ctxs[x].bound == Least(h, ctxs, x)
  }

  /** The effective parent of a context is right, and so is its bound. */
  ghost predicate ParentRight(h: Tree, ctxs: Ctxs, x: Id) {
    && h.Valid() && h.Has(x) && x != h.root && h.root in ctxs && x in ctxs
    && ctxs[x].effParent == Nearest(h, ctxs, x) && ctxs[x].effParent in ctxs
    && ctxs[ctxs[x].effParent].bound == Least(h, ctxs, ctxs[x].effParent)
  }

  ghost predicate Sound(h: Tree, ctxs: Ctxs) {
    && h.Valid() && h.root in ctxs && (forall x :: x in ctxs ==> h.Has(x))
    && (forall x :: x in ctxs ==> Right(h, ctxs, x))
  }

  // ----- nearest ancestors and bounds -----

  /** The bound of a cgroup is its quota capped by the bound of its nearest managed ancestor. */
  lemma {:induction false} LeastIsCapped(h: Tree, ctxs: Ctxs, x: Id)
    requires h.Valid() && h.Has(x) && h.root in ctxs && x != h.root
    ensures Least(h, ctxs, x) == if x in ctxs then Min(ctxs[x].nquota, Least(h, ctxs, Nearest(h, ctxs, x)))
      else Least(h, ctxs, Nearest(h, ctxs, x))
    decreases h.level[x]
  {
    var p := h.parent[x];
    if p != h.root && p !in ctxs {
      LeastIsCapped(h, ctxs, p);
    }
  }

  /** A cgroup with an infinite quota caps nobody. */
  lemma CapsNobody(h: Tree, ctxs: Ctxs, x: Id)
    requires Sound(h, ctxs) && ctxs[h.root].nquota == INF && x in ctxs && x != h.root
    requires ctxs[x].nquota == Normalized(Infinite)
    ensures ctxs[x].effParent in ctxs && ctxs[x].bound == ctxs[ctxs[x].effParent].bound
  {
    var a := Nearest(h, ctxs, x);
    assert Right(h, ctxs, x);
    LeastIsCapped(h, ctxs, x);
    NearestHas(h, ctxs, x);
    assert Right(h, ctxs, a);
    RootAbove(h, a);
    var w := LeastIsMinimum(h, ctxs, a);
  }

  lemma {:induction false} NearestHas(h: Tree, ctxs: Ctxs, x: Id)
    requires h.Valid() && h.Has(x) && h.root in ctxs && x != h.root
    ensures Nearest(h, ctxs, x) in ctxs
    decreases h.level[x]
  {
    if h.parent[x] != h.root && h.parent[x] !in ctxs {
      NearestHas(h, ctxs, h.parent[x]);
    }
  }

  lemma {:induction false} RootAbove(h: Tree, x: Id)
    requires h.Valid() && h.Has(x)
    ensures Within(h, x, h.root)
    decreases h.level[x]
  {
    if x != h.root {
      RootAbove(h, h.parent[x]);
    }
  }

  /** Contexts outside the path upward do not matter. */
  lemma {:induction false} SameAbove(h: Tree, ctxs: Ctxs, ctxs': Ctxs, x: Id)
    requires h.Valid() && h.Has(x) && h.root in ctxs && h.root in ctxs'
    requires forall a :: h.Has(a) && Within(h, x, a) ==>
      (a in ctxs <==> a in ctxs') && (a in ctxs ==> ctxs[a].nquota == ctxs'[a].nquota)
    ensures Least(h, ctxs, x) == Least(h, ctxs', x)
    ensures x != h.root ==> Nearest(h, ctxs, x) == Nearest(h, ctxs', x)
    decreases h.level[x]
  {
    assert Within(h, x, x);
    if x != h.root {
      var p := h.parent[x];
      forall a | h.Has(a) && Within(h, p, a)
        ensures (a in ctxs <==> a in ctxs') && (a in ctxs ==> ctxs[a].nquota == ctxs'[a].nquota) {
        assert Within(h, x, a);
      }
      SameAbove(h, ctxs, ctxs', p);
    }
  }

  lemma {:induction false} WithinLevel(h: Tree, x: Id, c: Id)
    requires h.Valid() && h.Has(x) && h.Has(c) && Within(h, x, c)
    ensures h.level[c] <= h.level[x] && (h.level[c] == h.level[x] ==> x == c)
    decreases h.level[x]
  {
    if x != c {
      WithinLevel(h, h.parent[x], c);
    }
  }

  /**
   * Giving `c` a context makes it the nearest managed ancestor of exactly those descendants that capped against
   * what `c` caps against.
   */
  lemma {:induction false} NearestAfter(h: Tree, ctxs: Ctxs, ctxs': Ctxs, x: Id, c: Id)
    requires h.Valid() && h.Has(x) && h.Has(c) && c != h.root && c !in ctxs && ctxs'.Keys == ctxs.Keys + {c}
    requires x != h.root
    ensures Nearest(h, ctxs', x) ==
      if x != c && Within(h, x, c) && Nearest(h, ctxs, x) == Nearest(h, ctxs, c) then c else Nearest(h, ctxs, x)
    decreases h.level[x]
  {
    var p := h.parent[x];
    if x == c || !Within(h, x, c) {
      NearestOutside(h, ctxs, ctxs', x, c);
    } else if p == c {
    } else if p in ctxs {
      WithinLevel(h, p, c);
      assert Nearest(h, ctxs, x) == p;
      assert h.level[Nearest(h, ctxs, c)] < h.level[c];
    } else {
      WithinLevel(h, x, c);
      NearestAfter(h, ctxs, ctxs', p, c);
    }
  }

  lemma {:induction false} NearestOutside(h: Tree, ctxs: Ctxs, ctxs': Ctxs, x: Id, c: Id)
    requires h.Valid() && h.Has(x) && h.Has(c) && ctxs'.Keys == ctxs.Keys + {c} && x != h.root
    requires x == c || !Within(h, x, c)
    ensures Nearest(h, ctxs', x) == Nearest(h, ctxs, x)
    decreases h.level[x]
  {
    var p := h.parent[x];
    assert Within(h, p, p) && p != c;
    if p != h.root && p !in ctxs {
      if x == c && Within(h, p, c) {
        WithinLevel(h, p, c);
      }
      NearestOutside(h, ctxs, ctxs', p, c);
    }
  }

  // ----- the pre-order walk -----

  /** A walk of the subtree of `c` that visits parents first. */
  ghost predicate PreOrder(h: Tree, c: Id, walk: seq<Id>)
    requires h.Valid()
  {
    && (forall x :: x in walk <==> h.Has(x) && Within(h, x, c))
    && (forall i, j :: 0 <= i < j < |walk| ==> walk[i] != walk[j])
    && (forall i :: 0 <= i < |walk| ==> ParentBefore(h, c, walk, i))
  }

  /** The cgroups of a subtree up to a level. */
  ghost function Below(h: Tree, c: Id, level: int): set<Id>
    requires h.Valid()
  {
    set x | x in h.level && Within(h, x, c) && h.level[x] <= level
  }

  /** A walk that has visited part of a subtree, parents first. */
  ghost predicate PartWalk(h: Tree, c: Id, walk: seq<Id>) {
    && h.Valid()
    && (forall x :: x in walk ==> h.Has(x) && Within(h, x, c))
    && (forall i, j :: 0 <= i < j < |walk| ==> walk[i] != walk[j])
    && (forall i :: 0 <= i < |walk| ==> ParentBefore(h, c, walk, i))
  }

  ghost predicate ParentBefore(h: Tree, c: Id, walk: seq<Id>, i: nat)
    requires i < |walk|
  {
    walk[i] != c ==> h.Has(walk[i]) && walk[i] != h.root && walk[i] in h.parent && h.parent[walk[i]] in walk[..i]
  }

  lemma Visit(h: Tree, c: Id, walk: seq<Id>, x: Id)
    requires PartWalk(h, c, walk) && h.Has(x) && Within(h, x, c) && x !in walk
    requires x != c ==> x != h.root && h.parent[x] in walk
    ensures PartWalk(h, c, walk + [x])
  {
    var w := walk + [x];
    forall i | 0 <= i < |w| ensures ParentBefore(h, c, w, i) {
      assert w[..i] == walk[..i];
      assert i < |walk| ==> ParentBefore(h, c, walk, i);
      assert walk[..|walk|] == walk;
    }
  }

  /** Every set of cgroups whose parents have been visited can be visited next. */
  lemma {:induction false} VisitAll(h: Tree, c: Id, walk: seq<Id>, next: set<Id>) returns (w: seq<Id>)
    requires PartWalk(h, c, walk)
    requires forall x :: x in next ==>
      h.Has(x) && Within(h, x, c) && x !in walk && (x != c ==> x != h.root && h.parent[x] in walk)
    ensures PartWalk(h, c, w) && forall x :: x in w <==> x in walk || x in next
    decreases next
  {
    if next == {} {
      w := walk;
    } else {
      var x :| x in next;
      Visit(h, c, walk, x);
      w := VisitAll(h, c, walk + [x], next - {x});
    }
  }

  /** Level by level, the whole subtree can be walked with parents first. */
  lemma {:induction false} WalkDown(h: Tree, c: Id, level: int) returns (w: seq<Id>)
    requires h.Valid() && h.Has(c) && level >= -1
    ensures PartWalk(h, c, w) && forall x :: x in w <==> x in Below(h, c, level)
    decreases level
  {
    if level == -1 {
      w := [];
    } else {
      var v := WalkDown(h, c, level - 1);
      w := VisitAll(h, c, v, Below(h, c, level) - Below(h, c, level - 1));
    }
  }

  lemma {:induction false} Deepest(h: Tree, s: set<Id>) returns (level: nat)
    requires s <= h.level.Keys
    ensures forall x :: x in s ==> h.level[x] <= level
  {
    if s == {} {
      level := 0;
    } else {
      var x :| x in s;
      level := Deepest(h, s - {x});
      if h.level[x] > level {
        level := h.level[x];
      }
    }
  }

  /** Every subtree has a walk that visits parents first. */
  lemma HasWalk(h: Tree, c: Id) returns (walk: seq<Id>)
    requires h.Valid() && h.Has(c)
    ensures PreOrder(h, c, walk)
  {
    var level := Deepest(h, h.level.Keys);
    walk := WalkDown(h, c, level);
    forall x ensures x in walk <==> h.Has(x) && Within(h, x, c) {
      assert x in walk <==> x in Below(h, c, level);
      assert h.Has(x) ==> x in h.level.Keys;
    }
    assert forall i :: 0 <= i < |walk| ==> ParentBefore(h, c, walk, i);
  }

  /** Ancestors come before their descendants. */
  lemma {:induction false} AncestorsFirst(h: Tree, c: Id, walk: seq<Id>, i: nat, a: Id)
    requires h.Valid() && h.Has(c) && PreOrder(h, c, walk) && i < |walk| && h.Has(a) && Within(h, walk[i], a)
    requires Within(h, a, c) && a != walk[i]
    ensures a in walk[..i]
    decreases i
  {
    var x := walk[i];
    assert x in walk;
    if x == c {
      WithinLevel(h, c, a);
      WithinLevel(h, a, c);
    } else {
      assert ParentBefore(h, c, walk, i);
      var j :| 0 <= j < i && walk[j] == h.parent[x];
      if a != walk[j] {
        AncestorsFirst(h, c, walk, j, a);
      }
    }
  }

  /** Two sets of contexts over the same cgroups with the same quotas. */
  ghost predicate SameShape(a: Ctxs, b: Ctxs) {
    a.Keys == b.Keys && forall x :: x in a ==> a[x].nquota == b[x].nquota
  }

  lemma ShapeDecides(h: Tree, a: Ctxs, b: Ctxs, x: Id)
    requires h.Valid() && h.Has(x) && h.root in a && SameShape(a, b)
    ensures Least(h, a, x) == Least(h, b, x) && (x != h.root ==> Nearest(h, a, x) == Nearest(h, b, x))
  {
    SameAbove(h, a, b, x);
  }

  lemma {:induction false} NearestAbove(h: Tree, ctxs: Ctxs, x: Id)
    requires h.Valid() && h.Has(x) && x != h.root
    ensures Within(h, x, Nearest(h, ctxs, x))
    decreases h.level[x]
  {
    var p := h.parent[x];
    if p != h.root && p !in ctxs {
      NearestAbove(h, ctxs, p);
    }
  }

  class Controller {
    const heightMax: nat
    const cgrpMax: nat
    var tree: Tree
    var ctxs: Ctxs

    ghost predicate Valid()
      reads this
    {
      Sound(tree, ctxs) && ctxs[tree.root].nquota == INF
    }

    /** Only the root, which is never limited. */
    constructor (root: Id, heightMax: nat, cgrpMax: nat)
      ensures this.heightMax == heightMax && this.cgrpMax == cgrpMax
      ensures Valid() && tree == Tree(root, map[], map[root := 0]) && ctxs == map[root := Ctx(0, INF, INF)]
    {
      this.heightMax, this.cgrpMax := heightMax, cgrpMax;
      tree := Tree(root, map[], map[root := 0]);
      ctxs := map[root := Ctx(0, INF, INF)];
    }

    /** The kernel creates an empty cgroup. */
    method Create(x: Id, p: Id)
      requires Valid() && tree.Has(p) && !tree.Has(x)
      modifies this`tree
      ensures Valid() && tree == Grown(old(tree), x, p)
      ensures tree.Has(x) && x in tree.parent && tree.parent[x] == p && tree.level[x] == tree.level[p] + 1
      ensures forall y :: y != x ==> (tree.Has(y) <==> old(tree).Has(y))
    {
      GrownSound(tree, ctxs, x, p);
      tree := Grown(tree, x, p);
    }

    /** Why a cgroup cannot have a context: too deep, too many contexts, or no memory for one. */
    ghost function Refusal(x: Id, room: bool): int
      requires tree.Has(x)
      reads this
    {
      if tree.level[x] >= heightMax then -E2BIG else if |ctxs| >= cgrpMax then -ENOSPC else if !room then -ENOMEM else 0
    }

    /**
     * A cgroup enters bandwidth control: new, or met by the walk from the root when the scheduler
     * loads, so that nothing below it has a context yet. An infinite quota gives it none.
     */
    method Init(x: Id, b: Bandwidth, room: bool) returns (ret: int)
      requires Valid() && tree.Has(x) && x !in ctxs && (b.Finite? ==> b.period > 0)
      requires forall y :: y in ctxs ==> !Within(tree, y, x)
      modifies this`ctxs
      ensures Valid()
      ensures ret == if tree.level[x] >= heightMax then -E2BIG else if b.Infinite? then 0 else old(Refusal(x, room))
      ensures ret != 0 || b.Infinite? ==> ctxs == old(ctxs)
      ensures ret == 0 && b.Finite? ==>
        && ctxs.Keys == old(ctxs).Keys + {x} && ctxs[x].nquota == Normalized(b)
        && forall y :: y in old(ctxs) ==> ctxs[y] == old(ctxs)[y]
    {
      if tree.level[x] >= heightMax {
        return -E2BIG;
      }
      if b.Infinite? {
        return 0;
      }
      if |ctxs| >= cgrpMax {
        return -ENOSPC;
      }
      if !room {
        return -ENOMEM;
      }
      AddContext(x, Normalized(b));
      AddedSound(tree, old(ctxs), ctxs, x);
      return 0;
    }

    /** Gives a cgroup its context: effective parent, quota and bound. */
    method AddContext(x: Id, quota: nat)
      requires Valid() && tree.Has(x) && x !in ctxs
      modifies this`ctxs
      ensures x != tree.root && x in ctxs && ctxs == old(ctxs)[x := ctxs[x]] && ctxs[x].nquota == quota
      ensures ctxs[x].effParent == Nearest(tree, old(ctxs), x) && ctxs[x].effParent in old(ctxs)
      ensures ctxs[x].bound == Min(quota, old(ctxs)[ctxs[x].effParent].bound)
    {
      var a := EffParent(x);
      ctxs := ctxs[x := Ctx(a, quota, 0)];
      UpdateBound(x);
    }

    /** A cgroup without a context gains a finite quota; `room` says whether a context could be claimed for it. */
    method Manage(x: Id, b: Bandwidth, room: bool, walk: seq<Id>) returns (ret: int)
      requires Valid() && tree.Has(x) && x !in ctxs && PreOrder(tree, x, walk) && b.Finite? && b.period > 0
      modifies this`ctxs
      ensures Valid() && ret == old(Refusal(x, room))
      ensures ret != 0 ==> ctxs == old(ctxs)
      ensures ret == 0 ==>
        && ctxs.Keys == old(ctxs).Keys + {x} && ctxs[x].nquota == Normalized(b)
        && forall y :: y in old(ctxs) ==> ctxs[y].nquota == old(ctxs)[y].nquota
    {
      if tree.level[x] >= heightMax {
        return -E2BIG;
      }
      if |ctxs| >= cgrpMax {
        return -ENOSPC;
      }
      if !room {
        return -ENOMEM;
      }
      AddContext(x, Normalized(b));
      ManagedReady(tree, old(ctxs), ctxs, x);
      RepointSubtree(x, ctxs[x].effParent, x, walk);
      return 0;
    }

    /**
     * The quota of a cgroup changes. A context stays even when the quota becomes infinite; then the cgroup is bound by
     * what is above it alone.
     */
    method Set(x: Id, b: Bandwidth, room: bool, walk: seq<Id>) returns (ret: int)
      requires Valid() && tree.Has(x) && PreOrder(tree, x, walk) && (b.Finite? ==> b.period > 0)
      modifies this`ctxs
      ensures Valid()
      ensures ret == if x in old(ctxs) || b.Infinite? then 0 else old(Refusal(x, room))
      ensures ret != 0 || x == tree.root || (x !in old(ctxs) && b.Infinite?) ==> ctxs == old(ctxs)
      ensures ret == 0 && x != tree.root && (x in old(ctxs) || b.Finite?) ==>
        ctxs.Keys == old(ctxs).Keys + {x} && ctxs[x].nquota == Normalized(b)
      ensures forall y :: y in old(ctxs) && y != x ==> y in ctxs && ctxs[y].nquota == old(ctxs)[y].nquota
      ensures b.Infinite? && x in ctxs && x != tree.root ==>
        ctxs[x].effParent in ctxs && ctxs[x].bound == ctxs[ctxs[x].effParent].bound
    {
      if x == tree.root {
        return 0;
      }
      if x !in ctxs {
        if b.Infinite? {
          return 0;
        }
        ret := Manage(x, b, room, walk);
        return;
      }
      ctxs := ctxs[x := ctxs[x].(nquota := Normalized(b))];
      SetReady(tree, old(ctxs), ctxs, x);
      RepointSubtree(x, x, x, walk);
      if b.Infinite? {
        CapsNobody(tree, ctxs, x);
      }
      return 0;
    }

    /** A cgroup without children goes away. */
    method Exit(x: Id)
      requires Valid() && tree.Has(x) && x != tree.root && Childless(tree, x)
      modifies this
      ensures Valid() && tree == Pruned(old(tree), x) && ctxs == old(ctxs) - {x}
      ensures forall y :: tree.Has(y) <==> old(tree).Has(y) && y != x
    {
      PrunedSound(tree, ctxs, x);
      tree, ctxs := Pruned(tree, x), ctxs - {x};
    }

    /** The nearest ancestor with a context, found level by level; 0 for the root. */
    method EffParent(x: Id) returns (a: Id)
      requires tree.Valid() && tree.Has(x) && tree.root in ctxs
      ensures a == if x == tree.root then 0 else Nearest(tree, ctxs, x)
      ensures x != tree.root ==> a in ctxs
    {
      if x == tree.root {
        return 0;
      }
      a := tree.parent[x];
      while a !in ctxs
        invariant tree.Has(a) && (a == tree.root || a in ctxs || Nearest(tree, ctxs, x) == Nearest(tree, ctxs, a))
        invariant a == tree.root || a in ctxs ==> a == Nearest(tree, ctxs, x)
        decreases tree.level[a]
      {
        a := tree.parent[a];
      }
    }

    /**
     * Caps a quota against the bound of the effective parent. If that is the right ancestor with the right bound,
     * the result is the least quota of all managed ancestors and the cgroup itself.
     */
    method UpdateBound(x: Id)
      requires x in ctxs
      modifies this`ctxs
      ensures x in ctxs && ctxs == old(ctxs)[x := old(ctxs)[x].(bound := ctxs[x].bound)]
      ensures ParentRight(tree, old(ctxs), x) ==> Right(tree, ctxs, x)
      ensures var a := old(ctxs)[x].effParent;
        && ctxs[x].bound <= ctxs[x].nquota && (a in old(ctxs) ==> ctxs[x].bound <= old(ctxs)[a].bound)
        && (ctxs[x].bound == ctxs[x].nquota || (a in old(ctxs) && ctxs[x].bound == old(ctxs)[a].bound))
    {
      var c := ctxs[x];
      var ub := c.nquota;
      if c.effParent in ctxs {
        ub := Min(ub, ctxs[c.effParent].bound);
      }
      ctxs := ctxs[x := c.(bound := ub)];
      if ParentRight(tree, old(ctxs), x) {
        LeastIsCapped(tree, old(ctxs), x);
        ShapeDecides(tree, old(ctxs), ctxs, x);
      }
    }

    /** Moves the subtree's contexts that cap against `from` over to `to` and recomputes its bounds, parents first. */
    method RepointSubtree(c: Id, from: Id, to: Id, walk: seq<Id>)
      requires Ready(tree, ctxs, c, from, to) && PreOrder(tree, c, walk)
      requires tree.root in ctxs && ctxs[tree.root].nquota == INF
      modifies this`ctxs
      ensures Valid() && SameShape(old(ctxs), ctxs)
    {
      ghost var was := ctxs;
      assert Progress(tree, walk, 0, was, ctxs);
      hide Ready, Progress, PreOrder;
      for i := 0 to |walk|
        invariant Progress(tree, walk, i, was, ctxs)
      {
        if walk[i] in ctxs {
          Repoint(walk[i], c, from, to, walk, i, was);
        } else {
          Skipped(tree, walk, i, was, ctxs);
        }
      }
      AllRight(tree, c, from, to, walk, was, ctxs);
    }

    /** One stop of the walk. */
    method Repoint(cur: Id, c: Id, from: Id, to: Id, ghost walk: seq<Id>, ghost i: nat, ghost was: Ctxs)
      requires Ready(tree, was, c, from, to) && PreOrder(tree, c, walk) && i < |walk| && walk[i] == cur && cur in ctxs
      requires Progress(tree, walk, i, was, ctxs)
      modifies this`ctxs
      ensures Progress(tree, walk, i + 1, was, ctxs)
    {
      hide *;
      ghost var before := ctxs;
      var e := if cur != c && ctxs[cur].effParent == from then to else ctxs[cur].effParent;
      StopFacts(tree, walk, i, was, ctxs, c, from, to, e);
      if cur != c && ctxs[cur].effParent == from {
        ctxs := ctxs[cur := ctxs[cur].(effParent := to)];
      }
      UpdateBound(cur);
      MinIs(ctxs[cur].bound, ctxs[cur].nquota, before[e].bound);
      OneMore(tree, walk, i, was, before, ctxs);
    }
  }

  /** Only the subtree of `c` needs work: moving `from` to `to` there makes every effective parent right. */
  ghost predicate Ready(h: Tree, ctxs: Ctxs, c: Id, from: Id, to: Id) {
    && h.Valid() && h.Has(c) && c != h.root && h.root in ctxs && c in ctxs && (forall x :: x in ctxs ==> h.Has(x))
    && ctxs[c].effParent == Nearest(h, ctxs, c)
    && (forall x :: x in ctxs && !Within(h, x, c) ==> Right(h, ctxs, x))
    && (forall x :: x in ctxs && x != c && Within(h, x, c) ==>
          x != h.root && Nearest(h, ctxs, x) == if ctxs[x].effParent == from then to else ctxs[x].effParent)
  }

  /** The first `i` stops of the walk are right and the rest is as it was. */
  ghost predicate Progress(h: Tree, walk: seq<Id>, i: nat, was: Ctxs, now: Ctxs)
    requires h.Valid() && i <= |walk|
  {
    && SameShape(was, now) && h.root in now && (forall x :: x in now ==> h.Has(x))
    && (forall x :: x in now && x !in walk[..i] ==> now[x] == was[x])
    && (forall x :: x in now && x in walk[..i] ==> Right(h, now, x))
  }

  lemma Skipped(h: Tree, walk: seq<Id>, i: nat, was: Ctxs, now: Ctxs)
    requires h.Valid() && i < |walk| && walk[i] !in now && Progress(h, walk, i, was, now)
    ensures Progress(h, walk, i + 1, was, now)
  {
    assert walk[..i + 1] == walk[..i] + [walk[i]];
  }

  lemma OneMore(h: Tree, walk: seq<Id>, i: nat, was: Ctxs, before: Ctxs, now: Ctxs)
    requires h.Valid() && i < |walk| && Progress(h, walk, i, was, before) && walk[i] in before && walk[i] != h.root
    requires walk[i] !in walk[..i]
    requires walk[i] in now && now == before[walk[i] := now[walk[i]]] && now[walk[i]].nquota == before[walk[i]].nquota
    requires now[walk[i]].effParent == Nearest(h, before, walk[i]) && now[walk[i]].bound == Least(h, before, walk[i])
    ensures Progress(h, walk, i + 1, was, now)
  {
    assert walk[..i + 1] == walk[..i] + [walk[i]];
    assert SameShape(before, now);
    forall x | x in now && x in walk[..i + 1] ensures Right(h, now, x) {
      ShapeDecides(h, before, now, x);
    }
  }

  lemma NextStop(h: Tree, walk: seq<Id>, i: nat, was: Ctxs, now: Ctxs, c: Id, from: Id, to: Id)
    requires Ready(h, was, c, from, to) && PreOrder(h, c, walk) && i < |walk| && walk[i] in now
    requires Progress(h, walk, i, was, now)
    ensures h.Has(walk[i]) && walk[i] != h.root && walk[i] !in walk[..i]
    ensures Nearest(h, now, walk[i]) ==
      if walk[i] != c && now[walk[i]].effParent == from then to else now[walk[i]].effParent
  {
    var x := walk[i];
    assert x in walk;
    ShapeDecides(h, was, now, x);
  }

  /** The bound of the next cgroup's effective parent is already right. */
  lemma ParentReady(h: Tree, was: Ctxs, now: Ctxs, c: Id, from: Id, to: Id, walk: seq<Id>, i: nat)
    requires Ready(h, was, c, from, to) && PreOrder(h, c, walk) && i < |walk| && Progress(h, walk, i, was, now)
    requires h.Has(walk[i]) && walk[i] != h.root
    ensures var a := Nearest(h, now, walk[i]); a in now && a != walk[i] && now[a].bound == Least(h, now, a)
  {
    var x := walk[i];
    var a := Nearest(h, now, x);
    NearestAbove(h, now, x);
    WithinLevel(h, x, a);
    if Within(h, a, c) {
      AncestorsFirst(h, c, walk, i, a);
    } else {
      assert a !in walk;
      ShapeDecides(h, was, now, a);
    }
  }

  /** At a stop the effective parent becomes `e`, whose bound is right. */
  lemma StopFacts(h: Tree, walk: seq<Id>, i: nat, was: Ctxs, now: Ctxs, c: Id, from: Id, to: Id, e: Id)
    requires Ready(h, was, c, from, to) && PreOrder(h, c, walk) && i < |walk| && walk[i] in now
    requires Progress(h, walk, i, was, now)
    requires e == if walk[i] != c && now[walk[i]].effParent == from then to else now[walk[i]].effParent
    ensures h.Valid() && h.Has(walk[i]) && h.root in now && walk[i] != h.root && walk[i] !in walk[..i]
    ensures e in now && e != walk[i] && Nearest(h, now, walk[i]) == e
    ensures Least(h, now, walk[i]) == Min(now[walk[i]].nquota, now[e].bound)
  {
    NextStop(h, walk, i, was, now, c, from, to);
    ParentReady(h, was, now, c, from, to, walk, i);
    LeastIsCapped(h, now, walk[i]);
    hide Ready, PreOrder, Nearest, Least;
  }

  lemma AllRight(h: Tree, c: Id, from: Id, to: Id, walk: seq<Id>, was: Ctxs, now: Ctxs)
    requires Ready(h, was, c, from, to) && PreOrder(h, c, walk) && Progress(h, walk, |walk|, was, now)
    ensures Sound(h, now)
  {
    assert walk[..|walk|] == walk;
    forall x | x in now ensures Right(h, now, x) {
      if !Within(h, x, c) {
        ShapeDecides(h, was, now, x);
      }
    }
  }

  // ----- the hierarchy grows and shrinks -----

  function Grown(h: Tree, x: Id, p: Id): Tree {
    h.(parent := h.parent[x := p], level := h.level[x := (if p in h.level then h.level[p] else 0) + 1])
  }

  function Pruned(h: Tree, x: Id): Tree {
    h.(parent := h.parent - {x}, level := h.level - {x})
  }

  ghost predicate Childless(h: Tree, x: Id) {
    forall y :: y in h.level && y != h.root && y in h.parent ==> h.parent[y] != x
  }

  /** Two hierarchies that agree above `x`. */
  lemma {:induction false} SameTree(h: Tree, h': Tree, ctxs: Ctxs, ctxs': Ctxs, gone: Id, x: Id)
    requires h.Valid() && h'.Valid() && h.root == h'.root && h.root in ctxs && h.root in ctxs' && h.Has(x) && h'.Has(x)
    requires x != gone
    requires forall y :: y != gone && y != h.root && h.Has(y) && h'.Has(y) ==> h.parent[y] == h'.parent[y]
    requires forall y :: y != gone && y != h.root && h.Has(y) && h'.Has(y) ==>
      h.parent[y] != gone && h'.Has(h.parent[y])
    requires forall y :: y != gone ==> (y in ctxs <==> y in ctxs') && (y in ctxs ==> ctxs[y] == ctxs'[y])
    ensures Least(h, ctxs, x) == Least(h', ctxs', x) && (x != h.root ==> Nearest(h, ctxs, x) == Nearest(h', ctxs', x))
    decreases h.level[x]
  {
    if x != h.root {
      SameTree(h, h', ctxs, ctxs', gone, h.parent[x]);
    }
  }

  lemma GrownSound(h: Tree, ctxs: Ctxs, x: Id, p: Id)
    requires Sound(h, ctxs) && h.Has(p) && !h.Has(x)
    ensures Sound(Grown(h, x, p), ctxs)
  {
    var h' := Grown(h, x, p);
    forall y | y in ctxs ensures Right(h', ctxs, y) {
      assert Right(h, ctxs, y);
      SameTree(h, h', ctxs, ctxs, x, y);
    }
  }

  lemma PrunedSound(h: Tree, ctxs: Ctxs, x: Id)
    requires Sound(h, ctxs) && h.Has(x) && x != h.root && Childless(h, x)
    ensures Sound(Pruned(h, x), ctxs - {x})
  {
    var h', ctxs' := Pruned(h, x), ctxs - {x};
    forall y | y in ctxs' ensures Right(h', ctxs', y) {
      assert Right(h, ctxs, y);
      SameTree(h, h', ctxs, ctxs', x, y);
    }
  }

  // ----- contexts come and change -----

  /** Everything outside the subtree of `x` is as right as before. */
  lemma OutsideRight(h: Tree, ctxs: Ctxs, ctxs': Ctxs, x: Id, y: Id)
    requires Sound(h, ctxs) && h.Has(x) && x != h.root && y in ctxs && !Within(h, y, x)
    requires ctxs'.Keys == ctxs.Keys + {x} && forall z :: z in ctxs && z != x ==> ctxs'[z] == ctxs[z]
    ensures Right(h, ctxs', y)
  {
    assert Right(h, ctxs, y);
    SameAbove(h, ctxs, ctxs', y);
  }

  lemma AddedSound(h: Tree, ctxs: Ctxs, ctxs': Ctxs, x: Id)
    requires Sound(h, ctxs) && h.Has(x) && x !in ctxs && (forall y :: y in ctxs ==> !Within(h, y, x))
    requires x in ctxs' && ctxs' == ctxs[x := ctxs'[x]] && x != h.root && ctxs'[x].effParent == Nearest(h, ctxs, x)
    requires ctxs'[x].effParent in ctxs && ctxs'[x].bound == Min(ctxs'[x].nquota, ctxs[ctxs'[x].effParent].bound)
    ensures Sound(h, ctxs')
  {
    forall y | y in ctxs ensures Right(h, ctxs', y) {
      OutsideRight(h, ctxs, ctxs', x, y);
    }
    NearestOutside(h, ctxs, ctxs', x, x);
    LeastIsCapped(h, ctxs', x);
    assert Right(h, ctxs', ctxs'[x].effParent);
  }

  lemma ManagedReady(h: Tree, ctxs: Ctxs, ctxs': Ctxs, x: Id)
    requires Sound(h, ctxs) && h.Has(x) && x !in ctxs && x in ctxs' && ctxs' == ctxs[x := ctxs'[x]] && x != h.root
    requires ctxs'[x].effParent == Nearest(h, ctxs, x)
    ensures Ready(h, ctxs', x, ctxs'[x].effParent, x)
  {
    NearestOutside(h, ctxs, ctxs', x, x);
    forall y | y in ctxs' && !Within(h, y, x) ensures Right(h, ctxs', y) {
      OutsideRight(h, ctxs, ctxs', x, y);
    }
    forall y | y in ctxs' && y != x && Within(h, y, x)
      ensures y != h.root
      ensures Nearest(h, ctxs', y) == if ctxs'[y].effParent == ctxs'[x].effParent then x else ctxs'[y].effParent {
      assert Right(h, ctxs, y);
      NearestAfter(h, ctxs, ctxs', y, x);
    }
  }

  lemma SetReady(h: Tree, ctxs: Ctxs, ctxs': Ctxs, x: Id)
    requires Sound(h, ctxs) && x in ctxs && x != h.root && x in ctxs'
    requires ctxs' == ctxs[x := ctxs[x].(nquota := ctxs'[x].nquota)]
    ensures Ready(h, ctxs', x, x, x)
  {
    forall y | y in ctxs' && y != h.root ensures Nearest(h, ctxs', y) == ctxs'[y].effParent {
      assert Right(h, ctxs, y);
      SameKeys(h, ctxs, ctxs', y);
    }
    forall y | y in ctxs' && !Within(h, y, x) ensures Right(h, ctxs', y) {
      OutsideRight(h, ctxs, ctxs', x, y);
    }
    forall y | y in ctxs' && y != x && Within(h, y, x) ensures y != h.root {
    }
  }

  lemma {:induction false} SameKeys(h: Tree, ctxs: Ctxs, ctxs': Ctxs, x: Id)
    requires h.Valid() && h.Has(x) && x != h.root && ctxs.Keys == ctxs'.Keys
    ensures Nearest(h, ctxs, x) == Nearest(h, ctxs', x)
    decreases h.level[x]
  {
    var p := h.parent[x];
    if p != h.root && p !in ctxs {
      SameKeys(h, ctxs, ctxs', p);
    }
  }

  // ----- what the bound means -----

  /** The bound is the quota of some managed ancestor-or-self, and no larger than any of them. */
  lemma {:induction false} LeastIsMinimum(h: Tree, ctxs: Ctxs, x: Id) returns (w: Id)
    requires h.Valid() && h.Has(x) && h.root in ctxs
    ensures w in ctxs && Within(h, x, w) && Least(h, ctxs, x) == ctxs[w].nquota
    ensures forall a :: a in ctxs && Within(h, x, a) ==> Least(h, ctxs, x) <= ctxs[a].nquota
    decreases h.level[x]
  {
    if x == h.root {
      w := x;
    } else {
      w := LeastIsMinimum(h, ctxs, h.parent[x]);
      if x in ctxs && ctxs[x].nquota <= Least(h, ctxs, h.parent[x]) {
        w := x;
      }
    }
  }
}

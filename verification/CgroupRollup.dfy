/**
 * One accounting pass over a cgroup hierarchy: runtimes are rolled up bottom-up through one
 * accumulator per level, and throttling is then handed down. Only some cgroups have a context;
 * the others are gaps that pass their descendants' runtime on.
 */
module CgroupRollup {
  import opened Options

  datatype Cgroup = Cgroup(id: nat, kids: seq<Cgroup>)

  /** `llcs` is the runtime of each LLC context, where there is one; `limited` is false for an infinite bound. */
  datatype Ctx = Ctx(llcs: seq<Option<int>>, budget: int, limited: bool, sloppy: int, throttled: bool)

  type Ctxs = map<nat, Ctx>

  /** A stop of the bottom-up walk; `above` are the ids of the proper ancestors, nearest last. */
  datatype Visit = Visit(id: nat, level: nat, above: seq<nat>)

  function Sum(llcs: seq<Option<int>>): int {
    if llcs == [] then 0
    else Sum(llcs[..|llcs| - 1]) + if llcs[|llcs| - 1].Some? then llcs[|llcs| - 1].value else 0
  }

  function Own(ctxs: Ctxs, id: nat): int {
    if id in ctxs then Sum(ctxs[id].llcs) else 0
  }

  /** The runtime of a whole subtree, as far down as the height cap. */
  function Total(ctxs: Ctxs, c: Cgroup, level: nat, height: nat): int
    decreases c, 1
  {
    if level >= height then 0 else Own(ctxs, c.id) + Totals(ctxs, c.kids, level + 1, height)
  }

  function Totals(ctxs: Ctxs, cs: seq<Cgroup>, level: nat, height: nat): int
    decreases cs, 0
  {
    if cs == [] then 0
    else Totals(ctxs, cs[..|cs| - 1], level, height) + Total(ctxs, cs[|cs| - 1], level, height)
  }

  function PostOrder(c: Cgroup, level: nat, above: seq<nat>): (vs: seq<Visit>)
    ensures vs != [] && vs[|vs| - 1] == Visit(c.id, level, above)
    decreases c, 1
  {
    PostOrders(c.kids, level + 1, above + [c.id]) + [Visit(c.id, level, above)]
  }

  function PostOrders(cs: seq<Cgroup>, level: nat, above: seq<nat>): seq<Visit>
    decreases cs, 0
  {
    if cs == [] then [] else PostOrders(cs[..|cs| - 1], level, above) + PostOrder(cs[|cs| - 1], level, above)
  }

  // ----- what the walk computes, visit by visit -----

  /** The accumulators and the totals written so far. */
  datatype Acc = Acc(levels: seq<int>, out: map<nat, int>)

  /** The sum of the accumulators from `level` down. */
  function Deeper(levels: seq<int>, level: nat): int
    requires level <= |levels|
    decreases |levels| - level
  {
    if level == |levels| then 0 else levels[level] + Deeper(levels, level + 1)
  }

  function Deposit(levels: seq<int>, level: nat, x: int): (r: seq<int>)
    requires level < |levels|
    ensures |r| == |levels|
  {
    seq(|levels|, i requires 0 <= i < |levels| =>
      if i < level then levels[i] else if i == level then levels[i] + x else 0)
  }

  function Visited(ctxs: Ctxs, acc: Acc, v: Visit): (r: Acc)
    ensures |r.levels| == |acc.levels|
  {
    if v.level >= |acc.levels| then acc
    else
      var rts := Own(ctxs, v.id) + Deeper(acc.levels, v.level + 1);
      Acc(Deposit(acc.levels, v.level, rts), if v.id in ctxs then acc.out[v.id := rts] else acc.out)
  }

  function Walk(ctxs: Ctxs, acc: Acc, vs: seq<Visit>): (r: Acc)
    ensures |r.levels| == |acc.levels|
  {
    if vs == [] then acc else Visited(ctxs, Walk(ctxs, acc, vs[..|vs| - 1]), vs[|vs| - 1])
  }

  lemma {:induction false} WalkSplit(ctxs: Ctxs, acc: Acc, a: seq<Visit>, b: seq<Visit>)
    ensures Walk(ctxs, acc, a + b) == Walk(ctxs, Walk(ctxs, acc, a), b)
  {
    if b == [] {
      assert a + b == a;
    } else {
      var last := |b| - 1;
      assert (a + b)[..|a| + last] == a + b[..last];
      WalkSplit(ctxs, acc, a, b[..last]);
    }
  }

  // ----- what it should compute -----

  /** The totals a subtree should get: every cgroup with a context under the height cap. */
  function Outs(ctxs: Ctxs, c: Cgroup, level: nat, height: nat): map<nat, int>
    decreases c, 1
  {
    var below := OutsOf(ctxs, c.kids, level + 1, height);
    if level < height && c.id in ctxs then below[c.id := Total(ctxs, c, level, height)] else below
  }

  function OutsOf(ctxs: Ctxs, cs: seq<Cgroup>, level: nat, height: nat): map<nat, int>
    decreases cs, 0
  {
    if cs == [] then map[] else OutsOf(ctxs, cs[..|cs| - 1], level, height) + Outs(ctxs, cs[|cs| - 1], level, height)
  }

  /** The accumulators below `level` are clear. */
  ghost predicate Clear(levels: seq<int>, level: nat) {
    forall l :: level < l < |levels| ==> levels[l] == 0
  }

  lemma {:induction false} DeeperClear(levels: seq<int>, level: nat)
    requires level <= |levels| && forall l :: level <= l < |levels| ==> levels[l] == 0
    ensures Deeper(levels, level) == 0
    decreases |levels| - level
  {
    if level < |levels| {
      DeeperClear(levels, level + 1);
    }
  }

  /** What a subtree leaves behind: its total at its own level, nothing deeper, and its totals written. */
  ghost function Left(ctxs: Ctxs, acc: Acc, c: Cgroup, level: nat): Acc {
    var height := |acc.levels|;
    Acc(if level < height then acc.levels[level := acc.levels[level] + Total(ctxs, c, level, height)] else acc.levels,
        acc.out + Outs(ctxs, c, level, height))
  }

  ghost function LeftAll(ctxs: Ctxs, acc: Acc, cs: seq<Cgroup>, level: nat): Acc {
    var height := |acc.levels|;
    Acc(if level < height then acc.levels[level := acc.levels[level] + Totals(ctxs, cs, level, height)] else acc.levels,
        acc.out + OutsOf(ctxs, cs, level, height))
  }

  lemma {:induction false} WalkSubtree(ctxs: Ctxs, acc: Acc, c: Cgroup, level: nat, above: seq<nat>)
    requires Clear(acc.levels, level)
    ensures Walk(ctxs, acc, PostOrder(c, level, above)) == Left(ctxs, acc, c, level)
    decreases c, 1
  {
    var kids, self := PostOrders(c.kids, level + 1, above + [c.id]), Visit(c.id, level, above);
    WalkSubtrees(ctxs, acc, c.kids, level + 1, above + [c.id]);
    var mid := LeftAll(ctxs, acc, c.kids, level + 1);
    assert (kids + [self])[..|kids|] == kids;
    assert Walk(ctxs, acc, kids + [self]) == Visited(ctxs, mid, self);
    VisitAbsorbs(ctxs, acc, c, level, self);
  }

  lemma {:induction false} WalkSubtrees(ctxs: Ctxs, acc: Acc, cs: seq<Cgroup>, level: nat, above: seq<nat>)
    requires level > 0 && Clear(acc.levels, level - 1)
    ensures Walk(ctxs, acc, PostOrders(cs, level, above)) == LeftAll(ctxs, acc, cs, level)
    decreases cs, 0
  {
    if cs == [] {
      assert acc.out + map[] == acc.out;
    } else {
      var init, last := cs[..|cs| - 1], cs[|cs| - 1];
      WalkSubtrees(ctxs, acc, init, level, above);
      WalkSplit(ctxs, acc, PostOrders(init, level, above), PostOrder(last, level, above));
      var mid := LeftAll(ctxs, acc, init, level);
      WalkSubtree(ctxs, mid, last, level, above);
      LeftMore(ctxs, acc, cs, level);
    }
  }

  lemma {:induction false} TotalsCapped(ctxs: Ctxs, cs: seq<Cgroup>, level: nat, height: nat)
    requires level >= height
    ensures Totals(ctxs, cs, level, height) == 0
  {
    if cs != [] {
      TotalsCapped(ctxs, cs[..|cs| - 1], level, height);
    }
  }

  /** A cgroup finds exactly its descendants' runtime below its own level. */
  lemma VisitAbsorbs(ctxs: Ctxs, acc: Acc, c: Cgroup, level: nat, self: Visit)
    requires Clear(acc.levels, level) && self.id == c.id && self.level == level
    ensures Visited(ctxs, LeftAll(ctxs, acc, c.kids, level + 1), self) == Left(ctxs, acc, c, level)
  {
    var height, mid := |acc.levels|, LeftAll(ctxs, acc, c.kids, level + 1);
    var below, total := OutsOf(ctxs, c.kids, level + 1, height), Total(ctxs, c, level, height);
    if level < height {
      if level + 1 < height {
        DeeperClear(mid.levels, level + 2);
      } else {
        TotalsCapped(ctxs, c.kids, level + 1, height);
      }
      assert Deeper(mid.levels, level + 1) == Totals(ctxs, c.kids, level + 1, height);
      assert Deposit(mid.levels, level, total) == acc.levels[level := acc.levels[level] + total];
      assert (acc.out + below)[c.id := total] == acc.out + below[c.id := total];
    }
  }

  lemma LeftMore(ctxs: Ctxs, acc: Acc, cs: seq<Cgroup>, level: nat)
    requires cs != []
    ensures Left(ctxs, LeftAll(ctxs, acc, cs[..|cs| - 1], level), cs[|cs| - 1], level) == LeftAll(ctxs, acc, cs, level)
  {
    var height := |acc.levels|;
    var a, b := OutsOf(ctxs, cs[..|cs| - 1], level, height), Outs(ctxs, cs[|cs| - 1], level, height);
    assert (acc.out + a) + b == acc.out + (a + b);
  }

  // ----- which cgroup gets which total -----

  function Ids(c: Cgroup): set<nat>
    decreases c, 1
  {
    {c.id} + IdsOf(c.kids)
  }

  function IdsOf(cs: seq<Cgroup>): set<nat>
    decreases cs, 0
  {
    if cs == [] then {} else IdsOf(cs[..|cs| - 1]) + Ids(cs[|cs| - 1])
  }

  /** No two cgroups share an id. */
  predicate Unique(c: Cgroup)
    decreases c, 1
  {
    c.id !in IdsOf(c.kids) && UniqueAll(c.kids)
  }

  predicate UniqueAll(cs: seq<Cgroup>)
    decreases cs, 0
  {
    cs == [] || (UniqueAll(cs[..|cs| - 1]) && Unique(cs[|cs| - 1]) && IdsOf(cs[..|cs| - 1]) !! Ids(cs[|cs| - 1]))
  }

  /** Cgroup `x` lies at level `lx` in the subtree of `c`, which lies at `lc`. */
  ghost predicate Lies(x: Cgroup, lx: nat, c: Cgroup, lc: nat)
    decreases c, 1
  {
    (x == c && lx == lc) || LiesIn(x, lx, c.kids, lc + 1)
  }

  ghost predicate LiesIn(x: Cgroup, lx: nat, cs: seq<Cgroup>, lc: nat)
    decreases cs, 0
  {
    cs != [] && (LiesIn(x, lx, cs[..|cs| - 1], lc) || Lies(x, lx, cs[|cs| - 1], lc))
  }

  lemma {:induction false} LiesId(x: Cgroup, lx: nat, c: Cgroup, lc: nat)
    requires Lies(x, lx, c, lc)
    ensures x.id in Ids(c)
    decreases c, 1
  {
    if !(x == c && lx == lc) {
      LiesInIds(x, lx, c.kids, lc + 1);
    }
  }

  lemma {:induction false} LiesInIds(x: Cgroup, lx: nat, cs: seq<Cgroup>, lc: nat)
    requires LiesIn(x, lx, cs, lc)
    ensures x.id in IdsOf(cs)
    decreases cs, 0
  {
    if LiesIn(x, lx, cs[..|cs| - 1], lc) {
      LiesInIds(x, lx, cs[..|cs| - 1], lc);
    } else {
      LiesId(x, lx, cs[|cs| - 1], lc);
    }
  }

  lemma {:induction false} OutsIds(ctxs: Ctxs, c: Cgroup, level: nat, height: nat)
    ensures Outs(ctxs, c, level, height).Keys <= Ids(c)
    decreases c, 1
  {
    OutsOfIds(ctxs, c.kids, level + 1, height);
  }

  lemma {:induction false} OutsOfIds(ctxs: Ctxs, cs: seq<Cgroup>, level: nat, height: nat)
    ensures OutsOf(ctxs, cs, level, height).Keys <= IdsOf(cs)
    decreases cs, 0
  {
    if cs != [] {
      OutsOfIds(ctxs, cs[..|cs| - 1], level, height);
      OutsIds(ctxs, cs[|cs| - 1], level, height);
    }
  }

  /** Every cgroup with a context under the cap gets the total of its own subtree. */
  lemma {:induction false} Gets(ctxs: Ctxs, c: Cgroup, level: nat, height: nat, x: Cgroup, lx: nat)
    requires Unique(c) && Lies(x, lx, c, level) && lx < height && x.id in ctxs
    ensures x.id in Outs(ctxs, c, level, height) && Outs(ctxs, c, level, height)[x.id] == Total(ctxs, x, lx, height)
    decreases c, 1
  {
    if !(x == c && lx == level) {
      LiesInIds(x, lx, c.kids, level + 1);
      GetsIn(ctxs, c.kids, level + 1, height, x, lx);
    }
  }

  lemma {:induction false} GetsIn(ctxs: Ctxs, cs: seq<Cgroup>, level: nat, height: nat, x: Cgroup, lx: nat)
    requires UniqueAll(cs) && LiesIn(x, lx, cs, level) && lx < height && x.id in ctxs
    ensures x.id in OutsOf(ctxs, cs, level, height)
    ensures OutsOf(ctxs, cs, level, height)[x.id] == Total(ctxs, x, lx, height)
    decreases cs, 0
  {
    var init, last := cs[..|cs| - 1], cs[|cs| - 1];
    if Lies(x, lx, last, level) {
      Gets(ctxs, last, level, height, x, lx);
    } else {
      LiesInIds(x, lx, init, level);
      GetsIn(ctxs, init, level, height, x, lx);
      OutsIds(ctxs, last, level, height);
    }
  }

  /** And nobody else gets one. */
  lemma {:induction false} OnlyThose(ctxs: Ctxs, c: Cgroup, level: nat, height: nat, id: nat)
    returns (x: Cgroup, lx: nat)
    requires id in Outs(ctxs, c, level, height)
    ensures x.id == id && Lies(x, lx, c, level) && lx < height && id in ctxs
    decreases c, 1
  {
    if id in OutsOf(ctxs, c.kids, level + 1, height) {
      x, lx := OnlyThoseIn(ctxs, c.kids, level + 1, height, id);
    } else {
      x, lx := c, level;
    }
  }

  lemma {:induction false} OnlyThoseIn(ctxs: Ctxs, cs: seq<Cgroup>, level: nat, height: nat, id: nat)
    returns (x: Cgroup, lx: nat)
    requires id in OutsOf(ctxs, cs, level, height)
    ensures x.id == id && LiesIn(x, lx, cs, level) && lx < height && id in ctxs
    decreases cs, 0
  {
    if id in Outs(ctxs, cs[|cs| - 1], level, height) {
      x, lx := OnlyThose(ctxs, cs[|cs| - 1], level, height, id);
    } else {
      x, lx := OnlyThoseIn(ctxs, cs[..|cs| - 1], level, height, id);
    }
  }

  // ----- the walk itself -----

  lemma {:induction false} VisitIds(c: Cgroup, level: nat, above: seq<nat>)
    requires Unique(c)
    ensures forall v :: v in PostOrder(c, level, above) ==> v.id in Ids(c) && v.level >= level
    ensures Apart(PostOrder(c, level, above))
    decreases c, 1
  {
    VisitIdsOf(c.kids, level + 1, above + [c.id]);
  }

  lemma {:induction false} VisitIdsOf(cs: seq<Cgroup>, level: nat, above: seq<nat>)
    requires UniqueAll(cs)
    ensures forall v :: v in PostOrders(cs, level, above) ==> v.id in IdsOf(cs) && v.level >= level
    ensures Apart(PostOrders(cs, level, above))
    decreases cs, 0
  {
    if cs != [] {
      VisitIdsOf(cs[..|cs| - 1], level, above);
      VisitIds(cs[|cs| - 1], level, above);
    }
  }

  /** No cgroup is visited twice. */
  ghost predicate Apart(vs: seq<Visit>) {
    forall i, j :: 0 <= i < j < |vs| ==> vs[i].id != vs[j].id
  }

  lemma {:induction false} WalkWrites(ctxs: Ctxs, acc: Acc, vs: seq<Visit>)
    ensures forall id :: id in Walk(ctxs, acc, vs).out ==> id in acc.out || exists i :: 0 <= i < |vs| && vs[i].id == id
  {
    if vs != [] {
      WalkWrites(ctxs, acc, vs[..|vs| - 1]);
    }
  }

  /** The contexts after the totals in `out` have been stored: whoever reached its budget is throttled. */
  function Stored(ctxs: Ctxs, out: map<nat, int>): Ctxs {
    map id | id in ctxs ::
      if id in out then ctxs[id].(sloppy := out[id], throttled := ctxs[id].throttled || out[id] >= ctxs[id].budget)
        else ctxs[id]
  }

  function Zeros(n: nat): seq<int> {
    seq(n, i => 0)
  }

  class Accounting {
    var ctxs: Ctxs
    const levels: array<int>

    constructor (height: nat)
      ensures levels.Length == height && ctxs == map[] && fresh(levels)
    {
      levels := new int[height];
      ctxs := map[];
    }

    method CleanLevels()
      modifies levels
      ensures levels[..] == Zeros(levels.Length)
    {
      for l := 0 to levels.Length
        invariant forall i :: 0 <= i < l ==> levels[i] == 0
      {
        levels[l] := 0;
      }
    }

    /** Takes and clears everything accumulated below `level`. */
    method AbsorbDeeper(level: nat) returns (sum: int)
      requires level < levels.Length
      modifies levels
      ensures sum == Deeper(old(levels[..]), level + 1)
      ensures forall i :: 0 <= i < levels.Length ==> levels[i] == if i <= level then old(levels[i]) else 0
    {
      sum := 0;
      var was := levels[..];
      for l := level + 1 to levels.Length
        invariant sum + Deeper(was, l) == Deeper(was, level + 1)
        invariant forall i :: 0 <= i < levels.Length ==> levels[i] == if level < i < l then 0 else was[i]
      {
        sum := sum + levels[l];
        levels[l] := 0;
      }
    }

    method SumLlcs(id: nat) returns (sum: int)
      requires id in ctxs
      ensures sum == Own(ctxs, id)
    {
      sum := 0;
      var llcs := ctxs[id].llcs;
      for i := 0 to |llcs|
        invariant sum == Sum(llcs[..i])
      {
        assert llcs[..i + 1][..i] == llcs[..i];
        if llcs[i].Some? {
          sum := sum + llcs[i].value;
        }
      }
      assert llcs[..|llcs|] == llcs;
    }

    /** One stop of the walk. */
    method Stop(v: Visit, ghost was: Ctxs, ghost acc: Acc)
      requires v.level < levels.Length && acc.levels == levels[..] && v.id !in acc.out && ctxs == Stored(was, acc.out)
      modifies this`ctxs, levels
      ensures Visited(was, acc, v).levels == levels[..] && ctxs == Stored(was, Visited(was, acc, v).out)
    {
      assert v.id in ctxs <==> v.id in was;
      assert v.id in was ==> ctxs[v.id] == was[v.id];
      var rts := 0;
      if v.id in ctxs {
        rts := SumLlcs(v.id);
      }
      var deeper := AbsorbDeeper(v.level);
      rts := rts + deeper;
      levels[v.level] := levels[v.level] + rts;
      assert levels[..] == Deposit(acc.levels, v.level, rts);
      if v.id in ctxs {
        var c := ctxs[v.id].(sloppy := rts);
        if rts >= c.budget {
          c := c.(throttled := true);
        }
        ctxs := ctxs[v.id := c];
      }
    }

    /**
     * Rolls the runtimes up. Every cgroup with a context below the root and under the height cap
     * ends with the total of its own subtree, and nothing else changes.
     */
    method UpdateRuntime(root: Cgroup, rootLevel: nat)
      requires Unique(root)
      modifies this`ctxs, levels
      ensures ctxs == Stored(old(ctxs), OutsOf(old(ctxs), root.kids, rootLevel + 1, levels.Length))
    {
      CleanLevels();
      var vs := PostOrder(root, rootLevel, []);
      ghost var kids := BelowRoot(root, rootLevel);
      ghost var was, start := ctxs, Acc(Zeros(levels.Length), map[]);
      assert Walk(was, start, vs[..0]) == start && Stored(was, map[]) == was;
      hide Walk, Visited, Stored, PostOrder, PostOrders, OutsOf, Unique, Apart;
      var i := 0;
      while vs[i].level != rootLevel
        invariant 0 <= i <= |kids|
        invariant Walk(was, start, vs[..i]).levels == levels[..] && ctxs == Stored(was, Walk(was, start, vs[..i]).out)
        decreases |kids| - i
      {
        WalkNext(was, start, vs, i);
        if vs[i].level < levels.Length {
          Stop(vs[i], was, Walk(was, start, vs[..i]));
        }
        i := i + 1;
      }
      assert vs[..i] == kids;
      WalkRoot(was, start, root, rootLevel);
    }

    /** Hands throttling down: a limited cgroup under a throttled one is throttled too. */
    method ThrottleBelow(root: Cgroup, rootLevel: nat)
      requires Unique(root)
      modifies this`ctxs
      ensures ctxs == Handed(old(ctxs), PostOrder(root, rootLevel, []))
    {
      var vs := PostOrder(root, rootLevel, []);
      ghost var was := ctxs;
      AboveLater(root, rootLevel, []);
      VisitIds(root, rootLevel, []);
      assert Handed(was, vs[..0]) == was;
      hide PostOrder, Unique;
      for i := 0 to |vs|
        invariant ctxs == Handed(was, vs[..i])
      {
        HandedNext(was, vs, i);
        var v := vs[i];
        if v.id in ctxs && ctxs[v.id].limited && !ctxs[v.id].throttled {
          var k := |v.above|;
          while k > 1 && !(v.above[k - 1] in ctxs && ctxs[v.above[k - 1]].throttled)
            invariant 0 <= k <= |v.above|
            invariant forall j :: k <= j < |v.above| && j >= 1 ==> !(v.above[j] in ctxs && ctxs[v.above[j]].throttled)
          {
            k := k - 1;
          }
          if k > 1 {
            ctxs := ctxs[v.id := ctxs[v.id].(throttled := true)];
          }
        }
      }
      assert vs[..|vs|] == vs;
    }
  }

  lemma WalkNext(ctxs: Ctxs, acc: Acc, vs: seq<Visit>, i: nat)
    requires i < |vs| && Apart(vs)
    ensures Walk(ctxs, acc, vs[..i + 1]) == Visited(ctxs, Walk(ctxs, acc, vs[..i]), vs[i])
    ensures acc.out == map[] ==> vs[i].id !in Walk(ctxs, acc, vs[..i]).out
    ensures vs[i].level >= |acc.levels| ==> Walk(ctxs, acc, vs[..i + 1]) == Walk(ctxs, acc, vs[..i])
  {
    assert vs[..i + 1][..i] == vs[..i];
    WalkWrites(ctxs, acc, vs[..i]);
  }

  /** The walk below the root: everything but its last stop. */
  lemma BelowRoot(root: Cgroup, rootLevel: nat) returns (kids: seq<Visit>)
    requires Unique(root)
    ensures kids == PostOrders(root.kids, rootLevel + 1, [root.id]) && Apart(PostOrder(root, rootLevel, []))
    ensures PostOrder(root, rootLevel, []) == kids + [Visit(root.id, rootLevel, [])]
    ensures forall i :: 0 <= i < |kids| ==> kids[i].level > rootLevel
  {
    kids := PostOrders(root.kids, rootLevel + 1, [root.id]);
    assert [] + [root.id] == [root.id];
    VisitIds(root, rootLevel, []);
    VisitIdsOf(root.kids, rootLevel + 1, [root.id]);
    forall i | 0 <= i < |kids| ensures kids[i].level > rootLevel {
      assert kids[i] in kids;
    }
  }

  lemma WalkRoot(ctxs: Ctxs, start: Acc, root: Cgroup, rootLevel: nat)
    requires start == Acc(Zeros(|start.levels|), map[])
    ensures Walk(ctxs, start, PostOrders(root.kids, rootLevel + 1, [root.id])).out
      == OutsOf(ctxs, root.kids, rootLevel + 1, |start.levels|)
  {
    WalkSubtrees(ctxs, start, root.kids, rootLevel + 1, [root.id]);
  }

  /**
   * After the roll-up a cgroup with a context has the runtime of its subtree, and is throttled if that reaches
   * its budget.
   */
  lemma RolledUp(ctxs: Ctxs, root: Cgroup, rootLevel: nat, height: nat, x: Cgroup, lx: nat)
    requires Unique(root) && LiesIn(x, lx, root.kids, rootLevel + 1) && lx < height && x.id in ctxs
    ensures var after := Stored(ctxs, OutsOf(ctxs, root.kids, rootLevel + 1, height)); (
      && after[x.id].sloppy == Total(ctxs, x, lx, height)
      && (after[x.id].throttled <==> ctxs[x.id].throttled || Total(ctxs, x, lx, height) >= ctxs[x.id].budget))
  {
    GetsIn(ctxs, root.kids, rootLevel + 1, height, x, lx);
  }

  // ----- handing throttling down -----

  /** A throttled cgroup lies between the root, which is not counted, and the visited one. */
  ghost predicate Under(ctxs: Ctxs, v: Visit) {
    exists j :: 1 <= j < |v.above| && v.above[j] in ctxs && ctxs[v.above[j]].throttled
  }

  ghost function Handed(ctxs: Ctxs, vs: seq<Visit>): Ctxs {
    map id | id in ctxs :: ctxs[id].(throttled := ctxs[id].throttled
      || (ctxs[id].limited && exists i :: 0 <= i < |vs| && vs[i].id == id && Under(ctxs, vs[i])))
  }

  /** An ancestor is visited after everything below it. */
  ghost predicate Later(vs: seq<Visit>) {
    forall i, j, k :: 0 <= j <= i < |vs| && 0 <= k < |vs[i].above| ==> vs[j].id != vs[i].above[k]
  }

  lemma {:induction false} AboveLater(c: Cgroup, level: nat, above: seq<nat>)
    requires Unique(c) && forall a :: a in above ==> a !in Ids(c)
    ensures Later(PostOrder(c, level, above))
    ensures forall v, a :: v in PostOrder(c, level, above) && a in v.above ==> a in above || a in Ids(c)
    decreases c, 1
  {
    var kids, vs := PostOrders(c.kids, level + 1, above + [c.id]), PostOrder(c, level, above);
    AbovesLater(c.kids, level + 1, above + [c.id]);
    VisitIdsOf(c.kids, level + 1, above + [c.id]);
    forall v, a | v in vs && a in v.above ensures a in above || a in Ids(c) {
      assert v in kids || v == Visit(c.id, level, above);
    }
    forall i, j, k | 0 <= j <= i < |vs| && 0 <= k < |vs[i].above| ensures vs[j].id != vs[i].above[k] {
      assert vs[j] in vs && (i < |kids| || vs[i].above[k] in above);
    }
  }

  lemma {:induction false} AbovesLater(cs: seq<Cgroup>, level: nat, above: seq<nat>)
    requires UniqueAll(cs) && forall a :: a in above ==> a !in IdsOf(cs)
    ensures Later(PostOrders(cs, level, above))
    ensures forall v, a :: v in PostOrders(cs, level, above) && a in v.above ==> a in above || a in IdsOf(cs)
    decreases cs, 0
  {
    if cs != [] {
      var init, last := cs[..|cs| - 1], cs[|cs| - 1];
      AbovesLater(init, level, above);
      AboveLater(last, level, above);
      VisitIdsOf(init, level, above);
      VisitIds(last, level, above);
    }
  }

  lemma HandedNext(ctxs: Ctxs, vs: seq<Visit>, i: nat)
    requires i < |vs| && Apart(vs) && Later(vs)
    ensures forall a :: a in vs[i].above && a in ctxs ==> Handed(ctxs, vs[..i])[a] == ctxs[a]
    ensures vs[i].id in ctxs ==> Handed(ctxs, vs[..i])[vs[i].id] == ctxs[vs[i].id]
    ensures Handed(ctxs, vs[..i + 1]) == if vs[i].id in ctxs && ctxs[vs[i].id].limited && Under(ctxs, vs[i])
      then Handed(ctxs, vs[..i])[vs[i].id := ctxs[vs[i].id].(throttled := true)] else Handed(ctxs, vs[..i])
  {
  }

  // ----- a total is a sum over the cgroups of the subtree and their LLCs -----

  /** Without runtimes the sum is zero, and it moves by what the runtime of one LLC moves. */
  lemma {:induction false} SumMoves(llcs: seq<Option<int>>, i: nat, x: int)
    requires i < |llcs| && llcs[i].Some?
    ensures Sum(llcs[i := Some(x)]) == Sum(llcs) + x - llcs[i].value
  {
    var last := |llcs| - 1;
    if i == last {
      assert llcs[i := Some(x)][..last] == llcs[..last];
    } else {
      assert llcs[i := Some(x)][..last] == llcs[..last][i := Some(x)];
      SumMoves(llcs[..last], i, x);
    }
  }

  lemma {:induction false} SumNothing(llcs: seq<Option<int>>)
    requires forall i :: 0 <= i < |llcs| ==> llcs[i].None? || llcs[i].value == 0
    ensures Sum(llcs) == 0
  {
    if llcs != [] {
      SumNothing(llcs[..|llcs| - 1]);
    }
  }

  lemma {:induction false} TotalSame(ctxs: Ctxs, ctxs': Ctxs, c: Cgroup, level: nat, height: nat)
    requires forall id :: id in Ids(c) ==> Own(ctxs, id) == Own(ctxs', id)
    ensures Total(ctxs, c, level, height) == Total(ctxs', c, level, height)
    decreases c, 1
  {
    assert c.id in Ids(c);
    TotalsSame(ctxs, ctxs', c.kids, level + 1, height);
  }

  lemma {:induction false} TotalsSame(ctxs: Ctxs, ctxs': Ctxs, cs: seq<Cgroup>, level: nat, height: nat)
    requires forall id :: id in IdsOf(cs) ==> Own(ctxs, id) == Own(ctxs', id)
    ensures Totals(ctxs, cs, level, height) == Totals(ctxs', cs, level, height)
    decreases cs, 0
  {
    if cs != [] {
      TotalsSame(ctxs, ctxs', cs[..|cs| - 1], level, height);
      TotalSame(ctxs, ctxs', cs[|cs| - 1], level, height);
    }
  }

  /** Only one cgroup's runtime differs. */
  ghost predicate SaveFor(ctxs: Ctxs, ctxs': Ctxs, id: nat) {
    forall j :: j != id ==> Own(ctxs, j) == Own(ctxs', j)
  }

  /** A total moves by what the runtime of one cgroup of its subtree under the height cap moves. */
  lemma {:induction false} TotalMoves(ctxs: Ctxs, ctxs': Ctxs, c: Cgroup, level: nat, height: nat, x: Cgroup, lx: nat)
    requires Unique(c) && Lies(x, lx, c, level) && SaveFor(ctxs, ctxs', x.id)
    ensures Total(ctxs', c, level, height) - Total(ctxs, c, level, height) ==
      if lx < height then Own(ctxs', x.id) - Own(ctxs, x.id) else 0
    decreases c, 1
  {
    if x == c && lx == level {
      TotalsSame(ctxs, ctxs', c.kids, level + 1, height);
    } else {
      LiesInIds(x, lx, c.kids, level + 1);
      LiesDeeper(x, lx, c.kids, level + 1);
      TotalsMove(ctxs, ctxs', c.kids, level + 1, height, x, lx);
    }
  }

  lemma {:induction false} TotalsMove(ctxs: Ctxs, ctxs': Ctxs, cs: seq<Cgroup>, level: nat, height: nat, x: Cgroup,
                                      lx: nat)
    requires UniqueAll(cs) && LiesIn(x, lx, cs, level) && SaveFor(ctxs, ctxs', x.id)
    ensures Totals(ctxs', cs, level, height) - Totals(ctxs, cs, level, height) ==
      if lx < height then Own(ctxs', x.id) - Own(ctxs, x.id) else 0
    decreases cs, 0
  {
    var init, last := cs[..|cs| - 1], cs[|cs| - 1];
    if LiesIn(x, lx, init, level) {
      LiesInIds(x, lx, init, level);
      TotalsMove(ctxs, ctxs', init, level, height, x, lx);
      TotalSame(ctxs, ctxs', last, level, height);
    } else {
      LiesId(x, lx, last, level);
      TotalMoves(ctxs, ctxs', last, level, height, x, lx);
      TotalsSame(ctxs, ctxs', init, level, height);
    }
  }

  lemma {:induction false} LiesDeeper(x: Cgroup, lx: nat, cs: seq<Cgroup>, lc: nat)
    requires LiesIn(x, lx, cs, lc)
    ensures lx >= lc
    decreases cs
  {
    var last := cs[|cs| - 1];
    if LiesIn(x, lx, cs[..|cs| - 1], lc) {
      LiesDeeper(x, lx, cs[..|cs| - 1], lc);
    } else if !(x == last && lx == lc) {
      LiesDeeper(x, lx, last.kids, lc + 1);
    }
  }

  /** The deeper levels are all added up. */
  lemma {:induction false} DeeperMoves(levels: seq<int>, level: nat, i: nat, x: int)
    requires level <= |levels| && i < |levels|
    ensures Deeper(levels[i := x], level) == Deeper(levels, level) + if i >= level then x - levels[i] else 0
    decreases |levels| - level
  {
    if level < |levels| {
      DeeperMoves(levels, level + 1, i, x);
    }
  }

  /** No LLC of any cgroup has run. */
  ghost predicate NoRuntime(ctxs: Ctxs) {
    forall id, i :: id in ctxs && 0 <= i < |ctxs[id].llcs| ==> ctxs[id].llcs[i].None? || ctxs[id].llcs[i].value == 0
  }

  /** A subtree without runtimes has no total, and a cgroup without a context adds nothing. */
  lemma {:induction false} TotalNothing(ctxs: Ctxs, c: Cgroup, level: nat, height: nat)
    requires NoRuntime(ctxs)
    ensures Total(ctxs, c, level, height) == 0
    decreases c, 1
  {
    if c.id in ctxs {
      SumNothing(ctxs[c.id].llcs);
    }
    TotalsNothing(ctxs, c.kids, level + 1, height);
  }

  lemma {:induction false} TotalsNothing(ctxs: Ctxs, cs: seq<Cgroup>, level: nat, height: nat)
    requires NoRuntime(ctxs)
    ensures Totals(ctxs, cs, level, height) == 0
    decreases cs, 0
  {
    if cs != [] {
      TotalsNothing(ctxs, cs[..|cs| - 1], level, height);
      TotalNothing(ctxs, cs[|cs| - 1], level, height);
    }
  }
}

/**
 * The index allocator: a radix tree of three levels, each node with a bitmap of its 512 slots.
 * A set bit means an index in use at the bottom and a full subtree above it.
 */
module IndexAllocator {
  const LEVELS: nat := 3
  const ENTS: nat := 512
  const EINVAL := 22

  /** A node: its bitmap and the number of clear bits. */
  datatype Desc = Desc(bits: seq<bool>, nrFree: nat)

  /** Where a node hangs: its level and which subtree of that level it is. */
  datatype Place = Place(level: nat, k: nat)

  /** The nodes that exist. A slot of a node holds the node of the place below it, if there is one. */
  type Descs = map<Place, Desc>

  /** The part of an index that names a subtree at a level: all of it at level LEVELS, nothing at level 0. */
  function Prefix(x: nat, level: nat): nat
    requires level <= LEVELS
    decreases LEVELS - level
  {
    if level == LEVELS then x else Prefix(x, level + 1) / ENTS
  }

  predicate IsIndex(x: nat) {
    Prefix(x, 0) == 0
  }

  /** Every index under subtree `k` of a level is in use. */
  ghost predicate Full(used: set<nat>, level: nat, k: nat)
    requires level <= LEVELS
  {
    forall x: nat :: Prefix(x, level) == k ==> x in used
  }

  ghost predicate Void(used: set<nat>, level: nat, k: nat)
    requires level <= LEVELS
  {
    forall x: nat :: Prefix(x, level) == k ==> x !in used
  }

  function Clears(bits: seq<bool>): nat {
    if bits == [] then 0 else Clears(bits[..|bits| - 1]) + if bits[|bits| - 1] then 0 else 1
  }

  lemma {:induction false} ClearsUpdate(bits: seq<bool>, i: nat, b: bool)
    requires i < |bits|
    ensures Clears(bits[i := b]) + (if bits[i] then 0 else 1) == Clears(bits) + if b then 0 else 1
  {
    var last := |bits| - 1;
    if i == last {
      assert bits[i := b][..last] == bits[..last];
    } else {
      assert bits[i := b][..last] == bits[..last][i := b];
      ClearsUpdate(bits[..last], i, b);
    }
  }

  lemma {:induction false} NoClears(bits: seq<bool>)
    ensures Clears(bits) == 0 <==> forall i :: 0 <= i < |bits| ==> bits[i]
  {
    if bits != [] {
      NoClears(bits[..|bits| - 1]);
    }
  }

  lemma {:induction false} AllClear(bits: seq<bool>)
    requires forall i :: 0 <= i < |bits| ==> !bits[i]
    ensures Clears(bits) == |bits|
  {
    if bits != [] {
      AllClear(bits[..|bits| - 1]);
    }
  }

  // ----- subtrees -----

  /** The smallest index under a subtree. */
  function Low(level: nat, k: nat): (x: nat)
    requires level <= LEVELS
    ensures Prefix(x, level) == k
    decreases LEVELS - level
  {
    if level == LEVELS then k else Low(level + 1, k * ENTS)
  }

  /** Child `i` of a subtree is full. */
  ghost predicate ChildFull(used: set<nat>, level: nat, k: nat, i: nat)
    requires level < LEVELS
  {
    Full(used, level + 1, k * ENTS + i)
  }

  /** A subtree is full when all its children are. */
  lemma FullByChildren(used: set<nat>, level: nat, k: nat)
    requires level < LEVELS
    ensures Full(used, level, k) <==> forall i: nat :: i < ENTS ==> ChildFull(used, level, k, i)
  {
    if forall i: nat :: i < ENTS ==> ChildFull(used, level, k, i) {
      forall x: nat | Prefix(x, level) == k ensures x in used {
        var i := Prefix(x, level + 1) % ENTS;
        assert Prefix(x, level + 1) == k * ENTS + i;
        assert ChildFull(used, level, k, i);
      }
    }
    if Full(used, level, k) {
      forall i: nat | i < ENTS ensures ChildFull(used, level, k, i) {
        FullChild(used, level, k, i);
      }
    }
  }

  lemma FullChild(used: set<nat>, level: nat, k: nat, i: nat)
    requires level < LEVELS && i < ENTS && Full(used, level, k)
    ensures ChildFull(used, level, k, i)
  {
    forall x: nat | Prefix(x, level + 1) == k * ENTS + i ensures x in used {
      assert Prefix(x, level) == k;
    }
  }

  lemma VoidChild(used: set<nat>, level: nat, k: nat, i: nat)
    requires level < LEVELS && i < ENTS && Void(used, level, k)
    ensures Void(used, level + 1, k * ENTS + i)
  {
    forall x: nat | Prefix(x, level + 1) == k * ENTS + i ensures x !in used {
      assert Prefix(x, level) == k;
    }
  }

  lemma VoidIsNotFull(used: set<nat>, level: nat, k: nat)
    requires level <= LEVELS && Void(used, level, k)
    ensures !Full(used, level, k)
  {
    assert Prefix(Low(level, k), level) == k;
  }

  /** The node of subtree `k` at a level says what `used` says. */
  ghost predicate Good(d: Desc, used: set<nat>, level: nat, k: nat)
    requires level < LEVELS
  {
    && |d.bits| == ENTS && d.nrFree == Clears(d.bits)
    && forall i: nat :: i < ENTS ==> (d.bits[i] <==> ChildFull(used, level, k, i))
  }

  lemma GoodIsFull(d: Desc, used: set<nat>, level: nat, k: nat)
    requires level < LEVELS && Good(d, used, level, k)
    ensures d.nrFree == 0 <==> Full(used, level, k)
  {
    NoClears(d.bits);
    FullByChildren(used, level, k);
    assert (forall i :: 0 <= i < ENTS ==> d.bits[i]) <==> (forall i: nat :: i < ENTS ==> ChildFull(used, level, k, i));
  }

  /** Only the subtree that holds an index notices that it comes or goes. */
  lemma FullElsewhere(used: set<nat>, used': set<nat>, x: nat, level: nat, k: nat)
    requires level <= LEVELS && Prefix(x, level) != k && (used' == used + {x} || used' == used - {x})
    ensures Full(used, level, k) <==> Full(used', level, k)
  {
  }

  lemma ChildElsewhere(used: set<nat>, used': set<nat>, x: nat, level: nat, k: nat, i: nat)
    requires level < LEVELS && i < ENTS && (used' == used + {x} || used' == used - {x})
    requires Prefix(x, level) != k || Prefix(x, level + 1) % ENTS != i
    ensures ChildFull(used, level, k, i) <==> ChildFull(used', level, k, i)
  {
    assert Prefix(x, level) == Prefix(x, level + 1) / ENTS;
    FullElsewhere(used, used', x, level + 1, k * ENTS + i);
  }

  lemma GoodElsewhere(d: Desc, used: set<nat>, used': set<nat>, x: nat, level: nat, k: nat)
    requires level < LEVELS && Good(d, used, level, k) && Prefix(x, level) != k
    requires used' == used + {x} || used' == used - {x}
    ensures Good(d, used', level, k)
  {
    forall i: nat | i < ENTS ensures ChildFull(used, level, k, i) <==> ChildFull(used', level, k, i) {
      ChildElsewhere(used, used', x, level, k, i);
    }
  }

  /** The node on the way to `x`: at most the bit of the child that holds `x` has to change. */
  lemma GoodOnPath(d: Desc, d': Desc, used: set<nat>, used': set<nat>, x: nat, level: nat, pos: nat)
    requires level < LEVELS && Good(d, used, level, Prefix(x, level)) && (used' == used + {x} || used' == used - {x})
    requires pos == Prefix(x, level + 1) % ENTS && |d'.bits| == ENTS && d'.nrFree == Clears(d'.bits)
    requires d'.bits == d.bits[pos := d'.bits[pos]] && (d'.bits[pos] <==> Full(used', level + 1, Prefix(x, level + 1)))
    ensures Good(d', used', level, Prefix(x, level))
  {
    var k := Prefix(x, level);
    assert Prefix(x, level + 1) == k * ENTS + pos;
    assert ChildFull(used', level, k, pos) <==> d'.bits[pos];
    forall i: nat | i < ENTS && i != pos ensures ChildFull(used, level, k, i) <==> ChildFull(used', level, k, i) {
      ChildElsewhere(used, used', x, level, k, i);
    }
    hide ChildFull, Full, Clears, Prefix;
  }

  // ----- the tree of nodes -----

  ghost predicate AllGood(descs: Descs, used: set<nat>) {
    forall p :: p in descs ==> p.level < LEVELS && Good(descs[p], used, p.level, p.k)
  }

  /** Where a node is missing nothing is in use. */
  ghost predicate Missing(descs: Descs, used: set<nat>) {
    Place(0, 0) in descs && forall p: Place :: p.level < LEVELS && p !in descs ==> Void(used, p.level, p.k)
  }

  ghost predicate Sound(descs: Descs, used: set<nat>) {
    AllGood(descs, used) && Missing(descs, used) && forall x :: x in used ==> IsIndex(x)
  }

  /** `lv` are the nodes on the way to index `x`, and `pos` the slots taken in them. */
  ghost predicate Way(descs: Descs, lv: seq<Place>, pos: seq<nat>, x: nat) {
    |lv| == |pos| == LEVELS && forall l :: 0 <= l < LEVELS ==>
      lv[l] in descs && lv[l] == Place(l, Prefix(x, l)) && pos[l] == Prefix(x, l + 1) % ENTS
  }

  lemma {:induction false} NotFullUp(used: set<nat>, x: nat, low: nat, level: nat)
    requires level <= low <= LEVELS && !Full(used, low, Prefix(x, low))
    ensures !Full(used, level, Prefix(x, level))
    decreases low - level
  {
    if level < low {
      NotFullUp(used, x, low, level + 1);
      FullByChildren(used, level, Prefix(x, level));
      assert Prefix(x, level + 1) == Prefix(x, level) * ENTS + Prefix(x, level + 1) % ENTS;
      assert !ChildFull(used, level, Prefix(x, level), Prefix(x, level + 1) % ENTS);
    }
  }

  /** Nodes from `level` up on the way to `x` still show `was`, everything else shows `now`. */
  ghost predicate Partly(descs: Descs, x: nat, level: int, was: set<nat>, now: set<nat>) {
    forall p :: p in descs ==>
      p.level < LEVELS && Good(descs[p],
        if p.level <= level && p.k == Prefix(x, p.level) then was else now, p.level, p.k)
  }

  ghost predicate Differ(was: set<nat>, now: set<nat>, x: nat) {
    now == was + {x} || now == was - {x}
  }

  lemma StartPartly(descs: Descs, x: nat, was: set<nat>, now: set<nat>)
    requires AllGood(descs, was) && Differ(was, now, x)
    ensures Partly(descs, x, LEVELS - 1, was, now)
  {
    forall p | p in descs && p.k != Prefix(x, p.level) ensures Good(descs[p], now, p.level, p.k) {
      GoodElsewhere(descs[p], was, now, x, p.level, p.k);
    }
  }

  /** The bit of one node on the way changes. */
  lemma StepPartly(descs: Descs, x: nat, level: nat, d: Desc, was: set<nat>, now: set<nat>)
    requires level < LEVELS && Place(level, Prefix(x, level)) in descs && Partly(descs, x, level, was, now)
    requires Differ(was, now, x)
    requires |descs[Place(level, Prefix(x, level))].bits| == ENTS && d.nrFree == Clears(d.bits)
    requires d.bits == descs[Place(level, Prefix(x, level))].bits[Prefix(x, level + 1) % ENTS :=
      Full(now, level + 1, Prefix(x, level + 1))]
    ensures Partly(descs[Place(level, Prefix(x, level)) := d], x, level - 1, was, now)
    ensures Good(d, now, level, Prefix(x, level))
  {
    GoodOnPath(descs[Place(level, Prefix(x, level))], d, was, now, x, level, Prefix(x, level + 1) % ENTS);
    hide Good, Prefix, Full;
  }

  /** From `level` up nothing has to change. */
  lemma RestStays(descs: Descs, x: nat, level: int, was: set<nat>, now: set<nat>)
    requires -1 <= level < LEVELS && Partly(descs, x, level, was, now) && Differ(was, now, x)
    requires level >= 0 ==> !Full(was, level + 1, Prefix(x, level + 1)) && !Full(now, level + 1, Prefix(x, level + 1))
    ensures AllGood(descs, now)
  {
    forall p | p in descs ensures p.level < LEVELS && Good(descs[p], now, p.level, p.k) {
      var l := p.level;
      if l <= level && p.k == Prefix(x, l) {
        NotFullUp(was, x, level + 1, l + 1);
        NotFullUp(now, x, level + 1, l + 1);
        BitIsFull(descs[p], was, x, l);
        GoodOnPath(descs[p], descs[p], was, now, x, l, Prefix(x, l + 1) % ENTS);
      }
    }
  }

  lemma BitIsFull(d: Desc, used: set<nat>, x: nat, level: nat)
    requires level < LEVELS && Good(d, used, level, Prefix(x, level))
    ensures d.bits[Prefix(x, level + 1) % ENTS] <==> Full(used, level + 1, Prefix(x, level + 1))
  {
    var k, i := Prefix(x, level), Prefix(x, level + 1) % ENTS;
    assert Prefix(x, level + 1) == k * ENTS + i;
    assert d.bits[i] <==> ChildFull(used, level, k, i);
  }

  /** After `u` levels on the way up the subtree below is full, now or before. */
  ghost predicate Upward(descs: Descs, lv: seq<Place>, pos: seq<nat>, x: nat, u: nat, was: set<nat>, now: set<nat>,
                         state: bool) {
    && u <= LEVELS && Way(descs, lv, pos, x) && Partly(descs, x, LEVELS - 1 - u, was, now)
    && now == (if state then was + {x} else was - {x}) && (state <==> x !in was)
    && Full(if state then now else was, LEVELS - u, Prefix(x, LEVELS - u))
  }

  lemma LeafFacts(x: nat, a: set<nat>, b: set<nat>)
    requires x in a && x !in b
    ensures Full(a, LEVELS, Prefix(x, LEVELS)) && !Full(b, LEVELS, Prefix(x, LEVELS))
  {
    assert Prefix(x, LEVELS) == x;
  }

  lemma StartUpward(descs: Descs, lv: seq<Place>, pos: seq<nat>, x: nat, was: set<nat>, now: set<nat>, state: bool)
    requires AllGood(descs, was) && Way(descs, lv, pos, x)
    requires now == (if state then was + {x} else was - {x}) && (state <==> x !in was)
    ensures Upward(descs, lv, pos, x, 0, was, now, state)
  {
    StartPartly(descs, x, was, now);
    LeafFacts(x, if state then now else was, if state then was else now);
    hide Partly, Good, AllGood, Way;
  }

  lemma EndUpward(descs: Descs, lv: seq<Place>, pos: seq<nat>, x: nat, was: set<nat>, now: set<nat>, state: bool)
    requires Upward(descs, lv, pos, x, LEVELS, was, now, state)
    ensures AllGood(descs, now)
  {
    RestStays(descs, x, -1, was, now);
  }

  /** What a stop on the way up finds, and what it should leave. */
  lemma LevelFacts(descs: Descs, lv: seq<Place>, pos: seq<nat>, x: nat, u: nat, was: set<nat>, now: set<nat>,
                   state: bool)
    requires u < LEVELS && Upward(descs, lv, pos, x, u, was, now, state)
    ensures var level, p := LEVELS - 1 - u, Place(LEVELS - 1 - u, Prefix(x, LEVELS - 1 - u)); (
      && |lv| == |pos| == LEVELS && lv[level] == p && p in descs && pos[level] == Prefix(x, level + 1) % ENTS < ENTS
      && |descs[p].bits| == ENTS && descs[p].nrFree == Clears(descs[p].bits) && descs[p].bits[pos[level]] == !state
      && Full(now, level + 1, Prefix(x, level + 1)) == state
      && (descs[p].nrFree == 0 <==> Full(was, level, Prefix(x, level)))
      && !Full(if state then was else now, level, Prefix(x, level))
      && !Full(if state then was else now, level + 1, Prefix(x, level + 1)))
  {
    var level, p := LEVELS - 1 - u, Place(LEVELS - 1 - u, Prefix(x, LEVELS - 1 - u));
    LeafFacts(x, if state then now else was, if state then was else now);
    NotFullUp(if state then was else now, x, LEVELS, level + 1);
    NotFullUp(if state then was else now, x, LEVELS, level);
    assert lv[level] == p && Good(descs[p], was, level, p.k);
    BitIsFull(descs[p], was, x, level);
    GoodIsFull(descs[p], was, level, p.k);
    hide Partly, Full, Prefix;
  }

  /** The part of a number that is looked at on the way down: one mask per level. */
  function Masked(number: nat): nat { number % (ENTS * ENTS * ENTS) }

  class Allocator {
    var descs: Descs

    /** The generation stored with each index that has had a data element, a signed 32-bit word. */
    var gens: map<nat, int>

    ghost var used: set<nat>

    /** How often each index with a data element has been freed. */
    ghost var frees: map<nat, nat>

    /** The indices handed out so far, each with how often it had been freed then. */
    ghost var issued: set<(nat, nat)>

    ghost predicate Valid()
      reads this
    {
      Sound(descs, used) && Fresh(gens, frees, used, issued)
    }

    /** Only the root. */
    constructor ()
      ensures Valid() && used == {} && issued == {} && frees == map[]
    {
      descs := map[Place(0, 0) := Blank()];
      gens, frees := map[], map[];
      used, issued := {}, {};
      new;
      BlankIsGood({}, 0, 0);
    }

    /** The first clear bit, or ENTS. */
    method FindEmpty(p: Place) returns (pos: nat)
      requires p in descs && |descs[p].bits| == ENTS
      ensures pos <= ENTS && (forall i :: 0 <= i < pos ==> descs[p].bits[i]) && (pos < ENTS ==> !descs[p].bits[pos])
    {
      pos := 0;
      while pos < ENTS && descs[p].bits[pos]
        invariant pos <= ENTS && forall i :: 0 <= i < pos ==> descs[p].bits[i]
      {
        pos := pos + 1;
      }
    }

    /** One level down: the first free slot of the node, and the node below it. */
    method StepDown(lv: seq<Place>, pos: seq<nat>, level: nat, k: nat) returns (found: bool, i: nat)
      requires level < LEVELS && Down(descs, lv, pos, level, k, used) && Sound(descs, used)
      modifies this`descs
      ensures Sound(descs, used)
      ensures !found ==> Full(used, 0, 0)
      ensures found ==> Down(descs, lv + [Place(level, k)], pos + [i], level + 1, k * ENTS + i, used)
    {
      hide *;
      DownFacts(descs, lv, pos, level, k, used);
      i := FindEmpty(Place(level, k));
      if i == ENTS {
        RootIsFull(descs, lv, pos, level, k, used);
        return false, i;
      }
      DownMore(descs, lv, pos, level, k, used, i);
      if level + 1 < LEVELS && Place(level + 1, k * ENTS + i) !in descs {
        AddBlank(descs, used, Place(level + 1, k * ENTS + i));
        descs := descs[Place(level + 1, k * ENTS + i) := Blank()];
      }
      found := true;
    }

    /** Goes down to the first free slot, filling in missing nodes on the way. */
    method FindPath() returns (found: bool, lv: seq<Place>, pos: seq<nat>, x: nat)
      requires Sound(descs, used)
      modifies this`descs
      ensures Sound(descs, used)
      ensures !found ==> Full(used, 0, 0)
      ensures found ==> Way(descs, lv, pos, x) && x !in used && IsIndex(x) && FullBefore(used, LEVELS, x)
    {
      hide *;
      lv, pos, x := [], [], 0;
      var level := 0;
      StartDown(descs, used);
      while level < LEVELS
        invariant level <= LEVELS && Down(descs, lv, pos, level, x, used) && Sound(descs, used)
      {
        var i;
        found, i := StepDown(lv, pos, level, x);
        if !found {
          return;
        }
        lv, pos, x, level := lv + [Place(level, x)], pos + [i], x * ENTS + i, level + 1;
      }
      EndDown(descs, lv, pos, x, used);
      found := true;
    }

    /** Takes index `x`, found by the way `lv`. */
    method Claim(lv: seq<Place>, pos: seq<nat>, ghost x: nat)
      requires Sound(descs, used) && Way(descs, lv, pos, x) && x !in used && IsIndex(x)
      modifies this`descs, this`used
      ensures Sound(descs, used) && Way(descs, lv, pos, x) && used == old(used) + {x}
    {
      ghost var was := descs;
      SoundParts(was, used, lv, pos, x);
      hide *;
      MarkUsed(lv, pos, x);
      StillSound(was, descs, used, lv, pos, x, true);
      used := used + {x};
    }

    /** Gives index `x` back. */
    method Return(lv: seq<Place>, pos: seq<nat>, ghost x: nat)
      requires Sound(descs, used) && Way(descs, lv, pos, x) && x in used
      modifies this`descs, this`used
      ensures Sound(descs, used) && used == old(used) - {x}
    {
      ghost var was := descs;
      SoundParts(was, used, lv, pos, x);
      hide *;
      MarkAvail(lv, pos, x);
      StillSound(was, descs, used, lv, pos, x, false);
      used := used - {x};
    }

    /**
     * Allocates the least index that is free. `nodesOk` says whether nodes for the tree could be had ahead of the
     * walk, `dataOk` whether the pool can supply a data element when the index has none yet; without one the index
     * is given back. An index comes with a generation it had before exactly if it was freed a multiple of 2^32 times
     * in between.
     */
    method Alloc(nodesOk: bool, dataOk: bool) returns (ok: bool, idx: nat, gen: int)
      requires Valid()
      modifies this
      ensures Valid()
      ensures ok ==> IsLeastFree(old(used), idx) && used == old(used) + {idx}
      ensures ok ==> frees == (if idx in old(frees) then old(frees) else old(frees)[idx := 0])
      ensures ok ==> gens == old(gens)[idx := gen] && issued == old(issued) + {(idx, frees[idx])}
      ensures ok ==> forall n :: (idx, n) in old(issued) ==>
        n < frees[idx] && (Stored(n) == gen <==> (frees[idx] - n) % TWO32 == 0)
      ensures !ok ==> used == old(used) && issued == old(issued) && gens == old(gens) && frees == old(frees)
      ensures ok <==> nodesOk && exists x :: IsLeastFree(old(used), x) && (dataOk || x in old(gens))
      ensures nodesOk ==> (AllUsed(old(used)) <==> !exists x :: IsLeastFree(old(used), x))
    {
      hide Sound, Way, Full, FullBefore, Prefix, IsIndex, IsLeastFree, AllUsed, Stored;
      if !nodesOk {
        return false, 0, 0;
      }
      var found, lv, pos, x := FindPath();
      if !found {
        RootDecides(used);
        NoneFree(used);
        return false, 0, 0;
      }
      LeastFree(used, x);
      OneLeast(used, x);
      Claim(lv, pos, x);
      if x !in gens && !dataOk {
        Return(lv, pos, x);
        return false, 0, 0;
      }
      if x !in gens {
        NoneStored();
        gens, frees := gens[x := 0], frees[x := 0];
      }
      ok, idx, gen := true, x, gens[x];
      forall n | (idx, n) in issued
        ensures n < frees[idx] && (Stored(n) == gen <==> (frees[idx] - n) % TWO32 == 0)
      {
        StoredAgain(n, frees[idx]);
      }
      issued := issued + {(idx, frees[idx])};
    }

    /**
     * Gives an index back; its data starts a new generation. Only the low bits of a number count. The code does not
     * ask whether the index is in use: one that is free already, with its leaf in place, breaks the tree.
     */
    method FreeIdx(number: nat) returns (ret: int)
      requires Valid()
      modifies this
      ensures var idx := Masked(number); (
        && issued == old(issued) && used == old(used) - {idx}
        && ret == (if Reaches(old(descs), idx) then 0 else -EINVAL)
        && gens == (if ret == 0 && idx in old(gens) then old(gens)[idx := Next(old(gens)[idx])] else old(gens))
        && frees == (if ret == 0 && idx in old(frees) then old(frees)[idx := old(frees)[idx] + 1] else old(frees))
        && (Valid() <==> idx in old(used) || !Reaches(old(descs), idx))
        && (!Valid() ==> forall any :: !Sound(descs, any)))
    {
      var idx := Masked(number);
      var lv: seq<Place>, pos: seq<nat> := [], [];
      var level := 0;
      hide Sound, Prefix, Way, AllGood, Missing, Twice, Stored, Next;
      while level < LEVELS
        invariant level <= LEVELS && PartWay(descs, lv, pos, level, idx)
      {
        var p := Place(level, Prefix(idx, level));
        if p !in descs {
          MissingIsUnused(descs, used, idx, level);
          assert !HasNode(descs, idx, level);
          return -EINVAL;
        }
        lv, pos := lv + [p], pos + [Prefix(idx, level + 1) % ENTS];
        level := level + 1;
      }
      PartIsWay(descs, lv, pos, idx);
      SoundParts(descs, used, lv, pos, idx);
      ghost var was := descs;
      if idx in gens {
        NextStored(frees[idx]);
        gens, frees := gens[idx := Next(gens[idx])], frees[idx := frees[idx] + 1];
      }
      MarkAvail(lv, pos, idx);
      if idx in used {
        StillSound(was, descs, used, lv, pos, idx, false);
      } else {
        forall any ensures !Sound(descs, any) {
          TwiceIsWrong(was, descs, idx, used, any);
        }
      }
      used := used - {idx};
      ret := 0;
    }

    /** One level of the way up; it ends where the node above does not change. */
    method MarkLevel(lv: seq<Place>, pos: seq<nat>, u: nat, state: bool, ghost x: nat, ghost was: set<nat>,
                     ghost now: set<nat>) returns (done: bool)
      requires u < LEVELS && Upward(descs, lv, pos, x, u, was, now, state)
      modifies this`descs
      ensures descs.Keys == old(descs).Keys
      ensures done ==> AllGood(descs, now)
      ensures !done ==> Upward(descs, lv, pos, x, u + 1, was, now, state)
    {
      hide *;
      var level := LEVELS - 1 - u;
      LevelFacts(descs, lv, pos, x, u, was, now, state);
      var p, i := lv[level], pos[level];
      var d := descs[p];
      ClearsUpdate(d.bits, i, state);
      var d' := Desc(d.bits[i := state], if state then d.nrFree - 1 else d.nrFree + 1);
      LevelDone(descs, lv, pos, x, u, was, now, state, d');
      descs := descs[p := d'];
      done := d'.nrFree > if state then 0 else 1;
    }

    /** Sets the bits on the way to index `x`, up to the first node that keeps a free slot. */
    method MarkUsed(lv: seq<Place>, pos: seq<nat>, ghost x: nat)
      requires AllGood(descs, used) && Way(descs, lv, pos, x) && x !in used
      modifies this`descs
      ensures AllGood(descs, used + {x}) && descs.Keys == old(descs).Keys
    {
      hide *;
      ghost var was, now := used, used + {x};
      StartUpward(descs, lv, pos, x, was, now, true);
      var u := 0;
      while u < LEVELS
        invariant u <= LEVELS && descs.Keys == old(descs).Keys && Upward(descs, lv, pos, x, u, was, now, true)
      {
        var done := MarkLevel(lv, pos, u, true, x, was, now);
        if done {
          return;
        }
        u := u + 1;
      }
      EndUpward(descs, lv, pos, x, was, now, true);
    }

    /** Clears one bit and counts it as free; says whether the node had a free slot already. */
    method ClearBit(p: Place, i: nat) returns (done: bool)
      requires p in descs && i < |descs[p].bits|
      modifies this`descs
      ensures descs == old(descs)[p := Cleared(old(descs)[p], i)] && (done <==> descs[p].nrFree > 1)
    {
      var d := descs[p];
      descs := descs[p := Desc(d.bits[i := false], d.nrFree + 1)];
      done := descs[p].nrFree > 1;
    }

    /**
     * Clears the bits on the way to index `x`, up to the first node that had a free slot already. An index that was
     * free already is counted twice.
     */
    method MarkAvail(lv: seq<Place>, pos: seq<nat>, ghost x: nat)
      requires AllGood(descs, used) && Way(descs, lv, pos, x)
      modifies this`descs
      ensures descs.Keys == old(descs).Keys
      ensures x in used ==> AllGood(descs, used - {x})
      ensures x !in used ==> Twice(old(descs), descs, x)
    {
      assert LEVELS > 0;
      hide *;
      ghost var was, now := used, used - {x};
      ghost var before := descs;
      if x in used {
        StartUpward(descs, lv, pos, x, was, now, false);
      }
      var u := 0;
      while u < LEVELS
        invariant u <= LEVELS && descs.Keys == old(descs).Keys && Way(descs, lv, pos, x)
        invariant x in used ==> Upward(descs, lv, pos, x, u, was, now, false)
        invariant x !in used ==> u == 0 && descs == before && AllGood(before, used)
      {
        var level := LEVELS - 1 - u;
        ghost var at := descs;
        AvailFacts(descs, lv, pos, x, u, used);
        var done := ClearBit(lv[level], pos[level]);
        AvailStep(at, descs, lv, pos, x, u, used, done);
        if done {
          return;
        }
        u := u + 1;
      }
      if x in used {
        EndUpward(descs, lv, pos, x, was, now, false);
      }
    }
  }

  function Cleared(d: Desc, i: nat): Desc
    requires i < |d.bits|
  {
    Desc(d.bits[i := false], d.nrFree + 1)
  }

  /** The leaf of an index says that there is one free slot more, and nothing else has changed. */
  ghost predicate Twice(descs: Descs, descs': Descs, x: nat) {
    var p := Place(LEVELS - 1, Prefix(x, LEVELS - 1));
    p in descs && descs' == descs[p := descs[p].(nrFree := descs[p].nrFree + 1)]
  }

  /** At a stop on the way up there is a node with a slot; a free index has a clear bit in its leaf. */
  lemma AvailFacts(descs: Descs, lv: seq<Place>, pos: seq<nat>, x: nat, u: nat, used: set<nat>)
    requires u < LEVELS && Way(descs, lv, pos, x)
    requires x in used ==> Upward(descs, lv, pos, x, u, used, used - {x}, false)
    requires x !in used ==> u == 0 && AllGood(descs, used)
    ensures var level := LEVELS - 1 - u;
      && |lv| == |pos| == LEVELS && lv[level] in descs && pos[level] < |descs[lv[level]].bits|
      && lv[level] == Place(level, Prefix(x, level))
      && (x !in used ==> !descs[lv[level]].bits[pos[level]] && descs[lv[level]].nrFree > 0)
  {
    var level := LEVELS - 1 - u;
    if x in used {
      LevelFacts(descs, lv, pos, x, u, used, used - {x}, false);
    } else {
      var d := descs[lv[level]];
      assert lv[level] == Place(level, Prefix(x, level));
      assert Good(d, used, level, Prefix(x, level));
      FreeBit(d, used, x);
    }
  }

  lemma FreeBit(d: Desc, used: set<nat>, x: nat)
    requires Good(d, used, LEVELS - 1, Prefix(x, LEVELS - 1)) && x !in used
    ensures Prefix(x, LEVELS) % ENTS < |d.bits| && !d.bits[Prefix(x, LEVELS) % ENTS] && d.nrFree > 0
  {
    BitIsFull(d, used, x, LEVELS - 1);
    LeafFacts(x, used + {x}, used);
    NoClears(d.bits);
  }

  lemma AvailStep(descs: Descs, descs': Descs, lv: seq<Place>, pos: seq<nat>, x: nat, u: nat, used: set<nat>,
                  done: bool)
    requires u < LEVELS && Way(descs, lv, pos, x) && |lv| == |pos| == LEVELS
    requires x in used ==> Upward(descs, lv, pos, x, u, used, used - {x}, false)
    requires x !in used ==> u == 0 && AllGood(descs, used)
    requires var p := lv[LEVELS - 1 - u];
      && p in descs && pos[LEVELS - 1 - u] < |descs[p].bits|
      && descs' == descs[p := Cleared(descs[p], pos[LEVELS - 1 - u])]
      && (done <==> descs'[p].nrFree > 1)
    ensures descs'.Keys == descs.Keys && Way(descs', lv, pos, x)
    ensures x in used && done ==> AllGood(descs', used - {x})
    ensures x in used && !done ==> Upward(descs', lv, pos, x, u + 1, used, used - {x}, false)
    ensures x !in used ==> done && Twice(descs, descs', x)
  {
    hide *;
    AvailFacts(descs, lv, pos, x, u, used);
    var p, i := lv[LEVELS - 1 - u], pos[LEVELS - 1 - u];
    ClearedIs(descs[p], i);
    WayStays(descs, descs', lv, pos, x);
    if x in used {
      LevelFacts(descs, lv, pos, x, u, used, used - {x}, false);
      ClearsUpdate(descs[p].bits, i, false);
      LevelDone(descs, lv, pos, x, u, used, used - {x}, false, Cleared(descs[p], i));
    } else {
      IsTwice(descs, descs', x, i);
    }
  }

  lemma ClearedIs(d: Desc, i: nat)
    requires i < |d.bits|
    ensures Cleared(d, i).bits == d.bits[i := false] && Cleared(d, i).nrFree == d.nrFree + 1
    ensures !d.bits[i] ==> Cleared(d, i) == d.(nrFree := d.nrFree + 1)
  {
    assert !d.bits[i] ==> d.bits[i := false] == d.bits;
  }

  lemma IsTwice(descs: Descs, descs': Descs, x: nat, i: nat)
    requires var p := Place(LEVELS - 1, Prefix(x, LEVELS - 1));
      p in descs && i < |descs[p].bits| && !descs[p].bits[i] && descs' == descs[p := Cleared(descs[p], i)]
    ensures Twice(descs, descs', x)
  {
    ClearedIs(descs[Place(LEVELS - 1, Prefix(x, LEVELS - 1))], i);
  }

  /** A leaf that was counted twice is right for no set of indices. */
  lemma TwiceIsWrong(descs: Descs, descs': Descs, x: nat, used: set<nat>, any: set<nat>)
    requires AllGood(descs, used) && Twice(descs, descs', x)
    ensures !Sound(descs', any)
  {
    var p := Place(LEVELS - 1, Prefix(x, LEVELS - 1));
    assert Good(descs[p], used, p.level, p.k);
    assert descs'[p].nrFree != Clears(descs'[p].bits);
    assert AllGood(descs', any) ==> Good(descs'[p], any, p.level, p.k);
  }

  lemma LevelDone(descs: Descs, lv: seq<Place>, pos: seq<nat>, x: nat, u: nat, was: set<nat>, now: set<nat>,
                  state: bool, d: Desc)
    requires u < LEVELS && Upward(descs, lv, pos, x, u, was, now, state)
    requires |lv| == |pos| == LEVELS && lv[LEVELS - 1 - u] in descs
    requires pos[LEVELS - 1 - u] < |descs[lv[LEVELS - 1 - u]].bits|
    requires d.bits == descs[lv[LEVELS - 1 - u]].bits[pos[LEVELS - 1 - u] := state] && d.nrFree == Clears(d.bits)
    requires d.nrFree == descs[lv[LEVELS - 1 - u]].nrFree + if state then -1 else 1
    ensures var descs' := descs[lv[LEVELS - 1 - u] := d]; (
      if d.nrFree > (if state then 0 else 1) then AllGood(descs', now)
        else Upward(descs', lv, pos, x, u + 1, was, now, state))
  {
    hide *;
    var level, descs' := LEVELS - 1 - u, descs[lv[LEVELS - 1 - u] := d];
    LevelFacts(descs, lv, pos, x, u, was, now, state);
    UpwardFacts(descs, lv, pos, x, u, was, now, state);
    StepPartly(descs, x, level, d, was, now);
    GoodIsFull(d, now, level, Prefix(x, level));
    if d.nrFree > if state then 0 else 1 {
      RestStays(descs', x, level - 1, was, now);
    } else {
      WayStays(descs, descs', lv, pos, x);
      NextUpward(descs', lv, pos, x, u, was, now, state);
    }
  }

  lemma UpwardFacts(descs: Descs, lv: seq<Place>, pos: seq<nat>, x: nat, u: nat, was: set<nat>, now: set<nat>,
                    state: bool)
    requires u < LEVELS && Upward(descs, lv, pos, x, u, was, now, state)
    ensures 0 <= LEVELS - 1 - u < LEVELS && Partly(descs, x, LEVELS - 1 - u, was, now) && Way(descs, lv, pos, x)
    ensures Differ(was, now, x)
    ensures (state <==> x !in was) && now == if state then was + {x} else was - {x}
  {
    hide Partly, Way;
  }

  lemma WayStays(descs: Descs, descs': Descs, lv: seq<Place>, pos: seq<nat>, x: nat)
    requires Way(descs, lv, pos, x) && descs.Keys <= descs'.Keys
    ensures Way(descs', lv, pos, x)
  {
  }

  lemma NextUpward(descs: Descs, lv: seq<Place>, pos: seq<nat>, x: nat, u: nat, was: set<nat>, now: set<nat>,
                   state: bool)
    requires u < LEVELS && Way(descs, lv, pos, x) && Partly(descs, x, LEVELS - 2 - u, was, now)
    requires now == (if state then was + {x} else was - {x}) && (state <==> x !in was)
    requires Full(if state then now else was, LEVELS - 1 - u, Prefix(x, LEVELS - 1 - u))
    ensures Upward(descs, lv, pos, x, u + 1, was, now, state)
  {
    hide Way, Partly, Full, Prefix;
  }

  // ----- the way down -----

  /** A node with nothing below it. */
  function Blank(): Desc {
    Desc(seq(ENTS, i => false), ENTS)
  }

  lemma BlankIsGood(used: set<nat>, level: nat, k: nat)
    requires level < LEVELS && Void(used, level, k)
    ensures Good(Blank(), used, level, k)
  {
    AllClear(Blank().bits);
    forall i: nat | i < ENTS ensures !ChildFull(used, level, k, i) {
      VoidChild(used, level, k, i);
      VoidIsNotFull(used, level + 1, k * ENTS + i);
    }
  }

  /** Following subtree `k` of a level up to level `l`. */
  function Above(k: nat, level: nat, l: nat): nat
    requires l <= level
    decreases level
  {
    if l == level then k else Above(k / ENTS, level - 1, l)
  }

  lemma {:induction false} AboveIsPrefix(x: nat, level: nat, l: nat)
    requires l <= level <= LEVELS
    ensures Above(Prefix(x, level), level, l) == Prefix(x, l)
  {
    if l < level {
      AboveIsPrefix(x, level - 1, l);
    }
  }

  /** All indices before subtree `k` of a level are in use. */
  ghost predicate FullBefore(used: set<nat>, level: nat, k: nat)
    requires level <= LEVELS
  {
    forall y: nat :: IsIndex(y) && Prefix(y, level) < k ==> y in used
  }

  lemma FullBeforeChild(d: Desc, used: set<nat>, level: nat, k: nat, pos: nat)
    requires level < LEVELS && Good(d, used, level, k) && FullBefore(used, level, k) && pos <= ENTS
    requires forall i :: 0 <= i < pos ==>
      d.bits[i]
    ensures FullBefore(used, level + 1, k * ENTS + pos)
  {
    forall y: nat | IsIndex(y) && Prefix(y, level + 1) < k * ENTS + pos ensures y in used {
      if Prefix(y, level) >= k {
        var i := Prefix(y, level + 1) - k * ENTS;
        assert d.bits[i] <==> ChildFull(used, level, k, i);
      }
    }
  }

  /** The nodes passed on the way to subtree `k` of a level; everything before it is full, it is not. */
  ghost predicate Down(descs: Descs, lv: seq<Place>, pos: seq<nat>, level: nat, k: nat, used: set<nat>) {
    && level <= LEVELS && |lv| == |pos| == level
    && (forall l :: 0 <= l < level ==>
          lv[l] in descs && lv[l] == Place(l, Above(k, level, l)) && pos[l] == Above(k, level, l + 1) % ENTS)
    && FullBefore(used, level, k) && (level > 0 ==> !Full(used, level, k)) && Above(k, level, 0) == 0
    && (level < LEVELS ==> Place(level, k) in descs)
  }

  lemma StartDown(descs: Descs, used: set<nat>)
    requires Sound(descs, used)
    ensures Down(descs, [], [], 0, 0, used)
  {
  }

  lemma DownFacts(descs: Descs, lv: seq<Place>, pos: seq<nat>, level: nat, k: nat, used: set<nat>)
    requires Sound(descs, used) && level < LEVELS && Down(descs, lv, pos, level, k, used)
    ensures Place(level, k) in descs && |descs[Place(level, k)].bits| == ENTS
  {
    assert Good(descs[Place(level, k)], used, level, k);
  }

  lemma RootIsFull(descs: Descs, lv: seq<Place>, pos: seq<nat>, level: nat, k: nat, used: set<nat>)
    requires Sound(descs, used) && level < LEVELS && Down(descs, lv, pos, level, k, used)
    requires Place(level, k) in descs && |descs[Place(level, k)].bits| == ENTS && forall i :: 0 <= i < ENTS ==>
      descs[Place(level, k)].bits[i]
    ensures Full(used, 0, 0)
  {
    var d := descs[Place(level, k)];
    assert Good(d, used, level, k);
    NoClears(d.bits);
    GoodIsFull(d, used, level, k);
  }

  lemma DownMore(descs: Descs, lv: seq<Place>, pos: seq<nat>, level: nat, k: nat, used: set<nat>, i: nat)
    requires Sound(descs, used) && level < LEVELS && Down(descs, lv, pos, level, k, used) && i < ENTS
    requires Place(level, k) in descs && |descs[Place(level, k)].bits| == ENTS && !descs[Place(level, k)].bits[i]
    requires forall j :: 0 <= j < i ==>
      descs[Place(level, k)].bits[j]
    ensures var p, k' := Place(level, k), k * ENTS + i; (
      && (level + 1 == LEVELS || Place(level + 1, k') in descs ==>
            Down(descs, lv + [p], pos + [i], level + 1, k', used))
      && (level + 1 < LEVELS && Place(level + 1, k') !in descs ==>
            Down(descs[Place(level + 1, k') := Blank()], lv + [p], pos + [i], level + 1, k', used)))
  {
    var d, p, k' := descs[Place(level, k)], Place(level, k), k * ENTS + i;
    assert Good(d, used, level, k);
    FullBeforeChild(d, used, level, k, i);
    assert !ChildFull(used, level, k, i);
    assert k' / ENTS == k && k' % ENTS == i;
    PassedMore(descs, lv, pos, level, k, i);
    hide Sound, Good, FullBefore, Full, Clears;
  }

  lemma PassedMore(descs: Descs, lv: seq<Place>, pos: seq<nat>, level: nat, k: nat, i: nat)
    requires |lv| == |pos| == level && Place(level, k) in descs && i < ENTS
    requires forall l :: 0 <= l < level ==>
      lv[l] in descs && lv[l] == Place(l, Above(k, level, l)) && pos[l] == Above(k, level, l + 1) % ENTS
    ensures var lv', pos', k' := lv + [Place(level, k)], pos + [i], k * ENTS + i; (
      && Above(k', level + 1, 0) == Above(k, level, 0)
      && forall l :: 0 <= l <= level ==>
        lv'[l] in descs && lv'[l] == Place(l, Above(k', level + 1, l)) && pos'[l] == Above(k', level + 1, l + 1) % ENTS)
  {
    var lv', pos', k' := lv + [Place(level, k)], pos + [i], k * ENTS + i;
    assert k' / ENTS == k && k' % ENTS == i;
    forall l | 0 <= l <= level
      ensures lv'[l] in descs && lv'[l] == Place(l, Above(k', level + 1, l))
      && pos'[l] == Above(k', level + 1, l + 1) % ENTS {
      assert Above(k', level + 1, l) == Above(k, level, l);
      assert l < level ==> Above(k', level + 1, l + 1) == Above(k, level, l + 1);
    }
  }

  lemma AddBlank(descs: Descs, used: set<nat>, p: Place)
    requires Sound(descs, used) && p.level < LEVELS && p !in descs
    ensures Sound(descs[p := Blank()], used)
  {
    BlankIsGood(used, p.level, p.k);
  }

  lemma EndDown(descs: Descs, lv: seq<Place>, pos: seq<nat>, x: nat, used: set<nat>)
    requires Down(descs, lv, pos, LEVELS, x, used)
    ensures Way(descs, lv, pos, x) && x !in used && IsIndex(x) && FullBefore(used, LEVELS, x)
  {
    assert Prefix(x, LEVELS) == x;
    AboveIsPrefix(x, LEVELS, 0);
    forall l | 0 <= l < LEVELS
      ensures lv[l] in descs && lv[l] == Place(l, Prefix(x, l)) && pos[l] == Prefix(x, l + 1) % ENTS {
      AboveIsPrefix(x, LEVELS, l);
      AboveIsPrefix(x, LEVELS, l + 1);
    }
  }

  lemma SoundParts(descs: Descs, used: set<nat>, lv: seq<Place>, pos: seq<nat>, x: nat)
    requires Sound(descs, used)
    ensures AllGood(descs, used) && Missing(descs, used) && (forall y :: y in used ==> IsIndex(y))
  {
  }

  /** Marking an index keeps the nodes that are missing void. */
  lemma StillSound(was: Descs, descs: Descs, used: set<nat>, lv: seq<Place>, pos: seq<nat>, x: nat, state: bool)
    requires Missing(was, used) && was.Keys == descs.Keys && (forall y :: y in used ==> IsIndex(y))
    requires (state ==> IsIndex(x)) && Way(was, lv, pos, x)
    requires AllGood(descs, if state then used + {x} else used - {x})
    ensures Sound(descs, if state then used + {x} else used - {x}) && Way(descs, lv, pos, x)
  {
    hide AllGood, Prefix;
    forall p: Place | p.level < LEVELS && p !in descs
      ensures Void(if state then used + {x} else used - {x}, p.level, p.k) {
      assert Void(used, p.level, p.k);
      assert lv[p.level] == Place(p.level, Prefix(x, p.level));
    }
  }

  ghost predicate PartWay(descs: Descs, lv: seq<Place>, pos: seq<nat>, level: nat, x: nat)
    requires level <= LEVELS
  {
    |lv| == |pos| == level && forall l :: 0 <= l < level ==>
      lv[l] in descs && lv[l] == Place(l, Prefix(x, l)) && pos[l] == Prefix(x, l + 1) % ENTS
  }

  ghost predicate HasNode(descs: Descs, x: nat, level: nat)
    requires level < LEVELS
  {
    Place(level, Prefix(x, level)) in descs
  }

  /** Every node on the way to an index exists. */
  ghost predicate Reaches(descs: Descs, x: nat) {
    forall level: nat :: level < LEVELS ==> HasNode(descs, x, level)
  }

  lemma PartIsWay(descs: Descs, lv: seq<Place>, pos: seq<nat>, x: nat)
    requires PartWay(descs, lv, pos, LEVELS, x)
    ensures Way(descs, lv, pos, x) && Reaches(descs, x)
  {
    forall level: nat | level < LEVELS ensures HasNode(descs, x, level) {
      assert lv[level] == Place(level, Prefix(x, level));
    }
  }

  /** The smallest index that is not in use. */
  ghost predicate IsLeastFree(used: set<nat>, x: nat) {
    x !in used && IsIndex(x) && forall y: nat :: IsIndex(y) && y < x ==> y in used
  }

  ghost predicate AllUsed(used: set<nat>) {
    forall y: nat :: IsIndex(y) ==> y in used
  }

  lemma LeastFree(used: set<nat>, x: nat)
    requires x !in used && IsIndex(x) && FullBefore(used, LEVELS, x)
    ensures IsLeastFree(used, x)
  {
    forall y: nat | IsIndex(y) && y < x ensures y in used {
      assert Prefix(y, LEVELS) == y;
    }
  }

  lemma RootDecides(used: set<nat>)
    requires Full(used, 0, 0)
    ensures AllUsed(used)
  {
  }

  /** The indices are the numbers below 512 * 512 * 512. */
  lemma IndexRange(x: nat)
    ensures IsIndex(x) <==> x < ENTS * ENTS * ENTS
  {
    assert Prefix(x, 3) == x && Prefix(x, 2) == x / ENTS && Prefix(x, 1) == x / ENTS / ENTS;
  }

  lemma MissingIsUnused(descs: Descs, used: set<nat>, x: nat, level: nat)
    requires Sound(descs, used) && level < LEVELS && Place(level, Prefix(x, level)) !in descs
    ensures x !in used
  {
    assert Void(used, level, Prefix(x, level));
  }

  lemma NoneFree(used: set<nat>)
    requires AllUsed(used)
    ensures forall x :: !IsLeastFree(used, x)
  {
  }

  lemma OneLeast(used: set<nat>, x: nat)
    requires IsLeastFree(used, x)
    ensures !AllUsed(used) && forall y :: IsLeastFree(used, y) ==> y == x
  {
  }

  /** The nodes on the way to an index that is in use exist, and so those to its neighbours in the leaf. */
  lemma UsedReaches(descs: Descs, used: set<nat>, x: nat, y: nat)
    requires Sound(descs, used) && x in used && Prefix(y, LEVELS - 1) == Prefix(x, LEVELS - 1)
    ensures Reaches(descs, y)
  {
    forall level: nat | level < LEVELS ensures HasNode(descs, y, level) {
      SamePrefix(x, y, level);
      if Place(level, Prefix(x, level)) !in descs {
        MissingIsUnused(descs, used, x, level);
      }
    }
  }

  lemma {:induction false} SamePrefix(x: nat, y: nat, level: nat)
    requires level < LEVELS && Prefix(y, LEVELS - 1) == Prefix(x, LEVELS - 1)
    ensures Prefix(y, level) == Prefix(x, level)
    decreases LEVELS - level
  {
    if level + 1 < LEVELS {
      SamePrefix(x, y, level + 1);
    }
  }

  lemma Zero()
    ensures IsIndex(0) && Prefix(1, LEVELS - 1) == Prefix(0, LEVELS - 1) && Masked(1) == 1
    ensures !AllUsed({})
    ensures forall x :: IsLeastFree({}, x) ==> x == 0
  {
    assert IsIndex(0);
  }

  /** An index that was never allocated is freed: the call succeeds and leaves a tree that is right for no indices. */
  method FreeWithoutAlloc() returns (a: Allocator, ret: int)
    ensures fresh(a) && ret == 0 && forall used :: !Sound(a.descs, used)
  {
    hide Sound, Prefix, IsIndex, IsLeastFree, AllUsed, Masked;
    a := new Allocator();
    Zero();
    var ok, idx, gen := a.Alloc(true, true);
    UsedReaches(a.descs, a.used, 0, 1);
    ret := a.FreeIdx(1);
  }

  // ----- generations -----

  const TWO31 := 0x8000_0000
  const TWO32 := 0x1_0000_0000

  /** The signed 32-bit word that counts n frees. */
  function Stored(n: nat): int { (n + TWO31) % TWO32 - TWO31 }

  function Next(gen: int): int { if gen == TWO31 - 1 then -TWO31 else gen + 1 }

  lemma NoneStored()
    ensures Stored(0) == 0
  {
  }

  lemma NextStored(n: nat)
    ensures Next(Stored(n)) == Stored(n + 1)
  {
  }

  /** Two counts are stored alike exactly if they differ by a multiple of 2^32. */
  lemma StoredAgain(m: nat, n: nat)
    requires m <= n
    ensures Stored(m) == Stored(n) <==> (n - m) % TWO32 == 0
  {
  }

  /** An index handed out has been freed since, unless it is still in use. */
  ghost predicate Fresh(gens: map<nat, int>, frees: map<nat, nat>, used: set<nat>, issued: set<(nat, nat)>) {
    && gens.Keys == frees.Keys && (forall x :: x in gens ==> gens[x] == Stored(frees[x]))
    && (forall x :: x in used ==> x in gens)
    && forall x, n :: (x, n) in issued ==> x in frees && n <= frees[x] && (n == frees[x] ==> x in used)
  }
}

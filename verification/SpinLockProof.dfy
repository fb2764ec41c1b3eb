/** Mutual exclusion and first-come first-served order of the queued spinlock, over all schedules. */
module SpinLockProof {
  import opened Options
  import opened SpinLock

  // ----- the invariant -----

  /** Every slot in use lies below its cpu's count, and no two threads share one. */
  ghost predicate Slots(cpus: nat, s: State) {
    && (forall t :: t in s.pc && s.pc[t].HasSlot() ==>
          s.pc[t].Slot().idx < s.Count(s.pc[t].Slot().cpu) && s.pc[t].Slot().cpu < cpus)
    && (forall t :: t in s.pc && s.pc[t].HasSlot() && !s.pc[t].Busy? && !s.pc[t].Other? ==>
          s.pc[t].Slot().idx < MAX_NODES)
    && (forall t, u :: t in s.pc && u in s.pc && t != u && s.pc[t].HasSlot() && s.pc[u].HasSlot() ==>
          s.pc[t].Slot() != s.pc[u].Slot())
  }

  /** `q` lists the queued threads. */
  ghost predicate Lists(s: State, q: seq<Thread>) {
    && (forall i, j :: 0 <= i < j < |q| ==> q[i] != q[j])
    && (forall i :: 0 <= i < |q| ==> q[i] in s.pc && s.pc[q[i]].Queued())
    && (forall t :: t in s.pc && s.pc[t].Queued() ==> t in q)
  }

  ghost function Places(s: State, q: seq<Thread>): (ps: seq<Pc>)
    requires Lists(s, q)
    ensures |ps| == |q|
  {
    seq(|q|, i requires 0 <= i < |q| => s.pc[q[i]])
  }

  ghost function Cells(s: State, q: seq<Thread>): (ls: seq<Links>)
    requires Lists(s, q)
    ensures |ls| == |q|
  {
    seq(|q|, i requires 0 <= i < |q| => s.At(s.pc[q[i]].Slot()))
  }

  /** The links follow the queue, only its head has been let through, and the tail code names its last node. */
  ghost predicate Chain(ps: seq<Pc>, ls: seq<Links>, tail: nat)
    requires |ps| == |ls|
  {
    && (tail == if ps == [] then 0 else TailCode(ps[|ps| - 1].Slot()))
    && (ps != [] ==> AtHead(ps, ls[0]))
    && (forall i :: 1 <= i < |ps| ==> Behind(ps[i - 1], ps[i], ls[i]))
    && (forall i :: 0 <= i < |ps| ==> ls[i].next == NextOf(ps, i))
  }

  ghost predicate AtHead(ps: seq<Pc>, l: Links)
    requires ps != []
  {
    && !ps[0].Link?
    && (ps[0].Wait? ==> l.locked)
    && (ps[0].Seen().Some? ==> ps[0].Seen() == NextOf(ps, 0))
  }

  /** A thread at `p` waits for its predecessor at `before`. */
  ghost predicate Behind(before: Pc, p: Pc, l: Links)
  {
    (p.Link? || p.Wait?) && !l.locked && (p.Link? ==> p.prev == TailCode(before.Slot()))
  }

  /** What the next pointer of the queue's thread `i` holds. */
  ghost function NextOf(ps: seq<Pc>, i: nat): Option<Node>
    requires i < |ps|
  {
    if i + 1 < |ps| && !ps[i + 1].Link? then Some(ps[i + 1].Slot()) else None
  }

  /** A node about to be published has been wiped. */
  ghost predicate Wiped(s: State, p: Pc) {
    && (p.InitNext? ==> !s.At(p.Slot()).locked)
    && (p.TryRead? || p.TryCas? || p.Publish? ==> s.At(p.Slot()) == Links(None, false))
  }

  ghost predicate Queues(s: State, q: seq<Thread>) {
    && Lists(s, q) && Chain(Places(s, q), Cells(s, q), s.word.tail)
    && (forall t :: t in s.pc ==> Wiped(s, s.pc[t]))
  }

  /** The proof's view of a state: the queue, who owns the locked bit and who set the pending bit. */
  datatype View = View(q: seq<Thread>, owner: Option<Thread>, setter: Option<Thread>)

  predicate SetsPending(p: Pc) {
    p.Pending() || p.Undo?
  }

  predicate PastWait(p: Pc) {
    p.TryClear? || p.SetLocked?
  }

  /** The locked bit has one owner, the pending bit one setter, and a head past its wait has neither before it. */
  ghost predicate Bits(s: State, v: View) {
    && (v.owner.Some? ==> v.owner.value in s.pc) && s.word.locked == v.owner.Some?
    && (forall t :: t in s.pc ==> (s.pc[t].Owns() <==> v.owner == Some(t)))
    && (v.setter.Some? ==> v.setter.value in s.pc) && s.word.pending == v.setter.Some?
    && (forall t :: t in s.pc ==> (SetsPending(s.pc[t]) <==> v.setter == Some(t)))
    && (forall t :: t in s.pc && s.pc[t].PendTake? ==> !s.word.locked)
    && (forall t :: t in s.pc && PastWait(s.pc[t]) ==>
          !s.word.locked && (v.setter.Some? ==> s.pc[v.setter.value].Undo?))
    && (forall t :: t in s.pc && s.pc[t].TryClear? ==> s.pc[t].val == Word(false, false, TailCode(s.pc[t].Slot())))
  }

  ghost predicate Inv(cpus: nat, s: State, v: View) {
    Slots(cpus, s) && Queues(s, v.q) && Bits(s, v)
  }

  /** How the view follows a step of `t` from `p` to `p'`. */
  function Follow(v: View, t: Thread, p: Pc, p': Pc): View {
    View(
      if p.Queued() == p'.Queued() then v.q else if p'.Queued() then v.q + [t] else if v.q == [] then [] else v.q[1..],
      if p'.Owns() then Some(t) else if p.Owns() then None else v.owner,
      if SetsPending(p') then Some(t) else if SetsPending(p) then None else v.setter)
  }

  ghost function After(cpus: nat, s: State, m: Move, v: View): View {
    if m.t in s.pc then Follow(v, m.t, s.pc[m.t], EffectOf(cpus, s, m).pc) else v
  }

  // ----- each step keeps it -----

  lemma TailCodes(cpus: nat, a: Node, b: Node)
    requires cpus < MAX_CPUS && a.cpu < cpus && b.cpu < cpus && a.idx < MAX_NODES && b.idx < MAX_NODES
    ensures TailCode(a) != 0 && DecodeTail(TailCode(a)) == a
    ensures TailCode(a) == TailCode(b) <==> a == b
  {
  }

  lemma HasTail(cpus: nat, s: State, q: seq<Thread>)
    requires cpus < MAX_CPUS && Slots(cpus, s) && Lists(s, q) && q != []
    requires Chain(Places(s, q), Cells(s, q), s.word.tail)
    ensures s.word.tail != 0
  {
    var last := q[|q| - 1];
    assert s.pc[last].Queued() && s.pc[last].HasSlot();
    assert s.pc[last].Slot().idx < MAX_NODES && s.pc[last].Slot().cpu < cpus;
    assert s.word.tail == TailCode(s.pc[last].Slot());
    hide *;
    TailCodes(cpus, s.pc[last].Slot(), s.pc[last].Slot());
  }

  /** A queued thread keeps the tail from being 0, and whoever is past waiting is the head of the queue. */
  lemma HeadOnly(cpus: nat, s: State, v: View, t: Thread)
    requires cpus < MAX_CPUS && Inv(cpus, s, v) && t in s.pc && s.pc[t].Queued()
    ensures s.word.tail != 0 && t in v.q
    ensures !s.pc[t].Link? && !s.pc[t].Wait? ==> v.q[0] == t
  {
    HasTail(cpus, s, v.q);
    var i :| 0 <= i < |v.q| && v.q[i] == t;
    var ps, ls := Places(s, v.q), Cells(s, v.q);
    assert ps[i] == s.pc[t] && Chain(ps, ls, s.word.tail);
    hide Inv, Slots, Bits, Lists, Queues, Places, Cells, TailCode;
    if i > 0 {
      assert Behind(ps[i - 1], ps[i], ls[i]);
    }
  }

  /** The node count of a cpu follows the slots that are taken and given up. */
  ghost predicate Counted(cpus: nat, s: State, p: Pc, e: Effect) {
    && (e.pc.HasSlot() ==> e.pc.at.idx < MAX_NODES || e.pc.Busy? || e.pc.Other?)
    && (if p.HasSlot() == e.pc.HasSlot() then e.count.None? && (p.HasSlot() ==> e.pc.at == p.at)
        else if e.pc.HasSlot() then e.pc.at.cpu < cpus && e.pc.at.idx == s.Count(e.pc.at.cpu)
          && e.count == Some((e.pc.at.cpu, e.pc.at.idx + 1))
        else s.MayRelease(p.at) && e.count == Some((p.at.cpu, p.at.idx)))
  }

  lemma CountedSlots(cpus: nat, s: State, t: Thread, e: Effect)
    requires Slots(cpus, s) && t in s.pc && Counted(cpus, s, s.pc[t], e)
    ensures Slots(cpus, Apply(s, t, e))
  {
    var s' := Apply(s, t, e);
    forall u | u in s'.pc && s'.pc[u].HasSlot()
      ensures s'.pc[u].Slot().idx < s'.Count(s'.pc[u].Slot().cpu) && s'.pc[u].Slot().cpu < cpus {
      assert u != t && s.pc[t].HasSlot() ==> s.pc[u].Slot() != s.pc[t].Slot();
    }
  }

  lemma KeepSlots(cpus: nat, s: State, m: Move)
    requires Slots(cpus, s) && m.t in s.pc
    ensures Slots(cpus, Step(cpus, s, m))
  {
    hide TailCode, DecodeTail;
    assert s.pc[m.t].HasSlot() ==> s.pc[m.t].at == s.pc[m.t].Slot();
    assert Counted(cpus, s, s.pc[m.t], EffectOf(cpus, s, m));
    hide *;
    CountedSlots(cpus, s, m.t, EffectOf(cpus, s, m));
    assert Step(cpus, s, m) == Apply(s, m.t, EffectOf(cpus, s, m)) by { StepIsApply(cpus, s, m); }
  }

  lemma StepIsApply(cpus: nat, s: State, m: Move)
    requires m.t in s.pc
    ensures Step(cpus, s, m) == Apply(s, m.t, EffectOf(cpus, s, m))
  {
    hide EffectOf, Apply;
  }

  /** No other thread is past its wait at the head of the queue. */
  ghost predicate Alone(s: State, t: Thread) {
    forall u :: u in s.pc && u != t ==> !PastWait(s.pc[u])
  }

  /** What the bits say about a thread at `p`. */
  ghost predicate Knows(w: Word, p: Pc) {
    && (p.Owns() ==> w.locked)
    && (SetsPending(p) ==> w.pending)
    && (p.PendTake? || PastWait(p) ==> !w.locked)
    && (p.TryClear? ==> p.val == Word(false, false, TailCode(p.Slot())))
  }

  /** What a step from `p` must respect for the two bits to stay truthful. */
  ghost predicate Fair(w: Word, alone: bool, p: Pc, w': Word, p': Pc) {
    && w'.locked == (p'.Owns() || (!p.Owns() && w.locked))
    && w'.pending == (SetsPending(p') || (!SetsPending(p) && w.pending))
    && (p'.Owns() && !p.Owns() ==> !w.locked && alone && (PastWait(p) || SetsPending(p) || !w.pending))
    && (SetsPending(p') && !SetsPending(p) ==> !w.pending)
    && (p'.Pending() && !p.Pending() ==> alone)
    && (PastWait(p') ==> PastWait(p) || !w'.pending)
    && Knows(w', p')
  }

  lemma FairBits(s: State, v: View, t: Thread, e: Effect)
    requires Bits(s, v) && t in s.pc && Fair(s.word, Alone(s, t), s.pc[t], e.word, e.pc)
    ensures Bits(Apply(s, t, e), Follow(v, t, s.pc[t], e.pc))
  {
  }

  lemma IsAlone(cpus: nat, s: State, v: View, t: Thread)
    requires cpus < MAX_CPUS && Inv(cpus, s, v) && t in s.pc
    requires s.word.tail == 0 || PastWait(s.pc[t]) || s.pc[t].Pending()
    ensures Alone(s, t)
  {
    assert forall u :: u in s.pc && PastWait(s.pc[u]) ==> !s.pc[t].Pending();
    hide Inv;
    forall u | u in s.pc && u != t ensures !PastWait(s.pc[u]) {
      if s.pc[u].Queued() {
        HeadOnly(cpus, s, v, u);
      }
      if s.pc[t].Queued() {
        HeadOnly(cpus, s, v, t);
      }
    }
  }

  lemma IsFair(cpus: nat, s: State, p: Pc, cpu: nat, alone: bool)
    requires Knows(s.word, p) && (s.word.tail == 0 || PastWait(p) || p.Pending() ==> alone)
    ensures var e := Advance(cpus, s, p, cpu); Fair(s.word, alone, p, e.word, e.pc)
  {
    hide TailCode, DecodeTail;
  }

  lemma IsFairMove(cpus: nat, s: State, m: Move, alone: bool)
    requires m.t in s.pc && Knows(s.word, s.pc[m.t])
    requires s.word.tail == 0 || PastWait(s.pc[m.t]) || s.pc[m.t].Pending() ==> alone
    ensures var e := EffectOf(cpus, s, m); Fair(s.word, alone, s.pc[m.t], e.word, e.pc)
  {
    hide Advance, TailCode;
    if m.Go? {
      IsFair(cpus, s, s.pc[m.t], m.cpu, alone);
    }
  }

  lemma KeepBits(cpus: nat, s: State, m: Move, v: View)
    requires cpus < MAX_CPUS && Inv(cpus, s, v) && m.t in s.pc
    ensures Bits(Step(cpus, s, m), After(cpus, s, m, v))
  {
    assert Bits(s, v) && Knows(s.word, s.pc[m.t]);
    assert After(cpus, s, m, v) == Follow(v, m.t, s.pc[m.t], EffectOf(cpus, s, m).pc);
    hide *;
    if s.word.tail == 0 || PastWait(s.pc[m.t]) || s.pc[m.t].Pending() {
      IsAlone(cpus, s, v, m.t);
    }
    IsFairMove(cpus, s, m, Alone(s, m.t));
    FairBits(s, v, m.t, EffectOf(cpus, s, m));
    StepIsApply(cpus, s, m);
  }

  // ----- the queue -----

  lemma ChainHead(ps: seq<Pc>, ls: seq<Links>, tail: nat, p: Pc)
    requires |ps| == |ls| && Chain(ps, ls, tail)
    requires ps != [] && p.Queued() && p.Slot() == ps[0].Slot() && !p.Link? && !p.Wait?
    requires p.Seen().Some? ==> p.Seen() == ps[0].Seen() || p.Seen() == ls[0].next
    ensures Chain(ps[0 := p], ls, tail)
  {
    hide TailCode, Pc.Seen;
    var ps' := ps[0 := p];
    forall i | 1 <= i < |ps| ensures Behind(ps'[i - 1], ps'[i], ls[i]) {
      assert Behind(ps[i - 1], ps[i], ls[i]);
    }
    forall i | 0 <= i < |ps| ensures NextOf(ps', i) == NextOf(ps, i) {
    }
  }

  lemma ChainJoin(ps: seq<Pc>, ls: seq<Links>, tail: nat, p: Pc)
    requires |ps| == |ls| && Chain(ps, ls, tail)
    requires if ps == [] then p.Head? && p.next == None else p.Link? && p.prev == tail
    ensures Chain(ps + [p], ls + [Links(None, false)], TailCode(p.Slot()))
  {
    hide TailCode;
    var ps', ls' := ps + [p], ls + [Links(None, false)];
    forall i | 1 <= i < |ps'| ensures Behind(ps'[i - 1], ps'[i], ls'[i]) {
      assert i == |ps| || Behind(ps[i - 1], ps[i], ls[i]);
    }
    forall i | 0 <= i < |ps| ensures ls'[i].next == NextOf(ps', i) {
      assert ls[i].next == NextOf(ps, i);
    }
  }

  lemma ChainLink(ps: seq<Pc>, ls: seq<Links>, tail: nat, k: nat)
    requires |ps| == |ls| && Chain(ps, ls, tail)
    requires 1 <= k < |ps| && ps[k].Link?
    ensures Chain(ps[k := Wait(ps[k].at)], ls[k - 1 := ls[k - 1].(next := Some(ps[k].at))], tail)
  {
    hide TailCode;
    var ps', ls' := ps[k := Wait(ps[k].at)], ls[k - 1 := ls[k - 1].(next := Some(ps[k].at))];
    assert ls[0].next == NextOf(ps, 0);
    forall i | 1 <= i < |ps'| ensures Behind(ps'[i - 1], ps'[i], ls'[i]) {
      assert Behind(ps[i - 1], ps[i], ls[i]);
    }
    forall i | 0 <= i < |ps| ensures ls'[i].next == NextOf(ps', i) {
      assert ls[i].next == NextOf(ps, i);
    }
  }

  lemma ChainPass(ps: seq<Pc>, ls: seq<Links>, tail: nat)
    requires |ps| == |ls| && Chain(ps, ls, tail)
    requires ps != [] && ps[0].Pass?
    ensures |ps| > 1 && ps[1].Wait? && ps[1].Slot() == ps[0].succ
    ensures Chain(ps[1..], ls[1..][0 := ls[1].(locked := true)], tail)
  {
    hide TailCode;
    assert |ps| > 1;
    assert Behind(ps[0], ps[1], ls[1]);
    var ps', ls' := ps[1..], ls[1..][0 := ls[1].(locked := true)];
    forall i | 1 <= i < |ps'| ensures Behind(ps'[i - 1], ps'[i], ls'[i]) {
      assert Behind(ps[i], ps[i + 1], ls[i + 1]);
    }
    forall i | 0 <= i < |ps'| ensures ls'[i].next == NextOf(ps', i) {
      assert ls[i + 1].next == NextOf(ps, i + 1);
    }
  }

  /** The node a step writes, if any, is the slot of thread `u`. */
  ghost predicate Writes(s: State, e: Effect, u: Thread) {
    e.node.Some? ==> u in s.pc && s.pc[u].HasSlot() && e.node.value.0 == s.pc[u].Slot()
  }

  lemma CellAt(cpus: nat, s: State, t: Thread, e: Effect, u: Thread, x: Thread)
    requires Slots(cpus, s) && Writes(s, e, u) && x in s.pc && s.pc[x].HasSlot()
    ensures Apply(s, t, e).At(s.pc[x].Slot()) == if x == u && e.node.Some? then e.node.value.1 else s.At(s.pc[x].Slot())
  {
  }

  lemma WipedStays(cpus: nat, s: State, t: Thread, e: Effect, u: Thread)
    requires Slots(cpus, s) && t in s.pc && Writes(s, e, u) && (u == t || (u in s.pc && s.pc[u].Queued()))
    requires (forall x :: x in s.pc ==> Wiped(s, s.pc[x])) && Wiped(Apply(s, t, e), e.pc)
    ensures forall x :: x in Apply(s, t, e).pc ==> Wiped(Apply(s, t, e), Apply(s, t, e).pc[x])
  {
    var s' := Apply(s, t, e);
    assert s'.pc == s.pc[t := e.pc];
    hide Slots, Apply;
    forall x | x in s'.pc ensures Wiped(s', s'.pc[x]) {
      if x != t && s.pc[x].HasSlot() && !s.pc[x].Queued() {
        CellAt(cpus, s, t, e, u, x);
      }
    }
  }

  /** Threads of a queue that kept their slots: their cells change only where the step writes. */
  lemma CellsAfter(cpus: nat, s: State, q: seq<Thread>, t: Thread, e: Effect, u: Thread)
    requires Slots(cpus, s) && t in s.pc && Writes(s, e, u) && Lists(Apply(s, t, e), q)
    requires forall i :: 0 <= i < |q| ==>
      q[i] in s.pc && s.pc[q[i]].HasSlot() && (q[i] == t ==> e.pc.Slot() == s.pc[t].Slot())
    ensures forall i :: 0 <= i < |q| ==>
      Cells(Apply(s, t, e), q)[i] == if q[i] == u && e.node.Some? then e.node.value.1 else s.At(s.pc[q[i]].Slot())
  {
    var s' := Apply(s, t, e);
    assert s'.pc == s.pc[t := e.pc];
    hide Slots, Apply, Lists;
    forall i | 0 <= i < |q|
      ensures Cells(s', q)[i] == if q[i] == u && e.node.Some? then e.node.value.1 else s.At(s.pc[q[i]].Slot()) {
      CellAt(cpus, s, t, e, u, q[i]);
    }
  }

  lemma ListsAside(s: State, q: seq<Thread>, t: Thread, e: Effect)
    requires Lists(s, q) && t in s.pc && !s.pc[t].Queued() && !e.pc.Queued()
    ensures Lists(Apply(s, t, e), q) && Places(Apply(s, t, e), q) == Places(s, q)
  {
  }

  lemma ListsJoin(s: State, q: seq<Thread>, t: Thread, e: Effect)
    requires Lists(s, q) && t in s.pc && !s.pc[t].Queued() && e.pc.Queued()
    ensures Lists(Apply(s, t, e), q + [t]) && Places(Apply(s, t, e), q + [t]) == Places(s, q) + [e.pc]
  {
  }

  lemma ListsStay(s: State, q: seq<Thread>, t: Thread, e: Effect, k: nat)
    requires Lists(s, q) && k < |q| && q[k] == t && e.pc.Queued()
    ensures Lists(Apply(s, t, e), q) && Places(Apply(s, t, e), q) == Places(s, q)[k := e.pc]
  {
  }

  lemma ListsLeave(s: State, q: seq<Thread>, t: Thread, e: Effect)
    requires Lists(s, q) && q != [] && q[0] == t && !e.pc.Queued()
    ensures Lists(Apply(s, t, e), q[1..]) && Places(Apply(s, t, e), q[1..]) == Places(s, q)[1..]
  {
  }

  lemma Queued(s: State, q: seq<Thread>)
    requires Lists(s, q)
    ensures forall i :: 0 <= i < |q| ==> q[i] in s.pc && s.pc[q[i]].Queued() && s.pc[q[i]].HasSlot()
    ensures forall i :: 0 <= i < |q| ==> Places(s, q)[i] == s.pc[q[i]] && Cells(s, q)[i] == s.At(s.pc[q[i]].Slot())
    ensures forall i, j :: 0 <= i < j < |q| ==> q[i] != q[j]
  {
  }

  lemma CellsChange(cpus: nat, s: State, q: seq<Thread>, t: Thread, e: Effect, k: nat)
    requires Slots(cpus, s) && Lists(s, q) && k < |q| && t in q && e.node.Some? && Writes(s, e, q[k])
    requires Lists(Apply(s, t, e), q) && e.pc.Slot() == s.pc[t].Slot()
    ensures Cells(Apply(s, t, e), q) == Cells(s, q)[k := e.node.value.1]
  {
    hide *;
    Queued(s, q);
    CellsAfter(cpus, s, q, t, e, q[k]);
    var c, d := Cells(Apply(s, t, e), q), Cells(s, q)[k := e.node.value.1];
    forall i | 0 <= i < |d| ensures c[i] == d[i] {
      assert q[i] == q[k] ==> i == k;
    }
  }

  lemma CellsJoin(cpus: nat, s: State, q: seq<Thread>, t: Thread, e: Effect)
    requires Slots(cpus, s) && Lists(s, q) && t in s.pc && s.pc[t].HasSlot() && e.node.None?
    requires Lists(Apply(s, t, e), q + [t]) && e.pc.Slot() == s.pc[t].Slot()
    ensures Cells(Apply(s, t, e), q + [t]) == Cells(s, q) + [s.At(s.pc[t].Slot())]
  {
    Queued(s, q);
    assert Writes(s, e, t);
    hide *;
    CellsAfter(cpus, s, q + [t], t, e, t);
  }

  lemma CellsPass(cpus: nat, s: State, q: seq<Thread>, t: Thread, e: Effect)
    requires Slots(cpus, s) && Lists(s, q) && |q| > 1 && t == q[0] && e.node.Some? && Writes(s, e, q[1])
    requires Lists(Apply(s, t, e), q[1..])
    ensures Cells(Apply(s, t, e), q[1..]) == Cells(s, q)[1..][0 := e.node.value.1]
  {
    hide *;
    Queued(s, q);
    CellsAfter(cpus, s, q[1..], t, e, q[1]);
    var c, d := Cells(Apply(s, t, e), q[1..]), Cells(s, q)[1..][0 := e.node.value.1];
    forall i | 0 <= i < |d| ensures c[i] == d[i] {
      assert q[1..][i] == q[i + 1];
    }
  }

  lemma KeepAside(cpus: nat, s: State, q: seq<Thread>, t: Thread, e: Effect)
    requires Slots(cpus, s) && Queues(s, q) && t in s.pc && !s.pc[t].Queued() && !e.pc.Queued()
    requires e.word.tail == s.word.tail
    requires Writes(s, e, t) && Wiped(Apply(s, t, e), e.pc)
    ensures Queues(Apply(s, t, e), q)
  {
    hide Lists, Slots, Places, Cells, TailCode, DecodeTail;
    var s' := Apply(s, t, e);
    assert s'.word == e.word;
    hide Lists, Slots, Chain, Apply, Places, Cells, Wiped, Writes;
    Queued(s, q);
    ListsAside(s, q, t, e);
    WipedStays(cpus, s, t, e, t);
    CellsAfter(cpus, s, q, t, e, t);
    assert Cells(s', q) == Cells(s, q);
  }

  lemma KeepJoin(cpus: nat, s: State, q: seq<Thread>, t: Thread, e: Effect)
    requires cpus < MAX_CPUS && Slots(cpus, s) && Queues(s, q) && t in s.pc && s.pc[t].Publish? && e.node.None?
    requires e.word.tail == TailCode(s.pc[t].at)
    requires e.pc == if s.word.tail == 0 then Head(s.pc[t].at, None) else Link(s.pc[t].at, s.word.tail)
    ensures Queues(Apply(s, t, e), q + [t])
  {
    hide Lists, Slots, Places, Cells, TailCode, DecodeTail;
    var s' := Apply(s, t, e);
    assert s'.word == e.word && Wiped(s', e.pc) && s.At(s.pc[t].Slot()) == Links(None, false);
    assert q == [] ==> s.word.tail == 0;
    hide Lists, Slots, Chain, Apply, Places, Cells, Wiped, TailCode;
    Queued(s, q);
    ListsJoin(s, q, t, e);
    WipedStays(cpus, s, t, e, t);
    CellsJoin(cpus, s, q, t, e);
    if q != [] {
      HasTail(cpus, s, q);
    }
    ChainJoin(Places(s, q), Cells(s, q), s.word.tail, e.pc);
  }

  lemma KeepHead(cpus: nat, s: State, q: seq<Thread>, t: Thread, e: Effect)
    requires Slots(cpus, s) && Queues(s, q) && t in s.pc && q != [] && q[0] == t && e.node.None?
    requires e.word.tail == s.word.tail
    requires e.pc.Queued() && e.pc.Slot() == s.pc[t].Slot() && !e.pc.Link? && !e.pc.Wait?
    requires e.pc.Seen().Some? ==> e.pc.Seen() == s.pc[t].Seen() || e.pc.Seen() == s.At(s.pc[t].Slot()).next
    ensures Queues(Apply(s, t, e), q)
  {
    hide Lists, Slots, Places, Cells, TailCode, DecodeTail;
    var s' := Apply(s, t, e);
    assert s'.word == e.word && Wiped(s', e.pc);
    hide Lists, Slots, Chain, Apply, Places, Cells, Wiped, TailCode, Pc.Seen;
    Queued(s, q);
    ListsStay(s, q, t, e, 0);
    WipedStays(cpus, s, t, e, t);
    CellsAfter(cpus, s, q, t, e, t);
    assert Cells(s', q) == Cells(s, q);
    ChainHead(Places(s, q), Cells(s, q), s.word.tail, e.pc);
  }

  /** The tail code a linking thread carries decodes to the node of its predecessor. */
  lemma LinkTarget(cpus: nat, s: State, q: seq<Thread>, k: nat)
    requires cpus < MAX_CPUS && Slots(cpus, s) && Queues(s, q) && 1 <= k < |q| && q[k] in s.pc && s.pc[q[k]].Link?
    ensures q[k - 1] in s.pc && s.pc[q[k - 1]].Queued()
    ensures DecodeTail(s.pc[q[k]].prev) == s.pc[q[k - 1]].Slot()
  {
    var u := q[k - 1];
    assert Chain(Places(s, q), Cells(s, q), s.word.tail);
    Queued(s, q);
    hide Lists, Places, Cells, Wiped, TailCode, DecodeTail, Queues, Slots;
    assert Behind(Places(s, q)[k - 1], Places(s, q)[k], Cells(s, q)[k]);
    hide Chain;
    SlotInRange(cpus, s, u);
    TailCodes(cpus, s.pc[u].Slot(), s.pc[u].Slot());
  }

  lemma SlotInRange(cpus: nat, s: State, u: Thread)
    requires Slots(cpus, s) && u in s.pc && s.pc[u].Queued()
    ensures s.pc[u].Slot().idx < MAX_NODES && s.pc[u].Slot().cpu < cpus
  {
  }

  lemma KeepLink(cpus: nat, s: State, q: seq<Thread>, t: Thread, e: Effect, k: nat)
    requires cpus < MAX_CPUS && Slots(cpus, s) && Queues(s, q) && 1 <= k < |q| && q[k] == t
    requires e.word.tail == s.word.tail
    requires t in s.pc && s.pc[t].Link? && e.pc == Wait(s.pc[t].at)
    requires var n := DecodeTail(s.pc[t].prev); e.node == Some((n, s.At(n).(next := Some(s.pc[t].at))))
    ensures Queues(Apply(s, t, e), q)
  {
    hide Lists, Slots, Places, Cells, TailCode, DecodeTail;
    var s', u := Apply(s, t, e), q[k - 1];
    assert s'.word == e.word && Wiped(s', e.pc);
    hide Lists, Chain, Apply, Places, Cells, Wiped, TailCode, DecodeTail, Slots;
    LinkTarget(cpus, s, q, k);
    WipedStays(cpus, s, t, e, u);
    ListsStay(s, q, t, e, k);
    Queued(s, q);
    CellsChange(cpus, s, q, t, e, k - 1);
    ChainLink(Places(s, q), Cells(s, q), s.word.tail, k);
  }

  lemma KeepPass(cpus: nat, s: State, q: seq<Thread>, t: Thread, e: Effect)
    requires Slots(cpus, s) && Queues(s, q) && q != [] && q[0] == t && e.word.tail == s.word.tail
    requires s.pc[t].Pass? && e.pc == Drop(s.pc[t].at)
    requires var n := s.pc[t].succ; e.node == Some((n, s.At(n).(locked := true)))
    ensures Queues(Apply(s, t, e), q[1..])
  {
    hide Lists, Slots, Places, Cells, TailCode, DecodeTail;
    var s' := Apply(s, t, e);
    assert s'.word == e.word && Wiped(s', e.pc);
    hide Lists, Slots, Chain, Apply, Places, Cells, Wiped, TailCode;
    Queued(s, q);
    ChainPass(Places(s, q), Cells(s, q), s.word.tail);
    ListsLeave(s, q, t, e);
    var u := q[1];
    WipedStays(cpus, s, t, e, u);
    CellsPass(cpus, s, q, t, e);
  }

  lemma KeepClear(cpus: nat, s: State, q: seq<Thread>, t: Thread, e: Effect)
    requires cpus < MAX_CPUS && Slots(cpus, s) && Queues(s, q) && q != [] && q[0] == t && s.pc[t].TryClear?
    requires s.word.tail == TailCode(s.pc[t].at) && e.word == TAKEN && e.node.None? && e.pc == Drop(s.pc[t].at)
    ensures q == [t] && Queues(Apply(s, t, e), [])
  {
    var s', last := Apply(s, t, e), q[|q| - 1];
    assert s'.word == e.word && Wiped(s', e.pc);
    assert TailCode(s.pc[last].Slot()) == TailCode(s.pc[t].Slot()) by {
      hide Wiped, Apply, Slots, TailCode;
    }
    hide Chain, Places, Cells, Wiped, TailCode, Apply;
    Queued(s, q);
    TailCodes(cpus, s.pc[last].Slot(), s.pc[t].Slot());
    hide Slots, Lists;
    ListsLeave(s, q, t, e);
    WipedStays(cpus, s, t, e, t);
    EmptyChain();
  }

  lemma EmptyChain()
    ensures Chain([], [], 0)
  {
  }

  lemma AsideFacts(cpus: nat, s: State, m: Move)
    requires m.t in s.pc && !s.pc[m.t].Queued() && Wiped(s, s.pc[m.t])
    ensures var e := EffectOf(cpus, s, m);
      !e.pc.Queued() ==> e.word.tail == s.word.tail && Writes(s, e, m.t) && Wiped(Apply(s, m.t, e), e.pc)
  {
    hide TailCode, DecodeTail;
  }

  lemma Stutter(s: State, t: Thread)
    requires t in s.pc
    ensures Apply(s, t, Effect(s.word, None, None, s.pc[t])) == s
  {
    assert s.pc[t := s.pc[t]] == s.pc;
  }

  /** A queued thread that moves is the head of the queue, unless it is still linking itself in. */
  lemma MoverIsHead(cpus: nat, s: State, v: View, t: Thread)
    requires cpus < MAX_CPUS && Inv(cpus, s, v) && t in s.pc && s.pc[t].Queued() && !s.pc[t].Link?
    requires s.pc[t].Wait? ==> s.At(s.pc[t].Slot()).locked
    ensures v.q != [] && v.q[0] == t
  {
    HeadOnly(cpus, s, v, t);
    var i :| 0 <= i < |v.q| && v.q[i] == t;
    assert Lists(s, v.q) && Chain(Places(s, v.q), Cells(s, v.q), s.word.tail);
    Queued(s, v.q);
    hide Inv, Slots, Bits, Lists, Queues, Places, Cells, TailCode;
    assert i == 0 || Behind(Places(s, v.q)[i - 1], Places(s, v.q)[i], Cells(s, v.q)[i]);
  }

  lemma LinkerIsBehind(s: State, q: seq<Thread>, t: Thread) returns (k: nat)
    requires Queues(s, q) && t in s.pc && s.pc[t].Link?
    ensures 1 <= k < |q| && q[k] == t
  {
    k :| 0 <= k < |q| && q[k] == t;
    Queued(s, q);
    assert Chain(Places(s, q), Cells(s, q), s.word.tail);
    hide Lists, Queues, Places, Cells, TailCode;
  }

  lemma AfterQueue(cpus: nat, s: State, m: Move, v: View)
    requires m.t in s.pc
    ensures After(cpus, s, m, v).q ==
      if s.pc[m.t].Queued() == EffectOf(cpus, s, m).pc.Queued() then v.q
      else if !s.pc[m.t].Queued() then v.q + [m.t] else if v.q == [] then [] else v.q[1..]
  {
    hide EffectOf;
  }

  /** A head of the queue goes on without writing a node. */
  ghost predicate GoesOn(s: State, p: Pc, e: Effect) {
    && p.Queued() && !p.Link? && (p.Wait? ==> s.At(p.Slot()).locked)
    && e.pc.Queued() && e.pc.Slot() == p.Slot() && !e.pc.Link? && !e.pc.Wait?
    && e.node.None? && e.word.tail == s.word.tail
    && (e.pc.Seen().Some? ==> e.pc.Seen() == p.Seen() || e.pc.Seen() == s.At(p.Slot()).next)
  }

  /** The steps a queued thread can take. */
  lemma QueuedFacts(cpus: nat, s: State, m: Move)
    requires m.t in s.pc && s.pc[m.t].Queued()
    ensures var p, e := s.pc[m.t], EffectOf(cpus, s, m);
      || e == Effect(s.word, None, None, p)
      || (p.Link? && e.word == s.word && e.pc == Wait(p.at) &&
          e.node == Some((DecodeTail(p.prev), s.At(DecodeTail(p.prev)).(next := Some(p.at)))))
      || (p.Pass? && e.word == s.word && e.pc == Drop(p.at) && e.node == Some((p.succ, s.At(p.succ).(locked := true))))
      || (p.TryClear? && s.word == p.val && e.word == TAKEN && e.node.None? && e.pc == Drop(p.at))
      || GoesOn(s, p, e)
  {
    hide TailCode, DecodeTail;
  }

  lemma KeepQueued(cpus: nat, s: State, m: Move, v: View)
    requires cpus < MAX_CPUS && Inv(cpus, s, v) && m.t in s.pc && s.pc[m.t].Queued()
    ensures Queues(Apply(s, m.t, EffectOf(cpus, s, m)), After(cpus, s, m, v).q)
  {
    var t, p, e, q := m.t, s.pc[m.t], EffectOf(cpus, s, m), v.q;
    assert Slots(cpus, s) && Queues(s, q);
    assert p.TryClear? ==> p.val == Word(false, false, TailCode(p.at));
    hide Inv, Slots, Queues, Bits, Lists, TailCode, DecodeTail, Apply, EffectOf, After;
    QueuedFacts(cpus, s, m);
    AfterQueue(cpus, s, m, v);
    if e == Effect(s.word, None, None, p) {
      Stutter(s, t);
    } else if p.Link? {
      var k := LinkerIsBehind(s, q, t);
      KeepLink(cpus, s, q, t, e, k);
    } else {
      MoverIsHead(cpus, s, v, t);
      hide Pc.Seen;
      if e.pc.Queued() {
        KeepHead(cpus, s, q, t, e);
      } else if p.Pass? {
        KeepPass(cpus, s, q, t, e);
      } else {
        KeepClear(cpus, s, q, t, e);
        assert q[1..] == [];
      }
    }
  }

  lemma UnqueuedFacts(cpus: nat, s: State, m: Move)
    requires m.t in s.pc && !s.pc[m.t].Queued() && EffectOf(cpus, s, m).pc.Queued()
    ensures var p, e := s.pc[m.t], EffectOf(cpus, s, m);
      && p.Publish? && e.word.tail == TailCode(p.at) && e.node.None?
      && e.pc == if s.word.tail == 0 then Head(p.at, None) else Link(p.at, s.word.tail)
  {
    hide TailCode, DecodeTail;
  }

  lemma KeepUnqueued(cpus: nat, s: State, m: Move, v: View)
    requires cpus < MAX_CPUS && Inv(cpus, s, v) && m.t in s.pc && !s.pc[m.t].Queued()
    ensures Queues(Apply(s, m.t, EffectOf(cpus, s, m)), After(cpus, s, m, v).q)
  {
    var t, p, e, q := m.t, s.pc[m.t], EffectOf(cpus, s, m), v.q;
    assert Slots(cpus, s) && Queues(s, q) && Wiped(s, p);
    hide Inv, Slots, Queues, Bits, Lists, TailCode, DecodeTail, Apply, Wiped, EffectOf, After;
    AfterQueue(cpus, s, m, v);
    if e.pc.Queued() {
      UnqueuedFacts(cpus, s, m);
      KeepJoin(cpus, s, q, t, e);
    } else {
      AsideFacts(cpus, s, m);
      KeepAside(cpus, s, q, t, e);
    }
  }

  /** Every step of every thread keeps the invariant. */
  lemma Keep(cpus: nat, s: State, m: Move, v: View)
    requires cpus < MAX_CPUS && Inv(cpus, s, v)
    ensures Inv(cpus, Step(cpus, s, m), After(cpus, s, m, v))
  {
    if m.t in s.pc {
      KeepBits(cpus, s, m, v);
      KeepSlots(cpus, s, m);
      StepIsApply(cpus, s, m);
      hide Slots, Queues, Bits, Step, After, EffectOf;
      if s.pc[m.t].Queued() {
        KeepQueued(cpus, s, m, v);
      } else {
        KeepUnqueued(cpus, s, m, v);
      }
    }
  }

  lemma Starts(cpus: nat, s: State)
    requires Initial(s)
    ensures Inv(cpus, s, View([], None, None))
  {
  }

  // ----- whole runs -----

  /** Every run from an unused lock meets the invariant. */
  lemma {:induction false} Reached(cpus: nat, s: State, moves: seq<Move>) returns (v: View)
    requires cpus < MAX_CPUS && Initial(s)
    ensures Inv(cpus, Run(cpus, s, moves), v)
  {
    if moves == [] {
      Starts(cpus, s);
      v := View([], None, None);
    } else {
      var last := |moves| - 1;
      v := Reached(cpus, s, moves[..last]);
      Keep(cpus, Run(cpus, s, moves[..last]), moves[last], v);
      v := After(cpus, Run(cpus, s, moves[..last]), moves[last], v);
    }
  }

  /** On a machine with more cpus than the code supports nobody gets past the first check. */
  lemma {:induction false} Refused(cpus: nat, s: State, moves: seq<Move>)
    requires cpus > MAX_CPUS && Initial(s)
    ensures forall t :: t in Run(cpus, s, moves).pc ==>
      Run(cpus, s, moves).pc[t].Idle? || Run(cpus, s, moves).pc[t].Other?
  {
    if moves != [] {
      Refused(cpus, s, moves[..|moves| - 1]);
    }
  }

  lemma Then(cpus: nat, s: State, moves: seq<Move>, m: Move)
    ensures Run(cpus, s, moves + [m]) == Step(cpus, Run(cpus, s, moves), m)
  {
    assert (moves + [m])[..|moves|] == moves;
  }

  lemma AfterFirst(cpus: nat, s: State, m: Move, moves: seq<Move>)
    ensures Run(cpus, s, [m] + moves) == Run(cpus, Step(cpus, s, m), moves)
  {
    if moves == [] {
      assert ([m] + moves)[..0] == [];
    } else {
      var last := |moves| - 1;
      assert ([m] + moves)[..|moves|] == [m] + moves[..last];
      AfterFirst(cpus, s, m, moves[..last]);
    }
  }

  lemma LeaverOwns(cpus: nat, s: State, v: View, m: Move)
    requires cpus < MAX_CPUS && Inv(cpus, s, v) && m.t in s.pc && s.pc[m.t].Queued()
    requires !EffectOf(cpus, s, m).pc.Queued()
    ensures EffectOf(cpus, s, m).pc.Owns() && v.q != [] && v.q[0] == m.t
  {
    hide Inv, EffectOf, TailCode, DecodeTail;
    QueuedFacts(cpus, s, m);
    MoverIsHead(cpus, s, v, m.t);
  }

  lemma PcAfter(cpus: nat, s: State, m: Move)
    requires m.t in s.pc
    ensures Step(cpus, s, m).pc == s.pc[m.t := EffectOf(cpus, s, m).pc]
  {
    hide EffectOf;
  }

  /** A step keeps the order of two queued threads, or the first of them comes to own the lock. */
  lemma OrderStep(cpus: nat, s: State, v: View, m: Move, i: nat, j: nat) returns (i': nat, j': nat)
    requires cpus < MAX_CPUS && Inv(cpus, s, v) && i < j < |v.q|
    ensures v.q[i] in s.pc && v.q[j] in s.pc && !s.pc[v.q[j]].Owns()
    ensures
      || (v.q[i] in Step(cpus, s, m).pc && Step(cpus, s, m).pc[v.q[i]].Owns())
      || (i' < j' < |After(cpus, s, m, v).q| && After(cpus, s, m, v).q[i'] == v.q[i]
           && After(cpus, s, m, v).q[j'] == v.q[j])
  {
    hide *;
    OrderFacts(cpus, s, v, m, j);
    i', j' := i, j;
    if m.t in s.pc && s.pc[m.t].Queued() && !EffectOf(cpus, s, m).pc.Queued() {
      LeaverOwns(cpus, s, v, m);
      PcAfter(cpus, s, m);
      if i > 0 {
        i', j' := i - 1, j - 1;
      }
    }
  }

  lemma OrderFacts(cpus: nat, s: State, v: View, m: Move, j: nat)
    requires cpus < MAX_CPUS && Inv(cpus, s, v) && 0 < j < |v.q|
    ensures (forall i :: 0 <= i < |v.q| ==> v.q[i] in s.pc) && !s.pc[v.q[j]].Owns()
    ensures m.t in s.pc && s.pc[m.t].Queued() && !EffectOf(cpus, s, m).pc.Queued() ==>
      After(cpus, s, m, v).q == v.q[1..]
    ensures !(m.t in s.pc && s.pc[m.t].Queued() && !EffectOf(cpus, s, m).pc.Queued()) ==> v.q <= After(cpus, s, m, v).q
  {
    assert Queues(s, v.q) && (m.t !in s.pc ==> After(cpus, s, m, v) == v);
    Behinds(s, v.q, j);
    if m.t in s.pc {
      AfterQueue(cpus, s, m, v);
    }
    hide Inv, Queues, After, EffectOf;
  }

  lemma Behinds(s: State, q: seq<Thread>, j: nat)
    requires Queues(s, q) && 0 < j < |q|
    ensures forall i :: 0 <= i < |q| ==> q[i] in s.pc
    ensures s.pc[q[j]].Link? || s.pc[q[j]].Wait?
  {
    Queued(s, q);
    hide Lists, Places, Cells, TailCode;
    assert Behind(Places(s, q)[j - 1], Places(s, q)[j], Cells(s, q)[j]);
  }

  ghost predicate OwnsAt(cpus: nat, s: State, moves: seq<Move>, t: Thread) {
    t in Run(cpus, s, moves).pc && Run(cpus, s, moves).pc[t].Owns()
  }

  ghost predicate OwnedBy(cpus: nat, s: State, moves: seq<Move>, t: Thread) {
    exists k: nat :: k <= |moves| && OwnsAt(cpus, s, moves[..k], t)
  }

  lemma OwnedLater(cpus: nat, s: State, m: Move, moves: seq<Move>, t: Thread)
    requires OwnedBy(cpus, Step(cpus, s, m), moves, t)
    ensures OwnedBy(cpus, s, [m] + moves, t)
  {
    var k: nat :| k <= |moves| && OwnsAt(cpus, Step(cpus, s, m), moves[..k], t);
    hide Run, Step;
    AfterFirst(cpus, s, m, moves[..k]);
    assert [m] + moves[..k] == ([m] + moves)[..k + 1];
    assert OwnsAt(cpus, s, ([m] + moves)[..k + 1], t);
  }

  /**
   * First come, first served: of two queued threads the one that published later never owns the lock before the
   * other has.
   */
  lemma {:induction false} Fifo(cpus: nat, s: State, v: View, moves: seq<Move>, i: nat, j: nat)
    requires cpus < MAX_CPUS && Inv(cpus, s, v) && i < j < |v.q|
    ensures OwnsAt(cpus, s, moves, v.q[j]) ==> OwnedBy(cpus, s, moves, v.q[i])
    decreases |moves|
  {
    hide Inv, Step, After, Run, OwnedBy;
    var m := if moves == [] then Go(0, 0) else moves[0];
    var i', j' := OrderStep(cpus, s, v, m, i, j);
    if moves == [] {
      assert Run(cpus, s, moves) == s by { NoMoves(cpus, s); }
    } else {
      var s', v', rest := Step(cpus, s, m), After(cpus, s, m, v), moves[1..];
      assert moves == [m] + rest;
      AfterFirst(cpus, s, m, rest);
      if v.q[i] in s'.pc && s'.pc[v.q[i]].Owns() {
        OwnsNow(cpus, s', rest, v.q[i]);
      } else {
        Keep(cpus, s, m, v);
        Fifo(cpus, s', v', rest, i', j');
      }
      if OwnsAt(cpus, s, moves, v.q[j]) {
        OwnedLater(cpus, s, m, rest, v.q[i]);
      }
    }
  }

  lemma NoMoves(cpus: nat, s: State)
    ensures Run(cpus, s, []) == s
  {
  }

  lemma OwnsNow(cpus: nat, s: State, moves: seq<Move>, t: Thread)
    requires t in s.pc && s.pc[t].Owns()
    ensures OwnedBy(cpus, s, moves, t)
  {
    assert OwnsAt(cpus, s, moves[..0], t);
  }
}

/**
 * The queued spinlock of the arena: a pending bit in front of a queue of per-cpu nodes.
 * Threads take atomic steps in any order; a schedule is the list of those steps.
 */
module SpinLock {
  import opened Options

  const MAX_CPUS: nat := 16384
  const MAX_NODES := 4
  const PENDING_LOOPS := 1

  type Thread = nat

  /** A queue node: nesting level `idx` of one cpu. */
  datatype Node = Node(cpu: nat, idx: nat)

  datatype Links = Links(next: Option<Node>, locked: bool)

  /** The lock word; `tail` is the sixteen-bit tail code, 0 for none. */
  datatype Word = Word(locked: bool, pending: bool, tail: nat)

  const FREE := Word(false, false, 0)
  const TAKEN := Word(true, false, 0)

  /** Where a thread is in the lock code, with the locals it carries. */
  datatype Pc =
    | Idle
    | Peek(spins: nat)
    | Decide(val: Word)
    | Undo
    | PendWait
    | PendTake
    | Queue
    | Busy(at: Node)
    | Other(at: Node)
    | InitLocked(at: Node)
    | InitNext(at: Node)
    | TryRead(at: Node)
    | TryCas(at: Node)
    | Publish(at: Node)
    | Link(at: Node, prev: nat)
    | Wait(at: Node)
    | ReadNext(at: Node)
    | Head(at: Node, next: Option<Node>)
    | TryClear(at: Node, next: Option<Node>, val: Word)
    | SetLocked(at: Node, next: Option<Node>)
    | AwaitNext(at: Node)
    | Pass(at: Node, succ: Node)
    | Drop(at: Node)
    | Held
  {
    /** Between its increment of the cpu's node count and its decrement. */
    predicate HasSlot() {
      !(Idle? || Peek? || Decide? || Undo? || PendWait? || PendTake? || Queue? || Held?)
    }

    /** The slot it uses, if it has one. */
    function Slot(): Node {
      if HasSlot() then at else Node(0, 0)
    }

    /** Between publishing its node as the tail and leaving the queue. */
    predicate Queued() {
      Link? || Wait? || ReadNext? || Head? || TryClear? || SetLocked? || AwaitNext? || Pass?
    }

    /** Holds the lock, though perhaps without having returned yet. */
    predicate Owns() {
      AwaitNext? || Pass? || Drop? || Held?
    }

    predicate Pending() {
      PendWait? || PendTake?
    }

    /** The local copy of the next pointer. */
    function Seen(): Option<Node> {
      match this
      case Head(_, next) => next
      case TryClear(_, next, _) => next
      case SetLocked(_, next) => next
      case Pass(_, succ) => Some(succ)
      case _ => None
    }
  }

  datatype State = State(word: Word, nodes: map<Node, Links>, count: map<nat, nat>, pc: map<Thread, Pc>) {
    function At(n: Node): Links {
      if n in nodes then nodes[n] else Links(None, false)
    }

    function Count(cpu: nat): nat {
      if cpu in count then count[cpu] else 0
    }

    /**
     * The decrement of the node count. A context that was interrupted runs again only when the
     * contexts above it have returned, so only the topmost slot of a cpu is given up.
     */
    predicate MayRelease(n: Node) {
      Count(n.cpu) == n.idx + 1
    }
  }

  /** What the scheduler decides: which cpu a thread is on, or what another lock's waiter writes. */
  datatype Move = Go(t: Thread, cpu: nat) | Elsewhere(t: Thread, cpu: nat) | Scribble(t: Thread, links: Links)

  function TailCode(n: Node): (c: nat) {
    ((n.cpu + 1) * 4 + n.idx) % 0x1_0000
  }

  function DecodeTail(c: nat): (n: Node) {
    Node(if c / 4 == 0 then 0xFFFF_FFFF else c / 4 - 1, c % 4)
  }

  /**
   * What one atomic step writes: the lock word, at most one node, at most one cpu's node count, and the
   * thread's place.
   */
  datatype Effect = Effect(word: Word, node: Option<(Node, Links)>, count: Option<(nat, nat)>, pc: Pc)

  /** One atomic step; a thread whose wait condition does not hold stays where it is. */
  function Step(cpus: nat, s: State, m: Move): State {
    if m.t in s.pc then Apply(s, m.t, EffectOf(cpus, s, m)) else s
  }

  function Apply(s: State, t: Thread, e: Effect): State {
    State(
      e.word,
      if e.node.Some? then s.nodes[e.node.value.0 := e.node.value.1] else s.nodes,
      if e.count.Some? then s.count[e.count.value.0 := e.count.value.1] else s.count,
      s.pc[t := e.pc])
  }

  function EffectOf(cpus: nat, s: State, m: Move): Effect
    requires m.t in s.pc
  {
    var p := s.pc[m.t];
    match m
    case Scribble(_, links) => Effect(s.word, if p.Other? then Some((p.at, links)) else None, None, p)
    case Elsewhere(_, cpu) =>
      if p.Idle? && cpu < cpus then Effect(s.word, None, Some((cpu, s.Count(cpu) + 1)), Other(Node(cpu, s.Count(cpu))))
      else if p.Other? && s.MayRelease(p.at) then Effect(s.word, None, Some((p.at.cpu, p.at.idx)), Idle)
      else Effect(s.word, None, None, p)
    case Go(_, cpu) => Advance(cpus, s, p, cpu)
  }

  /** The effect of the next atomic access of a thread at `p`. */
  function Advance(cpus: nat, s: State, p: Pc, cpu: nat): Effect {
    var w := s.word;
    match p
    case Idle =>
      if cpus > MAX_CPUS then Effect(w, None, None, p)
      else if w == FREE then Effect(TAKEN, None, None, Held)
      else Effect(w, None, None, if w == Word(false, true, 0) then Peek(PENDING_LOOPS) else Decide(w))
    case Peek(spins) =>
      Effect(w, None, None, if w != Word(false, true, 0) || spins == 0 then Decide(w) else Peek(spins - 1))
    case Decide(val) =>
      if val.pending || val.tail != 0 then Effect(w, None, None, Queue)
      else
        Effect(w.(pending := true), None, None,
               if w.pending then Queue else if w.tail != 0 then Undo else if w.locked then PendWait else PendTake)
    case Undo => Effect(w.(pending := false), None, None, Queue)
    case PendWait => Effect(w, None, None, if w.locked then p else PendTake)
    case PendTake => Effect(w.(locked := true, pending := false), None, None, Held)
    case Queue =>
      if cpu >= cpus then Effect(w, None, None, p)
      else
        var at := Node(cpu, s.Count(cpu));
        Effect(w, None, Some((cpu, at.idx + 1)), if at.idx >= MAX_NODES then Busy(at) else InitLocked(at))
    case Busy(at) =>
      if s.MayRelease(at) then Effect(w, None, Some((at.cpu, at.idx)), Idle) else Effect(w, None, None, p)
    case Other(at) => Effect(w, None, None, p)
    case InitLocked(at) => Effect(w, Some((at, s.At(at).(locked := false))), None, InitNext(at))
    case InitNext(at) => Effect(w, Some((at, s.At(at).(next := None))), None, TryRead(at))
    case TryRead(at) => Effect(w, None, None, if w == FREE then TryCas(at) else Publish(at))
    case TryCas(at) => if w == FREE then Effect(TAKEN, None, None, Drop(at)) else Effect(w, None, None, Publish(at))
    case Publish(at) =>
      Effect(w.(tail := TailCode(at)), None, None, if w.tail == 0 then Head(at, None) else Link(at, w.tail))
    case Link(at, prev) =>
      var n := DecodeTail(prev);
      Effect(w, Some((n, s.At(n).(next := Some(at)))), None, Wait(at))
    case Wait(at) => Effect(w, None, None, if s.At(at).locked then ReadNext(at) else p)
    case ReadNext(at) => Effect(w, None, None, Head(at, s.At(at).next))
    case Head(at, next) =>
      Effect(w, None, None,
             if w.locked || w.pending then p else if w.tail == TailCode(at) then TryClear(at, next, w)
               else SetLocked(at, next))
    case TryClear(at, next, val) =>
      if w == val then Effect(TAKEN, None, None, Drop(at)) else Effect(w, None, None, SetLocked(at, next))
    case SetLocked(at, next) =>
      Effect(w.(locked := true), None, None, match next case None => AwaitNext(at) case Some(n) => Pass(at, n))
    case AwaitNext(at) => Effect(w, None, None, match s.At(at).next case None => p case Some(n) => Pass(at, n))
    case Pass(at, succ) => Effect(w, Some((succ, s.At(succ).(locked := true))), None, Drop(at))
    case Drop(at) =>
      if s.MayRelease(at) then Effect(w, None, Some((at.cpu, at.idx)), Held) else Effect(w, None, None, p)
    case Held => Effect(w.(locked := false), None, None, Idle)
  }

  /** Nobody near the lock; the nodes hold whatever earlier use left in them. */
  ghost predicate Initial(s: State) {
    && s.word == FREE && s.count == map[]
    && forall t :: t in s.pc ==> s.pc[t] == Idle
  }

  ghost function Run(cpus: nat, s: State, moves: seq<Move>): State {
    if moves == [] then s else Step(cpus, Run(cpus, s, moves[..|moves| - 1]), moves[|moves| - 1])
  }

  ghost predicate Exclusive(s: State) {
    forall t, u :: t in s.pc && u in s.pc && s.pc[t].Owns() && s.pc[u].Owns() ==> t == u
  }

  // ----- the tail code as the code computes it, in 32-bit words -----

  function EncodeBits(cpu: bv32, idx: bv32): bv32 {
    ((cpu + 1) << 18) | (idx << 16)
  }

  function DecodeCpu(tail: bv32): bv32 {
    (tail >> 18) - 1
  }

  function DecodeIdx(tail: bv32): bv32 {
    (tail & 0x3_0000) >> 16
  }

  /**
   * For the cpus and nesting levels the code admits, the tail round-trips except on cpu 16383, whose first node
   * is coded as no tail.
   */
  lemma TailRoundTrip(cpu: bv32, idx: bv32)
    requires cpu < 16384 && idx < 4
    ensures DecodeCpu(EncodeBits(cpu, idx)) == cpu && DecodeIdx(EncodeBits(cpu, idx)) == idx <==> cpu < 16383
    ensures EncodeBits(cpu, idx) == 0 <==> cpu == 16383 && idx == 0
  {
  }

  function Bit(w: bv32): nat { if w & 1 == 1 then 1 else 0 }

  function Half(w: bv32): bv32 { w >> 1 }

  function Next(w: bv32): bv32 { w + 1 }

  function Mask(w: bv32, m: bv32): bv32 { w & m }

  /** The number that the low n bits of a word stand for. */
  function Value(w: bv32, n: nat): nat
    decreases n
  {
    if n == 0 then 0 else Bit(w) + 2 * Value(Half(w), n - 1)
  }

  function Pow2(n: nat): nat { if n == 0 then 1 else 2 * Pow2(n - 1) }

  lemma BitBelow(w: bv32)
    ensures Bit(w) <= 1
  {
  }

  lemma {:induction false} ValueBelow(w: bv32, n: nat)
    ensures Value(w, n) < Pow2(n)
    decreases n
  {
    BitBelow(w);
    hide Bit, Half;
    if n > 0 {
      ValueBelow(Half(w), n - 1);
    }
  }

  lemma NextHalf(w: bv32)
    requires w != 0xFFFF_FFFF
    ensures Bit(Next(w)) == 1 - Bit(w) && Half(Next(w)) == (if Bit(w) == 0 then Half(w) else Next(Half(w)))
    ensures Half(w) != 0xFFFF_FFFF
  {
  }

  /** Adding one to a word adds one to its low bits, with wrap-around. */
  lemma {:induction false} ValueNext(w: bv32, n: nat)
    requires w != 0xFFFF_FFFF
    ensures Value(Next(w), n) == if Value(w, n) + 1 == Pow2(n) then 0 else Value(w, n) + 1
    decreases n
  {
    NextHalf(w);
    BitBelow(w);
    hide Bit, Half, Next;
    if n > 0 {
      ValueNext(Half(w), n - 1);
      ValueBelow(Half(w), n - 1);
    }
  }

  lemma MaskHalf(w: bv32, m: bv32)
    ensures Half(Mask(w, m)) == Mask(Half(w), Half(m)) && (Bit(m) == 1 ==> Bit(Mask(w, m)) == Bit(w))
  {
  }

  /** Bits beyond the low n make no difference to them. */
  lemma {:induction false} ValueMasked(w: bv32, m: bv32, n: nat)
    requires Value(m, n) == Pow2(n) - 1
    ensures Value(Mask(w, m), n) == Value(w, n)
    decreases n
  {
    MaskHalf(w, m);
    BitBelow(m);
    hide Bit, Half, Mask;
    if n > 0 {
      ValueBelow(Half(m), n - 1);
      ValueMasked(Half(w), Half(m), n - 1);
    }
  }

  lemma ValueTwice(w: bv32, n: nat)
    ensures Value(w, n + 2) == Bit(w) + 2 * Bit(Half(w)) + 4 * Value(Half(Half(w)), n)
  {
    hide Bit, Half;
    assert Value(w, n + 2) == Bit(w) + 2 * Value(Half(w), n + 1);
  }

  lemma TailBits(cpu: bv32, idx: bv32)
    requires cpu < 16384 && idx < 4
    ensures var w := EncodeBits(cpu, idx) >> 16;
      Bit(w) == Bit(idx) && Bit(Half(w)) == Bit(Half(idx)) && Half(Half(w)) == Mask(Next(cpu), 0x3FFF)
    ensures EncodeBits(cpu, idx) & 0xFFFF == 0 && cpu != 0xFFFF_FFFF
  {
  }

  lemma Ones(m: bv32, n: nat)
    requires Bit(m) == 1 && Bit(Half(m)) == 1 && Value(Half(Half(m)), n) == Pow2(n) - 1
    ensures Value(m, n + 2) == Pow2(n + 2) - 1
  {
    ValueTwice(m, n);
    hide Bit, Half;
    assert Pow2(n + 2) == 2 * Pow2(n + 1);
  }

  lemma FourteenOnes()
    ensures Value(0x3FFF, 14) == Pow2(14) - 1
  {
    Ones(0x3, 0);
    Ones(0xF, 2);
    Ones(0x3F, 4);
    Ones(0xFF, 6);
    Ones(0x3FF, 8);
    Ones(0xFFF, 10);
    Ones(0x3FFF, 12);
  }

  lemma Powers()
    ensures Pow2(32) == 0x1_0000_0000 && Pow2(14) == 16384 && Pow2(2) == 4
  {
    assert Pow2(7) == 128;
    assert Pow2(20) == 0x10_0000;
    assert Pow2(26) == 0x400_0000;
  }

  /** The tail in the upper half of the lock word is the code of the queue node, and the lower half is clear. */
  lemma WordHoldsCode(cpu: bv32, idx: bv32)
    requires cpu < 16384 && idx < 4
    ensures Value(EncodeBits(cpu, idx) >> 16, 16) == TailCode(Node(Value(cpu, 14), Value(idx, 2)))
    ensures EncodeBits(cpu, idx) & 0xFFFF == 0
  {
    TailBits(cpu, idx);
    TailValue(EncodeBits(cpu, idx) >> 16, cpu, idx);
  }

  lemma TailValue(w: bv32, cpu: bv32, idx: bv32)
    requires Bit(w) == Bit(idx) && Bit(Half(w)) == Bit(Half(idx)) && Half(Half(w)) == Mask(Next(cpu), 0x3FFF)
    requires cpu != 0xFFFF_FFFF
    ensures Value(w, 16) == TailCode(Node(Value(cpu, 14), Value(idx, 2)))
  {
    hide *;
    ValueTwice(w, 14);
    ValueTwice(idx, 0);
    NoBits(Half(Half(idx)));
    FourteenOnes();
    Powers();
    ValueMasked(Next(cpu), 0x3FFF, 14);
    ValueNext(cpu, 14);
    ValueBelow(cpu, 14);
    ValueBelow(idx, 2);
    CodeOf(Value(cpu, 14), Value(idx, 2));
  }

  lemma NoBits(w: bv32)
    ensures Value(w, 0) == 0
  {
  }

  lemma CodeOf(cpu: nat, idx: nat)
    requires cpu < 16384 && idx < 4
    ensures TailCode(Node(cpu, idx)) == idx + 4 * if cpu + 1 == 16384 then 0 else cpu + 1
  {
  }

  // ----- and how it reads the code back -----

  /** No bit beyond the low n is set. */
  predicate Fits(w: bv32, n: nat) {
    if n == 0 then w == 0 else Fits(Half(w), n - 1)
  }

  lemma ZeroHalves()
    ensures Half(0) == 0 && Bit(0) == 0
  {
  }

  lemma {:induction false} ZeroValue(n: nat)
    ensures Value(0, n) == 0
  {
    ZeroHalves();
    hide Bit, Half;
    if n > 0 {
      ZeroValue(n - 1);
    }
  }

  lemma {:induction false} WiderValue(w: bv32, n: nat, m: nat)
    requires Fits(w, n) && n <= m
    ensures Value(w, m) == Value(w, n)
    decreases n
  {
    hide Bit, Half;
    if n == 0 {
      ZeroValue(m);
    } else {
      WiderValue(Half(w), n - 1, m - 1);
    }
  }

  lemma FitsAbove(w: bv32, n: nat)
    requires Fits(Half(w), n)
    ensures Fits(w, n + 1)
  {
    hide Half;
  }

  lemma FitsAboveSeven(w: bv32, n: nat)
    requires Fits(w >> 7, n)
    ensures Fits(w, n + 7)
  {
    var w1, w2, w3, w4, w5, w6, w7 := w >> 1, w >> 2, w >> 3, w >> 4, w >> 5, w >> 6, w >> 7;
    assert w1 == Half(w) && w2 == Half(w1) && w3 == Half(w2) && w4 == Half(w3);
    assert w5 == Half(w4) && w6 == Half(w5) && w7 == Half(w6);
    hide Half, Fits;
    FitsAbove(w6, n);
    FitsAbove(w5, n + 1);
    FitsAbove(w4, n + 2);
    FitsAbove(w3, n + 3);
    FitsAbove(w2, n + 4);
    FitsAbove(w1, n + 5);
    FitsAbove(w, n + 6);
  }

  lemma FitsFourteen(w: bv32)
    requires w < 16384
    ensures Fits(w, 14)
  {
    assert (w >> 7) >> 7 == 0;
    FitsAboveSeven(w >> 7, 0);
    FitsAboveSeven(w, 7);
  }

  lemma AllOnes()
    ensures Value(0xFFFF_FFFF, 32) == 0xFFFF_FFFF
  {
    FourteenOnes();
    Ones(0xFFFF, 14);
    Ones(0x3_FFFF, 16);
    Ones(0xF_FFFF, 18);
    Ones(0x3F_FFFF, 20);
    Ones(0xFF_FFFF, 22);
    Ones(0x3FF_FFFF, 24);
    Ones(0xFFF_FFFF, 26);
    Ones(0x3FFF_FFFF, 28);
    Ones(0xFFFF_FFFF, 30);
    Powers();
  }

  lemma OneBack(u: bv32)
    requires 0 < u < 16384
    ensures Next(u - 1) == u && u - 1 != 0xFFFF_FFFF && u - 1 < 16384
  {
  }

  /** What a tail's cpu field says: one less, and for an empty field the largest word. */
  lemma CpuField(u: bv32)
    requires u < 16384
    ensures Value(u - 1, 32) == if Value(u, 14) == 0 then 0xFFFF_FFFF else Value(u, 14) - 1
  {
    hide *;
    FitsFourteen(u);
    Powers();
    if u == 0 {
      ZeroValue(14);
      AllOnes();
      assert u - 1 == 0xFFFF_FFFF;
    } else {
      OneBack(u);
      FitsFourteen(u - 1);
      WiderValue(u - 1, 14, 32);
      WiderValue(u, 14, 32);
      ValueNext(u - 1, 32);
      ValueBelow(u - 1, 14);
    }
  }

  lemma TailFields(tail: bv32)
    ensures var w := tail >> 16;
      && Half(Half(w)) == tail >> 18 && tail >> 18 < 16384 && DecodeCpu(tail) == (tail >> 18) - 1
      && Bit(DecodeIdx(tail)) == Bit(w) && Bit(Half(DecodeIdx(tail))) == Bit(Half(w))
  {
  }

  /** The node that the code reads out of a lock word is the one of the tail in its upper half. */
  lemma WordNamesNode(tail: bv32)
    ensures DecodeTail(Value(tail >> 16, 16)) == Node(Value(DecodeCpu(tail), 32), Value(DecodeIdx(tail), 2))
  {
    hide *;
    TailFields(tail);
    NodeValue(tail >> 16, tail >> 18, DecodeIdx(tail));
  }

  lemma NodeValue(w: bv32, u: bv32, idx: bv32)
    requires Half(Half(w)) == u && u < 16384 && Bit(idx) == Bit(w) && Bit(Half(idx)) == Bit(Half(w))
    ensures DecodeTail(Value(w, 16)) == Node(Value(u - 1, 32), Value(idx, 2))
  {
    hide *;
    CpuField(u);
    ValueTwice(w, 14);
    ValueTwice(idx, 0);
    NoBits(Half(Half(idx)));
    Powers();
    ValueBelow(idx, 2);
    NodeOf(Value(u, 14), Value(idx, 2));
  }

  lemma NodeOf(field: nat, idx: nat)
    requires idx < 4
    ensures DecodeTail(idx + 4 * field) == Node(if field == 0 then 0xFFFF_FFFF else field - 1, idx)
  {
  }
}

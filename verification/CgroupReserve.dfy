/**
 * Contexts reserved ahead of need. Giving a cgroup a finite quota must not allocate, so every
 * cgroup without a context has a spare set parked for it: one cgroup context and one context per
 * LLC. Operations on different cgroups interleave step by step; one cgroup has one at a time.
 */
module CgroupReserve {
  /** A free list and the counter that is kept beside it. */
  datatype Pool = Pool(count: int, list: nat)

  /** How far a claim has come: nothing read, the counter read, the floor passed, the counter lowered. */
  datatype Claim = Fresh | Read(f: int) | Seen(f: int) | Taken

  /**
   * Where a cgroup is. Item 0 of a set is the cgroup context, items 1 to `llcs` are LLC contexts;
   * `n` is the number of items dealt with, `half` an item on its list but not yet counted.
   */
  datatype Pc =
    | Absent
    | Building(n: nat, half: bool)
    | Reserved
    | Gathering(n: nat, claim: Claim)
    | Materializing(n: nat, claim: Claim)
    | Publishing(init: bool)
    | Managed
    | Retiring(n: nat, half: bool)
    | Stranded

  datatype State = State(pending: int, cgx: Pool, llcx: Pool, pcs: seq<Pc>)

  /** Which of the two free lists item `n` lives on. */
  function PoolOf(s: State, n: nat): Pool {
    if n == 0 then s.cgx else s.llcx
  }

  function WithPool(s: State, n: nat, p: Pool): State {
    if n == 0 then s.(cgx := p) else s.(llcx := p)
  }

  function Floor(s: State, llcs: nat, n: nat): int {
    (if s.pending > 0 then s.pending else 0) * if n == 0 then 1 else llcs
  }

  datatype Move = Init(c: nat, finite: bool) | Limit(c: nat) | Exit(c: nat) | Go(c: nat)

  /**
   * One step. With `atomic` a claim reads the counter and the floor and lowers the counter at
   * once; otherwise it reads the counter, then the floor, and lowers the counter by compare-and-swap.
   */
  function Step(atomic: bool, llcs: nat, s: State, m: Move): State {
    if m.c >= |s.pcs| then s
    else
      var p := s.pcs[m.c];
      match m
      case Init(c, finite) =>
        if p != Absent then s
        else s.(pending := s.pending + 1, pcs := s.pcs[c := if finite then Gathering(0, Fresh) else Building(0, false)])
      case Limit(c) => if p == Reserved then At(s, c, Materializing(0, Fresh)) else s
      case Exit(c) =>
        if p == Reserved then At(s.(pending := s.pending - 1), c, Absent)
        else if p == Managed then At(s, c, Retiring(0, false))
        else s
      case Go(c) =>
        (match p
         case Building(n, half) => if n > llcs then At(s, c, Reserved)
           else Park(s, c, n, half, Building(n, true), Building(n + 1, false))
         case Retiring(n, half) => if n > llcs then At(s, c, Absent)
           else Park(s, c, n, half, Retiring(n, true), Retiring(n + 1, false))
         case Gathering(n, claim) => if n > llcs then At(s, c, Publishing(true))
           else Gather(atomic, llcs, s, c, n, claim)
         case Materializing(n, claim) => if n > llcs then At(s, c, Publishing(false))
           else Materialize(atomic, s, c, n, claim)
         case Publishing(_) => At(s.(pending := s.pending - 1), c, Managed)
         case _ => s)
  }

  function At(s: State, c: nat, p: Pc): State
    requires c < |s.pcs|
  {
    s.(pcs := s.pcs[c := p])
  }

  /** An item goes on its list first and is counted second. */
  function Park(s: State, c: nat, n: nat, half: bool, listed: Pc, counted: Pc): State
    requires c < |s.pcs|
  {
    var pool := PoolOf(s, n);
    if half then At(WithPool(s, n, pool.(count := pool.count + 1)), c, counted)
    else At(WithPool(s, n, pool.(list := pool.list + 1)), c, listed)
  }

  /** An init that may sleep takes only what is above the reserve, and allocates otherwise. */
  function Gather(atomic: bool, llcs: nat, s: State, c: nat, n: nat, claim: Claim): State
    requires c < |s.pcs|
  {
    var pool := PoolOf(s, n);
    match claim
    case Fresh =>
      if !atomic then At(s, c, Gathering(n, Read(pool.count)))
      else if pool.count > Floor(s, llcs, n)
        then At(WithPool(s, n, pool.(count := pool.count - 1)), c, Gathering(n, Taken))
      else At(s, c, Gathering(n + 1, Fresh))
    case Read(f) => At(s, c, if f > Floor(s, llcs, n) then Gathering(n, Seen(f)) else Gathering(n + 1, Fresh))
    case Seen(f) =>
      if pool.count == f then At(WithPool(s, n, pool.(count := f - 1)), c, Gathering(n, Taken))
        else At(s, c, Gathering(n, Fresh))
    case Taken =>
      if pool.list > 0 then At(WithPool(s, n, pool.(list := pool.list - 1)), c, Gathering(n + 1, Fresh))
      else At(WithPool(s, n, pool.(count := pool.count + 1)), c, Gathering(n + 1, Fresh))
  }

  /** A materialization may take everything and cannot allocate. */
  function Materialize(atomic: bool, s: State, c: nat, n: nat, claim: Claim): State
    requires c < |s.pcs|
  {
    var pool := PoolOf(s, n);
    match claim
    case Fresh =>
      if !atomic then At(s, c, Materializing(n, Read(pool.count)))
      else if pool.count > 0 then At(WithPool(s, n, pool.(count := pool.count - 1)), c, Materializing(n, Taken))
      else At(s, c, Stranded)
    case Read(f) => At(s, c, if f > 0 then Materializing(n, Seen(f)) else Stranded)
    case Seen(f) =>
      if pool.count == f then At(WithPool(s, n, pool.(count := f - 1)), c, Materializing(n, Taken))
        else At(s, c, Materializing(n, Fresh))
    case Taken =>
      if pool.list > 0 then At(WithPool(s, n, pool.(list := pool.list - 1)), c, Materializing(n + 1, Fresh))
      else At(WithPool(s, n, pool.(count := pool.count + 1)), c, Stranded)
  }

  ghost function Run(atomic: bool, llcs: nat, s: State, moves: seq<Move>): State {
    if moves == [] then s else Step(atomic, llcs, Run(atomic, llcs, s, moves[..|moves| - 1]), moves[|moves| - 1])
  }

  ghost predicate Initial(s: State) {
    s.pending == 0 && s.cgx == Pool(0, 0) && s.llcx == Pool(0, 0) && forall c :: 0 <= c < |s.pcs| ==> s.pcs[c] == Absent
  }

  ghost predicate NoneStranded(s: State) {
    forall c :: 0 <= c < |s.pcs| ==> s.pcs[c] != Stranded
  }

  // ----- sums over all cgroups -----

  /**
   * Things counted per cgroup: its reservation, its claim on either list, items listed but not counted,
   * a managed init in flight, a materialization in flight, and a claim on a list that has passed its floor.
   */
  datatype Tally = Pending | Need(llc: bool) | Extra(llc: bool) | Inits | Limits | Passed(llc: bool)

  function Size(llc: bool, llcs: nat): nat {
    if llc then llcs else 1
  }

  /** The items of one kind among the first `n`. */
  function Among(llc: bool, n: nat): nat {
    if llc then (if n == 0 then 0 else n - 1) else if n == 0 then 0 else 1
  }

  function Weigh(w: Tally, llcs: nat, p: Pc): int {
    match w
    case Pending => if p.Building? || p.Reserved? || p.Gathering? || p.Materializing? || p.Publishing? then 1 else 0
    case Need(llc) =>
      (match p
       case Reserved => Size(llc, llcs)
       case Building(n, _) => Among(llc, n)
       case Materializing(n, claim) => Size(llc, llcs) - Among(llc, n)
         - if claim == Taken && llc == (n > 0) then 1 else 0
       case _ => 0)
    case Extra(llc) =>
      (match p
       case Building(n, half) => if half && llc == (n > 0) then 1 else 0
       case Retiring(n, half) => if half && llc == (n > 0) then 1 else 0
       case Gathering(n, claim) => if claim == Taken && llc == (n > 0) then 1 else 0
       case Materializing(n, claim) => if claim == Taken && llc == (n > 0) then 1 else 0
       case _ => 0)
    case Inits => if p.Gathering? || p == Publishing(true) then 1 else 0
    case Limits => if p.Materializing? || p == Publishing(false) then 1 else 0
    case Passed(llc) => if p.Gathering? && p.claim.Seen? && llc == (p.n > 0) then 1 else 0
  }

  function Sum(w: Tally, llcs: nat, pcs: seq<Pc>): int {
    if pcs == [] then 0 else Sum(w, llcs, pcs[..|pcs| - 1]) + Weigh(w, llcs, pcs[|pcs| - 1])
  }

  lemma {:induction false} SumUpdate(w: Tally, llcs: nat, pcs: seq<Pc>, c: nat, p: Pc)
    requires c < |pcs|
    ensures Sum(w, llcs, pcs[c := p]) == Sum(w, llcs, pcs) - Weigh(w, llcs, pcs[c]) + Weigh(w, llcs, p)
  {
    var last := |pcs| - 1;
    if c == last {
      assert pcs[c := p][..last] == pcs[..last];
    } else {
      assert pcs[c := p][..last] == pcs[..last][c := p];
      SumUpdate(w, llcs, pcs[..last], c, p);
    }
  }

  /** The progress of a cgroup stays within a set. */
  ghost predicate InRange(atomic: bool, llcs: nat, p: Pc) {
    match p
    case Building(n, half) => n <= llcs + 1 && (half ==> n <= llcs)
    case Retiring(n, half) => n <= llcs + 1 && (half ==> n <= llcs)
    case Gathering(n, claim) => n <= llcs + 1 && (claim != Fresh ==> n <= llcs && (claim == Taken || !atomic))
    case Materializing(n, claim) =>
      && n <= llcs + 1 && (claim != Fresh ==> n <= llcs && (claim == Taken || !atomic))
      && (claim.Read? || claim.Seen? ==> claim.f > 0)
    case Stranded => false
    case _ => true
  }

  /** No cgroup needs more than its reservation stands for. */
  lemma {:induction false} NeedWithinPending(atomic: bool, llc: bool, llcs: nat, pcs: seq<Pc>)
    requires forall c :: 0 <= c < |pcs| ==> InRange(atomic, llcs, pcs[c])
    ensures 0 <= Sum(Need(llc), llcs, pcs) <= (Sum(Pending, llcs, pcs) - Sum(Inits, llcs, pcs)) * Size(llc, llcs)
    ensures 0 <= Sum(Inits, llcs, pcs)
  {
    if pcs != [] {
      var init, last := pcs[..|pcs| - 1], pcs[|pcs| - 1];
      NeedWithinPending(atomic, llc, llcs, init);
      assert InRange(atomic, llcs, last);
      var w := Weigh(Pending, llcs, last) - Weigh(Inits, llcs, last);
      Distribute(Sum(Pending, llcs, init) - Sum(Inits, llcs, init), w, Size(llc, llcs));
    }
  }

  lemma Distribute(a: int, b: int, k: nat)
    ensures (a + b) * k == a * k + b * k && 0 * k == 0 && 1 * k == k
  {
  }

  lemma {:induction false} SumSplits(w: Tally, llcs: nat, pcs: seq<Pc>, c: nat)
    requires c < |pcs| && forall i :: 0 <= i < |pcs| ==> Weigh(w, llcs, pcs[i]) >= 0
    ensures Sum(w, llcs, pcs) >= Weigh(w, llcs, pcs[c])
    ensures Sum(w, llcs, pcs) >= 0
  {
    var last := |pcs| - 1;
    if last > 0 {
      SumSplits(w, llcs, pcs[..last], if c == last then 0 else c);
    }
  }

  /** The counters cover every claim on them, and the lists hold what the counters say. */
  ghost predicate Inv(atomic: bool, llcs: nat, s: State) {
    && (forall c :: 0 <= c < |s.pcs| ==> InRange(atomic, llcs, s.pcs[c]))
    && s.pending == Sum(Pending, llcs, s.pcs)
    && s.cgx.count >= Sum(Need(false), llcs, s.pcs) && s.llcx.count >= Sum(Need(true), llcs, s.pcs)
    && s.cgx.list == s.cgx.count + Sum(Extra(false), llcs, s.pcs)
    && s.llcx.list == s.llcx.count + Sum(Extra(true), llcs, s.pcs)
  }

  // ----- every step keeps it -----

  /** One cgroup moves to `p`; the counters follow. */
  lemma Moved(atomic: bool, llcs: nat, s: State, s': State, c: nat, p: Pc)
    requires Inv(atomic, llcs, s) && c < |s.pcs| && s'.pcs == s.pcs[c := p] && InRange(atomic, llcs, p)
    requires var q := s.pcs[c]; (
      && s'.pending == s.pending - Weigh(Pending, llcs, q) + Weigh(Pending, llcs, p)
      && s'.cgx.count >= Sum(Need(false), llcs, s.pcs) - Weigh(Need(false), llcs, q) + Weigh(Need(false), llcs, p)
      && s'.llcx.count >= Sum(Need(true), llcs, s.pcs) - Weigh(Need(true), llcs, q) + Weigh(Need(true), llcs, p)
      && s'.cgx.list - s'.cgx.count ==
        s.cgx.list - s.cgx.count - Weigh(Extra(false), llcs, q) + Weigh(Extra(false), llcs, p)
      && s'.llcx.list - s'.llcx.count ==
        s.llcx.list - s.llcx.count - Weigh(Extra(true), llcs, q) + Weigh(Extra(true), llcs, p))
    ensures Inv(atomic, llcs, s')
  {
    hide Weigh, InRange;
    SumUpdate(Pending, llcs, s.pcs, c, p);
    SumUpdate(Need(false), llcs, s.pcs, c, p);
    SumUpdate(Need(true), llcs, s.pcs, c, p);
    SumUpdate(Extra(false), llcs, s.pcs, c, p);
    SumUpdate(Extra(true), llcs, s.pcs, c, p);
  }

  /** What the sums say about one cgroup: its needs are covered, and a claimed item is on its list. */
  lemma Covered(atomic: bool, llcs: nat, s: State, c: nat, llc: bool)
    requires Inv(atomic, llcs, s) && c < |s.pcs|
    ensures var pool := if llc then s.llcx else s.cgx; (
      && pool.count >= Weigh(Need(llc), llcs, s.pcs[c]) && pool.count >= 0
      && pool.list >= pool.count + Weigh(Extra(llc), llcs, s.pcs[c]))
  {
    forall i | 0 <= i < |s.pcs|
      ensures Weigh(Need(llc), llcs, s.pcs[i]) >= 0 && Weigh(Extra(llc), llcs, s.pcs[i]) >= 0 {
      assert InRange(atomic, llcs, s.pcs[i]);
    }
    SumSplits(Need(llc), llcs, s.pcs, c);
    SumSplits(Extra(llc), llcs, s.pcs, c);
  }

  lemma KeepPark(atomic: bool, llcs: nat, s: State, c: nat)
    requires Inv(atomic, llcs, s) && c < |s.pcs| && (s.pcs[c].Building? || s.pcs[c].Retiring?)
    ensures Inv(atomic, llcs, Step(atomic, llcs, s, Go(c)))
  {
    assert InRange(atomic, llcs, s.pcs[c]);
    var s' := Step(atomic, llcs, s, Go(c));
    hide Sum;
    Moved(atomic, llcs, s, s', c, s'.pcs[c]);
  }

  /** A claim above the floor leaves the reserve whole, with one item to spare for every managed init in flight. */
  lemma AboveFloor(atomic: bool, llcs: nat, s: State, n: nat, f: int)
    requires Inv(atomic, llcs, s) && f > Floor(s, llcs, n)
    ensures f - 1 >= Sum(Need(n > 0), llcs, s.pcs) + Sum(Inits, llcs, s.pcs) * Size(n > 0, llcs)
    ensures Sum(Inits, llcs, s.pcs) >= 0
  {
    NeedWithinPending(atomic, n > 0, llcs, s.pcs);
    hide Sum, Weigh, InRange;
    var a, g, k := Sum(Pending, llcs, s.pcs), Sum(Inits, llcs, s.pcs), Size(n > 0, llcs);
    Distribute(a - g, g, k);
    if a <= 0 {
      NonPositive(a, k);
    }
  }

  lemma NonPositive(a: int, k: nat)
    requires a <= 0
    ensures a * k <= 0 == 0 * k
  {
  }

  lemma Product(a: nat, k: nat)
    ensures a * k >= 0 && (k >= 1 ==> a * k >= a)
  {
  }

  /** The next step of this managed init lowers a counter. */
  predicate Lowers(atomic: bool, llcs: nat, s: State, c: nat)
    requires c < |s.pcs| && s.pcs[c].Gathering?
  {
    var p := s.pcs[c];
    && p.n <= llcs
    && if atomic then p.claim == Fresh && PoolOf(s, p.n).count > Floor(s, llcs, p.n)
       else p.claim.Seen? && PoolOf(s, p.n).count == p.claim.f
  }

  /** A managed init keeps the invariant if it claims only what nobody needs. */
  lemma KeepGather(atomic: bool, llcs: nat, s: State, c: nat)
    requires Inv(atomic, llcs, s) && c < |s.pcs| && s.pcs[c].Gathering?
    requires Lowers(atomic, llcs, s, c) ==> PoolOf(s, s.pcs[c].n).count > Sum(Need(s.pcs[c].n > 0), llcs, s.pcs)
    ensures Inv(atomic, llcs, Step(atomic, llcs, s, Go(c)))
  {
    var p := s.pcs[c];
    assert InRange(atomic, llcs, p);
    Covered(atomic, llcs, s, c, p.n > 0);
    var s' := Step(atomic, llcs, s, Go(c));
    hide Sum, Floor;
    Moved(atomic, llcs, s, s', c, s'.pcs[c]);
  }

  lemma KeepMaterialize(atomic: bool, llcs: nat, s: State, c: nat)
    requires Inv(atomic, llcs, s) && c < |s.pcs| && s.pcs[c].Materializing?
    ensures Inv(atomic, llcs, Step(atomic, llcs, s, Go(c)))
  {
    var p := s.pcs[c];
    assert InRange(atomic, llcs, p);
    Covered(atomic, llcs, s, c, p.n > 0);
    var s' := Step(atomic, llcs, s, Go(c));
    hide Sum;
    Moved(atomic, llcs, s, s', c, s'.pcs[c]);
  }

  /** Calls that begin, and contexts that are published. */
  lemma KeepOther(atomic: bool, llcs: nat, s: State, m: Move)
    requires Inv(atomic, llcs, s) && m.c < |s.pcs|
    requires var p := s.pcs[m.c]; m.Go? ==> !p.Building? && !p.Retiring? && !p.Gathering? && !p.Materializing?
    ensures Inv(atomic, llcs, Step(atomic, llcs, s, m))
  {
    assert InRange(atomic, llcs, s.pcs[m.c]);
    var s' := Step(atomic, llcs, s, m);
    if s' != s {
      hide Sum;
      Moved(atomic, llcs, s, s', m.c, s'.pcs[m.c]);
    }
  }

  lemma Keep(llcs: nat, s: State, m: Move)
    requires Inv(true, llcs, s)
    ensures Inv(true, llcs, Step(true, llcs, s, m))
  {
    if m.c < |s.pcs| {
      var p := s.pcs[m.c];
      if m.Go? && (p.Building? || p.Retiring?) {
        KeepPark(true, llcs, s, m.c);
      } else if m.Go? && p.Gathering? {
        if Lowers(true, llcs, s, m.c) {
          AboveFloor(true, llcs, s, p.n, PoolOf(s, p.n).count);
          Product(Sum(Inits, llcs, s.pcs), Size(p.n > 0, llcs));
        }
        KeepGather(true, llcs, s, m.c);
      } else if m.Go? && p.Materializing? {
        KeepMaterialize(true, llcs, s, m.c);
      } else {
        KeepOther(true, llcs, s, m);
      }
    }
  }

  lemma {:induction false} AllAbsent(w: Tally, llcs: nat, pcs: seq<Pc>)
    requires forall c :: 0 <= c < |pcs| ==> pcs[c] == Absent
    ensures Sum(w, llcs, pcs) == 0
  {
    if pcs != [] {
      AllAbsent(w, llcs, pcs[..|pcs| - 1]);
    }
  }

  lemma Starts(atomic: bool, llcs: nat, s: State)
    requires Initial(s)
    ensures Inv(atomic, llcs, s)
  {
    AllAbsent(Pending, llcs, s.pcs);
    AllAbsent(Need(false), llcs, s.pcs);
    AllAbsent(Need(true), llcs, s.pcs);
    AllAbsent(Extra(false), llcs, s.pcs);
    AllAbsent(Extra(true), llcs, s.pcs);
  }

  lemma {:induction false} Reached(llcs: nat, s: State, moves: seq<Move>)
    requires Initial(s)
    ensures Inv(true, llcs, Run(true, llcs, s, moves))
  {
    if moves == [] {
      Starts(true, llcs, s);
    } else {
      Reached(llcs, s, moves[..|moves| - 1]);
      Keep(llcs, Run(true, llcs, s, moves[..|moves| - 1]), moves[|moves| - 1]);
    }
  }

  lemma InvStrandsNobody(atomic: bool, llcs: nat, s: State)
    requires Inv(atomic, llcs, s)
    ensures NoneStranded(s)
  {
    forall c | 0 <= c < |s.pcs| ensures s.pcs[c] != Stranded {
      assert InRange(atomic, llcs, s.pcs[c]);
    }
  }

  /** If the counter and the floor were read and the counter lowered in one step, nobody would ever be stranded. */
  lemma AtomicClaims(llcs: nat, s: State, moves: seq<Move>)
    requires Initial(s)
    ensures NoneStranded(Run(true, llcs, s, moves))
  {
    Reached(llcs, s, moves);
    InvStrandsNobody(true, llcs, Run(true, llcs, s, moves));
  }
}

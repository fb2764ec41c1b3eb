/** Contexts do not get lost: what is on the free lists and with cgroups is what has been allocated. */
module CgroupItems {
  import opened CgroupReserve

  /** How many contexts of a kind a cgroup has at a place: what it has taken and not given back. */
  ghost function Has(llc: bool, llcs: nat, p: Pc): int {
    match p
    case Absent => 0
    case Building(_, _) => 0
    case Reserved => 0
    case Gathering(n, _) => Among(llc, n)
    case Materializing(n, _) => Among(llc, n)
    case Publishing(_) => Size(llc, llcs)
    case Managed => Size(llc, llcs)
    case Retiring(n, half) => Size(llc, llcs) - Among(llc, n) - if half && llc == (n > 0) then 1 else 0
    case Stranded => 0
  }

  ghost function AllHave(llc: bool, llcs: nat, pcs: seq<Pc>): int {
    if pcs == [] then 0 else AllHave(llc, llcs, pcs[..|pcs| - 1]) + Has(llc, llcs, pcs[|pcs| - 1])
  }

  /** The next step of the cgroup allocates a context: for the reserve, or when a managed init cannot claim one. */
  ghost predicate Allocates(atomic: bool, llcs: nat, s: State, m: Move, llc: bool) {
    && m.Go? && m.c < |s.pcs|
    && match s.pcs[m.c]
       case Building(n, half) => !half && n <= llcs && llc == (n > 0)
       case Gathering(n, claim) =>
         && n <= llcs && llc == (n > 0)
         && (match claim
             case Fresh => atomic && PoolOf(s, n).count <= Floor(s, llcs, n)
             case Read(f) => f <= Floor(s, llcs, n)
             case Seen(_) => false
             case Taken => PoolOf(s, n).list == 0)
       case _ => false
  }

  ghost function Allocated(atomic: bool, llcs: nat, s0: State, moves: seq<Move>, llc: bool): nat {
    if moves == [] then 0
    else
      var before := moves[..|moves| - 1];
      Allocated(atomic, llcs, s0, before, llc)
        + if Allocates(atomic, llcs, Run(atomic, llcs, s0, before), moves[|moves| - 1], llc) then 1 else 0
  }

  ghost function ListOf(s: State, llc: bool): nat { (if llc then s.llcx else s.cgx).list }

  lemma {:induction false} HaveUpdate(llc: bool, llcs: nat, pcs: seq<Pc>, c: nat, p: Pc)
    requires c < |pcs|
    ensures AllHave(llc, llcs, pcs[c := p]) == AllHave(llc, llcs, pcs) - Has(llc, llcs, pcs[c]) + Has(llc, llcs, p)
  {
    var last := |pcs| - 1;
    if c == last {
      assert pcs[c := p][..last] == pcs[..last];
    } else {
      assert pcs[c := p][..last] == pcs[..last][c := p];
      HaveUpdate(llc, llcs, pcs[..last], c, p);
    }
  }

  /** The items dealt with stay within a set. */
  ghost predicate Within(llcs: nat, p: Pc) {
    match p
    case Building(n, half) => n <= llcs + 1 && (half ==> n <= llcs)
    case Retiring(n, half) => n <= llcs + 1 && (half ==> n <= llcs)
    case Gathering(n, claim) => n <= llcs + 1 && (claim != Fresh ==> n <= llcs)
    case Materializing(n, claim) => n <= llcs + 1 && (claim != Fresh ==> n <= llcs)
    case _ => true
  }

  /** What a step does to a list and to what its cgroup has. */
  ghost predicate Balanced(atomic: bool, llcs: nat, s: State, m: Move, llc: bool) {
    var s' := Step(atomic, llcs, s, m);
    && m.c < |s.pcs| == |s'.pcs| && s'.pcs == s.pcs[m.c := s'.pcs[m.c]] && Within(llcs, s'.pcs[m.c])
    && (s'.pcs[m.c] != Stranded ==>
          ListOf(s', llc) + Has(llc, llcs, s'.pcs[m.c]) ==
            ListOf(s, llc) + Has(llc, llcs, s.pcs[m.c]) + if Allocates(atomic, llcs, s, m, llc) then 1 else 0)
  }

  lemma ParkStep(atomic: bool, llcs: nat, s: State, c: nat, llc: bool)
    requires c < |s.pcs| && Within(llcs, s.pcs[c]) && (s.pcs[c].Building? || s.pcs[c].Retiring?)
    ensures Balanced(atomic, llcs, s, Go(c), llc)
  {
  }

  lemma GatherStep(atomic: bool, llcs: nat, s: State, c: nat, llc: bool)
    requires c < |s.pcs| && Within(llcs, s.pcs[c]) && s.pcs[c].Gathering?
    ensures Balanced(atomic, llcs, s, Go(c), llc)
  {
    hide Floor;
  }

  lemma MaterializeStep(atomic: bool, llcs: nat, s: State, c: nat, llc: bool)
    requires c < |s.pcs| && Within(llcs, s.pcs[c]) && s.pcs[c].Materializing?
    ensures Balanced(atomic, llcs, s, Go(c), llc)
  {
  }

  lemma OtherStep(atomic: bool, llcs: nat, s: State, m: Move, llc: bool)
    requires m.c < |s.pcs| && Within(llcs, s.pcs[m.c]) && s.pcs[m.c] != Stranded
    requires m.Go? ==> s.pcs[m.c].Publishing? || s.pcs[m.c].Absent? || s.pcs[m.c].Reserved? || s.pcs[m.c].Managed?
    ensures Balanced(atomic, llcs, s, m, llc)
  {
    hide Gather, Materialize, Park;
  }

  lemma ItemStep(atomic: bool, llcs: nat, s: State, m: Move, llc: bool)
    requires m.c < |s.pcs| && Within(llcs, s.pcs[m.c]) && s.pcs[m.c] != Stranded
    ensures Balanced(atomic, llcs, s, m, llc)
  {
    hide Balanced;
    var p := s.pcs[m.c];
    if m.Go? && (p.Building? || p.Retiring?) {
      ParkStep(atomic, llcs, s, m.c, llc);
    } else if m.Go? && p.Gathering? {
      GatherStep(atomic, llcs, s, m.c, llc);
    } else if m.Go? && p.Materializing? {
      MaterializeStep(atomic, llcs, s, m.c, llc);
    } else {
      OtherStep(atomic, llcs, s, m, llc);
    }
  }

  /**
   * In every run in which no cgroup finds the lists empty, the contexts on a free list and with cgroups together are
   * those that have been allocated. So an exit gives back all that the cgroup had.
   */
  lemma {:induction false} NoneLost(atomic: bool, llcs: nat, s0: State, moves: seq<Move>, llc: bool)
    requires Initial(s0) && NoneStranded(Run(atomic, llcs, s0, moves))
    ensures var s := Run(atomic, llcs, s0, moves);
      && (forall c :: 0 <= c < |s.pcs| ==> Within(llcs, s.pcs[c]))
      && ListOf(s, llc) + AllHave(llc, llcs, s.pcs) == Allocated(atomic, llcs, s0, moves, llc)
  {
    if moves == [] {
      NobodyHas(llc, llcs, s0.pcs);
    } else {
      var before, m := moves[..|moves| - 1], moves[|moves| - 1];
      var s := Run(atomic, llcs, s0, before);
      StrandedStays(atomic, llcs, s, m);
      NoneLost(atomic, llcs, s0, before, llc);
      if m.c < |s.pcs| {
        ItemStep(atomic, llcs, s, m, llc);
        HaveUpdate(llc, llcs, s.pcs, m.c, Step(atomic, llcs, s, m).pcs[m.c]);
      }
      hide Step, Has, Within, Allocates;
    }
  }

  lemma {:induction false} NobodyHas(llc: bool, llcs: nat, pcs: seq<Pc>)
    requires forall c :: 0 <= c < |pcs| ==> pcs[c] == Absent
    ensures AllHave(llc, llcs, pcs) == 0
  {
    if pcs != [] {
      NobodyHas(llc, llcs, pcs[..|pcs| - 1]);
    }
  }

  lemma StaysStranded(atomic: bool, llcs: nat, s: State, m: Move, c: nat)
    requires c < |s.pcs| && s.pcs[c] == Stranded
    ensures var s' := Step(atomic, llcs, s, m); c < |s'.pcs| && s'.pcs[c] == Stranded
  {
  }

  lemma StrandedStays(atomic: bool, llcs: nat, s: State, m: Move)
    requires NoneStranded(Step(atomic, llcs, s, m))
    ensures NoneStranded(s)
  {
    hide Step;
    forall c: nat | c < |s.pcs| ensures s.pcs[c] != Stranded {
      if s.pcs[c] == Stranded {
        StaysStranded(atomic, llcs, s, m, c);
        assert false;
      }
    }
  }
}

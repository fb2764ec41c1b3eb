/**
 * When claims on the reserved contexts are safe as the code makes them: the counter is read, then the
 * floor, and the counter is lowered by compare-and-swap. The counter may have gone down and up again
 * between these accesses, so the answer depends on which calls overlap.
 */
module CgroupClaims {
  import opened CgroupReserve

  /**
   * Which calls may overlap: at most `inits` managed inits are in flight at a time, and with `limits`
   * a managed init and a materialization may be in flight at the same time.
   */
  datatype Rule = Rule(limits: bool, inits: nat)

  /** The rule lets this call begin now. Calls that have begun go on as they like. */
  ghost predicate May(rule: Rule, llcs: nat, s: State, m: Move) {
    && (m.Init? && m.finite && m.c < |s.pcs| && s.pcs[m.c] == Absent ==>
          && Sum(Inits, llcs, s.pcs) < rule.inits
          && (rule.limits || Sum(Limits, llcs, s.pcs) == 0))
    && (m.Limit? && m.c < |s.pcs| && s.pcs[m.c] == Reserved ==>
          rule.limits || Sum(Inits, llcs, s.pcs) == 0)
  }

  ghost predicate Obeys(rule: Rule, llcs: nat, s: State, moves: seq<Move>) {
    moves == [] ||
    (var before := moves[..|moves| - 1];
     Obeys(rule, llcs, s, before) && May(rule, llcs, Run(false, llcs, s, before), moves[|moves| - 1]))
  }

  // ----- few inits, and no materialization beside them -----

  ghost function Count(s: State, llc: bool): int { (if llc then s.llcx else s.cgx).count }

  /** What a list holds beyond the needs of the reserved cgroups. */
  ghost function Slack(llcs: nat, s: State, llc: bool): int {
    Count(s, llc) - Sum(Need(llc), llcs, s.pcs)
  }

  /** A managed init that has read the counter, but not yet the floor. */
  ghost predicate HasRead(p: Pc, llc: bool) { p.Gathering? && p.claim.Read? && llc == (p.n > 0) }

  ghost predicate HasPassed(p: Pc, llc: bool) { p.Gathering? && p.claim.Seen? && llc == (p.n > 0) }

  /**
   * Every claim that has passed its floor is covered. A counter that was read is at most one claim old,
   * and not even that beside a claim that has passed, unless there is more than enough.
   */
  ghost predicate Calm(llcs: nat, s: State, llc: bool) {
    var count, slack := Count(s, llc), Slack(llcs, s, llc);
    && slack >= Sum(Passed(llc), llcs, s.pcs)
    && (forall c :: 0 <= c < |s.pcs| && HasRead(s.pcs[c], llc) ==> s.pcs[c].claim.f <= count + 1 || slack >= 2)
    && (forall c, d :: 0 <= c < |s.pcs| && 0 <= d < |s.pcs| && HasRead(s.pcs[c], llc) && HasPassed(s.pcs[d], llc) ==>
          s.pcs[c].claim.f <= count || slack >= 3)
    && (forall c, d :: 0 <= c < d < |s.pcs| && HasRead(s.pcs[c], llc) && HasRead(s.pcs[d], llc) ==>
          s.pcs[c].claim.f <= count || s.pcs[d].claim.f <= count || slack >= 3)
  }

  ghost predicate Few(llcs: nat, s: State) {
    && Sum(Inits, llcs, s.pcs) <= 2
    && (Sum(Inits, llcs, s.pcs) == 0 || Sum(Limits, llcs, s.pcs) == 0)
  }

  ghost predicate Good(llcs: nat, s: State) {
    Inv(false, llcs, s) && Few(llcs, s) && Calm(llcs, s, false) && Calm(llcs, s, true)
  }

  // ----- what sums say about single cgroups -----

  lemma CallsAreCounted(w: Tally, llcs: nat, pcs: seq<Pc>, c: nat)
    requires (w.Inits? || w.Limits? || w.Passed?) && c < |pcs|
    ensures Sum(w, llcs, pcs) >= Weigh(w, llcs, pcs[c]) && Sum(w, llcs, pcs) >= 0
  {
    SumSplits(w, llcs, pcs, c);
  }

  /** Two managed inits count as two. */
  lemma TwoInits(llcs: nat, pcs: seq<Pc>, c: nat, d: nat)
    requires c < |pcs| && d < |pcs| && c != d && pcs[c].Gathering? && pcs[d].Gathering?
    ensures Sum(Inits, llcs, pcs) >= 2
  {
    SumUpdate(Inits, llcs, pcs, c, Absent);
    CallsAreCounted(Inits, llcs, pcs[c := Absent], d);
  }

  lemma ThreeInits(llcs: nat, pcs: seq<Pc>, c: nat, d: nat, e: nat)
    requires c < |pcs| && d < |pcs| && e < |pcs| && c != d && d != e && c != e
    requires pcs[c].Gathering? && pcs[d].Gathering? && pcs[e].Gathering?
    ensures Sum(Inits, llcs, pcs) >= 3
  {
    SumUpdate(Inits, llcs, pcs, c, Absent);
    TwoInits(llcs, pcs[c := Absent], d, e);
  }

  /** A claim that has passed its floor belongs to a managed init. */
  lemma {:induction false} PassedAreInits(llc: bool, llcs: nat, pcs: seq<Pc>)
    ensures 0 <= Sum(Passed(llc), llcs, pcs) <= Sum(Inits, llcs, pcs)
  {
    if pcs != [] {
      PassedAreInits(llc, llcs, pcs[..|pcs| - 1]);
    }
  }

  /** Without a managed init in flight there is nothing to say. */
  lemma CalmWithoutInits(llcs: nat, s: State, llc: bool)
    requires Inv(false, llcs, s) && Sum(Inits, llcs, s.pcs) == 0
    ensures Calm(llcs, s, llc)
  {
    PassedAreInits(llc, llcs, s.pcs);
    forall c | 0 <= c < |s.pcs| ensures !HasRead(s.pcs[c], llc) && !HasPassed(s.pcs[c], llc) {
      CallsAreCounted(Inits, llcs, s.pcs, c);
    }
  }

  // ----- how a step changes one cgroup and one counter -----

  /** No claim on this list comes or goes on, and the list loses nothing. */
  lemma CalmGrows(llcs: nat, s: State, s': State, llc: bool, c: nat, p: Pc)
    requires c < |s.pcs| && s'.pcs == s.pcs[c := p] && Calm(llcs, s, llc) && !HasRead(p, llc) && !HasPassed(p, llc)
    requires Count(s', llc) >= Count(s, llc) && Slack(llcs, s', llc) >= Slack(llcs, s, llc)
    ensures Calm(llcs, s', llc)
  {
    SumUpdate(Passed(llc), llcs, s.pcs, c, p);
    hide Sum, Slack, Count;
  }

  lemma CalmReads(llcs: nat, s: State, s': State, llc: bool, c: nat, p: Pc)
    requires c < |s.pcs| && s'.pcs == s.pcs[c := p] && Calm(llcs, s, llc) && HasRead(p, llc)
    requires p.claim.f == Count(s, llc)
    requires Count(s', llc) == Count(s, llc) && Slack(llcs, s', llc) == Slack(llcs, s, llc) && !HasPassed(s.pcs[c], llc)
    ensures Calm(llcs, s', llc)
  {
    SumUpdate(Passed(llc), llcs, s.pcs, c, p);
    hide Sum, Slack, Count;
  }

  /** A claim passes its floor: whatever the counter has become since it was read, there is enough for it. */
  lemma CalmPasses(llcs: nat, s: State, s': State, llc: bool, c: nat, p: Pc)
    requires c < |s.pcs| && s'.pcs == s.pcs[c := p] && Calm(llcs, s, llc) && Sum(Inits, llcs, s.pcs) <= 2
    requires HasRead(s.pcs[c], llc) && HasPassed(p, llc) && p.claim.f == s.pcs[c].claim.f
    requires Count(s', llc) == Count(s, llc) && Slack(llcs, s', llc) == Slack(llcs, s, llc)
    requires p.claim.f - 1 >= Sum(Need(llc), llcs, s.pcs) + Sum(Inits, llcs, s.pcs)
    ensures Calm(llcs, s', llc)
  {
    var f, g := p.claim.f, Sum(Inits, llcs, s.pcs);
    SumUpdate(Passed(llc), llcs, s.pcs, c, p);
    SumUpdate(Inits, llcs, s.pcs, c, Absent);
    SumUpdate(Passed(llc), llcs, s.pcs, c, Absent);
    PassedAreInits(llc, llcs, s.pcs[c := Absent]);
    assert Sum(Passed(llc), llcs, s'.pcs) <= g;
    assert Slack(llcs, s, llc) >= g;
    assert f <= Count(s, llc) ==> Slack(llcs, s, llc) >= g + 1;
    forall d | 0 <= d < |s.pcs| && d != c && HasRead(s.pcs[d], llc)
      ensures s.pcs[d].claim.f <= Count(s, llc) || Slack(llcs, s, llc) >= 3
    {
      TwoInits(llcs, s.pcs, c, d);
    }
    hide Sum, Slack, Count;
  }

  /** A claim that has passed lowers the counter. */
  lemma CalmClaims(llcs: nat, s: State, s': State, llc: bool, c: nat, p: Pc)
    requires c < |s.pcs| && s'.pcs == s.pcs[c := p] && Calm(llcs, s, llc) && Sum(Inits, llcs, s.pcs) <= 2
    requires HasPassed(s.pcs[c], llc) && !HasRead(p, llc) && !HasPassed(p, llc)
    requires Count(s', llc) == Count(s, llc) - 1 && Slack(llcs, s', llc) == Slack(llcs, s, llc) - 1
    ensures Calm(llcs, s', llc)
  {
    SumUpdate(Passed(llc), llcs, s.pcs, c, p);
    forall d, e | 0 <= d < |s.pcs| && 0 <= e < |s.pcs| && d != c && e != c && s.pcs[d].Gathering? && s.pcs[e].Gathering?
      ensures d == e
    {
      if d != e {
        ThreeInits(llcs, s.pcs, c, d, e);
      }
    }
    hide Sum, Slack, Count;
  }

  // ----- every step keeps it -----

  lemma NewSlack(llcs: nat, s: State, s': State, c: nat, p: Pc, llc: bool)
    requires c < |s.pcs| && s'.pcs == s.pcs[c := p]
    ensures Slack(llcs, s', llc) == Slack(llcs, s, llc) + Count(s', llc) - Count(s, llc)
      + Weigh(Need(llc), llcs, s.pcs[c]) - Weigh(Need(llc), llcs, p)
  {
    SumUpdate(Need(llc), llcs, s.pcs, c, p);
  }

  /** What a step does to its cgroup and to a counter, when it is no part of a claim. */
  lemma OtherStep(llcs: nat, s: State, m: Move, llc: bool)
    requires m.c < |s.pcs| && InRange(false, llcs, s.pcs[m.c])
    requires !(m.Go? && (s.pcs[m.c].Gathering? || s.pcs[m.c].Materializing?))
    ensures var s' := Step(false, llcs, s, m);
      && |s'.pcs| == |s.pcs| && s'.pcs == s.pcs[m.c := s'.pcs[m.c]]
      && (s' == s || (!HasRead(s'.pcs[m.c], llc) && !HasPassed(s'.pcs[m.c], llc)))
      && Count(s', llc) >= Count(s, llc)
      && Count(s', llc) + Weigh(Need(llc), llcs, s.pcs[m.c]) >= Count(s, llc) + Weigh(Need(llc), llcs, s'.pcs[m.c])
  {
  }

  lemma CalmOther(llcs: nat, s: State, m: Move, llc: bool)
    requires Inv(false, llcs, s) && Calm(llcs, s, llc)
    requires m.c < |s.pcs| && !(m.Go? && (s.pcs[m.c].Gathering? || s.pcs[m.c].Materializing?))
    ensures Calm(llcs, Step(false, llcs, s, m), llc)
  {
    assert InRange(false, llcs, s.pcs[m.c]);
    hide *;
    var s' := Step(false, llcs, s, m);
    OtherStep(llcs, s, m, llc);
    if s' != s {
      NewSlack(llcs, s, s', m.c, s'.pcs[m.c], llc);
      CalmGrows(llcs, s, s', llc, m.c, s'.pcs[m.c]);
    }
  }

  /** The four things a managed init can do about a list: read its counter, pass its floor, claim, or anything else. */
  lemma GatherStep(llcs: nat, s: State, c: nat, llc: bool)
    requires c < |s.pcs| && s.pcs[c].Gathering? && InRange(false, llcs, s.pcs[c])
    requires s.pcs[c].claim == Taken ==> PoolOf(s, s.pcs[c].n).list > 0
    ensures var s' := Step(false, llcs, s, Go(c)); var p, q := s.pcs[c], s'.pcs[c];
      && |s'.pcs| == |s.pcs| && s'.pcs == s.pcs[c := q] && (q.Gathering? || q == Publishing(true))
      && Weigh(Need(llc), llcs, p) == Weigh(Need(llc), llcs, q) == 0
      && (HasRead(q, llc) ==> q.claim.f == Count(s, llc) && !HasPassed(p, llc))
      && (HasPassed(q, llc) ==> HasRead(p, llc) && q.claim.f == p.claim.f && p.claim.f > Floor(s, llcs, p.n))
      && (HasRead(q, llc) || HasPassed(q, llc) ==> Count(s', llc) == Count(s, llc) && p.n <= llcs)
      && (Count(s', llc) < Count(s, llc) ==> HasPassed(p, llc) && Count(s', llc) == Count(s, llc) - 1)
      && (HasPassed(p, llc) && Count(s', llc) < Count(s, llc) ==> !HasRead(q, llc) && !HasPassed(q, llc))
  {
    hide Floor;
  }

  lemma CalmGather(llcs: nat, s: State, c: nat, llc: bool)
    requires Inv(false, llcs, s) && Sum(Inits, llcs, s.pcs) <= 2 && Calm(llcs, s, llc)
    requires c < |s.pcs| && s.pcs[c].Gathering?
    ensures Calm(llcs, Step(false, llcs, s, Go(c)), llc)
  {
    assert InRange(false, llcs, s.pcs[c]);
    TakenIsListed(llcs, s, c);
    var s' := Step(false, llcs, s, Go(c));
    GatherStep(llcs, s, c, llc);
    var p, q := s.pcs[c], s'.pcs[c];
    assert HasRead(p, llc) ==> p.Gathering? && llc == (p.n > 0);
    assert llc && HasRead(p, llc) && p.n <= llcs ==> Size(llc, llcs) >= 1;
    assert !llc ==> Size(llc, llcs) == 1;
    hide *;
    NewSlack(llcs, s, s', c, q, llc);
    if HasPassed(q, llc) {
      AboveFloor(false, llcs, s, p.n, p.claim.f);
      Product(Sum(Inits, llcs, s.pcs), Size(llc, llcs));
      CalmPasses(llcs, s, s', llc, c, q);
    } else if HasRead(q, llc) {
      CalmReads(llcs, s, s', llc, c, q);
    } else if Count(s', llc) < Count(s, llc) {
      CalmClaims(llcs, s, s', llc, c, q);
    } else {
      CalmGrows(llcs, s, s', llc, c, q);
    }
  }

  lemma TakenIsListed(llcs: nat, s: State, c: nat)
    requires Inv(false, llcs, s) && c < |s.pcs| && s.pcs[c].Gathering?
    ensures s.pcs[c].claim == Taken ==> PoolOf(s, s.pcs[c].n).list > 0
  {
    Covered(false, llcs, s, c, s.pcs[c].n > 0);
    hide Sum;
  }

  /** What a managed init claims nobody needs. */
  lemma ClaimIsCovered(llcs: nat, s: State, c: nat)
    requires Good(llcs, s) && c < |s.pcs| && s.pcs[c].Gathering? && Lowers(false, llcs, s, c)
    ensures PoolOf(s, s.pcs[c].n).count > Sum(Need(s.pcs[c].n > 0), llcs, s.pcs)
  {
    var llc := s.pcs[c].n > 0;
    CallsAreCounted(Passed(llc), llcs, s.pcs, c);
    assert Calm(llcs, s, llc);
    hide Sum;
  }

  /** How the calls in flight change: one may begin, as far as the rule lets it. */
  lemma CallsStep(llcs: nat, s: State, m: Move)
    requires m.c < |s.pcs|
    ensures var s' := Step(false, llcs, s, m);
      && |s'.pcs| == |s.pcs| && s'.pcs == s.pcs[m.c := s'.pcs[m.c]]
      && var p, q := s.pcs[m.c], s'.pcs[m.c];
      && (Weigh(Inits, llcs, q) > Weigh(Inits, llcs, p) ==>
            m.Init? && m.finite && p == Absent && Weigh(Inits, llcs, q) == 1 && Weigh(Limits, llcs, q) == 0)
      && (Weigh(Limits, llcs, q) > Weigh(Limits, llcs, p) ==>
            m.Limit? && p == Reserved && Weigh(Inits, llcs, q) == 0)
      && Weigh(Inits, llcs, p) >= 0 && Weigh(Limits, llcs, p) >= 0
  {
  }

  /** No managed init at all, or at most two at a time and no materialization beside them. */
  ghost predicate Safe(rule: Rule) { rule.inits == 0 || (!rule.limits && rule.inits <= 2) }

  lemma KeepFew(rule: Rule, llcs: nat, s: State, m: Move)
    requires Few(llcs, s) && Sum(Inits, llcs, s.pcs) <= rule.inits && m.c < |s.pcs| && May(rule, llcs, s, m)
    requires Safe(rule)
    ensures Few(llcs, Step(false, llcs, s, m)) && Sum(Inits, llcs, Step(false, llcs, s, m).pcs) <= rule.inits
  {
    var s' := Step(false, llcs, s, m);
    CallsStep(llcs, s, m);
    hide Step, Sum, Weigh;
    var q := s'.pcs[m.c];
    SumUpdate(Inits, llcs, s.pcs, m.c, q);
    SumUpdate(Limits, llcs, s.pcs, m.c, q);
    CallsAreCounted(Inits, llcs, s.pcs, m.c);
    CallsAreCounted(Limits, llcs, s.pcs, m.c);
    CallsAreCounted(Inits, llcs, s'.pcs, m.c);
    CallsAreCounted(Limits, llcs, s'.pcs, m.c);
  }

  lemma KeepInv(llcs: nat, s: State, m: Move)
    requires Good(llcs, s)
    ensures Inv(false, llcs, Step(false, llcs, s, m))
  {
    if m.c < |s.pcs| {
      var p := s.pcs[m.c];
      if m.Go? && p.Gathering? && Lowers(false, llcs, s, m.c) {
        ClaimIsCovered(llcs, s, m.c);
      }
      assert Inv(false, llcs, s);
      hide Inv, Few, Calm, Sum, Step, Lowers, PoolOf;
      if m.Go? && (p.Building? || p.Retiring?) {
        KeepPark(false, llcs, s, m.c);
      } else if m.Go? && p.Gathering? {
        KeepGather(false, llcs, s, m.c);
      } else if m.Go? && p.Materializing? {
        KeepMaterialize(false, llcs, s, m.c);
      } else {
        KeepOther(false, llcs, s, m);
      }
    }
  }

  lemma KeepCalm(llcs: nat, s: State, m: Move, llc: bool)
    requires Inv(false, llcs, s) && Few(llcs, s) && Calm(llcs, s, llc)
    requires Inv(false, llcs, Step(false, llcs, s, m)) && Few(llcs, Step(false, llcs, s, m))
    ensures Calm(llcs, Step(false, llcs, s, m), llc)
  {
    if m.c < |s.pcs| {
      var p := s.pcs[m.c];
      if m.Go? && p.Gathering? {
        CalmGather(llcs, s, m.c, llc);
      } else if m.Go? && p.Materializing? {
        CallsAreCounted(Limits, llcs, s.pcs, m.c);
        MaterializingCalls(llcs, s, m.c);
        CalmWithoutInits(llcs, Step(false, llcs, s, m), llc);
      } else {
        CalmOther(llcs, s, m, llc);
      }
    }
  }

  /** A materialization starts no managed init. */
  lemma MaterializingCalls(llcs: nat, s: State, c: nat)
    requires c < |s.pcs| && s.pcs[c].Materializing?
    ensures Sum(Inits, llcs, Step(false, llcs, s, Go(c)).pcs) == Sum(Inits, llcs, s.pcs)
  {
    var s' := Step(false, llcs, s, Go(c));
    SumUpdate(Inits, llcs, s.pcs, c, s'.pcs[c]);
    hide Sum;
  }

  lemma Maintain(rule: Rule, llcs: nat, s: State, m: Move)
    requires Good(llcs, s) && Sum(Inits, llcs, s.pcs) <= rule.inits && May(rule, llcs, s, m) && Safe(rule)
    ensures Good(llcs, Step(false, llcs, s, m)) && Sum(Inits, llcs, Step(false, llcs, s, m).pcs) <= rule.inits
  {
    if m.c < |s.pcs| {
      KeepInv(llcs, s, m);
      hide Inv, Few, Calm, Step, Sum, May, Safe;
      KeepFew(rule, llcs, s, m);
      KeepCalm(llcs, s, m, false);
      KeepCalm(llcs, s, m, true);
    }
  }

  lemma {:induction false} Reached(rule: Rule, llcs: nat, s: State, moves: seq<Move>)
    requires Initial(s) && Obeys(rule, llcs, s, moves) && Safe(rule)
    ensures Good(llcs, Run(false, llcs, s, moves)) && Sum(Inits, llcs, Run(false, llcs, s, moves).pcs) <= rule.inits
  {
    if moves == [] {
      Starts(false, llcs, s);
      AllAbsent(Inits, llcs, s.pcs);
      AllAbsent(Limits, llcs, s.pcs);
      CalmWithoutInits(llcs, s, false);
      CalmWithoutInits(llcs, s, true);
    } else {
      Reached(rule, llcs, s, moves[..|moves| - 1]);
      Maintain(rule, llcs, Run(false, llcs, s, moves[..|moves| - 1]), moves[|moves| - 1]);
    }
  }
}

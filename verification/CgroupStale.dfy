/**
 * Runs in which a claim checks the floor of another time, and the exact rule that shuts them out.
 * The machine has one LLC, so a set is one cgroup context and one LLC context.
 */
module CgroupStale {
  import opened CgroupReserve
  import opened CgroupClaims

  /** A run, the state it ends in, and how many calls are in flight there. */
  datatype Trace = Trace(moves: seq<Move>, end: State, inits: int, limits: int)

  ghost predicate Is(rule: Rule, s: State, t: Trace) {
    && Obeys(rule, 1, s, t.moves) && Run(false, 1, s, t.moves) == t.end
    && Sum(Inits, 1, t.end.pcs) == t.inits && Sum(Limits, 1, t.end.pcs) == t.limits
  }

  /** The rule lets the move happen. */
  ghost predicate Fits(rule: Rule, t: Trace, m: Move) {
    && m.c < |t.end.pcs|
    && (m.Init? && m.finite && t.end.pcs[m.c] == Absent ==> t.inits < rule.inits && (rule.limits || t.limits == 0))
    && (m.Limit? && t.end.pcs[m.c] == Reserved ==> rule.limits || t.inits == 0)
  }

  function Next(t: Trace, m: Move): Trace
    requires m.c < |t.end.pcs|
  {
    var x := Step(false, 1, t.end, m);
    if |x.pcs| != |t.end.pcs| then t
    else
      Trace(t.moves + [m], x,
            t.inits - Weigh(Inits, 1, t.end.pcs[m.c]) + Weigh(Inits, 1, x.pcs[m.c]),
            t.limits - Weigh(Limits, 1, t.end.pcs[m.c]) + Weigh(Limits, 1, x.pcs[m.c]))
  }

  /** One more move. */
  lemma Then(rule: Rule, s: State, t: Trace, m: Move) returns (u: Trace)
    requires Is(rule, s, t) && Fits(rule, t, m)
    ensures u == Next(t, m) && Is(rule, s, u)
    ensures u.end == Step(false, 1, t.end, m)
  {
    u := Next(t, m);
    assert u.moves[..|t.moves|] == t.moves;
    CallsStep(1, t.end, m);
    hide Step, Weigh;
    SumUpdate(Inits, 1, t.end.pcs, m.c, u.end.pcs[m.c]);
    SumUpdate(Limits, 1, t.end.pcs, m.c, u.end.pcs[m.c]);
  }

  /** The trace ends here, with so many calls in flight. */
  ghost predicate Ends(rule: Rule, s: State, t: Trace, x: State, inits: int, limits: int) {
    Is(rule, s, t) && t.end == x && t.inits == inits && t.limits == limits
  }

  /** The pools grow or shrink by one set. */
  function Shift(s: State, d: int, c: nat, p: Pc): State
    requires c < |s.pcs| && s.cgx.list + d >= 0 && s.llcx.list + d >= 0
  {
    State(s.pending + d, Pool(s.cgx.count + d, s.cgx.list + d), Pool(s.llcx.count + d, s.llcx.list + d), s.pcs[c := p])
  }

  /** A cgroup enters without a quota and its spare set is built. */
  lemma Reserves(rule: Rule, s: State, t: Trace, c: nat) returns (u: Trace)
    requires Is(rule, s, t) && c < |t.end.pcs| && t.end.pcs[c] == Absent
    ensures Ends(rule, s, u, Shift(t.end, 1, c, Reserved), t.inits, t.limits)
  {
    hide Is;
    var x := t.end;
    u := Then(rule, s, t, Init(c, false));
    u := Then(rule, s, u, Go(c));
    u := Then(rule, s, u, Go(c));
    assert u.end == State(x.pending + 1, Pool(x.cgx.count + 1, x.cgx.list + 1), x.llcx, x.pcs[c := Building(1, false)]);
    u := Then(rule, s, u, Go(c));
    u := Then(rule, s, u, Go(c));
    assert u.end == Shift(x, 1, c, Building(2, false));
    u := Then(rule, s, u, Go(c));
  }

  /** A cgroup enters and leaves without ever having a quota: its set remains. */
  lemma Donates(rule: Rule, s: State, t: Trace, c: nat) returns (u: Trace)
    requires Is(rule, s, t) && c < |t.end.pcs| && t.end.pcs[c] == Absent
    ensures Ends(rule, s, u, Shift(t.end, 1, c, Absent).(pending := t.end.pending), t.inits, t.limits)
  {
    hide Is;
    u := Reserves(rule, s, t, c);
    u := Then(rule, s, u, Exit(c));
    assert t.end.pcs[c := Reserved][c := Absent] == t.end.pcs[c := Absent];
  }

  /** One item of a materialization, undisturbed. */
  lemma TakesItem(rule: Rule, s: State, t: Trace, c: nat, n: nat) returns (u: Trace)
    requires Is(rule, s, t) && n <= 1 && c < |t.end.pcs| && t.end.pcs[c] == Materializing(n, Fresh)
    requires PoolOf(t.end, n).count > 0 && PoolOf(t.end, n).list > 0
    ensures var pool := PoolOf(t.end, n);
      Ends(rule, s, u, At(WithPool(t.end, n, Pool(pool.count - 1, pool.list - 1)), c, Materializing(n + 1, Fresh)),
        t.inits, t.limits)
  {
    hide Is;
    u := Then(rule, s, t, Go(c));
    u := Then(rule, s, u, Go(c));
    u := Then(rule, s, u, Go(c));
    u := Then(rule, s, u, Go(c));
  }

  /** A reserved cgroup gains a quota and gets its set. */
  lemma Materializes(rule: Rule, s: State, t: Trace, c: nat) returns (u: Trace)
    requires Is(rule, s, t) && c < |t.end.pcs| && t.end.pcs[c] == Reserved && (rule.limits || t.inits == 0)
    requires t.end.cgx.count > 0 && t.end.cgx.list > 0 && t.end.llcx.count > 0 && t.end.llcx.list > 0
    ensures Ends(rule, s, u, Shift(t.end, -1, c, Managed), t.inits, t.limits)
  {
    hide Is;
    u := Then(rule, s, t, Limit(c));
    assert u.end == At(t.end, c, Materializing(0, Fresh));
    u := TakesItem(rule, s, u, c, 0);
    u := TakesItem(rule, s, u, c, 1);
    u := Then(rule, s, u, Go(c));
    u := Then(rule, s, u, Go(c));
  }

  /** A managed init finds nothing above the floor for its last item, and allocates it. */
  lemma Skips(rule: Rule, s: State, t: Trace, c: nat) returns (u: Trace)
    requires Is(rule, s, t) && c < |t.end.pcs| && t.end.pcs[c] == Gathering(1, Fresh)
    requires t.end.llcx.count <= t.end.pending && t.end.pending > 0
    ensures Ends(rule, s, u, At(t.end, c, Gathering(2, Fresh)), t.inits, t.limits)
  {
    hide Is;
    u := Then(rule, s, t, Go(c));
    u := Then(rule, s, u, Go(c));
  }

  lemma Publishes(rule: Rule, s: State, t: Trace, c: nat) returns (u: Trace)
    requires Is(rule, s, t) && c < |t.end.pcs| && t.end.pcs[c] == Gathering(2, Fresh)
    ensures Ends(rule, s, u, At(t.end.(pending := t.end.pending - 1), c, Managed), t.inits - 1, t.limits)
  {
    hide Is;
    u := Then(rule, s, t, Go(c));
    u := Then(rule, s, u, Go(c));
  }

  lemma Finishes(rule: Rule, s: State, t: Trace, c: nat) returns (u: Trace)
    requires Is(rule, s, t) && c < |t.end.pcs| && t.end.pcs[c] == Gathering(1, Fresh)
    requires t.end.llcx.count <= t.end.pending && t.end.pending > 0
    ensures Ends(rule, s, u, At(t.end.(pending := t.end.pending - 1), c, Managed), t.inits - 1, t.limits)
  {
    hide Is;
    u := Skips(rule, s, t, c);
    u := Publishes(rule, s, u, c);
  }

  /** A managed init finds its last item above the floor. */
  lemma FinishesFrom(rule: Rule, s: State, t: Trace, c: nat) returns (u: Trace)
    requires Is(rule, s, t) && c < |t.end.pcs| && t.end.pcs[c] == Gathering(1, Fresh)
    requires t.end.llcx.count > t.end.pending > 0 && t.end.llcx.list > 0
    ensures var pool := Pool(t.end.llcx.count - 1, t.end.llcx.list - 1);
      Ends(rule, s, u, At(t.end.(pending := t.end.pending - 1, llcx := pool), c, Managed), t.inits - 1, t.limits)
  {
    hide Is;
    u := Then(rule, s, t, Go(c));
    u := Then(rule, s, u, Go(c));
    assert u.end == At(t.end, c, Gathering(1, Seen(t.end.llcx.count)));
    u := Then(rule, s, u, Go(c));
    u := Then(rule, s, u, Go(c));
    assert u.end == At(t.end.(llcx := Pool(t.end.llcx.count - 1, t.end.llcx.list - 1)), c, Gathering(2, Fresh));
    u := Publishes(rule, s, u, c);
  }

  /** A managed init begins and reads the counter. */
  lemma Joins(rule: Rule, s: State, t: Trace, c: nat) returns (u: Trace)
    requires Is(rule, s, t) && c < |t.end.pcs| && t.end.pcs[c] == Absent
    requires t.inits < rule.inits && (rule.limits || t.limits == 0)
    ensures var x := t.end;
      Ends(rule, s, u, At(x.(pending := x.pending + 1), c, Gathering(0, Read(x.cgx.count))), t.inits + 1, t.limits)
  {
    hide Is;
    u := Then(rule, s, t, Init(c, true));
    u := Then(rule, s, u, Go(c));
  }

  /** It finds the counter it has read above the floor. */
  lemma Passes(rule: Rule, s: State, t: Trace, c: nat, f: int) returns (u: Trace)
    requires Is(rule, s, t) && c < |t.end.pcs| && t.end.pcs[c] == Gathering(0, Read(f))
    requires f > t.end.pending > 0
    ensures Ends(rule, s, u, At(t.end, c, Gathering(0, Seen(f))), t.inits, t.limits)
  {
    hide Is;
    u := Then(rule, s, t, Go(c));
  }

  /** It finds the counter as it was, lowers it and takes a context. */
  lemma Claims(rule: Rule, s: State, t: Trace, c: nat, f: int) returns (u: Trace)
    requires Is(rule, s, t) && c < |t.end.pcs| && t.end.pcs[c] == Gathering(0, Seen(f))
    requires t.end.cgx.count == f && t.end.cgx.list > 0
    ensures Ends(rule, s, u, At(t.end.(cgx := Pool(f - 1, t.end.cgx.list - 1)), c, Gathering(1, Fresh)), t.inits,
      t.limits)
  {
    hide Is;
    u := Then(rule, s, t, Go(c));
    u := Then(rule, s, u, Go(c));
  }

  /** The trace with nothing in it. */
  lemma Nothing(rule: Rule, s: State) returns (t: Trace)
    requires Initial(s)
    ensures Ends(rule, s, t, s, 0, 0)
  {
    t := Trace([], s, 0, 0);
    AllAbsent(Inits, 1, s.pcs);
    AllAbsent(Limits, 1, s.pcs);
  }

  /** The reserve has run out for the last of the cgroups it was promised to. */
  lemma FindsNothing(rule: Rule, s: State, t: Trace, c: nat) returns (u: Trace)
    requires Is(rule, s, t) && c < |t.end.pcs| && t.end.pcs[c] == Reserved && t.end.cgx.count == 0
    requires rule.limits || t.inits == 0
    ensures Is(rule, s, u) && |u.end.pcs| == |t.end.pcs| && u.end.pcs[c] == Stranded
  {
    hide Is;
    u := Then(rule, s, t, Limit(c));
    u := Then(rule, s, u, Go(c));
    u := Then(rule, s, u, Go(c));
  }

  // ----- one managed init, and materializations beside it -----

  const START: State := State(0, Pool(0, 0), Pool(0, 0), [Absent, Absent, Absent, Absent, Absent])

  lemma StartBegins(rule: Rule) returns (t: Trace)
    ensures Initial(START)
    ensures Ends(rule, START, t, State(0, Pool(0, 0), Pool(0, 0), [Absent, Absent, Absent, Absent, Absent]), 0, 0)
  {
    t := Nothing(rule, START);
  }

  /** Two reservations; a managed init reads the counter. */
  lemma ReadsHigh(rule: Rule) returns (t: Trace)
    requires rule.limits && rule.inits >= 1
    ensures Ends(rule, START, t,
      State(3, Pool(2, 2), Pool(2, 2), [Reserved, Reserved, Gathering(0, Read(2)), Absent, Absent]), 1, 0)
  {
    hide Is, Initial, Step;
    t := StartBegins(rule);
    hide Initial;
    t := Reserves(rule, START, t, 0);
    assert t.end == State(1, Pool(1, 1), Pool(1, 1), [Reserved, Absent, Absent, Absent, Absent]);
    t := Reserves(rule, START, t, 1);
    assert t.end == State(2, Pool(2, 2), Pool(2, 2), [Reserved, Reserved, Absent, Absent, Absent]);
    t := Joins(rule, START, t, 2);
  }

  /** Both reservations are used up; the init finds a low floor. */
  lemma PassesLow(rule: Rule, before: Trace) returns (t: Trace)
    requires rule.limits && Ends(rule, START, before,
      State(3, Pool(2, 2), Pool(2, 2), [Reserved, Reserved, Gathering(0, Read(2)), Absent, Absent]), 1, 0)
    ensures Ends(rule, START, t,
      State(1, Pool(0, 0), Pool(0, 0), [Managed, Managed, Gathering(0, Seen(2)), Absent, Absent]), 1, 0)
  {
    hide Is, Initial, Step;
    t := Materializes(rule, START, before, 0);
    assert t.end == State(2, Pool(1, 1), Pool(1, 1), [Managed, Reserved, Gathering(0, Read(2)), Absent, Absent]);
    t := Materializes(rule, START, t, 1);
    assert t.end == State(1, Pool(0, 0), Pool(0, 0), [Managed, Managed, Gathering(0, Read(2)), Absent, Absent]);
    t := Passes(rule, START, t, 2, 2);
  }

  /** Two new reservations bring the counter back; the init takes one of their contexts. */
  lemma TakesReserve(rule: Rule, before: Trace) returns (t: Trace)
    requires rule.limits && Ends(rule, START, before,
      State(1, Pool(0, 0), Pool(0, 0), [Managed, Managed, Gathering(0, Seen(2)), Absent, Absent]), 1, 0)
    ensures Ends(rule, START, t,
      State(2, Pool(0, 0), Pool(1, 1), [Managed, Managed, Gathering(1, Fresh), Managed, Reserved]), 1, 0)
  {
    hide Is, Initial, Step;
    t := Reserves(rule, START, before, 3);
    assert t.end == State(2, Pool(1, 1), Pool(1, 1), [Managed, Managed, Gathering(0, Seen(2)), Reserved, Absent]);
    t := Reserves(rule, START, t, 4);
    assert t.end == State(3, Pool(2, 2), Pool(2, 2), [Managed, Managed, Gathering(0, Seen(2)), Reserved, Reserved]);
    t := Claims(rule, START, t, 2, 2);
    assert t.end == State(3, Pool(1, 1), Pool(2, 2), [Managed, Managed, Gathering(1, Fresh), Reserved, Reserved]);
    t := Materializes(rule, START, t, 3);
  }

  /**
   * A single managed init is enough if materializations run beside it: a counter that has gone down and up
   * again lets a claim through that checked an old floor, and the last of two reserved cgroups finds nothing.
   */
  lemma StaleClaim(rule: Rule) returns (moves: seq<Move>)
    requires rule.limits && rule.inits >= 1
    ensures Initial(START) && Obeys(rule, 1, START, moves) && !NoneStranded(Run(false, 1, START, moves))
  {
    hide Run, Step, Obeys;
    var t := ReadsHigh(rule);
    var u := StartBegins(rule);
    t := PassesLow(rule, t);
    t := TakesReserve(rule, t);
    t := FindsNothing(rule, START, t, 4);
    moves := t.moves;
  }

  // ----- three managed inits, and no materialization beside them -----

  const WIDE: State := State(0, Pool(0, 0), Pool(0, 0), [Absent, Absent, Absent, Absent, Absent, Absent, Absent])

  lemma WideBegins(rule: Rule) returns (t: Trace)
    ensures Initial(WIDE)
    ensures Ends(rule, WIDE, t,
      State(0, Pool(0, 0), Pool(0, 0), [Absent, Absent, Absent, Absent, Absent, Absent, Absent]), 0, 0)
  {
    t := Nothing(rule, WIDE);
  }

  /** Two spare sets; the first init reads the counter and passes, while a third set arrives. */
  lemma FirstPasses(rule: Rule) returns (t: Trace)
    requires rule.inits >= 3
    ensures Ends(rule, WIDE, t,
      State(1, Pool(3, 3), Pool(3, 3), [Absent, Absent, Absent, Gathering(0, Seen(2)), Absent, Absent, Absent]), 1, 0)
  {
    hide Is, Step;
    t := WideBegins(rule);
    hide Initial;
    t := Donates(rule, WIDE, t, 0);
    assert t.end == State(0, Pool(1, 1), Pool(1, 1), [Absent, Absent, Absent, Absent, Absent, Absent, Absent]);
    t := Donates(rule, WIDE, t, 0);
    assert t.end == State(0, Pool(2, 2), Pool(2, 2), [Absent, Absent, Absent, Absent, Absent, Absent, Absent]);
    t := Joins(rule, WIDE, t, 3);
    assert t.end == State(1, Pool(2, 2), Pool(2, 2),
      [Absent, Absent, Absent, Gathering(0, Read(2)), Absent, Absent, Absent]);
    t := Donates(rule, WIDE, t, 0);
    assert t.end == State(1, Pool(3, 3), Pool(3, 3),
      [Absent, Absent, Absent, Gathering(0, Read(2)), Absent, Absent, Absent]);
    t := Passes(rule, WIDE, t, 3, 2);
  }

  /** The second init reads the higher counter and passes; a third one reads it too. */
  lemma SecondPasses(rule: Rule, before: Trace) returns (t: Trace)
    requires rule.inits >= 3 && Ends(rule, WIDE, before,
      State(1, Pool(3, 3), Pool(3, 3), [Absent, Absent, Absent, Gathering(0, Seen(2)), Absent, Absent, Absent]), 1, 0)
    ensures Ends(rule, WIDE, t,
      State(3, Pool(3, 3), Pool(3, 3),
        [Absent, Absent, Absent, Gathering(0, Seen(2)), Gathering(0, Seen(3)), Gathering(0, Read(3)), Absent]), 3, 0)
  {
    hide Is, Step;
    t := Joins(rule, WIDE, before, 4);
    assert t.end == State(2, Pool(3, 3), Pool(3, 3),
      [Absent, Absent, Absent, Gathering(0, Seen(2)), Gathering(0, Read(3)), Absent, Absent]);
    t := Passes(rule, WIDE, t, 4, 3);
    assert t.end == State(2, Pool(3, 3), Pool(3, 3),
      [Absent, Absent, Absent, Gathering(0, Seen(2)), Gathering(0, Seen(3)), Absent, Absent]);
    t := Joins(rule, WIDE, t, 5);
  }

  /** The second init claims and is done, which lowers the floor for the third. */
  lemma SecondClaims(rule: Rule, before: Trace) returns (t: Trace)
    requires rule.inits >= 3 && Ends(rule, WIDE, before,
      State(3, Pool(3, 3), Pool(3, 3),
        [Absent, Absent, Absent, Gathering(0, Seen(2)), Gathering(0, Seen(3)), Gathering(0, Read(3)), Absent]), 3, 0)
    ensures Ends(rule, WIDE, t,
      State(2, Pool(2, 2), Pool(3, 3),
        [Absent, Absent, Absent, Gathering(0, Seen(2)), Managed, Gathering(0, Seen(3)), Absent]), 2, 0)
  {
    hide Is, Step;
    t := Claims(rule, WIDE, before, 4, 3);
    assert t.end == State(3, Pool(2, 2), Pool(3, 3),
      [Absent, Absent, Absent, Gathering(0, Seen(2)), Gathering(1, Fresh), Gathering(0, Read(3)), Absent]);
    t := Finishes(rule, WIDE, t, 4);
    assert t.end == State(2, Pool(2, 2), Pool(3, 3),
      [Absent, Absent, Absent, Gathering(0, Seen(2)), Managed, Gathering(0, Read(3)), Absent]);
    t := Passes(rule, WIDE, t, 5, 3);
  }

  /** A reservation brings the counter back, and a fourth init reads it. */
  lemma FourthReads(rule: Rule, before: Trace) returns (t: Trace)
    requires rule.inits >= 3 && Ends(rule, WIDE, before,
      State(2, Pool(2, 2), Pool(3, 3),
        [Absent, Absent, Absent, Gathering(0, Seen(2)), Managed, Gathering(0, Seen(3)), Absent]), 2, 0)
    ensures Ends(rule, WIDE, t,
      State(4, Pool(3, 3), Pool(4, 4),
        [Reserved, Absent, Absent, Gathering(0, Seen(2)), Managed, Gathering(0, Seen(3)), Gathering(0, Read(3))]), 3, 0)
  {
    hide Is, Step;
    t := Reserves(rule, WIDE, before, 0);
    assert t.end == State(3, Pool(3, 3), Pool(4, 4),
      [Reserved, Absent, Absent, Gathering(0, Seen(2)), Managed, Gathering(0, Seen(3)), Absent]);
    t := Joins(rule, WIDE, t, 6);
  }

  /** The third and the first init claim. */
  lemma TwoClaim(rule: Rule, before: Trace) returns (t: Trace)
    requires rule.inits >= 3 && Ends(rule, WIDE, before,
      State(4, Pool(3, 3), Pool(4, 4),
        [Reserved, Absent, Absent, Gathering(0, Seen(2)), Managed, Gathering(0, Seen(3)), Gathering(0, Read(3))]), 3, 0)
    ensures Ends(rule, WIDE, t,
      State(4, Pool(1, 1), Pool(4, 4),
        [Reserved, Absent, Absent, Gathering(1, Fresh), Managed, Gathering(1, Fresh), Gathering(0, Read(3))]), 3, 0)
  {
    hide Is, Step;
    t := Claims(rule, WIDE, before, 5, 3);
    assert t.end == State(4, Pool(2, 2), Pool(4, 4),
      [Reserved, Absent, Absent, Gathering(0, Seen(2)), Managed, Gathering(1, Fresh), Gathering(0, Read(3))]);
    t := Claims(rule, WIDE, t, 3, 2);
  }

  /** Both find nothing above the floor for their last item and are done; the fourth passes a low floor. */
  lemma TwoFinish(rule: Rule, before: Trace) returns (t: Trace)
    requires rule.inits >= 3 && Ends(rule, WIDE, before,
      State(4, Pool(1, 1), Pool(4, 4),
        [Reserved, Absent, Absent, Gathering(1, Fresh), Managed, Gathering(1, Fresh), Gathering(0, Read(3))]), 3, 0)
    ensures Ends(rule, WIDE, t,
      State(2, Pool(1, 1), Pool(4, 4),
        [Reserved, Absent, Absent, Managed, Managed, Managed, Gathering(0, Seen(3))]), 1, 0)
  {
    hide Is, Step;
    t := Skips(rule, WIDE, before, 5);
    assert t.end == State(4, Pool(1, 1), Pool(4, 4),
      [Reserved, Absent, Absent, Gathering(1, Fresh), Managed, Gathering(2, Fresh), Gathering(0, Read(3))]);
    t := Skips(rule, WIDE, t, 3);
    assert t.end == State(4, Pool(1, 1), Pool(4, 4),
      [Reserved, Absent, Absent, Gathering(2, Fresh), Managed, Gathering(2, Fresh), Gathering(0, Read(3))]);
    t := Publishes(rule, WIDE, t, 5);
    assert t.end == State(3, Pool(1, 1), Pool(4, 4),
      [Reserved, Absent, Absent, Gathering(2, Fresh), Managed, Managed, Gathering(0, Read(3))]);
    t := Publishes(rule, WIDE, t, 3);
    assert t.end == State(2, Pool(1, 1), Pool(4, 4),
      [Reserved, Absent, Absent, Managed, Managed, Managed, Gathering(0, Read(3))]);
    t := Passes(rule, WIDE, t, 6, 3);
  }

  /** Two more reservations bring the counter back once more, and the stale claim goes through. */
  lemma LastClaims(rule: Rule, before: Trace) returns (t: Trace)
    requires rule.inits >= 3 && Ends(rule, WIDE, before,
      State(2, Pool(1, 1), Pool(4, 4),
        [Reserved, Absent, Absent, Managed, Managed, Managed, Gathering(0, Seen(3))]), 1, 0)
    ensures Ends(rule, WIDE, t,
      State(3, Pool(2, 2), Pool(5, 5), [Reserved, Reserved, Reserved, Managed, Managed, Managed, Managed]), 0, 0)
  {
    hide Is, Step;
    t := Reserves(rule, WIDE, before, 1);
    assert t.end == State(3, Pool(2, 2), Pool(5, 5),
      [Reserved, Reserved, Absent, Managed, Managed, Managed, Gathering(0, Seen(3))]);
    t := Reserves(rule, WIDE, t, 2);
    assert t.end == State(4, Pool(3, 3), Pool(6, 6),
      [Reserved, Reserved, Reserved, Managed, Managed, Managed, Gathering(0, Seen(3))]);
    t := Claims(rule, WIDE, t, 6, 3);
    assert t.end == State(4, Pool(2, 2), Pool(6, 6),
      [Reserved, Reserved, Reserved, Managed, Managed, Managed, Gathering(1, Fresh)]);
    t := FinishesFrom(rule, WIDE, t, 6);
  }

  /** Two of the three reserved cgroups get their sets. */
  lemma TwoMaterialize(rule: Rule, before: Trace) returns (t: Trace)
    requires rule.inits >= 3 && Ends(rule, WIDE, before,
      State(3, Pool(2, 2), Pool(5, 5), [Reserved, Reserved, Reserved, Managed, Managed, Managed, Managed]), 0, 0)
    ensures Ends(rule, WIDE, t,
      State(1, Pool(0, 0), Pool(3, 3), [Managed, Managed, Reserved, Managed, Managed, Managed, Managed]), 0, 0)
  {
    hide Is, Step;
    t := Materializes(rule, WIDE, before, 0);
    assert t.end == State(2, Pool(1, 1), Pool(4, 4),
      [Managed, Reserved, Reserved, Managed, Managed, Managed, Managed]);
    t := Materializes(rule, WIDE, t, 1);
  }

  /**
   * Three managed inits at a time are enough without any materialization beside them: claims that have
   * passed lower the counter, inits that are done lower the floor, and one that read the counter before
   * takes what three later reservations count on.
   */
  lemma StaleAmongInits(rule: Rule) returns (moves: seq<Move>)
    requires rule.inits >= 3
    ensures Initial(WIDE) && Obeys(rule, 1, WIDE, moves) && !NoneStranded(Run(false, 1, WIDE, moves))
  {
    hide Run, Step, Obeys;
    var t := FirstPasses(rule);
    var u := WideBegins(rule);
    t := SecondPasses(rule, t);
    t := SecondClaims(rule, t);
    t := FourthReads(rule, t);
    t := TwoClaim(rule, t);
    t := TwoFinish(rule, t);
    t := LastClaims(rule, t);
    t := TwoMaterialize(rule, t);
    t := FindsNothing(rule, WIDE, t, 2);
    moves := t.moves;
  }

  /** Under a rule nobody is ever stranded. */
  ghost predicate KeepsPromise(rule: Rule) {
    forall llcs: nat, s, moves :: Initial(s) && Obeys(rule, llcs, s, moves) ==> NoneStranded(Run(false, llcs, s, moves))
  }

  /**
   * Every cgroup whose init returned without a context finds one when it gains a quota, in all runs that keep
   * to a rule, exactly if the rule lets at most two managed inits overlap and no materialization beside them,
   * or no managed init at all.
   */
  lemma ReserveExactly(rule: Rule)
    ensures KeepsPromise(rule) <==> rule.inits == 0 || (!rule.limits && rule.inits <= 2)
  {
    if rule.inits == 0 || (!rule.limits && rule.inits <= 2) {
      forall llcs: nat, s, moves | Initial(s) && Obeys(rule, llcs, s, moves)
        ensures NoneStranded(Run(false, llcs, s, moves))
      {
        CgroupClaims.Reached(rule, llcs, s, moves);
        InvStrandsNobody(false, llcs, Run(false, llcs, s, moves));
      }
    } else if rule.limits {
      var moves := StaleClaim(rule);
      assert !KeepsPromise(rule);
    } else {
      var moves := StaleAmongInits(rule);
      assert !KeepsPromise(rule);
    }
  }
}

/** What each operation of the reservation comes to when it runs by itself. */
module CgroupSolo {
  import opened CgroupReserve

  lemma {:induction false} RunAppend(atomic: bool, llcs: nat, s: State, a: seq<Move>, b: seq<Move>)
    ensures Run(atomic, llcs, s, a + b) == Run(atomic, llcs, Run(atomic, llcs, s, a), b)
    decreases |b|
  {
    hide Step;
    if b == [] {
      assert a + b == a;
    } else {
      assert (a + b)[..|a + b| - 1] == a + b[..|b| - 1];
      RunAppend(atomic, llcs, s, a, b[..|b| - 1]);
    }
  }

  lemma RunOne(atomic: bool, llcs: nat, s: State, m: Move)
    ensures Run(atomic, llcs, s, [m]) == Step(atomic, llcs, s, m) && Run(atomic, llcs, s, []) == s
  {
    assert [m][..0] == [];
  }

  /** First one step, then some more. */
  lemma After(atomic: bool, llcs: nat, s: State, m: Move, rest: seq<Move>) returns (moves: seq<Move>)
    ensures Run(atomic, llcs, s, moves) == Run(atomic, llcs, Step(atomic, llcs, s, m), rest)
  {
    moves := [m] + rest;
    RunOne(atomic, llcs, s, m);
    RunAppend(atomic, llcs, s, [m], rest);
  }

  /** The items of a kind from item `n` on. */
  ghost function Rest(llc: bool, llcs: nat, n: nat): int { Size(llc, llcs) - Among(llc, n) }

  ghost function Fuller(s: State, llcs: nat, n: nat, c: nat, p: Pc): State
    requires c < |s.pcs| && n <= llcs + 1
  {
    var a, b := Rest(false, llcs, n), Rest(true, llcs, n);
    State(s.pending, Pool(s.cgx.count + a, s.cgx.list + a), Pool(s.llcx.count + b, s.llcx.list + b), s.pcs[c := p])
  }

  /** Two steps list and count an item. */
  lemma ParksOne(atomic: bool, llcs: nat, s: State, c: nat, n: nat, building: bool)
    requires c < |s.pcs| && n <= llcs && s.pcs[c] == if building then Building(n, false) else Retiring(n, false)
    ensures var s' := Step(atomic, llcs, Step(atomic, llcs, s, Go(c)), Go(c));
      && s' == WithPool(s, n, Pool(PoolOf(s, n).count + 1, PoolOf(s, n).list + 1)).(pcs := s'.pcs)
      && s'.pcs == s.pcs[c := if building then Building(n + 1, false) else Retiring(n + 1, false)]
  {
  }

  lemma FullerStep(s: State, s': State, llcs: nat, n: nat, c: nat, p: Pc)
    requires c < |s.pcs| == |s'.pcs| && n <= llcs && s'.pcs == s.pcs[c := s'.pcs[c]]
    requires s' == WithPool(s, n, Pool(PoolOf(s, n).count + 1, PoolOf(s, n).list + 1)).(pcs := s'.pcs)
    ensures Fuller(s', llcs, n + 1, c, p) == Fuller(s, llcs, n, c, p)
  {
    assert s'.pcs[c := p] == s.pcs[c := p];
  }

  lemma {:induction false} ParksRest(atomic: bool, llcs: nat, s: State, c: nat, n: nat, building: bool)
    returns (moves: seq<Move>)
    requires c < |s.pcs| && n <= llcs + 1 && s.pcs[c] == if building then Building(n, false) else Retiring(n, false)
    ensures Run(atomic, llcs, s, moves) == Fuller(s, llcs, n, c, if building then Reserved else Absent)
    decreases llcs + 1 - n
  {
    var go := Go(c);
    if n == llcs + 1 {
      moves := [go];
      RunOne(atomic, llcs, s, go);
    } else {
      var s1 := Step(atomic, llcs, s, go);
      var s2 := Step(atomic, llcs, s1, go);
      ParksOne(atomic, llcs, s, c, n, building);
      FullerStep(s, s2, llcs, n, c, if building then Reserved else Absent);
      hide Step, Fuller, Run;
      moves := ParksRest(atomic, llcs, s2, c, n + 1, building);
      moves := After(atomic, llcs, s1, go, moves);
      moves := After(atomic, llcs, s, go, moves);
    }
  }

  /** An init without a quota takes a reservation and adds a whole set to the free lists. */
  lemma Reserves(atomic: bool, llcs: nat, s: State, c: nat) returns (moves: seq<Move>)
    requires c < |s.pcs| && s.pcs[c] == Absent
    ensures var s' := Run(atomic, llcs, s, moves);
      && s'.pending == s.pending + 1 && s'.pcs == s.pcs[c := Reserved]
      && s'.cgx == Pool(s.cgx.count + 1, s.cgx.list + 1) && s'.llcx == Pool(s.llcx.count + llcs, s.llcx.list + llcs)
  {
    var s1 := Step(atomic, llcs, s, Init(c, false));
    assert s1 == s.(pending := s.pending + 1, pcs := s.pcs[c := Building(0, false)]);
    moves := ParksRest(atomic, llcs, s1, c, 0, true);
    moves := After(atomic, llcs, s, Init(c, false), moves);
    hide Run;
    assert s1.pcs[c := Reserved] == s.pcs[c := Reserved];
  }

  /** An exit of a managed cgroup gives its whole set back, and one of a reserved cgroup its reservation. */
  lemma Exits(atomic: bool, llcs: nat, s: State, c: nat) returns (moves: seq<Move>)
    requires c < |s.pcs| && (s.pcs[c] == Managed || s.pcs[c] == Reserved)
    ensures var s' := Run(atomic, llcs, s, moves);
      && s'.pcs == s.pcs[c := Absent]
      && if s.pcs[c] == Reserved then s' == s.(pending := s.pending - 1, pcs := s'.pcs)
         else
           && s'.pending == s.pending && s'.cgx == Pool(s.cgx.count + 1, s.cgx.list + 1)
           && s'.llcx == Pool(s.llcx.count + llcs, s.llcx.list + llcs)
  {
    if s.pcs[c] == Reserved {
      moves := [Exit(c)];
      RunOne(atomic, llcs, s, Exit(c));
    } else {
      var s1 := Step(atomic, llcs, s, Exit(c));
      assert s1 == s.(pcs := s.pcs[c := Retiring(0, false)]);
      moves := ParksRest(atomic, llcs, s1, c, 0, false);
      moves := After(atomic, llcs, s, Exit(c), moves);
      hide Run;
      assert s1.pcs[c := Absent] == s.pcs[c := Absent];
    }
  }

  // ----- taking -----

  ghost predicate HasRest(s: State, llcs: nat, n: nat) {
    && s.cgx.count >= Rest(false, llcs, n) && s.cgx.list >= Rest(false, llcs, n)
    && s.llcx.count >= Rest(true, llcs, n) && s.llcx.list >= Rest(true, llcs, n)
  }

  ghost function Emptier(s: State, llcs: nat, n: nat, c: nat, p: Pc): State
    requires c < |s.pcs| && n <= llcs + 1 && HasRest(s, llcs, n)
  {
    var a, b := Rest(false, llcs, n), Rest(true, llcs, n);
    State(s.pending - 1, Pool(s.cgx.count - a, s.cgx.list - a), Pool(s.llcx.count - b, s.llcx.list - b), s.pcs[c := p])
  }

  /** A claim on a list that has something: two steps, or four if it reads first. */
  lemma ClaimsOne(atomic: bool, llcs: nat, s: State, c: nat, n: nat) returns (s': State, moves: seq<Move>)
    requires c < |s.pcs| && n <= llcs && s.pcs[c] == Materializing(n, Fresh)
    requires PoolOf(s, n).count > 0 && PoolOf(s, n).list > 0
    ensures s' == Run(atomic, llcs, s, moves) && s'.pcs == s.pcs[c := Materializing(n + 1, Fresh)]
    ensures s' == WithPool(s, n, Pool(PoolOf(s, n).count - 1, PoolOf(s, n).list - 1)).(pcs := s'.pcs)
  {
    var go, pool := Go(c), PoolOf(s, n);
    var taken := At(WithPool(s, n, pool.(count := pool.count - 1)), c, Materializing(n, Taken));
    var done := At(WithPool(s, n, Pool(pool.count - 1, pool.list - 1)), c, Materializing(n + 1, Fresh));
    assert Step(atomic, llcs, taken, go) == done by {
      assert taken.pcs[c := Materializing(n + 1, Fresh)] == done.pcs;
    }
    s' := done;
    RunOne(atomic, llcs, taken, go);
    if atomic {
      assert Step(atomic, llcs, s, go) == taken;
      moves := After(atomic, llcs, s, go, [go]);
    } else {
      var read, seen := At(s, c, Materializing(n, Read(pool.count))), At(s, c, Materializing(n, Seen(pool.count)));
      assert Step(atomic, llcs, s, go) == read;
      assert Step(atomic, llcs, read, go) == seen by { assert read.pcs[c := seen.pcs[c]] == seen.pcs; }
      assert Step(atomic, llcs, seen, go) == taken by { assert seen.pcs[c := taken.pcs[c]] == taken.pcs; }
      moves := After(atomic, llcs, seen, go, [go]);
      moves := After(atomic, llcs, read, go, moves);
      moves := After(atomic, llcs, s, go, moves);
    }
  }

  lemma EmptierStep(s: State, s': State, llcs: nat, n: nat, c: nat, p: Pc)
    requires c < |s.pcs| == |s'.pcs| && n <= llcs && s'.pcs == s.pcs[c := s'.pcs[c]] && HasRest(s, llcs, n)
    requires PoolOf(s, n).list > 0
    requires s' == WithPool(s, n, Pool(PoolOf(s, n).count - 1, PoolOf(s, n).list - 1)).(pcs := s'.pcs)
    ensures HasRest(s', llcs, n + 1) && Emptier(s', llcs, n + 1, c, p) == Emptier(s, llcs, n, c, p)
  {
    assert s'.pcs[c := p] == s.pcs[c := p];
  }

  lemma {:induction false} ClaimsRest(atomic: bool, llcs: nat, s: State, c: nat, n: nat) returns (moves: seq<Move>)
    requires c < |s.pcs| && n <= llcs + 1 && s.pcs[c] == Materializing(n, Fresh) && HasRest(s, llcs, n)
    ensures Run(atomic, llcs, s, moves) == Emptier(s, llcs, n, c, Managed)
    decreases llcs + 1 - n
  {
    var go := Go(c);
    if n == llcs + 1 {
      var s1 := At(s, c, Publishing(false));
      assert Step(atomic, llcs, s, go) == s1;
      RunOne(atomic, llcs, s1, go);
      moves := After(atomic, llcs, s, go, [go]);
      assert s1.pcs[c := Managed] == s.pcs[c := Managed];
    } else {
      assert PoolOf(s, n).count > 0 && PoolOf(s, n).list > 0;
      var s1, first := ClaimsOne(atomic, llcs, s, c, n);
      EmptierStep(s, s1, llcs, n, c, Managed);
      hide Step, Emptier, Run, HasRest;
      var rest := ClaimsRest(atomic, llcs, s1, c, n + 1);
      RunAppend(atomic, llcs, s, first, rest);
      moves := first + rest;
    }
  }

  /** A cgroup that gains a quota takes a whole set from the free lists, if they have one, for its reservation. */
  lemma Materializes(atomic: bool, llcs: nat, s: State, c: nat) returns (moves: seq<Move>)
    requires c < |s.pcs| && s.pcs[c] == Reserved && s.cgx.count >= 1 && s.cgx.list >= 1
    requires s.llcx.count >= llcs && s.llcx.list >= llcs
    ensures var s' := Run(atomic, llcs, s, moves);
      && s'.pending == s.pending - 1 && s'.pcs == s.pcs[c := Managed]
      && s'.cgx == Pool(s.cgx.count - 1, s.cgx.list - 1) && s'.llcx == Pool(s.llcx.count - llcs, s.llcx.list - llcs)
  {
    var s1 := At(s, c, Materializing(0, Fresh));
    assert Step(atomic, llcs, s, Limit(c)) == s1;
    moves := ClaimsRest(atomic, llcs, s1, c, 0);
    moves := After(atomic, llcs, s, Limit(c), moves);
    hide Run;
    assert s1.pcs[c := Managed] == s.pcs[c := Managed];
  }

  // ----- gathering -----

  /** How many of `k` items can be claimed from a list without touching the reserve. */
  ghost function Spare(count: int, floor: int, k: int): int {
    if count <= floor then 0 else if count - floor <= k then count - floor else k
  }

  ghost function Sparer(s: State, llcs: nat, n: nat, c: nat, p: Pc): State
    requires c < |s.pcs| && n <= llcs + 1 && s.cgx.list >= s.cgx.count && s.llcx.list >= s.llcx.count
    requires Floor(s, llcs, 0) >= 0 && Floor(s, llcs, 1) >= 0
  {
    var a := Spare(s.cgx.count, Floor(s, llcs, 0), Rest(false, llcs, n));
    var b := Spare(s.llcx.count, Floor(s, llcs, 1), Rest(true, llcs, n));
    State(s.pending - 1, Pool(s.cgx.count - a, s.cgx.list - a), Pool(s.llcx.count - b, s.llcx.list - b), s.pcs[c := p])
  }

  /** An item is claimed if the list has more than the reserve, and allocated otherwise. */
  lemma GathersOne(atomic: bool, llcs: nat, s: State, c: nat, n: nat) returns (s': State, moves: seq<Move>)
    requires c < |s.pcs| && n <= llcs && s.pcs[c] == Gathering(n, Fresh)
    requires PoolOf(s, n).list >= PoolOf(s, n).count && Floor(s, llcs, n) >= 0
    ensures s' == Run(atomic, llcs, s, moves) && s'.pcs == s.pcs[c := Gathering(n + 1, Fresh)]
    ensures s' ==
      (if PoolOf(s, n).count > Floor(s, llcs, n)
       then WithPool(s, n, Pool(PoolOf(s, n).count - 1, PoolOf(s, n).list - 1)) else s).(pcs := s'.pcs)
  {
    var go, pool, next := Go(c), PoolOf(s, n), Gathering(n + 1, Fresh);
    var read := At(s, c, Gathering(n, Read(pool.count)));
    if pool.count > Floor(s, llcs, n) {
      var taken := At(WithPool(s, n, pool.(count := pool.count - 1)), c, Gathering(n, Taken));
      s' := At(WithPool(s, n, Pool(pool.count - 1, pool.list - 1)), c, next);
      assert Step(atomic, llcs, taken, go) == s' by { assert taken.pcs[c := next] == s'.pcs; }
      RunOne(atomic, llcs, taken, go);
      if atomic {
        assert Step(atomic, llcs, s, go) == taken;
        moves := After(atomic, llcs, s, go, [go]);
      } else {
        var seen := At(s, c, Gathering(n, Seen(pool.count)));
        assert Step(atomic, llcs, s, go) == read;
        assert Step(atomic, llcs, read, go) == seen by { assert read.pcs[c := seen.pcs[c]] == seen.pcs; }
        assert Step(atomic, llcs, seen, go) == taken by { assert seen.pcs[c := taken.pcs[c]] == taken.pcs; }
        moves := After(atomic, llcs, seen, go, [go]);
        moves := After(atomic, llcs, read, go, moves);
        moves := After(atomic, llcs, s, go, moves);
      }
    } else {
      s' := At(s, c, next);
      if atomic {
        RunOne(atomic, llcs, s, go);
        moves := [go];
      } else {
        assert Step(atomic, llcs, s, go) == read;
        assert Step(atomic, llcs, read, go) == s' by { assert read.pcs[c := next] == s'.pcs; }
        RunOne(atomic, llcs, read, go);
        moves := After(atomic, llcs, s, go, [go]);
      }
    }
  }

  lemma SparerStep(s: State, s': State, llcs: nat, n: nat, c: nat, p: Pc)
    requires c < |s.pcs| == |s'.pcs| && n <= llcs && s'.pcs == s.pcs[c := s'.pcs[c]]
    requires s.cgx.list >= s.cgx.count && s.llcx.list >= s.llcx.count
    requires Floor(s, llcs, 0) >= 0 && Floor(s, llcs, 1) >= 0
    requires Floor(s, llcs, n) == Floor(s, llcs, if n == 0 then 0 else 1)
    requires PoolOf(s, n).count > Floor(s, llcs, n) ==> PoolOf(s, n).list > 0
    requires s' ==
      (if PoolOf(s, n).count > Floor(s, llcs, n)
       then WithPool(s, n, Pool(PoolOf(s, n).count - 1, PoolOf(s, n).list - 1)) else s).(pcs := s'.pcs)
    ensures s'.cgx.list >= s'.cgx.count && s'.llcx.list >= s'.llcx.count
    ensures Floor(s', llcs, 0) == Floor(s, llcs, 0) && Floor(s', llcs, 1) == Floor(s, llcs, 1)
    ensures Sparer(s', llcs, n + 1, c, p) == Sparer(s, llcs, n, c, p)
  {
    assert s'.pending == s.pending;
    FloorSame(s, s', llcs);
    hide Floor;
    assert s'.pcs[c := p] == s.pcs[c := p];
  }

  lemma FloorSame(s: State, s': State, llcs: nat)
    requires s'.pending == s.pending
    ensures forall n: nat :: Floor(s', llcs, n) == Floor(s, llcs, n)
  {
  }

  lemma FloorsKind(s: State, llcs: nat, n: nat)
    ensures Floor(s, llcs, n) == Floor(s, llcs, if n == 0 then 0 else 1) && Floor(s, llcs, n) >= 0
    ensures Floor(s, llcs, 0) >= 0 && Floor(s, llcs, 1) >= 0
  {
    var k := if s.pending > 0 then s.pending else 0;
    assert k * llcs >= 0;
  }

  lemma {:induction false} GathersRest(atomic: bool, llcs: nat, s: State, c: nat, n: nat) returns (moves: seq<Move>)
    requires c < |s.pcs| && n <= llcs + 1 && s.pcs[c] == Gathering(n, Fresh)
    requires s.cgx.list >= s.cgx.count && s.llcx.list >= s.llcx.count
    requires Floor(s, llcs, 0) >= 0 && Floor(s, llcs, 1) >= 0
    ensures Run(atomic, llcs, s, moves) == Sparer(s, llcs, n, c, Managed)
    decreases llcs + 1 - n
  {
    var go := Go(c);
    if n == llcs + 1 {
      var s1 := At(s, c, Publishing(true));
      assert Step(atomic, llcs, s, go) == s1;
      RunOne(atomic, llcs, s1, go);
      moves := After(atomic, llcs, s, go, [go]);
      assert s1.pcs[c := Managed] == s.pcs[c := Managed];
      hide Floor;
    } else {
      FloorsKind(s, llcs, n);
      hide Floor, Step, Run;
      var s1, first := GathersOne(atomic, llcs, s, c, n);
      SparerStep(s, s1, llcs, n, c, Managed);
      hide Sparer;
      var rest := GathersRest(atomic, llcs, s1, c, n + 1);
      RunAppend(atomic, llcs, s, first, rest);
      moves := first + rest;
    }
  }

  /**
   * An init with a quota claims as many contexts of each kind as the lists have beyond the reserve, its own share
   * among it, allocates the rest, and leaves no reservation.
   */
  lemma Gathers(atomic: bool, llcs: nat, s: State, c: nat) returns (moves: seq<Move>)
    requires c < |s.pcs| && s.pcs[c] == Absent && s.pending >= 0
    requires s.cgx.list >= s.cgx.count && s.llcx.list >= s.llcx.count
    ensures var s' := Run(atomic, llcs, s, moves);
      var a, b := Spare(s.cgx.count, s.pending + 1, 1), Spare(s.llcx.count, (s.pending + 1) * llcs, llcs);
      && s'.pending == s.pending && s'.pcs == s.pcs[c := Managed]
      && s'.cgx.count == s.cgx.count - a && s'.cgx.list == s.cgx.list - a
      && s'.llcx.count == s.llcx.count - b && s'.llcx.list == s.llcx.list - b
  {
    var s1 := s.(pending := s.pending + 1, pcs := s.pcs[c := Gathering(0, Fresh)]);
    assert Step(atomic, llcs, s, Init(c, true)) == s1;
    FloorsKind(s1, llcs, 0);
    moves := GathersRest(atomic, llcs, s1, c, 0);
    moves := After(atomic, llcs, s, Init(c, true), moves);
    hide Run;
    assert s1.pcs[c := Managed] == s.pcs[c := Managed];
  }
}

/**
 * Exactly which calls may overlap. A teardown looks a context up and then unpublishes the pair by its key alone, so
 * one that was overtaken by another teardown and a new build unpublishes the new context and recycles the old one.
 */
module CgroupRebuild {
  import opened Options
  import opened CgroupTeardown

  // ----- whole calls of one thread -----

  lemma Goes(s0: State, moves: seq<Move>, m: Move, next: State) returns (longer: seq<Move>)
    requires Step(Run(s0, moves), m) == next
    ensures Run(s0, longer) == next
  {
    longer := moves + [m];
    assert longer[..|moves|] == moves;
  }

  ghost function Now(s: State, th: Thread, p: Pc): State { s.(pc := s.pc[th := p]) }

  lemma Again(s: State, th: Thread, p: Pc, q: Pc)
    ensures s.pc[th := p][th := q] == s.pc[th := q] && Now(s, th, p).pc[th] == p && th in Now(s, th, p).pc
    ensures th in s.pc && s.pc[th] == q ==> s.pc[th := p][th := q] == s.pc
  {
  }

  /** A context is published under a pair that has none. */
  lemma Publishes(s0: State, moves: seq<Move>, s: State, th: Thread, key: Key, l: Llcx) returns (longer: seq<Move>)
    requires Run(s0, moves) == s && th in s.pc && s.pc[th] == Idle && l in s.free && key !in s.mapped
    ensures Run(s0, longer) == s.(mapped := s.mapped[key := l], free := s.free - {l})
  {
    Again(s, th, Fresh(key, l), Idle);
    hide Run;
    longer := Goes(s0, moves, Publish(th, key, l), Now(s, th, Fresh(key, l)).(free := s.free - {l}));
    longer := Goes(s0, longer, Go(th, None), s.(mapped := s.mapped[key := l], free := s.free - {l}));
  }

  /** A teardown has looked the context up. */
  lemma Looks(s0: State, moves: seq<Move>, s: State, th: Thread, key: Key) returns (longer: seq<Move>)
    requires Run(s0, moves) == s && th in s.pc && s.pc[th] == Idle && key in s.mapped && key != ROOT
    ensures Run(s0, longer) == Now(s, th, FreeDelete(key, s.mapped[key]))
  {
    Again(s, th, FreeLook(key), FreeDelete(key, s.mapped[key]));
    hide Run;
    longer := Goes(s0, moves, Free(th, key), Now(s, th, FreeLook(key)));
    longer := Goes(s0, longer, Go(th, None), Now(s, th, FreeDelete(key, s.mapped[key])));
  }

  lemma StepDelete(s: State, th: Thread, key: Key, l: Llcx)
    requires th in s.pc && s.pc[th] == FreeDelete(key, l) && key in s.mapped
    ensures Step(s, Go(th, None)) == Now(s, th, DrainLock(l)).(mapped := s.mapped - {key})
  {
  }

  lemma StepLock(s: State, th: Thread, l: Llcx)
    requires th in s.pc && l !in s.locks
    ensures Step(Now(s, th, DrainLock(l)), Go(th, None)) == Now(s, th, DrainPop(l)).(locks := s.locks[l := th])
  {
    Again(s, th, DrainLock(l), DrainPop(l));
  }

  lemma StepPop(s: State, th: Thread, l: Llcx)
    requires th in s.pc && forall t :: t in s.at ==> s.at[t] != l
    ensures Step(Now(s, th, DrainPop(l)), Go(th, None)) == Now(s, th, DrainUnlock(l, None))
  {
    Again(s, th, DrainPop(l), DrainUnlock(l, None));
  }

  lemma StepUnlock(s: State, th: Thread, l: Llcx)
    requires th in s.pc
    ensures Step(Now(s, th, DrainUnlock(l, None)), Go(th, None)) == Now(s, th, Recycle(l)).(locks := s.locks - {l})
  {
    Again(s, th, DrainUnlock(l, None), Recycle(l));
  }

  lemma StepRecycle(s: State, th: Thread, l: Llcx)
    requires th in s.pc
    ensures Step(Now(s, th, Recycle(l)), Go(th, None)) == Now(s, th, Idle).(free := s.free + {l})
  {
    Again(s, th, Recycle(l), Idle);
  }

  /** The teardown unpublishes the pair, finds the queue of the context it looked up empty, and recycles that. */
  lemma Recycles(s0: State, moves: seq<Move>, s: State, th: Thread, key: Key, l: Llcx) returns (longer: seq<Move>)
    requires Run(s0, moves) == s && th in s.pc && s.pc[th] == FreeDelete(key, l) && key in s.mapped && l !in s.locks
    requires forall t :: t in s.at ==> s.at[t] != l
    ensures Run(s0, longer) == Now(s, th, Idle).(mapped := s.mapped - {key}, free := s.free + {l})
  {
    hide Run, Step;
    var go, cut := Go(th, None), s.(mapped := s.mapped - {key});
    var held := cut.(locks := s.locks[l := th]);
    StepDelete(s, th, key, l);
    longer := Goes(s0, moves, go, Now(cut, th, DrainLock(l)));
    StepLock(cut, th, l);
    longer := Goes(s0, longer, go, Now(held, th, DrainPop(l)));
    StepPop(held, th, l);
    longer := Goes(s0, longer, go, Now(held, th, DrainUnlock(l, None)));
    StepUnlock(held, th, l);
    assert s.locks[l := th] - {l} == s.locks;
    longer := Goes(s0, longer, go, Now(cut, th, Recycle(l)));
    StepRecycle(cut, th, l);
    longer := Goes(s0, longer, go, Now(cut, th, Idle).(free := s.free + {l}));
  }

  lemma StepLook(s: State, th: Thread, key: Key, t: Task)
    requires th in s.pc && key in s.mapped
    ensures Step(Now(s, th, PutLook(key, t, None)), Go(th, None)) == Now(s, th, PutLock(key, s.mapped[key], t, None))
  {
    Again(s, th, PutLook(key, t, None), PutLock(key, s.mapped[key], t, None));
  }

  lemma StepPutLock(s: State, th: Thread, key: Key, l: Llcx, t: Task)
    requires th in s.pc && l !in s.locks
    ensures Step(Now(s, th, PutLock(key, l, t, None)), Go(th, None)) ==
      Now(s, th, PutCheck(key, l, t, None)).(locks := s.locks[l := th])
  {
    Again(s, th, PutLock(key, l, t, None), PutCheck(key, l, t, None));
  }

  lemma StepCheck(s: State, th: Thread, key: Key, l: Llcx, t: Task)
    requires th in s.pc && key in s.mapped && s.mapped[key] == l
    ensures Step(Now(s, th, PutCheck(key, l, t, None)), Go(th, None)) == Now(s, th, PutInsert(key, l, t, None))
  {
    Again(s, th, PutCheck(key, l, t, None), PutInsert(key, l, t, None));
  }

  lemma StepInsert(s: State, th: Thread, key: Key, l: Llcx, t: Task)
    requires th in s.pc && t !in s.at && t !in s.dead
    ensures Step(Now(s, th, PutInsert(key, l, t, None)), Go(th, None)) ==
      Now(s, th, PutUnlock(l, None)).(at := s.at[t := l])
  {
    Again(s, th, PutInsert(key, l, t, None), PutUnlock(l, None));
  }

  lemma StepPutUnlock(s: State, th: Thread, l: Llcx)
    requires th in s.pc
    ensures Step(Now(s, th, PutUnlock(l, None)), Go(th, None)) == Now(s, th, Idle).(locks := s.locks - {l})
  {
    Again(s, th, PutUnlock(l, None), Idle);
  }

  /** A task is parked with a cgroup. */
  lemma Parks(s0: State, moves: seq<Move>, s: State, th: Thread, key: Key, t: Task) returns (longer: seq<Move>)
    requires Run(s0, moves) == s && th in s.pc && s.pc[th] == Idle && key in s.mapped && s.mapped[key] !in s.locks
    requires t !in s.at && t !in s.dead
    ensures Run(s0, longer) == s.(at := s.at[t := s.mapped[key]])
  {
    var go, l := Go(th, None), s.mapped[key];
    var held := s.(locks := s.locks[l := th]);
    var done := s.(at := s.at[t := l]);
    assert Step(s, Put(th, key, t)) == Now(s, th, PutLook(key, t, None));
    hide Run, Step;
    longer := Goes(s0, moves, Put(th, key, t), Now(s, th, PutLook(key, t, None)));
    StepLook(s, th, key, t);
    longer := Goes(s0, longer, go, Now(s, th, PutLock(key, l, t, None)));
    StepPutLock(s, th, key, l, t);
    longer := Goes(s0, longer, go, Now(held, th, PutCheck(key, l, t, None)));
    StepCheck(held, th, key, l, t);
    longer := Goes(s0, longer, go, Now(held, th, PutInsert(key, l, t, None)));
    StepInsert(held, th, key, l, t);
    longer := Goes(s0, longer, go, Now(held.(at := s.at[t := l]), th, PutUnlock(l, None)));
    StepPutUnlock(held.(at := s.at[t := l]), th, l);
    assert s.locks[l := th] - {l} == s.locks;
    longer := Goes(s0, longer, go, Now(done, th, Idle));
    assert s.pc[th := Idle] == s.pc;
  }

  // ----- a teardown that was overtaken -----

  const IDLE: map<Thread, Pc> := map[1 := Idle, 2 := Idle]

  const LOOKED: map<Thread, Pc> := map[1 := FreeDelete(7, 1), 2 := Idle]

  /** Two free contexts, two threads. */
  const START := State(map[ROOT := 0], {1, 2}, map[], map[], {}, IDLE)

  /** Pair 7 is published with context 1. */
  lemma FirstBuild() returns (moves: seq<Move>)
    ensures Run(START, moves) == State(map[ROOT := 0, 7 := 1], {2}, map[], map[], {}, IDLE)
  {
    moves := Publishes(START, [], START, 1, 7, 1);
    assert {1, 2} - {1} == {2};
  }

  /** One teardown of pair 7 looks the context up, and another one goes all the way. */
  lemma TwoTeardowns() returns (moves: seq<Move>)
    ensures Run(START, moves) == State(map[ROOT := 0], {1, 2}, map[], map[], {}, LOOKED)
  {
    hide Run;
    moves := FirstBuild();
    var s := State(map[ROOT := 0, 7 := 1], {2}, map[], map[], {}, IDLE);
    moves := Looks(START, moves, s, 1, 7);
    var looked := s.(pc := LOOKED);
    assert IDLE[1 := FreeDelete(7, 1)] == LOOKED;
    moves := Looks(START, moves, looked, 2, 7);
    moves := Recycles(START, moves, Now(looked, 2, FreeDelete(7, 1)), 2, 7, 1);
    assert LOOKED[2 := FreeDelete(7, 1)][2 := Idle] == LOOKED;
    assert map[ROOT := 0, 7 := 1] - {7} == map[ROOT := 0] && {2} + {1} == {1, 2};
  }

  /** The context goes to another cgroup, and pair 7 is built again with a task parked there. */
  lemma SecondBuild() returns (moves: seq<Move>)
    ensures Run(START, moves) == State(map[ROOT := 0, 8 := 1, 7 := 2], {}, map[], map[50 := 2], {}, LOOKED)
  {
    hide Run;
    moves := TwoTeardowns();
    moves := Publishes(START, moves, State(map[ROOT := 0], {1, 2}, map[], map[], {}, LOOKED), 2, 8, 1);
    assert {1, 2} - {1} == {2};
    moves := Publishes(START, moves, State(map[ROOT := 0, 8 := 1], {2}, map[], map[], {}, LOOKED), 2, 7, 2);
    assert {2} - {2} == {};
    moves := Parks(START, moves, State(map[ROOT := 0, 8 := 1, 7 := 2], {}, map[], map[], {}, LOOKED), 2, 7, 50);
  }

  /** The first teardown unpublishes the new context of pair 7 and recycles the one that the other cgroup has. */
  lemma OldTeardown() returns (moves: seq<Move>)
    ensures Run(START, moves) == State(map[ROOT := 0, 8 := 1], {1}, map[], map[50 := 2], {}, IDLE)
  {
    hide Run;
    moves := SecondBuild();
    var s := State(map[ROOT := 0, 8 := 1, 7 := 2], {}, map[], map[50 := 2], {}, LOOKED);
    moves := Recycles(START, moves, s, 1, 7, 1);
    assert LOOKED[1 := Idle] == IDLE && {} + {1} == {1};
    assert map[ROOT := 0, 8 := 1, 7 := 2] - {7} == map[ROOT := 0, 8 := 1];
  }

  /**
   * A run in which a pair is torn down twice and built again meanwhile: two builds of a cgroup overlap, one fails
   * after it has published the pair and one before, both tear the pair down, and the cgroup is built once more. At
   * its end task 50 is parked in a context that no cgroup has and nobody empties, and task 51 in one that is free.
   */
  lemma StaleTeardown() returns (moves: seq<Move>)
    ensures Initial(START) && Run(START, moves) ==
      State(map[ROOT := 0, 8 := 1], {1}, map[], map[50 := 2, 51 := 1], {}, IDLE)
  {
    hide Run;
    moves := OldTeardown();
    moves := Parks(START, moves, State(map[ROOT := 0, 8 := 1], {1}, map[], map[50 := 2], {}, IDLE), 2, 8, 51);
  }

  // ----- exactly when -----

  /** Under a rule every parked task is in a context that a cgroup has or that a teardown goes on emptying. */
  ghost predicate KeepsSheltered(rule: Rule) {
    forall s, moves, t :: Initial(s) && Obeys(rule, s, moves) && t in Run(s, moves).at ==> Sheltered(Run(s, moves), t)
  }

  /** Under a rule every task of a context that is recycled has gone to the root or was taken by somebody else. */
  ghost predicate KeepsMoving(rule: Rule) {
    forall s, moves, i: nat, t ::
      Initial(s) && Obeys(rule, s, moves) && i <= |moves| && t in Run(s, moves[..i]).at ==> Moved(s, moves, i, t)
  }

  lemma {:induction false} AnythingGoes(s: State, moves: seq<Move>)
    ensures Obeys(Rule(true, true), s, moves)
  {
    if moves != [] {
      AnythingGoes(s, moves[..|moves| - 1]);
    }
  }

  /**
   * No parked task is ever stranded, in all runs that keep to a rule, exactly if the rule does not let a pair be
   * built while it is torn down, or does not let it be torn down twice at a time.
   */
  lemma ShelteredExactly(rule: Rule)
    ensures KeepsSheltered(rule) <==> !rule.rebuild || !rule.twice
  {
    if !rule.rebuild || !rule.twice {
      forall s, moves, t | Initial(s) && Obeys(rule, s, moves) && t in Run(s, moves).at
        ensures Sheltered(Run(s, moves), t)
      {
        NoneStranded(rule, s, moves, t);
      }
    } else {
      var moves := StaleTeardown();
      AnythingGoes(START, moves);
      hide Run, Obeys;
      assert !Sheltered(Run(START, moves), 51);
    }
  }

  /** The same rules are those under which every task of a recycled context has been moved. */
  lemma MovedExactly(rule: Rule)
    ensures KeepsMoving(rule) <==> !rule.rebuild || !rule.twice
  {
    if !rule.rebuild || !rule.twice {
      forall s, moves, i: nat, t | Initial(s) && Obeys(rule, s, moves) && i <= |moves| && t in Run(s, moves[..i]).at
        ensures Moved(s, moves, i, t)
      {
        MovedToRoot(rule, s, moves, i, t);
      }
    } else {
      var moves := StaleTeardown();
      AnythingGoes(START, moves);
      hide Run, Obeys;
      assert moves[..|moves|] == moves;
      assert !Moved(START, moves, |moves|, 51);
    }
  }
}

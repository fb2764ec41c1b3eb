/**
 * How far mutual exclusion goes: the code refuses machines with more than 16384 cpus, but its
 * tail code has room for only 16383 of them.
 */
module SpinLockExact {
  import opened Options
  import opened SpinLock
  import opened SpinLockProof

  /** What a run of four threads has reached; `next` is the next pointer of the first node of cpu 0. */
  ghost predicate Snap(s: State, w: Word, next: Option<Node>, low: nat, high: nat, ps: seq<Pc>) {
    && |ps| == 4 && s.word == w && s.At(Node(0, 0)).next == next && s.Count(0) == low && s.Count(16383) == high
    && 0 in s.pc && 1 in s.pc && 2 in s.pc && 3 in s.pc
    && s.pc[0] == ps[0] && s.pc[1] == ps[1] && s.pc[2] == ps[2] && s.pc[3] == ps[3]
  }

  lemma Do(s: State, moves: seq<Move>, t: Thread, cpu: nat) returns (longer: seq<Move>, s': State)
    ensures longer == moves + [Go(t, cpu)]
    ensures s' == Run(MAX_CPUS, s, longer) == Step(MAX_CPUS, Run(MAX_CPUS, s, moves), Go(t, cpu))
  {
    longer := moves + [Go(t, cpu)];
    s' := Run(MAX_CPUS, s, longer);
    Then(MAX_CPUS, s, moves, Go(t, cpu));
  }

  lemma OwnerAndPending(s: State, moves: seq<Move>) returns (longer: seq<Move>)
    requires Snap(Run(MAX_CPUS, s, moves), Word(false, false, 0), None, 0, 0, [Idle, Idle, Idle, Idle])
    ensures Snap(Run(MAX_CPUS, s, longer), Word(true, true, 0), None, 0, 0, [Held, PendWait, Idle, Idle])
  {
    hide Run;
    longer := moves;
    var x: State;
    longer, x := Do(s, longer, 0, 0);
    assert Snap(x, Word(true, false, 0), None, 0, 0, [Held, Idle, Idle, Idle]);
    longer, x := Do(s, longer, 1, 0);
    assert Snap(x, Word(true, false, 0), None, 0, 0, [Held, Decide(TAKEN), Idle, Idle]);
    longer, x := Do(s, longer, 1, 0);
    assert Snap(x, Word(true, true, 0), None, 0, 0, [Held, PendWait, Idle, Idle]);
  }

  lemma FirstWaiter(s: State, moves: seq<Move>) returns (longer: seq<Move>)
    requires Snap(Run(MAX_CPUS, s, moves), Word(true, true, 0), None, 0, 0, [Held, PendWait, Idle, Idle])
    ensures Snap(Run(MAX_CPUS, s, longer), Word(true, true, 0), None, 1, 0,
      [Held, PendWait, InitNext(Node(0, 0)), Idle])
  {
    hide Run;
    longer := moves;
    var x: State;
    longer, x := Do(s, longer, 2, 0);
    assert Snap(x, Word(true, true, 0), None, 0, 0, [Held, PendWait, Decide(Word(true, true, 0)), Idle]);
    longer, x := Do(s, longer, 2, 0);
    assert Snap(x, Word(true, true, 0), None, 0, 0, [Held, PendWait, Queue, Idle]);
    longer, x := Do(s, longer, 2, 0);
    assert Snap(x, Word(true, true, 0), None, 1, 0, [Held, PendWait, InitLocked(Node(0, 0)), Idle]);
    longer, x := Do(s, longer, 2, 0);
    assert Snap(x, Word(true, true, 0), None, 1, 0, [Held, PendWait, InitNext(Node(0, 0)), Idle]);
  }

  lemma FirstWaiterPublishes(s: State, moves: seq<Move>) returns (longer: seq<Move>)
    requires Snap(Run(MAX_CPUS, s, moves), Word(true, true, 0), None, 1, 0,
      [Held, PendWait, InitNext(Node(0, 0)), Idle])
    ensures Snap(Run(MAX_CPUS, s, longer), Word(true, true, 4), None, 1, 0,
      [Held, PendWait, Head(Node(0, 0), None), Idle])
  {
    hide Run;
    longer := moves;
    var x: State;
    longer, x := Do(s, longer, 2, 0);
    assert Snap(x, Word(true, true, 0), None, 1, 0, [Held, PendWait, TryRead(Node(0, 0)), Idle]);
    longer, x := Do(s, longer, 2, 0);
    assert Snap(x, Word(true, true, 0), None, 1, 0, [Held, PendWait, Publish(Node(0, 0)), Idle]);
    longer, x := Do(s, longer, 2, 0);
    assert Snap(x, Word(true, true, 4), None, 1, 0, [Held, PendWait, Head(Node(0, 0), None), Idle]);
  }

  lemma LastCpuQueues(s: State, moves: seq<Move>) returns (longer: seq<Move>)
    requires Snap(Run(MAX_CPUS, s, moves), Word(true, true, 4), None, 1, 0,
      [Held, PendWait, Head(Node(0, 0), None), Idle])
    ensures Snap(Run(MAX_CPUS, s, longer), Word(true, true, 4), None, 1, 1,
      [Held, PendWait, Head(Node(0, 0), None), InitNext(Node(16383, 0))])
  {
    hide Run;
    longer := moves;
    var x: State;
    longer, x := Do(s, longer, 3, 16383);
    assert Snap(x, Word(true, true, 4), None, 1, 0,
      [Held, PendWait, Head(Node(0, 0), None), Decide(Word(true, true, 4))]);
    longer, x := Do(s, longer, 3, 16383);
    assert Snap(x, Word(true, true, 4), None, 1, 0, [Held, PendWait, Head(Node(0, 0), None), Queue]);
    longer, x := Do(s, longer, 3, 16383);
    assert Snap(x, Word(true, true, 4), None, 1, 1,
      [Held, PendWait, Head(Node(0, 0), None), InitLocked(Node(16383, 0))]);
    longer, x := Do(s, longer, 3, 16383);
    assert Snap(x, Word(true, true, 4), None, 1, 1, [Held, PendWait, Head(Node(0, 0), None), InitNext(Node(16383, 0))]);
  }

  lemma LastCpuReady(s: State, moves: seq<Move>) returns (longer: seq<Move>)
    requires Snap(Run(MAX_CPUS, s, moves), Word(true, true, 4), None, 1, 1,
      [Held, PendWait, Head(Node(0, 0), None), InitNext(Node(16383, 0))])
    ensures Snap(Run(MAX_CPUS, s, longer), Word(true, true, 4), None, 1, 1,
      [Held, PendWait, Head(Node(0, 0), None), Publish(Node(16383, 0))])
  {
    hide Run;
    longer := moves;
    var x: State;
    longer, x := Do(s, longer, 3, 16383);
    assert Snap(x, Word(true, true, 4), None, 1, 1, [Held, PendWait, Head(Node(0, 0), None), TryRead(Node(16383, 0))]);
    longer, x := Do(s, longer, 3, 16383);
    assert Snap(x, Word(true, true, 4), None, 1, 1, [Held, PendWait, Head(Node(0, 0), None), Publish(Node(16383, 0))]);
  }

  lemma LastCpuPublishes(s: State, moves: seq<Move>) returns (longer: seq<Move>)
    requires Snap(Run(MAX_CPUS, s, moves), Word(true, true, 4), None, 1, 1,
      [Held, PendWait, Head(Node(0, 0), None), Publish(Node(16383, 0))])
    ensures Snap(Run(MAX_CPUS, s, longer), Word(true, true, 0), Some(Node(16383, 0)), 1, 1,
      [Held, PendWait, Head(Node(0, 0), None), Wait(Node(16383, 0))])
  {
    hide Run;
    longer := moves;
    var x: State;
    longer, x := Do(s, longer, 3, 16383);
    assert Snap(x, Word(true, true, 0), None, 1, 1, [Held, PendWait, Head(Node(0, 0), None), Link(Node(16383, 0), 4)]);
    longer, x := Do(s, longer, 3, 16383);
    assert Snap(x, Word(true, true, 0), Some(Node(16383, 0)), 1, 1,
      [Held, PendWait, Head(Node(0, 0), None), Wait(Node(16383, 0))]);
  }

  lemma LockLooksFree(s: State, moves: seq<Move>) returns (longer: seq<Move>)
    requires Snap(Run(MAX_CPUS, s, moves), Word(true, true, 0), Some(Node(16383, 0)), 1, 1,
      [Held, PendWait, Head(Node(0, 0), None), Wait(Node(16383, 0))])
    ensures Snap(Run(MAX_CPUS, s, longer), Word(false, false, 0), Some(Node(16383, 0)), 1, 1,
      [Idle, Idle, Head(Node(0, 0), None), Wait(Node(16383, 0))])
  {
    hide Run;
    longer := moves;
    var x: State;
    longer, x := Do(s, longer, 0, 0);
    assert Snap(x, Word(false, true, 0), Some(Node(16383, 0)), 1, 1,
      [Idle, PendWait, Head(Node(0, 0), None), Wait(Node(16383, 0))]);
    longer, x := Do(s, longer, 1, 0);
    assert Snap(x, Word(false, true, 0), Some(Node(16383, 0)), 1, 1,
      [Idle, PendTake, Head(Node(0, 0), None), Wait(Node(16383, 0))]);
    longer, x := Do(s, longer, 1, 0);
    assert Snap(x, Word(true, false, 0), Some(Node(16383, 0)), 1, 1,
      [Idle, Held, Head(Node(0, 0), None), Wait(Node(16383, 0))]);
    longer, x := Do(s, longer, 1, 0);
    assert Snap(x, Word(false, false, 0), Some(Node(16383, 0)), 1, 1,
      [Idle, Idle, Head(Node(0, 0), None), Wait(Node(16383, 0))]);
  }

  lemma BothHold(s: State, moves: seq<Move>) returns (longer: seq<Move>)
    requires Snap(Run(MAX_CPUS, s, moves), Word(false, false, 0), Some(Node(16383, 0)), 1, 1,
      [Idle, Idle, Head(Node(0, 0), None), Wait(Node(16383, 0))])
    ensures Snap(Run(MAX_CPUS, s, longer), Word(true, false, 0), Some(Node(16383, 0)), 1, 1,
      [Held, Idle, AwaitNext(Node(0, 0)), Wait(Node(16383, 0))])
  {
    hide Run;
    longer := moves;
    var x: State;
    longer, x := Do(s, longer, 2, 0);
    assert Snap(x, Word(false, false, 0), Some(Node(16383, 0)), 1, 1,
      [Idle, Idle, SetLocked(Node(0, 0), None), Wait(Node(16383, 0))]);
    longer, x := Do(s, longer, 0, 0);
    assert Snap(x, Word(true, false, 0), Some(Node(16383, 0)), 1, 1,
      [Held, Idle, SetLocked(Node(0, 0), None), Wait(Node(16383, 0))]);
    longer, x := Do(s, longer, 2, 0);
    assert Snap(x, Word(true, false, 0), Some(Node(16383, 0)), 1, 1,
      [Held, Idle, AwaitNext(Node(0, 0)), Wait(Node(16383, 0))]);
  }

  lemma BothReturn(s: State, moves: seq<Move>) returns (longer: seq<Move>)
    requires Snap(Run(MAX_CPUS, s, moves), Word(true, false, 0), Some(Node(16383, 0)), 1, 1,
      [Held, Idle, AwaitNext(Node(0, 0)), Wait(Node(16383, 0))])
    ensures Snap(Run(MAX_CPUS, s, longer), Word(true, false, 0), Some(Node(16383, 0)), 0, 1,
      [Held, Idle, Held, Wait(Node(16383, 0))])
  {
    hide Run;
    longer := moves;
    var x: State;
    longer, x := Do(s, longer, 2, 0);
    assert Snap(x, Word(true, false, 0), Some(Node(16383, 0)), 1, 1,
      [Held, Idle, Pass(Node(0, 0), Node(16383, 0)), Wait(Node(16383, 0))]);
    longer, x := Do(s, longer, 2, 0);
    assert Snap(x, Word(true, false, 0), Some(Node(16383, 0)), 1, 1,
      [Held, Idle, Drop(Node(0, 0)), Wait(Node(16383, 0))]);
    longer, x := Do(s, longer, 2, 0);
    assert Snap(x, Word(true, false, 0), Some(Node(16383, 0)), 0, 1, [Held, Idle, Held, Wait(Node(16383, 0))]);
  }

  /** With 16384 cpus the node of the last one has tail code 0, and two threads can hold the lock at once. */
  lemma Overlap() returns (s: State, moves: seq<Move>)
    ensures Initial(s)
    ensures var x := Run(MAX_CPUS, s, moves); 0 in x.pc && 2 in x.pc && x.pc[0] == Held && x.pc[2] == Held
  {
    hide *;
    s := FourThreads();
    moves := OwnerAndPending(s, []);
    moves := FirstWaiter(s, moves);
    moves := FirstWaiterPublishes(s, moves);
    moves := LastCpuQueues(s, moves);
    moves := LastCpuReady(s, moves);
    moves := LastCpuPublishes(s, moves);
    moves := LockLooksFree(s, moves);
    moves := BothHold(s, moves);
    moves := BothReturn(s, moves);
    BothOwn(Run(MAX_CPUS, s, moves));
  }

  lemma FourThreads() returns (s: State)
    ensures Initial(s) && Snap(Run(MAX_CPUS, s, []), Word(false, false, 0), None, 0, 0, [Idle, Idle, Idle, Idle])
  {
    s := State(FREE, map[], map[], map[0 := Idle, 1 := Idle, 2 := Idle, 3 := Idle]);
  }

  lemma BothOwn(x: State)
    requires Snap(x, Word(true, false, 0), Some(Node(16383, 0)), 0, 1, [Held, Idle, Held, Wait(Node(16383, 0))])
    ensures 0 in x.pc && 2 in x.pc && x.pc[0] == Held && x.pc[2] == Held
  {
  }

  /** The lock excludes in every run on every machine, except on those with exactly 16384 cpus. */
  lemma ExclusiveExactly(cpus: nat)
    ensures (forall s, moves :: Initial(s) ==> Exclusive(Run(cpus, s, moves))) <==> cpus != MAX_CPUS
  {
    if cpus == MAX_CPUS {
      var s, moves := Overlap();
      assert !Exclusive(Run(cpus, s, moves));
    } else {
      forall s, moves | Initial(s) ensures Exclusive(Run(cpus, s, moves)) {
        if cpus < MAX_CPUS {
          var v := Reached(cpus, s, moves);
        } else {
          Refused(cpus, s, moves);
        }
      }
    }
  }
}

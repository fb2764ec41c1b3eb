/** The start of the slow path: a bounded look at a hand-over in progress, and the way to the queue. */
module SpinLockPeek {
  import opened Options
  import opened SpinLock

  /** The owner has released the lock and the pending thread has not taken it yet. */
  const HANDOVER := Word(false, true, 0)

  /** A thread starts to wait for a hand-over, or goes on waiting, exactly while it sees one and has looks left. */
  lemma PeekStep(cpus: nat, s: State, t: Thread, cpu: nat)
    requires cpus <= MAX_CPUS && t in s.pc && (s.pc[t].Idle? || s.pc[t].Peek?)
    ensures var p, p' := s.pc[t], Step(cpus, s, Go(t, cpu)).pc[t];
      && (p'.Peek? <==> s.word == HANDOVER && (p.Idle? || p.spins > 0))
      && (p'.Peek? ==> p'.spins == if p.Idle? then PENDING_LOOPS else p.spins - 1)
      && (!p'.Peek? ==> p' == Decide(s.word) || (p.Idle? && s.word == FREE && p' == Held))
  {
  }

  /** How many of the moves are steps of a thread. */
  ghost function Turns(moves: seq<Move>, t: Thread): nat {
    if moves == [] then 0
    else Turns(moves[..|moves| - 1], t) + if moves[|moves| - 1].Go? && moves[|moves| - 1].t == t then 1 else 0
  }

  lemma OthersStay(cpus: nat, s: State, m: Move, t: Thread)
    requires t in s.pc && s.pc[t].Peek? && !(m.Go? && m.t == t)
    ensures t in Step(cpus, s, m).pc && Step(cpus, s, m).pc[t] == s.pc[t]
  {
  }

  lemma RunStep(cpus: nat, s: State, moves: seq<Move>, k: nat)
    requires k < |moves|
    ensures Run(cpus, s, moves[..k + 1]) == Step(cpus, Run(cpus, s, moves[..k]), moves[k])
  {
    assert moves[..k + 1][..k] == moves[..k];
  }

  /** After the first k moves the thread is still looking and has used a look for each of its steps, or has left. */
  lemma {:induction false} StillLooking(cpus: nat, s: State, moves: seq<Move>, t: Thread, k: nat)
    requires cpus <= MAX_CPUS && t in s.pc && s.pc[t].Peek? && k <= |moves|
    requires forall i :: 0 <= i < k ==> !Leaves(cpus, s, moves, t, i)
    ensures var x := Run(cpus, s, moves[..k]);
      t in x.pc && x.pc[t].Peek? && x.pc[t].spins + Turns(moves[..k], t) == s.pc[t].spins
  {
    if k > 0 {
      StillLooking(cpus, s, moves, t, k - 1);
      RunStep(cpus, s, moves, k - 1);
      assert moves[..k][..k - 1] == moves[..k - 1];
      var x, m := Run(cpus, s, moves[..k - 1]), moves[k - 1];
      assert !Leaves(cpus, s, moves, t, k - 1);
      hide Run;
      if m.Go? && m.t == t {
        PeekStep(cpus, x, t, m.cpu);
      } else {
        OthersStay(cpus, x, m, t);
      }
      hide Step;
    }
  }

  /** Move k takes the thread on, with the word it sees. */
  ghost predicate Leaves(cpus: nat, s: State, moves: seq<Move>, t: Thread, k: nat)
    requires k < |moves|
  {
    var x, y := Run(cpus, s, moves[..k]), Run(cpus, s, moves[..k + 1]);
    && moves[k].Go? && moves[k].t == t && t in x.pc && x.pc[t].Peek? && t in y.pc && y.pc[t] == Decide(x.word)
  }

  /** A thread looks at most once more than it has looks left, however the others move, and goes on with what it saw. */
  lemma PeekEnds(cpus: nat, s: State, moves: seq<Move>, t: Thread)
    requires cpus <= MAX_CPUS && t in s.pc && s.pc[t].Peek? && Turns(moves, t) > s.pc[t].spins
    ensures exists k :: 0 <= k < |moves| && Leaves(cpus, s, moves, t, k)
  {
    assert moves[..|moves|] == moves;
    if forall k :: 0 <= k < |moves| ==> !Leaves(cpus, s, moves, t, k) {
      StillLooking(cpus, s, moves, t, |moves|);
    }
  }

  /** A thread that has seen others waiting goes to the queue and leaves the lock word alone. */
  lemma ContendedQueues(cpus: nat, s: State, t: Thread, cpu: nat)
    requires t in s.pc && s.pc[t].Decide? && (s.pc[t].val.pending || s.pc[t].val.tail != 0)
    ensures Step(cpus, s, Go(t, cpu)) == s.(pc := s.pc[t := Queue])
  {
  }
}

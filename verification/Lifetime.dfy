/**
 * Who may touch a queued task: membership, holds and detaching, over any number of threads and
 * queues. Threads take atomic steps in any order. The tree of a queue is the set of tasks linked
 * in it; the work on a node between two shared accesses is one step.
 */
module Lifetime {
  import opened Options

  type Thread = nat
  type Queue = nat
  type Task = nat

  datatype Owner = Nobody | Dead | In(q: Queue)

  /** What a thread wants a queue's lock for; the last two are parts of a detach and of a fini. */
  datatype Op = Insert(t: Task) | Remove(t: Task) | Pop(hold: bool) | Peek | DetachFrom(t: Task) | FiniFrom(t: Task)

  /** What a thread does after it unlocks a queue. */
  datatype Then = Return | AwaitHolds(t: Task) | RetryDetach(t: Task) | RetryFini(t: Task)

  datatype Pc =
    | Idle
    | WantLock(q: Queue, op: Op)
    | Claim(q: Queue, t: Task)
    | Link(q: Queue, t: Task)
    | Pick(q: Queue, remove: bool, hold: bool)
    | Check(q: Queue, t: Task, dead: bool, done: Then, fail: Then)
    | CheckPopped(q: Queue, t: Task, held: bool)
    | Undo(q: Queue, t: Task, held: bool)
    | Unlink(q: Queue, t: Task, dead: bool, done: Then)
    | Publish(q: Queue, t: Task, dead: bool, done: Then)
    | Unlock(q: Queue, done: Then)
    | FiniRead(t: Task)
    | DetachRead(t: Task)
    | DetachClaim(t: Task)
    | DetachWait(t: Task)
    | Detached(t: Task)
  {
    predicate Critical() {
      Claim? || Link? || Pick? || Check? || CheckPopped? || Undo? || Unlink? || Publish? || Unlock?
    }

    /** Works on the links of task `x`. */
    predicate Works(x: Task) {
      (Link? || Unlink? || Publish?) && t == x
    }

    /** The task a detach has latched dead, or seen dead. */
    function Latched(): Option<Task> {
      if DetachWait? || Detached? then Some(t) else if Unlock? && done.AwaitHolds? then Some(done.t) else None
    }
  }

  /** `lent` are the holds that queue operations have handed out and nobody has dropped yet. */
  datatype State = State(owner: map<Task, Owner>, holds: map<Task, int>, lent: multiset<Task>,
    locks: map<Queue, Thread>, linked: set<(Queue, Task)>, pc: map<Thread, Pc>) {
    function Owner(t: Task): Owner {
      if t in owner then owner[t] else Nobody
    }

    function Holds(t: Task): int {
      if t in holds then holds[t] else 0
    }
  }

  /** The scheduler's choice: which thread runs, what an idle one starts and which task a pick finds. */
  datatype Move = Start(th: Thread, q: Queue, op: Op) | Detach(th: Thread, t: Task) | Fini(th: Thread, t: Task)
    | Drop(th: Thread, t: Task) | Go(th: Thread, pick: Option<Task>)

  /** What one atomic step writes. */
  datatype Effect = Effect(owner: Option<(Task, Owner)>, hold: Option<(Task, bool)>, lock: Option<(Queue, bool)>,
    link: Option<((Queue, Task), bool)>, pc: Pc)

  function To(p: Pc): Effect {
    Effect(None, None, None, None, p)
  }

  function EffectOf(s: State, m: Move): Effect
    requires m.th in s.pc
  {
    var p := s.pc[m.th];
    match m
    case Start(_, q, op) => To(if p.Idle? && !op.DetachFrom? && !op.FiniFrom? then WantLock(q, op) else p)
    case Detach(_, t) => To(if p.Idle? then DetachRead(t) else p)
    case Fini(_, t) => To(if p.Idle? then FiniRead(t) else p)
    case Drop(_, t) => if p.Idle? && t in s.lent then Effect(None, Some((t, false)), None, None, p) else To(p)
    case Go(_, pick) => Advance(s, p, pick)
  }

  function Entered(q: Queue, op: Op): Pc {
    match op
    case Insert(t) => Claim(q, t)
    case Remove(t) => Check(q, t, false, Return, Return)
    case Pop(hold) => Pick(q, true, hold)
    case Peek => Pick(q, false, true)
    case DetachFrom(t) => Check(q, t, true, AwaitHolds(t), RetryDetach(t))
    case FiniFrom(t) => Check(q, t, false, Return, RetryFini(t))
  }

  function Resumed(done: Then): Pc {
    match done
    case Return => Idle
    case AwaitHolds(t) => DetachWait(t)
    case RetryDetach(t) => DetachRead(t)
    case RetryFini(t) => FiniRead(t)
  }

  /** The next atomic access of a thread at `p`; `pick` is the task a queue's search finds. */
  function Advance(s: State, p: Pc, pick: Option<Task>): Effect {
    match p
    case Idle => To(p)
    case WantLock(q, op) => if q in s.locks then To(p) else Effect(None, None, Some((q, true)), None, Entered(q, op))
    case Claim(q, t) =>
      if s.Owner(t) == Nobody then Effect(Some((t, In(q))), None, None, None, Link(q, t)) else To(Unlock(q, Return))
    case Link(q, t) => Effect(None, None, None, Some(((q, t), true)), Unlock(q, Return))
    case Pick(q, remove, hold) =>
      (match pick
       case None => To(Unlock(q, Return))
       case Some(t) =>
         if (q, t) !in s.linked then To(p)
         else
           Effect(None, if hold then Some((t, true)) else None, None, None,
             if remove then CheckPopped(q, t, hold) else Unlock(q, Return)))
    case Check(q, t, dead, done, fail) => To(if s.Owner(t) == In(q) then Unlink(q, t, dead, done) else Unlock(q, fail))
    case CheckPopped(q, t, held) => To(if s.Owner(t) == In(q) then Unlink(q, t, false, Return) else Undo(q, t, held))
    case Undo(q, t, held) => Effect(None, if held then Some((t, false)) else None, None, None, Unlock(q, Return))
    case Unlink(q, t, dead, done) => Effect(None, None, None, Some(((q, t), false)), Publish(q, t, dead, done))
    case Publish(q, t, dead, done) =>
      Effect(Some((t, if dead then Dead else Nobody)), None, None, None, Unlock(q, done))
    case Unlock(q, done) => Effect(None, None, Some((q, false)), None, Resumed(done))
    case FiniRead(t) =>
      (match s.Owner(t)
       case In(q) => To(WantLock(q, FiniFrom(t)))
       case _ => To(Idle))
    case DetachRead(t) =>
      (match s.Owner(t)
       case Dead => To(DetachWait(t))
       case Nobody => To(DetachClaim(t))
       case In(q) => To(WantLock(q, DetachFrom(t))))
    case DetachClaim(t) =>
      if s.Owner(t) == Nobody then Effect(Some((t, Dead)), None, None, None, DetachWait(t)) else To(DetachRead(t))
    case DetachWait(t) => To(if s.Holds(t) > 0 then p else Detached(t))
    case Detached(t) => To(p)
  }

  function Apply(s: State, th: Thread, e: Effect): State {
    State(
      if e.owner.Some? then s.owner[e.owner.value.0 := e.owner.value.1] else s.owner,
      if e.hold.Some? then s.holds[e.hold.value.0 := s.Holds(e.hold.value.0) + if e.hold.value.1 then 1 else -1]
        else s.holds,
      if e.hold.None? then s.lent else if e.hold.value.1 then s.lent + multiset{e.hold.value.0}
        else s.lent - multiset{e.hold.value.0},
      if e.lock.None? then s.locks else if e.lock.value.1 then s.locks[e.lock.value.0 := th]
        else s.locks - {e.lock.value.0},
      if e.link.None? then s.linked else if e.link.value.1 then s.linked + {e.link.value.0}
        else s.linked - {e.link.value.0},
      s.pc[th := e.pc])
  }

  function Step(s: State, m: Move): State {
    if m.th in s.pc then Apply(s, m.th, EffectOf(s, m)) else s
  }

  ghost function Run(s: State, moves: seq<Move>): State {
    if moves == [] then s else Step(Run(s, moves[..|moves| - 1]), moves[|moves| - 1])
  }

  /** No task queued, held or dead, no lock taken. */
  ghost predicate Initial(s: State) {
    s.owner == map[] && s.holds == map[] && s.lent == multiset{} && s.locks == map[] && s.linked == {}
      && forall th :: th in s.pc ==> s.pc[th] == Idle
  }

  // ----- the invariant -----

  /** A queue's lock is held by the thread in its critical section. */
  ghost predicate Locked(s: State) {
    && (forall th :: th in s.pc && s.pc[th].Critical() ==> s.pc[th].q in s.locks && s.locks[s.pc[th].q] == th)
    && (forall q :: q in s.locks ==> s.locks[q] in s.pc && s.pc[s.locks[q]].Critical() && s.pc[s.locks[q]].q == q)
  }

  /** What a thread in the middle of an operation knows of its task. */
  ghost predicate Knows(s: State, p: Pc) {
    && (p.Link? || p.Publish? ==> s.Owner(p.t) == In(p.q) && (p.q, p.t) !in s.linked)
    && (p.Unlink? || p.CheckPopped? ==> s.Owner(p.t) == In(p.q) && (p.q, p.t) in s.linked)
    && !p.Undo?
    && (p.Latched().Some? ==> s.Owner(p.Latched().value) == Dead)
    && ((p.Unlink? || p.Publish?) && p.done.AwaitHolds? ==> p.dead && p.done.t == p.t)
    && (p.Check? ==> !p.fail.AwaitHolds? && (p.done.AwaitHolds? ==> p.dead && p.done.t == p.t))
    && (p.Detached? ==> s.Holds(p.t) <= 0)
  }

  /**
   * A linked task names its queue; a task that names a queue is linked there, unless the queue's owner is at
   * work on it.
   */
  ghost predicate Member(s: State) {
    && (forall q, t :: (q, t) in s.linked ==> s.Owner(t) == In(q))
    && (forall t :: t in s.owner && s.owner[t].In? && (s.owner[t].q, t) !in s.linked ==>
          s.owner[t].q in s.locks && s.locks[s.owner[t].q] in s.pc && s.pc[s.locks[s.owner[t].q]].Works(t))
  }

  /** The hold count of a task is the number of its holds that are out. */
  ghost predicate Counted(s: State) {
    forall t :: s.Holds(t) == s.lent[t]
  }

  ghost predicate Inv(s: State) {
    Locked(s) && Member(s) && Counted(s) && forall th :: th in s.pc ==> Knows(s, s.pc[th])
  }

  // ----- each step keeps it -----

  /** Locks are taken when free and given up by their holder. */
  ghost predicate LockRule(s: State, p: Pc, e: Effect) {
    if p.Critical() == e.pc.Critical() then e.lock.None? && (p.Critical() ==> e.pc.q == p.q)
    else if e.pc.Critical() then e.pc.q !in s.locks && e.lock == Some((e.pc.q, true))
    else e.lock == Some((p.q, false))
  }

  lemma RuleLocked(s: State, th: Thread, e: Effect)
    requires Locked(s) && th in s.pc && LockRule(s, s.pc[th], e)
    ensures Locked(Apply(s, th, e))
  {
  }

  /** The ways membership and links change. */
  ghost predicate MemberRule(s: State, p: Pc, e: Effect) {
    || (e.owner.None? && e.link.None? && ((p.Link? || p.Unlink? || p.Publish?) ==> e.pc == p))
    || (p.Claim? && s.Owner(p.t) == Nobody && e.owner == Some((p.t, In(p.q))) && e.link.None? && e.pc == Link(p.q, p.t))
    || (p.Link? && e.owner.None? && e.link == Some(((p.q, p.t), true)))
    || (p.Unlink? && e.owner.None? && e.link == Some(((p.q, p.t), false)) && e.pc == Publish(p.q, p.t, p.dead, p.done))
    || (p.Publish? && e.owner == Some((p.t, if p.dead then Dead else Nobody)) && e.link.None?)
    || (p.DetachClaim? && s.Owner(p.t) == Nobody && e.owner == Some((p.t, Dead)) && e.link.None?)
  }

  /** Holds go only to tasks that are linked. */
  ghost predicate HoldRule(s: State, p: Pc, e: Effect) {
    e.hold.Some? ==> if e.hold.value.1 then p.Pick? && (p.q, e.hold.value.0) in s.linked else e.hold.value.0 in s.lent
  }

  lemma Rules(s: State, m: Move)
    requires m.th in s.pc && Knows(s, s.pc[m.th])
    ensures var p, e := s.pc[m.th], EffectOf(s, m); LockRule(s, p, e) && MemberRule(s, p, e) && HoldRule(s, p, e)
  {
  }

  lemma RuleMember(s: State, th: Thread, e: Effect)
    requires Locked(s) && Member(s) && th in s.pc && Knows(s, s.pc[th]) && MemberRule(s, s.pc[th], e)
    requires LockRule(s, s.pc[th], e)
    ensures Member(Apply(s, th, e))
  {
  }

  lemma RuleOthers(s: State, th: Thread, e: Effect, u: Thread)
    requires Locked(s) && Member(s) && th in s.pc && Knows(s, s.pc[th]) && MemberRule(s, s.pc[th], e)
    requires HoldRule(s, s.pc[th], e)
    requires u in s.pc && u != th && Knows(s, s.pc[u])
    ensures Knows(Apply(s, th, e), s.pc[u])
  {
  }

  /** A task that names the queue whose lock a thread holds is linked, unless that thread is at work on it. */
  lemma NamedIsLinked(s: State, th: Thread, t: Task)
    requires Locked(s) && Member(s) && th in s.pc && s.pc[th].Critical() && s.Owner(t) == In(s.pc[th].q)
    requires !s.pc[th].Works(t)
    ensures (s.pc[th].q, t) in s.linked
  {
    assert t in s.owner && s.owner[t].q == s.pc[th].q;
  }

  lemma RuleAdvance(s: State, th: Thread, p: Pc, pick: Option<Task>)
    requires Knows(s, p) && (p.Check? && s.Owner(p.t) == In(p.q) ==> (p.q, p.t) in s.linked)
    requires forall q, t :: (q, t) in s.linked ==> s.Owner(t) == In(q)
    ensures Knows(Apply(s, th, Advance(s, p, pick)), Advance(s, p, pick).pc)
  {
  }

  lemma RuleSelf(s: State, m: Move)
    requires m.th in s.pc && Knows(s, s.pc[m.th])
    requires s.pc[m.th].Check? && s.Owner(s.pc[m.th].t) == In(s.pc[m.th].q) ==> (s.pc[m.th].q, s.pc[m.th].t) in s.linked
    requires forall q, t :: (q, t) in s.linked ==> s.Owner(t) == In(q)
    ensures Knows(Apply(s, m.th, EffectOf(s, m)), EffectOf(s, m).pc)
  {
    hide Advance;
    if m.Go? {
      RuleAdvance(s, m.th, s.pc[m.th], m.pick);
      hide Apply, Knows;
    }
  }

  lemma RuleCounted(s: State, th: Thread, e: Effect)
    requires Counted(s) && th in s.pc && HoldRule(s, s.pc[th], e)
    ensures Counted(Apply(s, th, e))
  {
  }

  lemma PcAfter(s: State, m: Move)
    requires m.th in s.pc
    ensures Step(s, m) == Apply(s, m.th, EffectOf(s, m)) && Step(s, m).pc == s.pc[m.th := EffectOf(s, m).pc]
  {
    hide EffectOf;
  }

  lemma KeepKnows(s: State, m: Move, u: Thread)
    requires Inv(s) && m.th in s.pc && u in s.pc
    ensures Knows(Step(s, m), s.pc[m.th := EffectOf(s, m).pc][u])
  {
    var p := s.pc[m.th];
    assert Knows(s, p) && Knows(s, s.pc[u]) && Locked(s) && Member(s);
    assert forall q, t :: (q, t) in s.linked ==> s.Owner(t) == In(q);
    PcAfter(s, m);
    hide Inv, Knows, Locked, Member, EffectOf, Apply;
    if u == m.th {
      if p.Check? && s.Owner(p.t) == In(p.q) {
        NamedIsLinked(s, m.th, p.t);
      }
      RuleSelf(s, m);
    } else {
      Rules(s, m);
      RuleOthers(s, m.th, EffectOf(s, m), u);
    }
  }

  /** Every step of every thread keeps the invariant. */
  lemma Maintain(s: State, m: Move)
    requires Inv(s)
    ensures Inv(Step(s, m))
  {
    if m.th in s.pc {
      var e := EffectOf(s, m);
      assert Knows(s, s.pc[m.th]);
      forall u | u in s.pc ensures Knows(Step(s, m), s.pc[m.th := e.pc][u]) {
        KeepKnows(s, m, u);
      }
      hide Knows, Locked, Member, Counted, EffectOf, Step, Apply;
      PcAfter(s, m);
      Rules(s, m);
      RuleLocked(s, m.th, e);
      RuleMember(s, m.th, e);
      RuleCounted(s, m.th, e);
    }
  }

  lemma Starts(s: State)
    requires Initial(s)
    ensures Inv(s)
  {
  }

  // ----- whole runs -----

  lemma {:induction false} InvAfter(s: State, moves: seq<Move>)
    requires Inv(s)
    ensures Inv(Run(s, moves))
  {
    if moves != [] {
      InvAfter(s, moves[..|moves| - 1]);
      Maintain(Run(s, moves[..|moves| - 1]), moves[|moves| - 1]);
    }
  }

  /** While a queue's lock is free, a task is linked in the queue exactly when it names it. */
  lemma LinkedExactly(s0: State, moves: seq<Move>, q: Queue, t: Task)
    requires Initial(s0) && q !in Run(s0, moves).locks
    ensures (q, t) in Run(s0, moves).linked <==> Run(s0, moves).Owner(t) == In(q)
  {
    Starts(s0);
    InvAfter(s0, moves);
  }

  /**
   * At most one thread works on a task's links at a time, whichever queues are involved, and no pop finds its
   * task gone.
   */
  lemma OneWorker(s0: State, moves: seq<Move>, t: Task, a: Thread, b: Thread)
    requires Initial(s0) && a in Run(s0, moves).pc && b in Run(s0, moves).pc
    requires Run(s0, moves).pc[a].Works(t) && Run(s0, moves).pc[b].Works(t)
    ensures a == b && forall th :: th in Run(s0, moves).pc ==> !Run(s0, moves).pc[th].Undo?
  {
    Starts(s0);
    InvAfter(s0, moves);
    var s := Run(s0, moves);
    assert Knows(s, s.pc[a]) && Knows(s, s.pc[b]) && Locked(s);
    forall th | th in s.pc ensures !s.pc[th].Undo? {
      assert Knows(s, s.pc[th]);
    }
    hide Run, Initial, Inv;
  }

  /** Nothing can reach a dead task through a queue. */
  lemma DeadIsApart(s: State, t: Task)
    requires Inv(s) && s.Owner(t) == Dead
    ensures (forall q :: (q, t) !in s.linked) && (forall th :: th in s.pc ==> !s.pc[th].Works(t))
  {
    forall th | th in s.pc ensures !s.pc[th].Works(t) {
      assert Knows(s, s.pc[th]);
    }
  }

  lemma StaysDead(s: State, m: Move, t: Task)
    requires Inv(s) && s.Owner(t) == Dead
    ensures Step(s, m).Owner(t) == Dead && Step(s, m).Holds(t) <= s.Holds(t)
  {
    if m.th in s.pc {
      DeadIsApart(s, t);
      assert Knows(s, s.pc[m.th]);
      Rules(s, m);
      hide Inv, EffectOf;
    }
  }

  /** Once dead, a task is never queued again and its hold count never rises. */
  lemma {:induction false} DeadForever(s: State, moves: seq<Move>, t: Task)
    requires Inv(s) && s.Owner(t) == Dead
    ensures var s' := Run(s, moves); (
      && s'.Owner(t) == Dead && s'.Holds(t) <= s.Holds(t)
      && (forall q :: (q, t) !in s'.linked) && (forall th :: th in s'.pc ==> !s'.pc[th].Works(t)))
  {
    InvAfter(s, moves);
    if moves != [] {
      var before := moves[..|moves| - 1];
      DeadForever(s, before, t);
      InvAfter(s, before);
      StaysDead(Run(s, before), moves[|moves| - 1], t);
    }
    DeadIsApart(Run(s, moves), t);
  }

  lemma {:induction false} RunSplit(s: State, a: seq<Move>, b: seq<Move>)
    ensures Run(s, a + b) == Run(Run(s, a), b)
  {
    hide Step;
    if b == [] {
      assert a + b == a;
    } else {
      var last := |b| - 1;
      assert (a + b)[..|a| + last] == a + b[..last];
      RunSplit(s, a, b[..last]);
    }
  }

  /**
   * When a detach has returned, nobody holds the task, no queue links it and no thread works on it, then or
   * ever after.
   */
  lemma DetachIsFinal(s0: State, before: seq<Move>, after: seq<Move>, th: Thread, t: Task)
    requires Initial(s0) && th in Run(s0, before).pc && Run(s0, before).pc[th] == Detached(t)
    ensures var s := Run(s0, before + after); (
      && s.Owner(t) == Dead && s.Holds(t) == 0 && t !in s.lent
      && (forall q :: (q, t) !in s.linked) && (forall u :: u in s.pc ==> !s.pc[u].Works(t)))
  {
    Starts(s0);
    InvAfter(s0, before);
    var s1 := Run(s0, before);
    assert Knows(s1, s1.pc[th]);
    DeadForever(s1, after, t);
    InvAfter(s1, after);
    RunSplit(s0, before, after);
  }
}

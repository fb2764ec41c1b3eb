/** What each operation on a queue has done by the time it returns, in runs of any number of threads. */
module LifetimeCalls {
  import opened Options
  import opened Lifetime

  /** What a step changes that others can see. */
  datatype Write = Owns(t: Task, owner: Owner) | Holds(t: Task, up: bool) | Links(q: Queue, t: Task, on: bool)

  /** A call of a thread and its writes so far; `away` if there was a moment since at which it had nothing to do. */
  datatype Story = Story(call: Move, log: seq<Write>, away: bool)

  ghost function WritesOf(e: Effect): seq<Write> {
    (if e.owner.Some? then [Owns(e.owner.value.0, e.owner.value.1)] else [])
    + (if e.hold.Some? then [Holds(e.hold.value.0, e.hold.value.1)] else [])
    + (if e.link.Some? then [Links(e.link.value.0.0, e.link.value.0.1, e.link.value.1)] else [])
  }

  /** There is nothing to do: the task is queued or dead already, not where it is to be taken from, or not held. */
  ghost predicate Gone(call: Move, s: State) {
    match call
    case Start(_, q, Insert(t)) => s.Owner(t) != Nobody
    case Start(_, q, Remove(t)) => s.Owner(t) != In(q)
    case Start(_, _, _) => true
    case Detach(_, t) => s.Owner(t) == Dead
    case Fini(_, t) => !s.Owner(t).In?
    case Drop(_, t) => t !in s.lent
    case Go(_, _) => true
  }

  /** The last call of a thread in a run. */
  ghost function StoryOf(s0: State, moves: seq<Move>, th: Thread): Option<Story> {
    if moves == [] then None
    else
      var before, m := moves[..|moves| - 1], moves[|moves| - 1];
      Told(Run(s0, before), m, th, StoryOf(s0, before, th))
  }

  /** How a step goes on with the story of a thread. */
  ghost function Told(s: State, m: Move, th: Thread, story: Option<Story>): Option<Story> {
    if th !in s.pc then story
    else if m.th == th && s.pc[th].Idle? && !m.Go? then
      Some(Story(m, WritesOf(EffectOf(s, m)), Gone(m, s) || Gone(m, Step(s, m))))
    else if story.None? then None
    else
      var r := story.value;
      Some(Story(r.call, if m.th == th then r.log + WritesOf(EffectOf(s, m)) else r.log,
        r.away || Gone(r.call, Step(s, m))))
  }

  ghost function Held(t: Task, hold: bool): seq<Write> { if hold then [Holds(t, true)] else [] }

  /** What a call has written when it is over. */
  ghost predicate Outcome(r: Story) {
    match r.call
    case Start(_, q, Insert(t)) => r.log == [Owns(t, In(q)), Links(q, t, true)] || (r.log == [] && r.away)
    case Start(_, q, Remove(t)) => r.log == [Links(q, t, false), Owns(t, Nobody)] || (r.log == [] && r.away)
    case Start(_, q, Pop(hold)) =>
      r.log == [] || exists t :: r.log == Held(t, hold) + [Links(q, t, false), Owns(t, Nobody)]
    case Start(_, q, Peek) => r.log == [] || exists t :: r.log == Held(t, true)
    case Start(_, _, _) => r.log == []
    case Fini(_, t) => (exists q :: r.log == [Links(q, t, false), Owns(t, Nobody)]) || (r.log == [] && r.away)
    case Detach(_, t) =>
      || (r.log == [] && r.away) || r.log == [Owns(t, Dead)]
      || (exists q :: r.log == [Links(q, t, false), Owns(t, Dead)])
    case Drop(_, t) => r.log == [Holds(t, false)] || (r.log == [] && r.away)
    case Go(_, _) => false
  }

  /** What a thread at `p` has written of its call. */
  ghost predicate Fits(p: Pc, r: Story) {
    match r.call
    case Start(_, q, Insert(t)) =>
      || ((p == WantLock(q, Insert(t)) || p == Claim(q, t)) && r.log == [])
      || (p == Link(q, t) && r.log == [Owns(t, In(q))])
      || ((p == Unlock(q, Return) || p == Idle) && Outcome(r))
    case Start(_, q, Remove(t)) =>
      || ((p == WantLock(q, Remove(t)) || p == Check(q, t, false, Return, Return)) && r.log == [])
      || (p == Unlink(q, t, false, Return) && r.log == [])
      || (p == Publish(q, t, false, Return) && r.log == [Links(q, t, false)])
      || ((p == Unlock(q, Return) || p == Idle) && Outcome(r))
    case Start(_, q, Pop(hold)) =>
      || ((p == WantLock(q, Pop(hold)) || p == Pick(q, true, hold)) && r.log == [])
      || (p.CheckPopped? && p == CheckPopped(q, p.t, hold) && r.log == Held(p.t, hold))
      || (p.Unlink? && p == Unlink(q, p.t, false, Return) && r.log == Held(p.t, hold))
      || (p.Publish? && p == Publish(q, p.t, false, Return) && r.log == Held(p.t, hold) + [Links(q, p.t, false)])
      || ((p == Unlock(q, Return) || p == Idle) && Outcome(r))
    case Start(_, q, Peek) =>
      || ((p == WantLock(q, Peek) || p == Pick(q, false, true)) && r.log == [])
      || ((p == Unlock(q, Return) || p == Idle) && Outcome(r))
    case Start(_, _, _) => p == Idle && Outcome(r)
    case Fini(_, t) =>
      || (p == FiniRead(t) && r.log == [])
      || ((p.WantLock? || p.Check? || p.Unlink? || p.Publish? || p.Unlock?)
          && FiniAt(p, p.q, t, r.log))
      || (p == Idle && Outcome(r))
    case Detach(_, t) =>
      || ((p == DetachRead(t) || p == DetachClaim(t)) && r.log == [])
      || ((p.WantLock? || p.Check? || p.Unlink? || p.Publish? || p.Unlock?)
          && DetachAt(p, p.q, t, r.log))
      || ((p == DetachWait(t) || p == Detached(t)) && Outcome(r))
    case Drop(_, t) => p == Idle && Outcome(r)
    case Go(_, _) => false
  }

  ghost predicate FiniAt(p: Pc, q: Queue, t: Task, log: seq<Write>) {
    || ((p == WantLock(q, FiniFrom(t)) || p == Check(q, t, false, Return, RetryFini(t))) && log == [])
    || ((p == Unlink(q, t, false, Return) || p == Unlock(q, RetryFini(t))) && log == [])
    || (p == Publish(q, t, false, Return) && log == [Links(q, t, false)])
    || (p == Unlock(q, Return) && log == [Links(q, t, false), Owns(t, Nobody)])
  }

  ghost predicate DetachAt(p: Pc, q: Queue, t: Task, log: seq<Write>) {
    || ((p == WantLock(q, DetachFrom(t)) || p == Check(q, t, true, AwaitHolds(t), RetryDetach(t))) && log == [])
    || ((p == Unlink(q, t, true, AwaitHolds(t)) || p == Unlock(q, RetryDetach(t))) && log == [])
    || (p == Publish(q, t, true, AwaitHolds(t)) && log == [Links(q, t, false)])
    || (p == Unlock(q, AwaitHolds(t)) && log == [Links(q, t, false), Owns(t, Dead)])
  }

  // ----- every step goes on as its call says -----

  lemma Begins(s: State, m: Move)
    requires m.th in s.pc && s.pc[m.th].Idle? && !m.Go?
    ensures Fits(EffectOf(s, m).pc, Story(m, WritesOf(EffectOf(s, m)), true))
    ensures !Gone(m, s) ==> Fits(EffectOf(s, m).pc, Story(m, WritesOf(EffectOf(s, m)), false))
  {
  }

  lemma NoWrites(log: seq<Write>, p: Pc)
    ensures log + WritesOf(To(p)) == log
  {
  }

  lemma GoesOnInserting(s: State, p: Pc, pick: Option<Task>, r: Story)
    requires r.call.Start? && r.call.op.Insert? && Fits(p, r) && (Gone(r.call, s) ==> r.away)
    ensures var e := Advance(s, p, pick); Fits(e.pc, r.(log := r.log + WritesOf(e)))
  {
    assert r.log + [] == r.log;
  }

  lemma GoesOnRemoving(s: State, p: Pc, pick: Option<Task>, r: Story)
    requires r.call.Start? && r.call.op.Remove? && Fits(p, r) && (Gone(r.call, s) ==> r.away)
    ensures var e := Advance(s, p, pick); Fits(e.pc, r.(log := r.log + WritesOf(e)))
  {
    assert r.log + [] == r.log;
  }

  lemma GoesOnPopping(s: State, p: Pc, pick: Option<Task>, r: Story)
    requires r.call.Start? && r.call.op.Pop? && Fits(p, r) && Knows(s, p)
    ensures var e := Advance(s, p, pick); Fits(e.pc, r.(log := r.log + WritesOf(e)))
  {
    assert r.log + [] == r.log;
    if p.Publish? {
      var q, hold := r.call.q, r.call.op.hold;
      assert Held(p.t, hold) + [Links(q, p.t, false)] + [Owns(p.t, Nobody)] ==
        Held(p.t, hold) + [Links(q, p.t, false), Owns(p.t, Nobody)];
    }
  }

  lemma GoesOnPeeking(s: State, p: Pc, pick: Option<Task>, r: Story)
    requires r.call.Start? && r.call.op.Peek? && Fits(p, r)
    ensures var e := Advance(s, p, pick); Fits(e.pc, r.(log := r.log + WritesOf(e)))
  {
    assert r.log + [] == r.log;
    if p.Pick? && pick.Some? {
      assert [] + [Holds(pick.value, true)] == Held(pick.value, true);
    }
  }

  lemma GoesOnFinishing(s: State, p: Pc, pick: Option<Task>, r: Story)
    requires r.call.Fini? && Fits(p, r) && (Gone(r.call, s) ==> r.away)
    ensures var e := Advance(s, p, pick); Fits(e.pc, r.(log := r.log + WritesOf(e)))
  {
    assert r.log + [] == r.log;
  }

  lemma DetachReads(s: State, p: Pc, pick: Option<Task>, r: Story)
    requires r.call.Detach? && Fits(p, r) && (Gone(r.call, s) ==> r.away) && (p.DetachRead? || p.DetachClaim?)
    ensures var e := Advance(s, p, pick); Fits(e.pc, r.(log := r.log + WritesOf(e)))
  {
    assert r.log + [] == r.log;
  }

  lemma DetachUnlinks(s: State, p: Pc, pick: Option<Task>, r: Story)
    requires r.call.Detach? && Fits(p, r) && (p.WantLock? || p.Check? || p.Unlink? || p.Publish? || p.Unlock?)
    ensures var e := Advance(s, p, pick); Fits(e.pc, r.(log := r.log + WritesOf(e)))
  {
    assert r.log + [] == r.log;
    assert DetachAt(p, p.q, r.call.t, r.log);
    hide Gone;
  }

  lemma DetachEnds(s: State, p: Pc, pick: Option<Task>, r: Story)
    requires r.call.Detach? && Fits(p, r) && (p.DetachWait? || p.Detached?)
    ensures var e := Advance(s, p, pick); Fits(e.pc, r.(log := r.log + WritesOf(e)))
  {
    assert r.log + [] == r.log;
    hide Gone;
  }

  lemma DetachPlaces(p: Pc, r: Story)
    requires r.call.Detach? && Fits(p, r)
    ensures p.DetachRead? || p.DetachClaim? || p.WantLock? || p.Check? || p.Unlink? || p.Publish? || p.Unlock?
            || p.DetachWait? || p.Detached?
  {
  }

  lemma GoesOnDetaching(s: State, p: Pc, pick: Option<Task>, r: Story)
    requires r.call.Detach? && Fits(p, r) && (Gone(r.call, s) ==> r.away)
    ensures var e := Advance(s, p, pick); Fits(e.pc, r.(log := r.log + WritesOf(e)))
  {
    hide *;
    DetachPlaces(p, r);
    if p.DetachRead? || p.DetachClaim? {
      DetachReads(s, p, pick, r);
    } else if p.DetachWait? || p.Detached? {
      DetachEnds(s, p, pick, r);
    } else {
      DetachUnlinks(s, p, pick, r);
    }
  }

  lemma GoesOn(s: State, p: Pc, pick: Option<Task>, r: Story)
    requires Fits(p, r) && Knows(s, p) && (Gone(r.call, s) ==> r.away)
    ensures var e := Advance(s, p, pick); Fits(e.pc, r.(log := r.log + WritesOf(e)))
  {
    if p.Idle? {
      NoWrites(r.log, p);
      return;
    }
    hide Advance, WritesOf, Knows, Gone;
    match r.call {
      case Start(_, _, Insert(_)) => GoesOnInserting(s, p, pick, r);
      case Start(_, _, Remove(_)) => GoesOnRemoving(s, p, pick, r);
      case Start(_, _, Pop(_)) => GoesOnPopping(s, p, pick, r);
      case Start(_, _, Peek) => GoesOnPeeking(s, p, pick, r);
      case Fini(_, _) => GoesOnFinishing(s, p, pick, r);
      case Detach(_, _) => GoesOnDetaching(s, p, pick, r);
      case _ =>
    }
  }

  // ----- whole runs -----

  /** A thread is at a place of its call, or has not called anything. */
  ghost predicate InStory(s: State, th: Thread, story: Option<Story>) {
    && th in s.pc
    && match story
       case None => s.pc[th].Idle?
       case Some(r) => Fits(s.pc[th], r) && (Gone(r.call, s) ==> r.away)
  }

  /** The story of a thread after a step of its own. */
  lemma OwnStep(s: State, m: Move, story: Option<Story>)
    requires InStory(s, m.th, story) && Knows(s, s.pc[m.th])
    ensures InStory(Step(s, m), m.th, Told(s, m, m.th, story))
  {
    PcAfter(s, m);
    var p, e := s.pc[m.th], EffectOf(s, m);
    if p.Idle? && !m.Go? {
      Begins(s, m);
      hide Fits, EffectOf, WritesOf, Step, Gone, Knows;
    } else if story.Some? {
      var r := story.value;
      if m.Go? {
        GoesOn(s, p, m.pick, r);
      } else {
        NoWrites(r.log, p);
      }
      hide Fits, Advance, WritesOf, Step, Gone, Knows;
      FitsStays(e.pc, r.(log := r.log + WritesOf(e)));
    } else {
      NotCalled(s, m);
      hide Fits, Advance, WritesOf, Step, Gone, Knows;
    }
  }

  lemma OtherStep(s: State, m: Move, th: Thread, story: Option<Story>)
    requires InStory(s, th, story) && m.th != th
    ensures InStory(Step(s, m), th, Told(s, m, th, story))
  {
    OthersStay(s, m, th);
    hide Fits, Step, Gone, EffectOf, WritesOf;
    if story.Some? {
      FitsStays(s.pc[th], story.value);
    }
  }

  lemma TellsOn(s: State, m: Move, th: Thread, story: Option<Story>)
    requires Inv(s) && InStory(s, th, story)
    ensures InStory(Step(s, m), th, Told(s, m, th, story))
  {
    if m.th == th {
      assert Knows(s, s.pc[th]);
      hide *;
      OwnStep(s, m, story);
    } else {
      hide *;
      OtherStep(s, m, th, story);
    }
  }

  lemma NotCalled(s: State, m: Move)
    requires m.th in s.pc && s.pc[m.th].Idle? && m.Go?
    ensures EffectOf(s, m).pc.Idle?
  {
  }

  lemma OthersStay(s: State, m: Move, th: Thread)
    requires th in s.pc && m.th != th
    ensures th in Step(s, m).pc && Step(s, m).pc[th] == s.pc[th]
  {
    hide EffectOf;
  }

  /** A moment more at which there is nothing to do changes no story for the worse. */
  lemma FitsStays(p: Pc, r: Story)
    requires Fits(p, r)
    ensures Fits(p, r.(away := true))
  {
  }

  lemma {:induction false} AllTold(s0: State, moves: seq<Move>, th: Thread)
    requires Initial(s0) && th in s0.pc
    ensures Inv(Run(s0, moves)) && InStory(Run(s0, moves), th, StoryOf(s0, moves, th))
  {
    Starts(s0);
    InvAfter(s0, moves);
    if moves != [] {
      var before := moves[..|moves| - 1];
      AllTold(s0, before, th);
      TellsOn(Run(s0, before), moves[|moves| - 1], th, StoryOf(s0, before, th));
    }
  }

  lemma {:induction false} SameThreads(s0: State, moves: seq<Move>)
    ensures Run(s0, moves).pc.Keys == s0.pc.Keys
  {
    if moves != [] {
      SameThreads(s0, moves[..|moves| - 1]);
      hide EffectOf;
    }
  }

  /**
   * When an operation has returned, it has done what its call says and nothing else: an insert has claimed and linked
   * the task, a remove, a fini and a pop have unlinked it and left it free, a detach has latched it dead, a pop or a
   * peek holds it if it was to; or there was a moment since the call at which there was nothing to do.
   */
  lemma Returned(s0: State, moves: seq<Move>, th: Thread)
    requires Initial(s0) && th in Run(s0, moves).pc && StoryOf(s0, moves, th).Some?
    requires Run(s0, moves).pc[th].Idle? || Run(s0, moves).pc[th].Detached?
    ensures Outcome(StoryOf(s0, moves, th).value)
  {
    SameThreads(s0, moves);
    AllTold(s0, moves, th);
    hide Run, StoryOf, Outcome, Fits, Gone, Inv, Initial;
    OverIsOutcome(Run(s0, moves).pc[th], StoryOf(s0, moves, th).value);
  }

  lemma OverIsOutcome(p: Pc, r: Story)
    requires Fits(p, r) && (p.Idle? || p.Detached?)
    ensures Outcome(r)
  {
  }

  lemma {:induction false} CallIsMove(s0: State, moves: seq<Move>, th: Thread)
    requires StoryOf(s0, moves, th).Some?
    ensures StoryOf(s0, moves, th).value.call in moves && StoryOf(s0, moves, th).value.call.th == th
  {
    var before := moves[..|moves| - 1];
    if StoryOf(s0, before, th).Some? {
      CallIsMove(s0, before, th);
    }
  }

  /** A detach that has latched its task goes on exactly when nobody holds the task any more. */
  lemma DetachAwaits(s0: State, moves: seq<Move>, th: Thread, t: Task, pick: Option<Task>)
    requires Initial(s0) && th in Run(s0, moves).pc && Run(s0, moves).pc[th] == DetachWait(t)
    ensures var s' := Step(Run(s0, moves), Go(th, pick));
      th in s'.pc && s'.pc[th] == if t in Run(s0, moves).lent then DetachWait(t) else Detached(t)
  {
    Starts(s0);
    InvAfter(s0, moves);
    assert Counted(Run(s0, moves));
    hide Run, Inv, Initial;
  }

  /** Only a detach latches a task dead. */
  lemma LatchesOnly(p: Pc, r: Story, t: Task)
    requires Fits(p, r) && Owns(t, Dead) in r.log
    ensures r.call.Detach? && r.call.t == t
  {
  }

  lemma Latched(s: State, m: Move, t: Task)
    requires s.Owner(t) != Dead && Step(s, m).Owner(t) == Dead
    ensures m.th in s.pc && Owns(t, Dead) in WritesOf(EffectOf(s, m)) && !s.pc[m.th].Idle?
  {
    if m.th in s.pc {
      assert EffectOf(s, m).owner == Some((t, Dead)) by {
        hide EffectOf;
      }
      assert WritesOf(EffectOf(s, m))[0] == Owns(t, Dead);
    }
  }

  /** A task is dead only if some thread has called for its detach. */
  lemma {:induction false} DeadByDetach(s0: State, moves: seq<Move>, t: Task)
    requires Initial(s0) && Run(s0, moves).Owner(t) == Dead
    ensures exists th :: Detach(th, t) in moves
  {
    var before, m := moves[..|moves| - 1], moves[|moves| - 1];
    var s := Run(s0, before);
    if s.Owner(t) == Dead {
      DeadByDetach(s0, before, t);
      var th :| Detach(th, t) in before;
      assert Detach(th, t) in moves;
    } else {
      Latched(s, m, t);
      SameThreads(s0, before);
      AllTold(s0, before, m.th);
      AllTold(s0, moves, m.th);
      hide EffectOf, WritesOf, Fits, Inv, Gone;
      CallIsMove(s0, moves, m.th);
      var story := StoryOf(s0, moves, m.th);
      LatchesOnly(Run(s0, moves).pc[m.th], story.value, t);
      assert story.value.call == Detach(m.th, t);
    }
  }
}

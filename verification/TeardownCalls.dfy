/** What each put-aside, take, build and teardown has done by the time it returns, in all runs. */
module TeardownCalls {
  import opened Options
  import opened CgroupTeardown

  /** What a step changes that others can see. */
  datatype Write =
    | Parks(t: Task, l: Llcx)
    | Takes(t: Task, l: Llcx)
    | Maps(key: Key, l: Llcx)
    | Unmaps(key: Key)
    | Claims(l: Llcx)
    | Frees(l: Llcx)
    | Kills(t: Task)

  /**
   * A call of a thread and its writes so far; `away` if there was a moment since at which there was nothing to do for
   * it, `had` the contexts that its pair has had since.
   */
  datatype Story = Story(call: Move, log: seq<Write>, away: bool, had: set<Llcx>)

  ghost function WritesOf(s: State, e: Effect): seq<Write> {
    (if e.free.None? then [] else if e.free.value.1 then [Frees(e.free.value.0)] else [Claims(e.free.value.0)])
    + (if e.entry.None? then []
       else match e.entry.value.1
         case Some(l) => [Maps(e.entry.value.0, l)]
         case None => [Unmaps(e.entry.value.0)])
    + (if e.at.None? then []
       else match e.at.value.1
         case Some(l) => [Parks(e.at.value.0, l)]
         case None => if e.at.value.0 in s.at then [Takes(e.at.value.0, s.at[e.at.value.0])] else [])
    + (if e.dead.None? then [] else [Kills(e.dead.value)])
  }

  /** There is nothing to do for the call. */
  ghost predicate Gone(call: Move, s: State) {
    match call
    case Put(_, key, t) => key !in s.mapped || t in s.at || t in s.dead
    case Free(_, key) => key == ROOT || key !in s.mapped
    case Take(_, l) => forall t :: t in s.at ==> s.at[t] != l
    case Publish(_, key, l) => key in s.mapped || l !in s.free
    case Kill(_, t) => true
    case Go(_, _) => true
  }

  ghost function HadBy(call: Move, s: State): set<Llcx> {
    if (call.Put? || call.Free?) && call.key in s.mapped then {s.mapped[call.key]} else {}
  }

  /** The last call of a thread in a run. */
  ghost function StoryOf(s0: State, moves: seq<Move>, th: Thread): Option<Story> {
    if moves == [] then None
    else
      var before, m := moves[..|moves| - 1], moves[|moves| - 1];
      Told(Run(s0, before), m, th, StoryOf(s0, before, th))
  }

  /** How a step goes on with the story of a thread. */
  ghost function Told(s: State, m: Move, th: Thread, story: Option<Story>): Option<Story> {
    if th !in s.pc then story
    else if m.th == th && s.pc[th].Idle? && !m.Go? then
      Some(Story(m, WritesOf(s, EffectOf(s, m)), Gone(m, s) || Gone(m, Step(s, m)), HadBy(m, s) + HadBy(m, Step(s, m))))
    else if story.None? then None
    else
      var r := story.value;
      Some(Story(r.call, if m.th == th then r.log + WritesOf(s, EffectOf(s, m)) else r.log,
        r.away || Gone(r.call, Step(s, m)), r.had + HadBy(r.call, Step(s, m))))
  }

  /** A teardown of a pair has unpublished it and moves the tasks of context l to the root. */
  ghost predicate Moving(log: seq<Write>, key: Key, l: Llcx, root: Llcx) {
    && log != [] && log[0] == Unmaps(key)
    && forall i :: 0 < i < |log| ==> (log[i].Takes? && log[i].l == l) || (log[i].Parks? && log[i].l == root)
  }

  /** What a call has written when it is over. */
  ghost predicate Outcome(r: Story, root: Llcx) {
    match r.call
    case Put(_, key, t) => (exists l :: l in r.had && r.log == [Parks(t, l)]) || (r.log == [] && r.away)
    case Take(_, l) => (exists t :: r.log == [Takes(t, l)]) || (r.log == [] && r.away)
    case Publish(_, key, l) =>
      r.log == [Claims(l), Maps(key, l)] || (r.away && (r.log == [] || r.log == [Claims(l), Frees(l)]))
    case Free(_, key) =>
      || (r.log == [] && r.away)
      || (exists l, mid :: l in r.had && Moving(mid, key, l, root) && r.log == mid + [Frees(l)])
    case Kill(_, t) => r.log == [] || r.log == [Kills(t)]
    case Go(_, _) => false
  }

  ghost predicate Putting(s: State, p: Pc, r: Story, key: Key, t: Task) {
    || (p == PutLook(key, t, None) && r.log == [])
    || ((p.PutLock? || p.PutCheck?) && p.key == key && p.t == t && p.back == None && r.log == [] && p.l in r.had
        && (r.away || (key in s.mapped && s.mapped[key] == p.l)))
    || (p.PutInsert? && p.key == key && p.t == t && p.back == None && r.log == [] && p.l in r.had)
    || (p == PutFailed(key, None) && r.log == [] && r.away)
    || (p.PutUnlock? && p.back == None)
    || p == Idle
  }

  /** Where a teardown of context l can be once it has unpublished it. */
  ghost predicate Emptying(p: Pc, l: Llcx, root: Llcx) {
    || p == DrainLock(l) || p == DrainPop(l) || (p.DrainUnlock? && p.l == l) || p == Recycle(l)
    || (p.PutLook? && p.key == ROOT && p.back == Some(l))
    || ((p.PutLock? || p.PutCheck? || p.PutInsert?) && p.key == ROOT && p.l == root && p.back == Some(l))
    || p == PutUnlock(root, Some(l))
  }

  ghost predicate Freeing(p: Pc, r: Story, key: Key, root: Llcx) {
    || (p == FreeLook(key) && key != ROOT && r.log == [])
    || (p.FreeDelete? && p.key == key && key != ROOT && p.l in r.had && r.log == [])
    || (p.Owned().Some? && p.Owned().value in r.had && Emptying(p, p.Owned().value, root)
        && Moving(r.log, key, p.Owned().value, root))
    || p == Idle
  }

  /** What a thread at `p` has written of its call. */
  ghost predicate Fits(s: State, p: Pc, r: Story, root: Llcx) {
    match r.call
    case Put(_, key, t) => Putting(s, p, r, key, t) && (p.PutUnlock? || p == Idle ==> Outcome(r, root))
    case Take(_, l) =>
      ((p == TakeLock(l) || p == TakePop(l)) && r.log == []) || ((p == TakeUnlock(l) || p == Idle) && Outcome(r, root))
    case Publish(_, key, l) =>
      || (p == Fresh(key, l) && r.log == [Claims(l)])
      || (p == Recycle(l) && r.log == [Claims(l)] && r.away)
      || (p == Idle && Outcome(r, root))
    case Free(_, key) => Freeing(p, r, key, root) && (p == Idle ==> Outcome(r, root))
    case Kill(_, t) => p == Idle && Outcome(r, root)
    case Go(_, _) => false
  }

  // ----- the root keeps its context -----

  ghost predicate RootKept(s: State, root: Llcx) {
    && ROOT in s.mapped && s.mapped[ROOT] == root
    && forall th :: th in s.pc && (s.pc[th].FreeLook? || s.pc[th].FreeDelete?) ==> s.pc[th].key != ROOT
  }

  lemma RootRule(s: State, m: Move)
    requires m.th in s.pc && ((s.pc[m.th].FreeLook? || s.pc[m.th].FreeDelete?) ==> s.pc[m.th].key != ROOT)
    ensures var e := EffectOf(s, m);
      && (e.pc.FreeLook? || e.pc.FreeDelete? ==> e.pc.key != ROOT)
      && (e.entry.Some? ==> if e.entry.value.1.Some? then e.entry.value.0 !in s.mapped else e.entry.value.0 != ROOT)
  {
  }

  lemma RootStep(s: State, m: Move, root: Llcx)
    requires RootKept(s, root)
    ensures RootKept(Step(s, m), root)
  {
    if m.th in s.pc {
      RootRule(s, m);
      PcAfter(s, m);
      hide EffectOf, Step;
    }
  }

  // ----- every step goes on as its call says -----

  lemma Begins(s: State, m: Move, root: Llcx, r: Story)
    requires m.th in s.pc && s.pc[m.th].Idle? && !m.Go? && r.call == m && r.log == WritesOf(s, EffectOf(s, m))
    requires Gone(m, s) ==> r.away
    ensures Fits(s, EffectOf(s, m).pc, r, root)
  {
  }

  lemma NoWrites(s: State, log: seq<Write>, p: Pc)
    ensures log + WritesOf(s, To(p)) == log
  {
  }

  lemma GoesOnPutting(s: State, p: Pc, pick: Option<Task>, r: Story, root: Llcx)
    requires r.call.Put? && Fits(s, p, r, root) && (Gone(r.call, s) ==> r.away) && HadBy(r.call, s) <= r.had
    ensures var e := Advance(s, p, pick); Fits(s, e.pc, r.(log := r.log + WritesOf(s, e)), root)
  {
    assert r.log + [] == r.log;
    hide Popped;
  }

  lemma GoesOnTaking(s: State, p: Pc, pick: Option<Task>, r: Story, root: Llcx)
    requires r.call.Take? && Fits(s, p, r, root) && (Gone(r.call, s) ==> r.away)
    ensures var e := Advance(s, p, pick); Fits(s, e.pc, r.(log := r.log + WritesOf(s, e)), root)
  {
    assert r.log + [] == r.log;
  }

  lemma GoesOnPublishing(s: State, p: Pc, pick: Option<Task>, r: Story, root: Llcx)
    requires r.call.Publish? && Fits(s, p, r, root) && (Gone(r.call, s) ==> r.away)
    ensures var e := Advance(s, p, pick); Fits(s, e.pc, r.(log := r.log + WritesOf(s, e)), root)
  {
    assert r.log + [] == r.log;
  }

  lemma MovingMore(log: seq<Write>, key: Key, l: Llcx, root: Llcx, w: Write)
    requires Moving(log, key, l, root) && ((w.Takes? && w.l == l) || (w.Parks? && w.l == root))
    ensures Moving(log + [w], key, l, root)
  {
  }

  lemma GoesOnLooking(s: State, p: Pc, pick: Option<Task>, r: Story, root: Llcx)
    requires r.call.Free? && Fits(s, p, r, root) && (Gone(r.call, s) ==> r.away) && HadBy(r.call, s) <= r.had
    requires p.FreeLook? || p.FreeDelete? || p.Idle?
    ensures var e := Advance(s, p, pick); Fits(s, e.pc, r.(log := r.log + WritesOf(s, e)), root)
  {
    assert r.log + [] == r.log;
  }

  lemma EmptyingWrites(s: State, p: Pc, pick: Option<Task>, l: Llcx, root: Llcx)
    requires Emptying(p, l, root) && p.Owned() == Some(l) && RootKept(s, root)
    ensures var e := Advance(s, p, pick); var w := WritesOf(s, e);
      if p.Recycle? then e.pc == Idle && w == [Frees(l)]
      else
        && Emptying(e.pc, l, root) && e.pc.Owned() == Some(l)
        && (w == [] || (|w| == 1 && ((w[0].Takes? && w[0].l == l) || (w[0].Parks? && w[0].l == root))))
  {
  }

  lemma GoesOnEmptying(s: State, p: Pc, pick: Option<Task>, r: Story, root: Llcx)
    requires r.call.Free? && Fits(s, p, r, root) && RootKept(s, root) && !p.FreeLook? && !p.FreeDelete? && !p.Idle?
    ensures var e := Advance(s, p, pick); Fits(s, e.pc, r.(log := r.log + WritesOf(s, e)), root)
  {
    var l := p.Owned().value;
    EmptyingWrites(s, p, pick, l, root);
    var e := Advance(s, p, pick);
    var w := WritesOf(s, e);
    assert r.log + [] == r.log;
    hide Advance, WritesOf, Emptying, RootKept;
    if p.Recycle? {
      assert l in r.had && Moving(r.log, r.call.key, l, root) && r.log + w == r.log + [Frees(l)];
    } else if w != [] {
      assert w == [w[0]];
      MovingMore(r.log, r.call.key, l, root, w[0]);
    }
  }

  lemma GoesOn(s: State, p: Pc, pick: Option<Task>, r: Story, root: Llcx)
    requires Fits(s, p, r, root) && (Gone(r.call, s) ==> r.away) && HadBy(r.call, s) <= r.had && RootKept(s, root)
    ensures var e := Advance(s, p, pick); Fits(s, e.pc, r.(log := r.log + WritesOf(s, e)), root)
  {
    if r.call.Kill? {
      NoWrites(s, r.log, p);
      return;
    }
    hide Advance, WritesOf, Fits, Gone, HadBy, RootKept;
    match r.call {
      case Put(_, _, _) => GoesOnPutting(s, p, pick, r, root);
      case Take(_, _) => GoesOnTaking(s, p, pick, r, root);
      case Publish(_, _, _) => GoesOnPublishing(s, p, pick, r, root);
      case Free(_, _) =>
        if p.FreeLook? || p.FreeDelete? || p.Idle? {
          GoesOnLooking(s, p, pick, r, root);
        } else {
          GoesOnEmptying(s, p, pick, r, root);
        }
      case _ => NoCall(s, p, r, root);
    }
  }

  lemma NoCall(s: State, p: Pc, r: Story, root: Llcx)
    requires Fits(s, p, r, root)
    ensures !r.call.Go?
  {
  }

  /** A pair that has a context keeps it, or has none. */
  ghost predicate Unpublished(s: State, s': State) {
    forall k :: k in s.mapped && k in s'.mapped ==> s'.mapped[k] == s.mapped[k]
  }

  /** Another state, in which pairs have lost contexts at most, and a longer memory. */
  lemma FitsStays(s: State, s': State, p: Pc, r: Story, r': Story, root: Llcx)
    requires Fits(s, p, r, root) && Unpublished(s, s') && r'.call == r.call && r'.log == r.log && r.had <= r'.had
    requires r'.away == (r.away || Gone(r.call, s'))
    ensures Fits(s', p, r', root)
  {
  }

  // ----- whole runs -----

  /** A thread is at a place of its call, or has not called anything. */
  ghost predicate InStory(s: State, th: Thread, story: Option<Story>, root: Llcx) {
    && th in s.pc && RootKept(s, root)
    && match story
       case None => s.pc[th].Idle?
       case Some(r) => Fits(s, s.pc[th], r, root) && (Gone(r.call, s) ==> r.away) && HadBy(r.call, s) <= r.had
  }

  lemma NotCalled(s: State, m: Move)
    requires m.th in s.pc && s.pc[m.th].Idle? && m.Go?
    ensures EffectOf(s, m).pc.Idle?
  {
  }

  lemma OnlyUnpublishes(s: State, m: Move)
    requires m.th in s.pc
    ensures Unpublished(s, Step(s, m))
  {
    AdvanceOwns(s, s.pc[m.th], if m.Go? then m.pick else None);
    hide Advance;
  }

  lemma NotIdle(s: State, m: Move, log: seq<Write>)
    requires m.th in s.pc && !m.Go? && !s.pc[m.th].Idle?
    ensures EffectOf(s, m) == To(s.pc[m.th]) && log + WritesOf(s, EffectOf(s, m)) == log
  {
  }

  /** The story of a thread after a step of its own. */
  lemma OwnStep(s: State, m: Move, story: Option<Story>, root: Llcx)
    requires InStory(s, m.th, story, root)
    ensures InStory(Step(s, m), m.th, Told(s, m, m.th, story), root)
  {
    RootStep(s, m, root);
    PcAfter(s, m);
    OnlyUnpublishes(s, m);
    var p, e, s' := s.pc[m.th], EffectOf(s, m), Step(s, m);
    if p.Idle? && !m.Go? {
      var r := Story(m, WritesOf(s, e), Gone(m, s), HadBy(m, s));
      Begins(s, m, root, r);
      hide Fits, EffectOf, WritesOf, Step, Gone, HadBy, RootKept, Unpublished;
      FitsStays(s, s', e.pc, r, Told(s, m, m.th, story).value, root);
    } else if story.Some? {
      var r := story.value;
      var r' := r.(log := r.log + WritesOf(s, e));
      if m.Go? {
        GoesOn(s, p, m.pick, r, root);
      } else {
        NotIdle(s, m, r.log);
      }
      hide Fits, Advance, WritesOf, Step, Gone, HadBy, RootKept, Unpublished;
      FitsStays(s, s', e.pc, r', Told(s, m, m.th, story).value, root);
    } else {
      NotCalled(s, m);
      hide EffectOf, WritesOf, Step, RootKept;
    }
  }

  lemma OtherStep(s: State, m: Move, th: Thread, story: Option<Story>, root: Llcx)
    requires InStory(s, th, story, root) && m.th != th
    ensures InStory(Step(s, m), th, Told(s, m, th, story), root)
  {
    RootStep(s, m, root);
    if m.th in s.pc {
      PcAfter(s, m);
      OnlyUnpublishes(s, m);
    }
    hide EffectOf, Fits, Gone, HadBy, RootKept, WritesOf;
    if story.Some? {
      FitsStays(s, Step(s, m), s.pc[th], story.value, Told(s, m, th, story).value, root);
    }
  }

  lemma {:induction false} AllTold(s0: State, moves: seq<Move>, th: Thread)
    requires Initial(s0) && th in s0.pc
    ensures InStory(Run(s0, moves), th, StoryOf(s0, moves, th), s0.mapped[ROOT])
  {
    if moves != [] {
      var before, m := moves[..|moves| - 1], moves[|moves| - 1];
      AllTold(s0, before, th);
      if m.th == th {
        OwnStep(Run(s0, before), m, StoryOf(s0, before, th), s0.mapped[ROOT]);
      } else {
        OtherStep(Run(s0, before), m, th, StoryOf(s0, before, th), s0.mapped[ROOT]);
      }
      hide Step, Told, InStory;
    }
  }

  lemma {:induction false} SameThreads(s0: State, moves: seq<Move>)
    ensures Run(s0, moves).pc.Keys == s0.pc.Keys
  {
    if moves != [] {
      SameThreads(s0, moves[..|moves| - 1]);
      hide EffectOf;
    }
  }

  /**
   * When an operation has returned, it has done what its call says and nothing else, under any rule: a put-aside has
   * parked the task in a context that the pair had, a take has taken one task, a build has published the context, a
   * teardown has unpublished the pair, moved tasks of the context to the root alone and given the context back; or
   * there was a moment since the call at which there was nothing to do.
   */
  lemma Returned(s0: State, moves: seq<Move>, th: Thread)
    requires Initial(s0) && th in Run(s0, moves).pc && Run(s0, moves).pc[th].Idle?
    requires StoryOf(s0, moves, th).Some?
    ensures Outcome(StoryOf(s0, moves, th).value, s0.mapped[ROOT])
  {
    SameThreads(s0, moves);
    AllTold(s0, moves, th);
    IdleIsOver(Run(s0, moves), StoryOf(s0, moves, th).value, s0.mapped[ROOT]);
    hide Run, StoryOf, Fits, Outcome;
  }

  lemma IdleIsOver(s: State, r: Story, root: Llcx)
    ensures Fits(s, Idle, r, root) ==> Outcome(r, root)
  {
  }
}

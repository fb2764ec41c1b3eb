/**
 * Parking throttled tasks against the teardown of a cgroup's backlog queues. Every LLC context
 * carries one queue, and both are recycled for later cgroups. Threads take atomic steps in any order.
 */
module CgroupTeardown {
  import opened Options

  type Thread = nat
  type Task = nat

  /** A cgroup and LLC. A pair is published again when a build that failed is tried once more. */
  type Key = nat

  /** An LLC context with its backlog queue. */
  type Llcx = nat

  /** The root's context is never torn down. */
  const ROOT: Key := 0

  datatype Pc =
    | Idle
    | PutLook(key: Key, t: Task, back: Option<Llcx>)
    | PutLock(key: Key, l: Llcx, t: Task, back: Option<Llcx>)
    | PutCheck(key: Key, l: Llcx, t: Task, back: Option<Llcx>)
    | PutInsert(key: Key, l: Llcx, t: Task, back: Option<Llcx>)
    | PutUnlock(l: Llcx, back: Option<Llcx>)
    | PutFailed(key: Key, back: Option<Llcx>)
    | FreeLook(key: Key)
    | FreeDelete(key: Key, l: Llcx)
    | DrainLock(l: Llcx)
    | DrainPop(l: Llcx)
    | DrainUnlock(l: Llcx, got: Option<Task>)
    | Recycle(l: Llcx)
    | Fresh(key: Key, l: Llcx)
    | TakeLock(l: Llcx)
    | TakePop(l: Llcx)
    | TakeUnlock(l: Llcx)
  {
    /** Holds the lock of queue `l`. */
    predicate Critical() {
      PutCheck? || PutInsert? || PutUnlock? || DrainPop? || DrainUnlock? || TakePop? || TakeUnlock?
    }

    /** The context that is this thread's alone: unpublished, or not published yet. */
    function Owned(): Option<Llcx> {
      if DrainLock? || DrainPop? || DrainUnlock? || Recycle? || Fresh? then Some(l)
      else if PutLook? || PutLock? || PutCheck? || PutInsert? || PutUnlock? || PutFailed? then back
      else None
    }

    /** Has found its context's queue empty, or not shown the context to anybody yet. */
    predicate Empty(x: Llcx) {
      (Recycle? || Fresh?) && l == x
    }
  }

  /** `at` says which queue a task is parked in; `dead` tasks are never parked again. */
  datatype State = State(mapped: map<Key, Llcx>, free: set<Llcx>, locks: map<Llcx, Thread>, at: map<Task, Llcx>,
    dead: set<Task>, pc: map<Thread, Pc>)

  datatype Move =
    | Put(th: Thread, key: Key, t: Task)
    | Free(th: Thread, key: Key)
    | Take(th: Thread, l: Llcx)
    | Publish(th: Thread, key: Key, l: Llcx)
    | Kill(th: Thread, t: Task)
    | Go(th: Thread, pick: Option<Task>)

  /** What one atomic step writes. */
  datatype Effect = Effect(
    entry: Option<(Key, Option<Llcx>)>, free: Option<(Llcx, bool)>, lock: Option<(Llcx, bool)>,
    at: Option<(Task, Option<Llcx>)>, dead: Option<Task>, pc: Pc)

  function To(p: Pc): Effect {
    Effect(None, None, None, None, None, p)
  }

  function Step(s: State, m: Move): State {
    if m.th in s.pc then Apply(s, m.th, EffectOf(s, m)) else s
  }

  function Apply(s: State, th: Thread, e: Effect): State {
    State(
      if e.entry.None? then s.mapped
        else if e.entry.value.1.Some? then s.mapped[e.entry.value.0 := e.entry.value.1.value]
        else s.mapped - {e.entry.value.0},
      if e.free.None? then s.free else if e.free.value.1 then s.free + {e.free.value.0} else s.free - {e.free.value.0},
      if e.lock.None? then s.locks else if e.lock.value.1 then s.locks[e.lock.value.0 := th]
        else s.locks - {e.lock.value.0},
      if e.at.None? then s.at else if e.at.value.1.Some? then s.at[e.at.value.0 := e.at.value.1.value]
        else s.at - {e.at.value.0},
      if e.dead.Some? then s.dead + {e.dead.value} else s.dead,
      s.pc[th := e.pc])
  }

  function EffectOf(s: State, m: Move): Effect
    requires m.th in s.pc
  {
    var p := s.pc[m.th];
    match m
    case Put(_, key, t) => To(if p.Idle? then PutLook(key, t, None) else p)
    case Free(_, key) => To(if p.Idle? && key != ROOT then FreeLook(key) else p)
    case Take(_, l) => To(if p.Idle? then TakeLock(l) else p)
    case Publish(_, key, l) =>
      if p.Idle? && l in s.free then To(Fresh(key, l)).(free := Some((l, false))) else To(p)
    case Kill(_, t) => if p.Idle? && t !in s.at then To(p).(dead := Some(t)) else To(p)
    case Go(_, pick) => Advance(s, p, pick)
  }

  function Lock(s: State, p: Pc, l: Llcx, next: Pc): Effect {
    if l in s.locks then To(p) else To(next).(lock := Some((l, true)))
  }

  function Unlock(l: Llcx, next: Pc): Effect {
    To(next).(lock := Some((l, false)))
  }

  /** A put-aside is over: the caller returns, or goes on draining. */
  function Back(back: Option<Llcx>): Pc {
    match back
    case None => Idle
    case Some(l) => DrainLock(l)
  }

  /** The task a pop takes out of queue `l`: any one, or none if there is none. */
  predicate Popped(s: State, l: Llcx, pick: Option<Task>) {
    match pick
    case None => forall t :: t in s.at ==> s.at[t] != l
    case Some(t) => t in s.at && s.at[t] == l
  }

  function Pop(s: State, p: Pc, l: Llcx, pick: Option<Task>, next: Pc): Effect {
    if !Popped(s, l, pick) then To(p) else if pick.Some? then To(next).(at := Some((pick.value, None))) else To(next)
  }

  /** The next atomic access of a thread at `p`; `pick` is the task a pop finds. */
  function Advance(s: State, p: Pc, pick: Option<Task>): Effect {
    match p
    case Idle => To(p)
    case PutLook(key, t, back) =>
      To(if key in s.mapped then PutLock(key, s.mapped[key], t, back) else PutFailed(key, back))
    case PutLock(key, l, t, back) => Lock(s, p, l, PutCheck(key, l, t, back))
    case PutCheck(key, l, t, back) =>
      if key in s.mapped && s.mapped[key] == l then To(PutInsert(key, l, t, back)) else Unlock(l, PutFailed(key, back))
    case PutInsert(key, l, t, back) =>
      if t in s.at || t in s.dead then To(PutUnlock(l, back)) else To(PutUnlock(l, back)).(at := Some((t, Some(l))))
    case PutUnlock(l, back) => Unlock(l, Back(back))
    case PutFailed(_, back) => To(Back(back))
    case FreeLook(key) => To(if key in s.mapped then FreeDelete(key, s.mapped[key]) else Idle)
    case FreeDelete(key, l) => if key in s.mapped then To(DrainLock(l)).(entry := Some((key, None))) else To(Idle)
    case DrainLock(l) => Lock(s, p, l, DrainPop(l))
    case DrainPop(l) => Pop(s, p, l, pick, DrainUnlock(l, pick))
    case DrainUnlock(l, got) => Unlock(l, match got case None => Recycle(l) case Some(t) => PutLook(ROOT, t, Some(l)))
    case Recycle(l) => To(Idle).(free := Some((l, true)))
    case Fresh(key, l) => if key in s.mapped then To(Recycle(l)) else To(Idle).(entry := Some((key, Some(l))))
    case TakeLock(l) => Lock(s, p, l, TakePop(l))
    case TakePop(l) => Pop(s, p, l, pick, TakeUnlock(l))
    case TakeUnlock(l) => Unlock(l, Idle)
  }

  ghost function Run(s: State, moves: seq<Move>): State {
    if moves == [] then s else Step(Run(s, moves[..|moves| - 1]), moves[|moves| - 1])
  }

  /** Only the root has a context; the free contexts have empty queues. */
  ghost predicate Initial(s: State) {
    && ROOT in s.mapped
    && s.mapped == map[ROOT := s.mapped[ROOT]] && s.mapped[ROOT] !in s.free
    && s.locks == map[] && s.at == map[] && forall th :: th in s.pc ==> s.pc[th] == Idle
  }

  // ----- which calls may overlap -----

  /**
   * `rebuild`: a pair may be built while it is torn down. `twice`: two teardowns of a pair may overlap. A
   * teardown is over when the pair is unpublished.
   */
  datatype Rule = Rule(rebuild: bool, twice: bool)

  predicate Tears(p: Pc, key: Key) { (p.FreeLook? || p.FreeDelete?) && p.key == key }

  predicate Builds(p: Pc, key: Key) { p.Fresh? && p.key == key }

  ghost predicate Torn(s: State, key: Key) { exists th :: th in s.pc && Tears(s.pc[th], key) }

  ghost predicate Built(s: State, key: Key) { exists th :: th in s.pc && Builds(s.pc[th], key) }

  /** The rule lets this call begin now. Calls that have begun go on as they like. */
  ghost predicate May(rule: Rule, s: State, m: Move) {
    && (m.Publish? && m.th in s.pc && s.pc[m.th].Idle? ==> rule.rebuild || !Torn(s, m.key))
    && (m.Free? && m.th in s.pc && s.pc[m.th].Idle? ==>
          (rule.rebuild || !Built(s, m.key)) && (rule.twice || !Torn(s, m.key)))
  }

  ghost predicate Obeys(rule: Rule, s: State, moves: seq<Move>) {
    moves == [] ||
    (var before := moves[..|moves| - 1];
     Obeys(rule, s, before) && May(rule, Run(s, before), moves[|moves| - 1]))
  }

  /** Builds do not overlap teardowns of the same pair, or teardowns do not overlap each other. */
  ghost predicate Safe(rule: Rule) { !rule.rebuild || !rule.twice }

  /** What the rule keeps two threads from doing at a time. */
  ghost predicate Apart(rule: Rule, p: Pc, q: Pc) {
    && (!rule.rebuild && p.Fresh? ==> !Tears(q, p.key))
    && (!rule.twice && (p.FreeLook? || p.FreeDelete?) ==> !Tears(q, p.key))
  }

  ghost predicate AllApart(rule: Rule, s: State) {
    forall th, u :: th in s.pc && u in s.pc && th != u ==> Apart(rule, s.pc[th], s.pc[u])
  }

  // ----- the invariant -----

  ghost predicate LocksHeld(s: State) {
    && (forall th :: th in s.pc && s.pc[th].Critical() ==> s.pc[th].l in s.locks && s.locks[s.pc[th].l] == th)
    && (forall l :: l in s.locks ==> s.locks[l] in s.pc && s.pc[s.locks[l]].Critical() && s.pc[s.locks[l]].l == l)
  }

  /** A context is published under one key, owned by one thread, or free. */
  ghost predicate Exclusive(s: State) {
    && ROOT in s.mapped
    && (forall k, j :: k in s.mapped && j in s.mapped && s.mapped[k] == s.mapped[j] ==> k == j)
    && (forall k :: k in s.mapped ==> s.mapped[k] !in s.free)
    && (forall th :: th in s.pc && s.pc[th].Owned().Some? ==>
          s.pc[th].Owned().value !in s.free && forall k :: k in s.mapped ==> s.mapped[k] != s.pc[th].Owned().value)
    && (forall th, u :: th in s.pc && u in s.pc && th != u && s.pc[th].Owned().Some? ==>
          s.pc[u].Owned() != s.pc[th].Owned())
  }

  /** What threads on their way know about the key they came by. */
  ghost predicate Keys(rule: Rule, s: State, p: Pc) {
    && (p.FreeDelete? ==> (p.key in s.mapped ==> s.mapped[p.key] == p.l) && (rule.twice || p.key in s.mapped))
    && (p.FreeLook? || p.FreeDelete? ==> p.key != ROOT)
    && ((p.PutLook? || p.PutLock? || p.PutCheck? || p.PutInsert? || p.PutFailed?) && p.back.Some? ==> p.key == ROOT)
    && ((p.PutLock? || p.PutCheck? || p.PutInsert?) && p.key == ROOT ==> ROOT in s.mapped && s.mapped[ROOT] == p.l)
    && !(p.PutFailed? && p.key == ROOT)
  }

  /** A context known to be empty has no task and nobody about to add one. */
  ghost predicate Drained(s: State, l: Llcx) {
    (forall t :: t in s.at ==> s.at[t] != l) && forall th :: th in s.pc ==> !(s.pc[th].PutInsert? && s.pc[th].l == l)
  }

  ghost predicate EmptyStays(s: State) {
    && (forall l :: l in s.free ==> Drained(s, l))
    && (forall th, l :: th in s.pc && s.pc[th].Empty(l) ==> Drained(s, l))
    && (forall th :: th in s.pc && s.pc[th].DrainUnlock? && s.pc[th].got.None? ==> Drained(s, s.pc[th].l))
  }

  /** A context is free, published or some thread's. */
  ghost predicate Placed(s: State, l: Llcx) {
    || l in s.free
    || (exists k :: k in s.mapped && s.mapped[k] == l)
    || (exists th :: th in s.pc && s.pc[th].Owned() == Some(l))
  }

  ghost predicate Parked(s: State) {
    && (forall t :: t in s.at ==> Placed(s, s.at[t]))
    && (forall th :: th in s.pc && s.pc[th].PutInsert? ==> Placed(s, s.pc[th].l))
  }

  ghost predicate Inv(rule: Rule, s: State) {
    && LocksHeld(s) && Exclusive(s) && EmptyStays(s) && Parked(s) && AllApart(rule, s)
    && ROOT in s.mapped && forall th :: th in s.pc ==> Keys(rule, s, s.pc[th])
  }

  // ----- each step keeps it -----

  ghost predicate LockRule(s: State, p: Pc, e: Effect) {
    if p.Critical() == e.pc.Critical() then e.lock.None? && (p.Critical() ==> e.pc.l == p.l)
    else if e.pc.Critical() then e.pc.l !in s.locks && e.lock == Some((e.pc.l, true))
    else e.lock == Some((p.l, false))
  }

  /** How contexts pass between the map, a thread and the free list. */
  ghost predicate OwnRule(s: State, p: Pc, e: Effect) {
    || (e.entry.None? && e.free.None? && e.pc.Owned() == p.Owned())
    || (p.FreeDelete? && p.key in s.mapped && e.entry == Some((p.key, None)) && e.free.None? && e.pc == DrainLock(p.l))
    || (p.Fresh? && p.key !in s.mapped && e.entry == Some((p.key, Some(p.l))) && e.free.None? && e.pc == Idle)
    || (p.Recycle? && e.entry.None? && e.free == Some((p.l, true)) && e.pc == Idle)
    || (p.Idle? && e.entry.None? && e.pc.Fresh? && e.pc.l in s.free && e.free == Some((e.pc.l, false)))
  }

  /** When tasks are parked and contexts seen empty. */
  ghost predicate EmptyRule(s: State, p: Pc, e: Effect) {
    && (e.at.Some? && e.at.value.1.Some? ==> p.PutInsert? && e.at.value.1.value == p.l)
    && (e.pc.PutInsert? && e.pc != p ==> p.PutCheck? && e.pc.l == p.l && p.key in s.mapped && s.mapped[p.key] == p.l)
    && (e.pc.Recycle? && e.pc != p ==> p == DrainUnlock(e.pc.l, None) || (p.Fresh? && p.l == e.pc.l))
    && (e.pc.Fresh? && e.pc != p ==> e.pc.l in s.free)
    && (e.pc.DrainUnlock? && e.pc.got.None? && e.pc != p ==> p == DrainPop(e.pc.l) && Popped(s, e.pc.l, None))
  }

  lemma Rules(s: State, m: Move)
    requires m.th in s.pc
    ensures var p, e := s.pc[m.th], EffectOf(s, m); LockRule(s, p, e) && OwnRule(s, p, e) && EmptyRule(s, p, e)
  {
    hide Advance;
    if m.Go? {
      AdvanceLocks(s, s.pc[m.th], m.pick);
      AdvanceOwns(s, s.pc[m.th], m.pick);
      AdvanceEmpties(s, s.pc[m.th], m.pick);
      hide *;
    }
  }

  lemma AdvanceLocks(s: State, p: Pc, pick: Option<Task>)
    ensures LockRule(s, p, Advance(s, p, pick))
  {
    hide Popped;
  }

  lemma AdvanceOwns(s: State, p: Pc, pick: Option<Task>)
    ensures OwnRule(s, p, Advance(s, p, pick))
  {
    hide Popped;
  }

  lemma AdvanceEmpties(s: State, p: Pc, pick: Option<Task>)
    ensures EmptyRule(s, p, Advance(s, p, pick))
  {
    hide Popped;
  }

  lemma RuleLocks(s: State, th: Thread, e: Effect)
    requires LocksHeld(s) && th in s.pc && LockRule(s, s.pc[th], e)
    ensures LocksHeld(Apply(s, th, e))
  {
  }

  lemma RuleExclusive(s: State, th: Thread, e: Effect)
    requires Exclusive(s) && th in s.pc && OwnRule(s, s.pc[th], e) && Finds(s, s.pc[th])
    ensures Exclusive(Apply(s, th, e))
  {
  }

  /** A teardown unpublishes what it has looked up. */
  ghost predicate Finds(s: State, p: Pc) {
    p.FreeDelete? && p.key in s.mapped ==> p.key != ROOT && s.mapped[p.key] == p.l
  }

  lemma PlacedStays(s: State, th: Thread, e: Effect, l: Llcx)
    requires Placed(s, l) && th in s.pc && OwnRule(s, s.pc[th], e) && Finds(s, s.pc[th])
    ensures Placed(Apply(s, th, e), l)
  {
    var s', p := Apply(s, th, e), s.pc[th];
    assert s'.pc == s.pc[th := e.pc];
    if k :| k in s.mapped && s.mapped[k] == l {
      assert (k in s'.mapped && s'.mapped[k] == l) || s'.pc[th].Owned() == Some(l);
    } else if u :| u in s.pc && s.pc[u].Owned() == Some(l) {
      if u == th {
        assert s'.pc[th].Owned() == Some(l) || l in s'.free || (p.Fresh? && s'.mapped[p.key] == l);
      } else {
        assert s'.pc[u].Owned() == Some(l);
      }
    } else if l !in s'.free {
      assert s'.pc[th].Owned() == Some(l);
    }
  }

  lemma RuleParked(s: State, th: Thread, e: Effect)
    requires Parked(s) && th in s.pc && OwnRule(s, s.pc[th], e) && EmptyRule(s, s.pc[th], e) && Finds(s, s.pc[th])
    ensures Parked(Apply(s, th, e))
  {
    var s', p := Apply(s, th, e), s.pc[th];
    assert s'.pc == s.pc[th := e.pc];
    forall t | t in s'.at ensures Placed(s', s'.at[t]) {
      PlacedStays(s, th, e, s'.at[t]);
    }
    forall u | u in s'.pc && s'.pc[u].PutInsert? ensures Placed(s', s'.pc[u].l) {
      if u == th && e.pc != p {
        assert p.key in s.mapped && s.mapped[p.key] == e.pc.l;
      }
      PlacedStays(s, th, e, s'.pc[u].l);
    }
  }

  /** A context that is not published stays drained. */
  lemma DrainedStays(s: State, th: Thread, e: Effect, l: Llcx)
    requires Drained(s, l) && th in s.pc && EmptyRule(s, s.pc[th], e) && forall k :: k in s.mapped ==> s.mapped[k] != l
    ensures Drained(Apply(s, th, e), l)
  {
  }

  /** The lock makes an empty queue drained: nobody is about to add a task. */
  lemma EmptyIsDrained(s: State, th: Thread)
    requires LocksHeld(s) && th in s.pc && s.pc[th].DrainPop? && Popped(s, s.pc[th].l, None)
    ensures Drained(s, s.pc[th].l)
  {
  }

  lemma RuleEmpty(s: State, th: Thread, e: Effect)
    requires LocksHeld(s) && Exclusive(s) && EmptyStays(s) && th in s.pc && OwnRule(s, s.pc[th], e)
    requires EmptyRule(s, s.pc[th], e)
    ensures EmptyStays(Apply(s, th, e))
  {
    var s', p := Apply(s, th, e), s.pc[th];
    assert s'.pc == s.pc[th := e.pc];
    forall l | l in s'.free ensures Drained(s', l) {
      if l !in s.free {
        assert p.Empty(l);
        assert p.Owned() == Some(l);
      }
      DrainedStays(s, th, e, l);
    }
    forall u, l | u in s'.pc && s'.pc[u].Empty(l) ensures Drained(s', l) {
      OwnedEmpty(s, th, e, u, l);
    }
    forall u | u in s'.pc && s'.pc[u].DrainUnlock? && s'.pc[u].got.None? ensures Drained(s', s'.pc[u].l) {
      OwnedUnlocking(s, th, e, u);
    }
  }

  lemma OwnedEmpty(s: State, th: Thread, e: Effect, u: Thread, l: Llcx)
    requires LocksHeld(s) && Exclusive(s) && EmptyStays(s) && th in s.pc && OwnRule(s, s.pc[th], e)
    requires EmptyRule(s, s.pc[th], e)
    requires u in s.pc && s.pc[th := e.pc][u].Empty(l)
    ensures Drained(Apply(s, th, e), l)
  {
    var p := s.pc[th];
    if u == th && e.pc != p {
      if e.pc.Recycle? {
        assert p.Owned() == Some(l);
      }
    } else {
      assert s.pc[u].Owned() == Some(l);
    }
    DrainedStays(s, th, e, l);
  }

  lemma OwnedUnlocking(s: State, th: Thread, e: Effect, u: Thread)
    requires LocksHeld(s) && Exclusive(s) && EmptyStays(s) && th in s.pc && OwnRule(s, s.pc[th], e)
    requires EmptyRule(s, s.pc[th], e)
    requires u in s.pc && s.pc[th := e.pc][u].DrainUnlock? && s.pc[th := e.pc][u].got.None?
    ensures Drained(Apply(s, th, e), s.pc[th := e.pc][u].l)
  {
    var l := s.pc[th := e.pc][u].l;
    if u == th && e.pc != s.pc[th] {
      EmptyIsDrained(s, th);
    }
    assert s.pc[u].Owned() == Some(l);
    DrainedStays(s, th, e, l);
  }

  lemma RuleOthers(rule: Rule, s: State, th: Thread, e: Effect, u: Thread)
    requires Safe(rule) && ROOT in s.mapped && th in s.pc && u in s.pc && u != th && OwnRule(s, s.pc[th], e)
    requires Keys(rule, s, s.pc[u]) && Keys(rule, s, s.pc[th]) && Apart(rule, s.pc[th], s.pc[u])
    ensures Keys(rule, Apply(s, th, e), s.pc[u])
  {
  }

  lemma RuleAdvance(rule: Rule, s: State, th: Thread, p: Pc, pick: Option<Task>)
    requires ROOT in s.mapped && Keys(rule, s, p)
    ensures Keys(rule, Apply(s, th, Advance(s, p, pick)), Advance(s, p, pick).pc)
  {
    hide Popped;
  }

  lemma RuleSelf(rule: Rule, s: State, m: Move)
    requires ROOT in s.mapped && m.th in s.pc && Keys(rule, s, s.pc[m.th])
    ensures Keys(rule, Apply(s, m.th, EffectOf(s, m)), EffectOf(s, m).pc)
  {
    hide Advance;
    if m.Go? {
      RuleAdvance(rule, s, m.th, s.pc[m.th], m.pick);
      hide Apply, Keys;
    }
  }

  lemma PcAfter(s: State, m: Move)
    requires m.th in s.pc
    ensures Step(s, m) == Apply(s, m.th, EffectOf(s, m)) && Step(s, m).pc == s.pc[m.th := EffectOf(s, m).pc]
  {
    hide EffectOf;
  }

  lemma KeepKeys(rule: Rule, s: State, m: Move, u: Thread)
    requires Safe(rule) && Inv(rule, s) && m.th in s.pc && u in s.pc
    ensures Keys(rule, Apply(s, m.th, EffectOf(s, m)), s.pc[m.th := EffectOf(s, m).pc][u])
  {
    assert Keys(rule, s, s.pc[m.th]) && Keys(rule, s, s.pc[u]);
    assert u != m.th ==> Apart(rule, s.pc[m.th], s.pc[u]);
    hide *;
    if u == m.th {
      RuleSelf(rule, s, m);
    } else {
      Rules(s, m);
      RuleOthers(rule, s, m.th, EffectOf(s, m), u);
    }
  }

  /** A thread begins to tear down or to build only by a call. */
  ghost predicate CallRule(s: State, p: Pc, m: Move, next: Pc) {
    && (next.FreeLook? || next.FreeDelete? ==> Tears(p, next.key) || (p.Idle? && m.Free? && m.key == next.key))
    && (next.Fresh? ==> Builds(p, next.key) || (p.Idle? && m.Publish? && m.key == next.key))
  }

  lemma Calls(s: State, m: Move)
    requires m.th in s.pc
    ensures CallRule(s, s.pc[m.th], m, EffectOf(s, m).pc)
  {
  }

  lemma KeepApart(rule: Rule, s: State, m: Move)
    requires AllApart(rule, s) && m.th in s.pc && May(rule, s, m)
    ensures AllApart(rule, Apply(s, m.th, EffectOf(s, m)))
  {
    Calls(s, m);
    PcAfter(s, m);
    hide EffectOf, Apply, Step;
    var next := EffectOf(s, m).pc;
    forall th, u | th in s.pc && u in s.pc && th != u
      ensures Apart(rule, s.pc[m.th := next][th], s.pc[m.th := next][u])
    {
      assert Apart(rule, s.pc[th], s.pc[u]) && Apart(rule, s.pc[u], s.pc[th]);
    }
  }

  /** Every step of every thread keeps the invariant. */
  lemma Maintain(rule: Rule, s: State, m: Move)
    requires Safe(rule) && Inv(rule, s) && May(rule, s, m)
    ensures Inv(rule, Step(s, m))
  {
    if m.th in s.pc {
      var e := EffectOf(s, m);
      assert Keys(rule, s, s.pc[m.th]);
      assert Finds(s, s.pc[m.th]);
      forall u | u in s.pc ensures Keys(rule, Apply(s, m.th, e), s.pc[m.th := e.pc][u]) {
        KeepKeys(rule, s, m, u);
      }
      hide LocksHeld, Exclusive, EmptyStays, Parked, AllApart, Keys, EffectOf, Step, Apply, LockRule, OwnRule,
           EmptyRule, Finds, May, Safe;
      PcAfter(s, m);
      Rules(s, m);
      RuleLocks(s, m.th, e);
      RuleExclusive(s, m.th, e);
      RuleEmpty(s, m.th, e);
      RuleParked(s, m.th, e);
      KeepApart(rule, s, m);
      RootStays(Apply(s, m.th, e));
    }
  }

  lemma RootStays(s: State)
    requires Exclusive(s)
    ensures ROOT in s.mapped
  {
  }

  lemma Starts(rule: Rule, s: State)
    requires Initial(s)
    ensures Inv(rule, s)
  {
  }

  lemma {:induction false} Reached(rule: Rule, s: State, moves: seq<Move>)
    requires Safe(rule) && Initial(s) && Obeys(rule, s, moves)
    ensures Inv(rule, Run(s, moves))
  {
    if moves == [] {
      Starts(rule, s);
    } else {
      Reached(rule, s, moves[..|moves| - 1]);
      Maintain(rule, Run(s, moves[..|moves| - 1]), moves[|moves| - 1]);
    }
  }

  /** Some teardown has unpublished the context and is not done with its queue. */
  ghost predicate Drains(p: Pc, l: Llcx) {
    p.Owned() == Some(l) && !p.Fresh? && !p.Recycle? && !(p.DrainUnlock? && p.got.None?)
  }

  /** The task's context is a cgroup's, or will still be emptied. It is not free and not about to be. */
  ghost predicate Sheltered(s: State, t: Task)
    requires t in s.at
  {
    && s.at[t] !in s.free
    && (forall th :: th in s.pc ==> !s.pc[th].Empty(s.at[t]))
    && ((exists k :: k in s.mapped && s.mapped[k] == s.at[t]) || exists th :: th in s.pc && Drains(s.pc[th], s.at[t]))
  }

  /** Parked tasks are in contexts that a cgroup has or that a teardown goes on emptying. */
  lemma NoneStranded(rule: Rule, s0: State, moves: seq<Move>, t: Task)
    requires Safe(rule) && Initial(s0) && Obeys(rule, s0, moves) && t in Run(s0, moves).at
    ensures Sheltered(Run(s0, moves), t)
  {
    Reached(rule, s0, moves);
    hide Run, Obeys, Initial;
    InvShelters(rule, Run(s0, moves), t);
  }

  lemma InvShelters(rule: Rule, s: State, t: Task)
    requires Inv(rule, s) && t in s.at
    ensures Sheltered(s, t)
  {
    assert EmptyStays(s) && !Drained(s, s.at[t]);
    assert Placed(s, s.at[t]);
    if !exists k :: k in s.mapped && s.mapped[k] == s.at[t] {
      var th :| th in s.pc && s.pc[th].Owned() == Some(s.at[t]);
      assert !s.pc[th].Empty(s.at[t]);
      assert Drains(s.pc[th], s.at[t]);
    }
  }

  // ----- where a task goes that is taken out of a queue that is torn down -----

  /** Step i of a run takes task t off queue l. */
  ghost predicate Leaves(s0: State, moves: seq<Move>, i: nat, l: Llcx, t: Task)
    requires i < |moves|
  {
    var s, s' := Run(s0, moves[..i]), Run(s0, moves[..i + 1]);
    t in s.at && s.at[t] == l && !(t in s'.at && s'.at[t] == l)
  }

  /**
   * Step j of a run is the one with which thread th, tearing l down, parks t with the root: afterwards t is in the
   * root's queue, unless somebody else has parked it meanwhile or it has died. The context l is not free yet.
   */
  ghost predicate Settles(s0: State, moves: seq<Move>, j: nat, th: Thread, l: Llcx, t: Task)
    requires j < |moves|
  {
    var s, s' := Run(s0, moves[..j]), Run(s0, moves[..j + 1]);
    && moves[j].Go? && moves[j].th == th && th in s.pc && ROOT in s.mapped && l !in s.free
    && s.pc[th] == PutInsert(ROOT, s.mapped[ROOT], t, Some(l))
    && (t in s.at || t in s.dead || (t in s'.at && s'.at[t] == s.mapped[ROOT]))
  }

  /** Thread th has popped t off l, which it tears down, and has not parked it again yet. */
  ghost predicate Carries(p: Pc, l: Llcx, t: Task) {
    || p == DrainUnlock(l, Some(t))
    || ((p.PutLook? || p.PutLock? || p.PutCheck? || p.PutInsert?) && p.t == t && p.back == Some(l))
  }

  /** A task is put where it is nowhere, and taken out by a pop. */
  lemma ParkedByRule(s: State, m: Move)
    requires m.th in s.pc
    ensures var p, e := s.pc[m.th], EffectOf(s, m); e.at.Some? ==>
      && m.Go?
      && if e.at.value.1.Some? then e.at.value.0 !in s.at
         else
           && m.pick == Some(e.at.value.0) && (p.TakePop? || p.DrainPop?)
           && e.at.value.0 in s.at && s.at[e.at.value.0] == p.l && (p.DrainPop? ==> e.pc == DrainUnlock(p.l, m.pick))
  {
  }

  /** A task leaves a queue only by a pop. */
  lemma LeavesByPop(s: State, m: Move, l: Llcx, t: Task)
    requires t in s.at && s.at[t] == l && !(t in Step(s, m).at && Step(s, m).at[t] == l)
    ensures m.th in s.pc && m.Go? && (s.pc[m.th] == TakePop(l) || s.pc[m.th] == DrainPop(l))
    ensures m.th in Step(s, m).pc && (s.pc[m.th] == DrainPop(l) ==> Step(s, m).pc[m.th] == DrainUnlock(l, Some(t)))
  {
    hide EffectOf;
    if m.th in s.pc {
      ParkedByRule(s, m);
    }
  }

  /** The carrying thread goes on carrying, or parks. */
  lemma CarriesOn(rule: Rule, s: State, m: Move, th: Thread, l: Llcx, t: Task)
    requires th in s.pc && Carries(s.pc[th], l, t) && Keys(rule, s, s.pc[th]) && ROOT in s.mapped
    ensures th in Step(s, m).pc
    ensures Carries(Step(s, m).pc[th], l, t)
      || (m.Go? && m.th == th && s.pc[th] == PutInsert(ROOT, s.mapped[ROOT], t, Some(l)))
    ensures m.Go? && m.th == th && s.pc[th].PutInsert? ==>
      t in s.at || t in s.dead || (t in Step(s, m).at && Step(s, m).at[t] == s.mapped[ROOT])
  {
    if m.th in s.pc {
      PcAfter(s, m);
    }
  }

  /** Who carries a task owns the context it came from. */
  lemma CarrierOwns(rule: Rule, s: State, th: Thread, l: Llcx, t: Task)
    requires Inv(rule, s) && th in s.pc && Carries(s.pc[th], l, t)
    ensures l !in s.free && ROOT in s.mapped && Keys(rule, s, s.pc[th])
  {
    assert Exclusive(s) && s.pc[th].Owned() == Some(l);
  }

  lemma RunStep(s0: State, moves: seq<Move>, i: nat)
    requires i < |moves|
    ensures Run(s0, moves[..i + 1]) == Step(Run(s0, moves[..i]), moves[i])
  {
    assert moves[..i + 1][..i] == moves[..i];
  }

  lemma {:induction false} ObeysBefore(rule: Rule, s0: State, moves: seq<Move>, i: nat)
    requires Obeys(rule, s0, moves) && i <= |moves|
    ensures Obeys(rule, s0, moves[..i])
    decreases |moves|
  {
    if i == |moves| {
      assert moves[..i] == moves;
    } else {
      assert moves[..|moves| - 1][..i] == moves[..i];
      ObeysBefore(rule, s0, moves[..|moves| - 1], i);
    }
  }

  /** From one step to a later one: the task is still carried, or has been settled between. */
  lemma {:induction false} CarriedUntil(rule: Rule, s0: State, moves: seq<Move>, i: nat, k: nat, th: Thread, l: Llcx,
                                        t: Task)
    requires Safe(rule) && Initial(s0) && Obeys(rule, s0, moves) && i <= k <= |moves| && th in Run(s0, moves[..i]).pc
    requires Carries(Run(s0, moves[..i]).pc[th], l, t)
    ensures
      || (th in Run(s0, moves[..k]).pc && Carries(Run(s0, moves[..k]).pc[th], l, t))
      || exists j :: i <= j < k && Settles(s0, moves, j, th, l, t)
    decreases k
  {
    if k > i {
      CarriedUntil(rule, s0, moves, i, k - 1, th, l, t);
      var s := Run(s0, moves[..k - 1]);
      if th in s.pc && Carries(s.pc[th], l, t) {
        ObeysBefore(rule, s0, moves, k - 1);
        Reached(rule, s0, moves[..k - 1]);
        RunStep(s0, moves, k - 1);
        hide Run, Step, Carries, Keys, Inv, Initial, Obeys;
        CarrierOwns(rule, s, th, l, t);
        CarriesOn(rule, s, moves[k - 1], th, l, t);
        assert Carries(Run(s0, moves[..k]).pc[th], l, t) || Settles(s0, moves, k - 1, th, l, t);
      }
    }
  }

  /** A task that is parked at one time and not there at a later one has left in between. */
  lemma {:induction false} SomewhereLeaves(s0: State, moves: seq<Move>, i: nat, k: nat, l: Llcx, t: Task)
    returns (x: nat)
    requires i <= k <= |moves| && t in Run(s0, moves[..i]).at && Run(s0, moves[..i]).at[t] == l
    requires !(t in Run(s0, moves[..k]).at && Run(s0, moves[..k]).at[t] == l)
    ensures i <= x < k && Leaves(s0, moves, x, l, t)
    decreases k
  {
    var s := Run(s0, moves[..k - 1]);
    if t in s.at && s.at[t] == l {
      x := k - 1;
    } else {
      x := SomewhereLeaves(s0, moves, i, k - 1, l, t);
    }
  }

  /** How step x took t off l: another operation popped it, or the teardown did and settled it before step k. */
  ghost predicate WellMoved(s0: State, moves: seq<Move>, x: nat, k: nat, l: Llcx, t: Task)
    requires x < |moves|
  {
    var s := Run(s0, moves[..x]);
    && moves[x].th in s.pc && moves[x].Go?
    && (s.pc[moves[x].th] == TakePop(l) ||
        (s.pc[moves[x].th] == DrainPop(l)
          && exists j :: x < j < k <= |moves| && Settles(s0, moves, j, moves[x].th, l, t)))
  }

  /**
   * Every pop of a context that is free at a later time k was either another operation's or has been settled by
   * then.
   */
  lemma LeavesWell(rule: Rule, s0: State, moves: seq<Move>, x: nat, k: nat, l: Llcx, t: Task)
    requires Safe(rule) && Initial(s0) && Obeys(rule, s0, moves) && x < k <= |moves| && Leaves(s0, moves, x, l, t)
    requires l in Run(s0, moves[..k]).free
    ensures WellMoved(s0, moves, x, k, l, t)
  {
    var s, m := Run(s0, moves[..x]), moves[x];
    RunStep(s0, moves, x);
    LeavesByPop(s, m, l, t);
    hide Run, Step, Obeys;
    if s.pc[m.th] == DrainPop(l) {
      CarriedUntil(rule, s0, moves, x + 1, k, m.th, l, t);
      ObeysBefore(rule, s0, moves, k);
      Reached(rule, s0, moves[..k]);
      var e := Run(s0, moves[..k]);
      if m.th in e.pc && Carries(e.pc[m.th], l, t) {
        CarrierOwns(rule, e, m.th, l, t);
      }
    }
  }

  /**
   * A task parked after i steps in a context that is free at the end has left its queue in between, and each time
   * it left, another operation had taken it, or the teardown had and parked it with the root before the context was
   * free, unless somebody else parked it or it died.
   */
  ghost predicate Moved(s0: State, moves: seq<Move>, i: nat, t: Task)
    requires i <= |moves| && t in Run(s0, moves[..i]).at
  {
    var l := Run(s0, moves[..i]).at[t];
    l in Run(s0, moves).free ==>
      && (exists x :: i <= x < |moves| && Leaves(s0, moves, x, l, t))
      && (forall x :: i <= x < |moves| && Leaves(s0, moves, x, l, t) ==> WellMoved(s0, moves, x, |moves|, l, t))
  }

  lemma MovedToRoot(rule: Rule, s0: State, moves: seq<Move>, i: nat, t: Task)
    requires Safe(rule) && Initial(s0) && Obeys(rule, s0, moves) && i <= |moves| && t in Run(s0, moves[..i]).at
    ensures Moved(s0, moves, i, t)
  {
    var l := Run(s0, moves[..i]).at[t];
    if l in Run(s0, moves).free {
      assert moves[..|moves|] == moves;
      Reached(rule, s0, moves);
      FreeIsEmpty(rule, Run(s0, moves), l, t);
      var x := SomewhereLeaves(s0, moves, i, |moves|, l, t);
      forall y | i <= y < |moves| && Leaves(s0, moves, y, l, t)
        ensures WellMoved(s0, moves, y, |moves|, l, t)
      {
        LeavesWell(rule, s0, moves, y, |moves|, l, t);
      }
    }
  }

  lemma FreeIsEmpty(rule: Rule, s: State, l: Llcx, t: Task)
    requires Inv(rule, s) && l in s.free
    ensures !(t in s.at && s.at[t] == l)
  {
    assert EmptyStays(s) && Drained(s, l);
  }

  // ----- dead tasks -----

  /** Nobody parks a dead task, and nobody kills a parked one. */
  lemma DeadRule(s: State, m: Move)
    requires m.th in s.pc
    ensures var e := EffectOf(s, m);
      && (e.at.Some? && e.at.value.1.Some? ==> e.at.value.0 !in s.dead && e.dead.None?)
      && (e.dead.Some? ==> e.dead.value !in s.at && e.at.None? && m.Kill?)
  {
  }

  lemma DeadStep(s: State, m: Move)
    requires forall t :: t in s.dead ==> t !in s.at
    ensures s.dead <= Step(s, m).dead && forall t :: t in Step(s, m).dead ==> t !in Step(s, m).at
  {
    if m.th in s.pc {
      DeadRule(s, m);
      PcAfter(s, m);
      hide EffectOf, Step;
    }
  }

  lemma {:induction false} DeadSince(s0: State, moves: seq<Move>, i: nat)
    requires (forall t :: t in s0.dead ==> t !in s0.at) && i <= |moves|
    ensures Run(s0, moves[..i]).dead <= Run(s0, moves).dead
    ensures forall t :: t in Run(s0, moves).dead ==> t !in Run(s0, moves).at
  {
    if moves == [] {
    } else if i == |moves| {
      assert moves[..i] == moves;
      DeadSince(s0, moves[..i - 1], i - 1);
      DeadStep(Run(s0, moves[..i - 1]), moves[i - 1]);
    } else {
      var before := moves[..|moves| - 1];
      assert before[..i] == moves[..i];
      DeadSince(s0, before, i);
      DeadStep(Run(s0, before), moves[|moves| - 1]);
    }
  }

  /** A task that died while it was not parked is dead ever after, and never parked again. */
  lemma KilledForGood(s0: State, moves: seq<Move>, i: nat, th: Thread, t: Task)
    requires Initial(s0) && i < |moves| && moves[i] == Kill(th, t) && th in Run(s0, moves[..i]).pc
    requires Run(s0, moves[..i]).pc[th].Idle? && t !in Run(s0, moves[..i]).at
    ensures t in Run(s0, moves).dead && t !in Run(s0, moves).at
  {
    RunStep(s0, moves, i);
    assert t in Run(s0, moves[..i + 1]).dead;
    DeadSince(s0, moves, i + 1);
  }
}

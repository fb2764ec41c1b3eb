/**
 * Deferred freeing driven from userspace: freed nodes go on the active one of two lists, and the
 * other list is handed back to the allocator after a grace period. Threads and the driver take
 * atomic steps in any order.
 */
module Urcu {
  import opened Options

  type Thread = nat
  type Node = nat

  /** A thread: outside a read section, inside one, or inside one and freeing a node step by step. */
  datatype Pc =
    | Out
    | Inside
    | Unlinked(n: Node)
    | Sided(n: Node, side: bool)
    | Linking(n: Node, side: bool, head: Option<Node>)
    | Swapping(n: Node, side: bool, head: Option<Node>)
  {
    predicate Freeing() {
      Unlinked? || Sided? || Linking? || Swapping?
    }

    /** Has chosen side `d` for its node. */
    predicate Bound(d: bool) {
      (Sided? || Linking? || Swapping?) && side == d
    }
  }

  /** The driver's grace period since the last flip: not started, waiting for read sections, over. */
  datatype Grace = Stale | Waiting(secs: set<Thread>) | Over

  /**
   * `sees` records, for a node that has been unlinked, the read sections that were open then and
   * still are: those that may hold a pointer to it.
   */
  datatype State = State(live: set<Node>, free: set<Node>, link: map<Node, Option<Node>>, head0: Option<Node>,
    head1: Option<Node>, active: bool, grace: Grace, sees: map<Node, set<Thread>>, pc: map<Thread, Pc>) {
    function Head(side: bool): Option<Node> {
      if side then head1 else head0
    }

    function WithHead(side: bool, h: Option<Node>): State {
      if side then this.(head1 := h) else this.(head0 := h)
    }

    function Sections(): set<Thread> {
      set th | th in pc && !pc[th].Out?
    }

    function Sees(n: Node): set<Thread> {
      if n in sees then sees[n] else {}
    }

    function At(th: Thread, p: Pc): State {
      this.(pc := pc[th := p])
    }
  }

  datatype Move =
    | Enter(th: Thread)
    | Exit(th: Thread)
    | Free(th: Thread, n: Node)
    | Go(th: Thread)
    | StartGrace
    | EndGrace
    | Reclaim
    | Flip
    | Alloc(n: Node)

  function Step(s: State, m: Move): State {
    match m
    case Enter(th) => if th in s.pc && s.pc[th].Out? then s.At(th, Inside) else s
    case Exit(th) =>
      if th in s.pc && s.pc[th].Inside? then
        s.At(th, Out).(
          sees := map n | n in s.sees :: s.sees[n] - {th},
          grace := if s.grace.Waiting? then Waiting(s.grace.secs - {th}) else s.grace)
      else s
    case Free(th, n) =>
      if th in s.pc && s.pc[th].Inside? && n in s.live
        then s.At(th, Unlinked(n)).(live := s.live - {n}, sees := s.sees[n := s.Sections()])
      else s
    case Go(th) => if th in s.pc then Advance(s, th, s.pc[th]) else s
    case StartGrace => if s.grace.Stale? then s.(grace := Waiting(s.Sections())) else s
    case EndGrace => if s.grace == Waiting({}) then s.(grace := Over) else s
    case Reclaim =>
      (match s.Head(!s.active)
       case Some(n) =>
         if s.grace.Over? && n in s.link then s.WithHead(!s.active, s.link[n]).(free := s.free + {n}) else s
       case None => s)
    case Flip => if s.grace.Over? && s.Head(!s.active).None? then s.(active := !s.active, grace := Stale) else s
    case Alloc(n) => if n in s.free then s.(free := s.free - {n}, live := s.live + {n}) else s
  }

  /** The push of a freed node: read the active side, read its head, write the link, compare and swap. */
  function Advance(s: State, th: Thread, p: Pc): State {
    match p
    case Out => s
    case Inside => s
    case Unlinked(n) => s.At(th, Sided(n, s.active))
    case Sided(n, side) => s.At(th, Linking(n, side, s.Head(side)))
    case Linking(n, side, head) => s.At(th, Swapping(n, side, head)).(link := s.link[n := head])
    case Swapping(n, side, head) =>
      if s.Head(side) == head then s.WithHead(side, Some(n)).At(th, Inside) else s.At(th, Sided(n, side))
  }

  ghost function Run(s: State, moves: seq<Move>): State {
    if moves == [] then s else Step(Run(s, moves[..|moves| - 1]), moves[|moves| - 1])
  }

  ghost predicate Initial(s: State) {
    && s.head0 == None && s.head1 == None && s.link == map[] && s.grace == Stale && s.sees == map[]
    && s.live !! s.free && forall th :: th in s.pc ==> s.pc[th] == Out
  }

  // ----- the invariant -----

  /** The two lists, by their nodes. */
  datatype Lists = Lists(l0: seq<Node>, l1: seq<Node>) {
    function Of(side: bool): seq<Node> {
      if side then l1 else l0
    }

    function With(side: bool, l: seq<Node>): Lists {
      if side then this.(l1 := l) else this.(l0 := l)
    }
  }

  ghost function NextIn(l: seq<Node>, i: nat): Option<Node>
    requires i < |l|
  {
    if i + 1 < |l| then Some(l[i + 1]) else None
  }

  ghost predicate Linked(link: map<Node, Option<Node>>, head: Option<Node>, l: seq<Node>) {
    && head == (if l == [] then None else Some(l[0]))
    && (forall i :: 0 <= i < |l| ==> l[i] in link && link[l[i]] == NextIn(l, i))
    && (forall i, j :: 0 <= i < j < |l| ==> l[i] != l[j])
  }

  ghost predicate Listed(ls: Lists, n: Node) {
    n in ls.l0 || n in ls.l1
  }

  /** Every node is in one place: in use, with one freeing thread, on one list, or free. */
  ghost predicate Placed(s: State, ls: Lists) {
    && s.live !! s.free
    && (forall n :: Listed(ls, n) ==> n !in s.live && n !in s.free && !(n in ls.l0 && n in ls.l1))
    && (forall th :: th in s.pc && s.pc[th].Freeing() ==>
          s.pc[th].n !in s.live && s.pc[th].n !in s.free && !Listed(ls, s.pc[th].n))
    && (forall th, u :: th in s.pc && u in s.pc && th != u && s.pc[th].Freeing() && s.pc[u].Freeing() ==>
          s.pc[th].n != s.pc[u].n)
  }

  /** Node `n` awaits the next reclaim: it is on the draining side or on its way there. */
  ghost predicate Draining(s: State, ls: Lists, n: Node) {
    n in ls.Of(!s.active) || exists th :: th in s.pc && s.pc[th].Bound(!s.active) && s.pc[th].n == n
  }

  ghost predicate Waits(s: State, ls: Lists) {
    && (forall n :: s.Sees(n) <= s.Sections())
    && (s.grace.Waiting? ==> s.grace.secs <= s.Sections())
    && (s.grace.Waiting? ==>
          && (forall th :: th in s.pc && s.pc[th].Bound(!s.active) ==> th in s.grace.secs)
          && (forall n :: Draining(s, ls, n) ==> s.Sees(n) <= s.grace.secs))
    && (s.grace.Over? ==>
          && (forall th :: th in s.pc ==> !s.pc[th].Bound(!s.active))
          && (forall n :: Draining(s, ls, n) ==> s.Sees(n) == {}))
  }

  /** A pushing thread's link points at the head it read. */
  ghost predicate Prepared(s: State) {
    forall th :: th in s.pc && s.pc[th].Swapping? ==> s.pc[th].n in s.link && s.link[s.pc[th].n] == s.pc[th].head
  }

  ghost predicate Inv(s: State, ls: Lists) {
    BothLinked(s, ls) && Placed(s, ls) && Waits(s, ls) && Prepared(s)
  }

  /** How the lists follow a step. */
  ghost function After(s: State, ls: Lists, m: Move): Lists {
    if m.Go? && m.th in s.pc && s.pc[m.th].Swapping? && s.Head(s.pc[m.th].side) == s.pc[m.th].head
    then ls.With(s.pc[m.th].side, [s.pc[m.th].n] + ls.Of(s.pc[m.th].side))
    else if m.Reclaim? && s.grace.Over? && ls.Of(!s.active) != [] then ls.With(!s.active, ls.Of(!s.active)[1..])
    else ls
  }

  lemma Push(link: map<Node, Option<Node>>, head: Option<Node>, l: seq<Node>, n: Node)
    requires Linked(link, head, l) && n !in l && n in link && link[n] == head
    ensures Linked(link, Some(n), [n] + l)
  {
    var m := [n] + l;
    forall i | 0 <= i < |m| ensures m[i] in link && link[m[i]] == NextIn(m, i) {
      assert i == 0 || (m[i] == l[i - 1] && link[l[i - 1]] == NextIn(l, i - 1));
    }
  }

  lemma Pop(link: map<Node, Option<Node>>, head: Option<Node>, l: seq<Node>)
    requires Linked(link, head, l) && l != []
    ensures l[0] in link && head == Some(l[0]) && Linked(link, link[l[0]], l[1..])
  {
    assert link[l[0]] == NextIn(l, 0);
    var m := l[1..];
    forall i | 0 <= i < |m| ensures m[i] in link && link[m[i]] == NextIn(m, i) {
      assert m[i] == l[i + 1] && link[l[i + 1]] == NextIn(l, i + 1);
    }
  }

  lemma Elsewhere(link: map<Node, Option<Node>>, head: Option<Node>, l: seq<Node>, n: Node, h: Option<Node>)
    requires Linked(link, head, l) && n !in l
    ensures Linked(link[n := h], head, l)
  {
  }

  ghost predicate BothLinked(s: State, ls: Lists) {
    Linked(s.link, s.head0, ls.l0) && Linked(s.link, s.head1, ls.l1)
  }

  lemma OneOf(s: State, ls: Lists, d: bool)
    requires BothLinked(s, ls)
    ensures Linked(s.link, s.Head(d), ls.Of(d))
  {
  }

  lemma KeepLinked(s: State, ls: Lists, m: Move)
    requires Inv(s, ls)
    ensures BothLinked(Step(s, m), After(s, ls, m))
  {
    assert BothLinked(s, ls);
    OneOf(s, ls, false);
    OneOf(s, ls, true);
    if m.Go? && m.th in s.pc && s.pc[m.th].Freeing() {
      var p := s.pc[m.th];
      assert !Listed(ls, p.n);
      assert p.Swapping? ==> p.n in s.link && s.link[p.n] == p.head;
      hide Waits, Placed, Prepared, Linked;
      if p.Linking? {
        Elsewhere(s.link, s.head0, ls.l0, p.n, p.head);
        Elsewhere(s.link, s.head1, ls.l1, p.n, p.head);
      } else if p.Swapping? && s.Head(p.side) == p.head {
        Push(s.link, s.Head(p.side), ls.Of(p.side), p.n);
      }
    } else if m.Reclaim? {
      var l := ls.Of(!s.active);
      assert s.Head(!s.active).None? <==> l == [];
      if l != [] {
        Pop(s.link, s.Head(!s.active), l);
      }
      hide Waits, Placed, Prepared, Linked;
    } else {
      hide Waits, Placed, Prepared, Linked;
    }
  }

  // ----- places -----

  lemma PlacedPush(s: State, s': State, ls: Lists, ls': Lists, th: Thread)
    requires Placed(s, ls) && th in s.pc && s.pc[th].Freeing() && s'.pc == s.pc[th := Inside] && s'.live == s.live
    requires s'.free == s.free
    requires forall n :: Listed(ls', n) <==> Listed(ls, n) || n == s.pc[th].n
    requires forall n :: n in ls'.l0 && n in ls'.l1 ==> n in ls.l0 && n in ls.l1
    ensures Placed(s', ls')
  {
  }

  lemma PlacedReclaim(s: State, s': State, ls: Lists, ls': Lists, n: Node)
    requires Placed(s, ls) && Listed(ls, n) && s'.pc == s.pc && s'.live == s.live && s'.free == s.free + {n}
    requires forall x :: Listed(ls', x) ==> Listed(ls, x) && x != n
    requires forall x :: x in ls'.l0 && x in ls'.l1 ==> x in ls.l0 && x in ls.l1
    ensures Placed(s', ls')
  {
  }

  /** Threads other than a pushing one, and moves other than a reclaim, leave the lists alone. */
  lemma PlacedOther(s: State, ls: Lists, m: Move)
    requires Placed(s, ls) && !m.Reclaim?
    requires m.Go? && m.th in s.pc && s.pc[m.th].Swapping? ==> s.Head(s.pc[m.th].side) != s.pc[m.th].head
    ensures Placed(Step(s, m), ls)
  {
    hide Listed;
  }

  lemma KeepPlaced(s: State, ls: Lists, m: Move)
    requires Inv(s, ls)
    ensures Placed(Step(s, m), After(s, ls, m))
  {
    OneOf(s, ls, !s.active);
    assert Placed(s, ls);
    if m.Reclaim? {
      var l := ls.Of(!s.active);
      hide Waits, Prepared, Placed;
      if s.grace.Over? && l != [] {
        Pop(s.link, s.Head(!s.active), l);
        PlacedReclaim(s, Step(s, m), ls, After(s, ls, m), l[0]);
      }
    } else if m.Go? && m.th in s.pc && s.pc[m.th].Swapping? && s.Head(s.pc[m.th].side) == s.pc[m.th].head {
      assert !Listed(ls, s.pc[m.th].n);
      hide Waits, Prepared, Linked, Placed;
      PlacedPush(s, Step(s, m), ls, After(s, ls, m), m.th);
    } else {
      hide Waits, Prepared, Linked, Placed, Step;
      PlacedOther(s, ls, m);
    }
  }

  lemma KeepPrepared(s: State, ls: Lists, m: Move)
    requires Inv(s, ls)
    ensures Prepared(Step(s, m))
  {
    hide Waits, Linked;
  }

  // ----- grace periods -----

  /** Nothing joins the draining side. */
  lemma DrainingBack(s: State, ls: Lists, m: Move, n: Node)
    requires Inv(s, ls) && Draining(Step(s, m), After(s, ls, m), n) && !m.Flip?
    ensures Draining(s, ls, n)
  {
    var d := !s.active;
    hide Linked, Placed, Waits, Prepared;
    assert Step(s, m).active == s.active;
    if n in After(s, ls, m).Of(d) {
      ListedBack(s, ls, m, n);
    } else {
      var th :| th in Step(s, m).pc && Step(s, m).pc[th].Bound(d) && Step(s, m).pc[th].n == n;
      BoundBack(s, m, th);
    }
  }

  lemma ListedBack(s: State, ls: Lists, m: Move, n: Node)
    requires n in After(s, ls, m).Of(!s.active)
    ensures Draining(s, ls, n)
  {
  }

  lemma BoundBack(s: State, m: Move, th: Thread)
    requires !m.Flip? && th in Step(s, m).pc && Step(s, m).pc[th].Bound(!s.active)
    ensures th in s.pc && s.pc[th].Bound(!s.active) && s.pc[th].n == Step(s, m).pc[th].n
  {
  }

  lemma LiveIsApart(s: State, ls: Lists, n: Node)
    requires Placed(s, ls) && n in s.live
    ensures !Draining(s, ls, n)
  {
    assert Listed(ls, n) ==> n !in s.live;
  }

  lemma SeesAfter(s: State, m: Move, n: Node)
    requires forall x :: s.Sees(x) <= s.Sections()
    ensures Step(s, m).Sees(n) <= Step(s, m).Sections()
    ensures !(m.Free? && m.n == n && n in s.live) ==> Step(s, m).Sees(n) <= s.Sees(n)
    ensures !(m.Free? && m.n == n && n in s.live) && s.grace.Waiting? && Step(s, m).grace.Waiting?
            && s.Sees(n) <= s.grace.secs ==>
      Step(s, m).Sees(n) <= Step(s, m).grace.secs
  {
    assert s.Sees(n) <= s.Sections();
  }

  lemma GraceAfter(s: State, m: Move)
    requires s.grace.Waiting? ==> s.grace.secs <= s.Sections()
    ensures Step(s, m).grace.Waiting? ==> Step(s, m).grace.secs <= Step(s, m).Sections()
    ensures Step(s, m).grace.Waiting? && !m.StartGrace? ==> s.grace.Waiting?
    ensures Step(s, m).grace.Waiting? && m.StartGrace? && s.grace.Stale? ==>
      Step(s, m).grace.secs == s.Sections() && Step(s, m).pc == s.pc && Step(s, m).sees == s.sees
    ensures Step(s, m).grace.Waiting? && m.StartGrace? && !s.grace.Stale? ==> Step(s, m) == s
    ensures Step(s, m).grace.Over? && !m.EndGrace? ==> s.grace.Over?
    ensures Step(s, m).grace.Over? && m.EndGrace? && !s.grace.Over? ==> s.grace == Waiting({})
    ensures m.Flip? ==> Step(s, m) == s || Step(s, m).grace.Stale?
  {
    hide *;
    GraceSections(s, m);
    GraceMoves(s, m);
  }

  lemma GraceSections(s: State, m: Move)
    requires s.grace.Waiting? ==> s.grace.secs <= s.Sections()
    ensures Step(s, m).grace.Waiting? ==> Step(s, m).grace.secs <= Step(s, m).Sections()
  {
  }

  lemma GraceMoves(s: State, m: Move)
    ensures Step(s, m).grace.Waiting? && !m.StartGrace? ==> s.grace.Waiting?
    ensures Step(s, m).grace.Waiting? && m.StartGrace? && s.grace.Stale? ==>
      Step(s, m).grace.secs == s.Sections() && Step(s, m).pc == s.pc && Step(s, m).sees == s.sees
    ensures Step(s, m).grace.Waiting? && m.StartGrace? && !s.grace.Stale? ==> Step(s, m) == s
    ensures Step(s, m).grace.Over? && !m.EndGrace? ==> s.grace.Over?
    ensures Step(s, m).grace.Over? && m.EndGrace? && !s.grace.Over? ==> s.grace == Waiting({})
    ensures m.Flip? ==> Step(s, m) == s || Step(s, m).grace.Stale?
  {
    hide State.Sections;
  }

  lemma KeepWaits(s: State, ls: Lists, m: Move)
    requires Inv(s, ls)
    ensures Waits(Step(s, m), After(s, ls, m))
  {
    var s', ls' := Step(s, m), After(s, ls, m);
    assert m.Flip? ==> ls' == ls;
    assert !m.Flip? ==> s'.active == s.active by { hide Waits, Placed, Linked, Prepared; }
    hide Linked, Placed, Prepared, After, Draining, Step;
    GraceAfter(s, m);
    forall n ensures s'.Sees(n) <= s'.Sections() {
      SeesAfter(s, m, n);
    }
    if !m.Flip? {
      forall n | Draining(s', ls', n) ensures Draining(s, ls, n) && s'.Sees(n) <= s.Sees(n)
        ensures s.grace.Waiting? && s'.grace.Waiting? && s.Sees(n) <= s.grace.secs ==> s'.Sees(n) <= s'.grace.secs {
        DrainingBack(s, ls, m, n);
        if m.Free? && m.n in s.live {
          LiveIsApart(s, ls, m.n);
        }
        SeesAfter(s, m, n);
      }
      forall th | th in s'.pc && s'.pc[th].Bound(!s'.active) ensures th in s.pc && s.pc[th].Bound(!s.active) {
        BoundBack(s, m, th);
      }
      BoundInside(s, m);
    }
  }

  lemma BoundInside(s: State, m: Move)
    ensures forall th :: th in s.pc && s.pc[th].Bound(!s.active) ==>
      th in s.Sections() && !(m.Exit? && m.th == th && Step(s, m) != s)
    ensures m.Exit? && s.grace.Waiting? && Step(s, m) != s ==> Step(s, m).grace == Waiting(s.grace.secs - {m.th})
    ensures !m.Exit? && s.grace.Waiting? && Step(s, m).grace.Waiting? ==> Step(s, m).grace == s.grace
  {
  }

  lemma Maintain(s: State, ls: Lists, m: Move)
    requires Inv(s, ls)
    ensures Inv(Step(s, m), After(s, ls, m))
  {
    hide Linked, Placed, Prepared, Waits, Step, After;
    KeepLinked(s, ls, m);
    KeepPlaced(s, ls, m);
    KeepPrepared(s, ls, m);
    KeepWaits(s, ls, m);
  }

  lemma {:induction false} Reached(s: State, moves: seq<Move>) returns (ls: Lists)
    requires Initial(s)
    ensures Inv(Run(s, moves), ls)
  {
    if moves == [] {
      ls := Lists([], []);
    } else {
      ls := Reached(s, moves[..|moves| - 1]);
      Maintain(Run(s, moves[..|moves| - 1]), ls, moves[|moves| - 1]);
      ls := After(Run(s, moves[..|moves| - 1]), ls, moves[|moves| - 1]);
    }
  }

  // ----- what happens to a node over a run -----

  /** A node is unlinked by a free, lands on a list, is given back to the allocator, is handed out again. */
  datatype Event = Unlink | Land | Return | Reuse

  ghost predicate Happens(s: State, m: Move, n: Node, e: Event) {
    match e
    case Unlink => m.Free? && m.n == n && n in s.live && m.th in s.pc && s.pc[m.th].Inside?
    case Land => m.Go? && m.th in s.pc && s.pc[m.th].Swapping? && s.pc[m.th].n == n
      && s.Head(s.pc[m.th].side) == s.pc[m.th].head
    case Return => m.Reclaim? && s.grace.Over? && s.Head(!s.active) == Some(n)
    case Reuse => m.Alloc? && m.n == n && n in s.free
  }

  /** How often that happens to node n in a run. */
  ghost function Times(s0: State, moves: seq<Move>, n: Node, e: Event): nat {
    if moves == [] then 0
    else
      var before := moves[..|moves| - 1];
      Times(s0, before, n, e) + if Happens(Run(s0, before), moves[|moves| - 1], n, e) then 1 else 0
  }

  /** Some thread is about to push the node. */
  ghost predicate Freed(s: State, n: Node) {
    exists th :: th in s.pc && Pushing(s.pc[th], n)
  }

  ghost function One(b: bool): int { if b then 1 else 0 }

  lemma ReturnStep(s: State, ls: Lists, m: Move, n: Node)
    requires Inv(s, ls)
    ensures m.Reclaim? && s.grace.Over? && ls.Of(!s.active) != [] ==>
      Happens(s, m, ls.Of(!s.active)[0], Return) && Step(s, m).free == s.free + {ls.Of(!s.active)[0]}
    ensures Happens(s, m, n, Return) ==>
      && ls.Of(!s.active) != [] && ls.Of(!s.active)[0] == n && n !in ls.Of(!s.active)[1..]
      && Step(s, m).free == s.free + {n}
  {
    OneOf(s, ls, !s.active);
    var l := ls.Of(!s.active);
    if l != [] {
      Pop(s.link, s.Head(!s.active), l);
    }
    hide Waits, Placed, Prepared;
  }

  lemma ListedStep(s: State, ls: Lists, m: Move, n: Node)
    requires Inv(s, ls)
    ensures One(Listed(After(s, ls, m), n)) - One(Listed(ls, n)) ==
      One(Happens(s, m, n, Land)) - One(Happens(s, m, n, Return))
  {
    ReturnStep(s, ls, m, n);
    assert Placed(s, ls);
    var l := ls.Of(!s.active);
    assert m.Reclaim? && s.grace.Over? && l != [] ==> l == [l[0]] + l[1..];
    hide Waits, Prepared, BothLinked, Step;
  }

  ghost predicate Pushing(p: Pc, n: Node) { p.Freeing() && p.n == n }

  /** A step changes at most the mover's place, and makes it push a node or stop. */
  lemma PcStep(s: State, m: Move, n: Node)
    ensures var s' := Step(s, m);
      if (m.Enter? || m.Exit? || m.Free? || m.Go?) && m.th in s.pc then
        && m.th in s'.pc && s'.pc == s.pc[m.th := s'.pc[m.th]]
        && (Happens(s, m, n, Unlink) ==> !Pushing(s.pc[m.th], n) && Pushing(s'.pc[m.th], n))
        && (Happens(s, m, n, Land) ==> Pushing(s.pc[m.th], n) && !Pushing(s'.pc[m.th], n))
        && (!Happens(s, m, n, Unlink) && !Happens(s, m, n, Land) ==>
              (Pushing(s.pc[m.th], n) <==> Pushing(s'.pc[m.th], n)))
      else s'.pc == s.pc && !Happens(s, m, n, Unlink) && !Happens(s, m, n, Land)
  {
  }

  /** Only one thread pushes a node, and nobody one that is in use. */
  lemma OnePusher(s: State, ls: Lists, th: Thread, u: Thread, n: Node)
    requires Placed(s, ls) && th in s.pc && u in s.pc && Pushing(s.pc[u], n)
    ensures n !in s.live && (Pushing(s.pc[th], n) ==> u == th)
  {
  }

  lemma FreedStep(s: State, ls: Lists, m: Move, n: Node)
    requires Inv(s, ls)
    ensures One(Freed(Step(s, m), n)) - One(Freed(s, n)) == One(Happens(s, m, n, Unlink)) - One(Happens(s, m, n, Land))
  {
    assert Placed(s, ls);
    PcStep(s, m, n);
    assert Happens(s, m, n, Unlink) ==> n in s.live && m.Free?;
    assert Happens(s, m, n, Land) ==> m.Go?;
    hide Inv, Placed, Step, Happens;
    var s' := Step(s, m);
    if (m.Enter? || m.Exit? || m.Free? || m.Go?) && m.th in s.pc {
      forall u | u in s.pc && Pushing(s.pc[u], n)
        ensures n !in s.live && (Pushing(s.pc[m.th], n) ==> u == m.th)
      {
        OnePusher(s, ls, m.th, u, n);
      }
      FreedAfter(s, s', m.th, n);
    }
  }

  /** Whether a node is being pushed, when one thread moves. */
  lemma FreedAfter(s: State, s': State, th: Thread, n: Node)
    requires th in s.pc && th in s'.pc && s'.pc == s.pc[th := s'.pc[th]]
    requires forall u :: u in s.pc && Pushing(s.pc[u], n) && Pushing(s.pc[th], n) ==> u == th
    ensures Pushing(s'.pc[th], n) ==> Freed(s', n)
    ensures Pushing(s.pc[th], n) ==> Freed(s, n) && (Freed(s', n) <==> Pushing(s'.pc[th], n))
    ensures !Pushing(s.pc[th], n) && !Pushing(s'.pc[th], n) ==> (Freed(s', n) <==> Freed(s, n))
    ensures !Pushing(s.pc[th], n) && Freed(s, n) ==> exists u :: u in s.pc && Pushing(s.pc[u], n)
  {
    if !Pushing(s.pc[th], n) && !Pushing(s'.pc[th], n) {
      if Freed(s, n) {
        var u :| u in s.pc && Pushing(s.pc[u], n);
        assert u in s'.pc && Pushing(s'.pc[u], n);
      }
      if Freed(s', n) {
        var u :| u in s'.pc && Pushing(s'.pc[u], n);
        assert u in s.pc && Pushing(s.pc[u], n);
      }
    }
  }

  /** Only a reclaim and a reuse change which nodes are free. */
  lemma FreeSet(s: State, m: Move)
    ensures Step(s, m).free ==
      if m.Alloc? && m.n in s.free then s.free - {m.n}
      else if m.Reclaim? then Step(s, m).free
      else s.free
    ensures m.Reclaim? && (!s.grace.Over? || s.Head(!s.active).None?) ==> Step(s, m).free == s.free
  {
  }

  lemma FreeStep(s: State, ls: Lists, m: Move, n: Node)
    requires Inv(s, ls)
    ensures One(n in Step(s, m).free) - One(n in s.free) == One(Happens(s, m, n, Return)) - One(Happens(s, m, n, Reuse))
  {
    ReturnStep(s, ls, m, n);
    FreeSet(s, m);
    OneOf(s, ls, !s.active);
    var l := ls.Of(!s.active);
    assert s.Head(!s.active).None? <==> l == [];
    assert l != [] ==> s.Head(!s.active) == Some(l[0]);
    if m.Reclaim? && l != [] {
      assert Listed(ls, l[0]);
      assert l[0] !in s.free;
    }
    hide Inv, Step, Placed, Linked;
  }

  lemma LiveStep(s: State, ls: Lists, m: Move, n: Node)
    requires Inv(s, ls)
    ensures One(n in Step(s, m).live) - One(n in s.live) == One(Happens(s, m, n, Reuse)) - One(Happens(s, m, n, Unlink))
  {
    assert s.live !! s.free;
    hide Inv;
  }

  /**
   * Conservation, for every node and every run: each unlinked node has landed on a list but for the one that is
   * being pushed, each landed node has been given back but for the one that is listed, each one given back has been
   * handed out again but for the one that is free, and each one handed out has been unlinked but for the one in use.
   * So no push is lost and none is reclaimed twice.
   */
  lemma {:induction false} Conserved(s0: State, moves: seq<Move>, n: Node) returns (ls: Lists)
    requires Initial(s0)
    ensures var s := Run(s0, moves);
      && Inv(s, ls)
      && Times(s0, moves, n, Unlink) == Times(s0, moves, n, Land) + One(Freed(s, n))
      && Times(s0, moves, n, Land) == Times(s0, moves, n, Return) + One(Listed(ls, n))
      && Times(s0, moves, n, Return) + One(n in s0.free) == Times(s0, moves, n, Reuse) + One(n in s.free)
      && Times(s0, moves, n, Reuse) + One(n in s0.live) == Times(s0, moves, n, Unlink) + One(n in s.live)
  {
    if moves == [] {
      ls := Lists([], []);
    } else {
      var before, m := moves[..|moves| - 1], moves[|moves| - 1];
      var was := Conserved(s0, before, n);
      var s := Run(s0, before);
      ls := After(s, was, m);
      Maintain(s, was, m);
      ListedStep(s, was, m, n);
      FreedStep(s, was, m, n);
      FreeStep(s, was, m, n);
      LiveStep(s, was, m, n);
      hide Inv, Step, After, Happens, Freed, Listed;
    }
  }

  /** When a node is reclaimed, no read section that began before its unlinking is open, and it is nowhere else. */
  lemma ReclaimIsSafe(s0: State, moves: seq<Move>, n: Node)
    requires Initial(s0) && Run(s0, moves).grace.Over? && Run(s0, moves).Head(!Run(s0, moves).active) == Some(n)
    ensures var s := Run(s0, moves); s.Sees(n) == {} && n !in s.live && n !in s.free && !Freed(s, n)
  {
    var ls := Reached(s0, moves);
    var s := Run(s0, moves);
    OneOf(s, ls, !s.active);
    assert n in ls.Of(!s.active);
    assert Draining(s, ls, n) && Listed(ls, n);
    hide Run, Linked, Prepared, Draining;
  }

  // ----- everything can be given back -----

  /** No read section is open. */
  ghost predicate Quiet(s: State) { forall th :: th in s.pc ==> s.pc[th].Out? }

  lemma {:induction false} RunAppend(s: State, a: seq<Move>, b: seq<Move>)
    ensures Run(s, a + b) == Run(Run(s, a), b)
    decreases |b|
  {
    hide Step;
    if b == [] {
      assert a + b == a;
    } else {
      assert (a + b)[..|a + b| - 1] == a + b[..|b| - 1];
      RunAppend(s, a, b[..|b| - 1]);
    }
  }

  lemma RunOne(s: State, m: Move)
    ensures Run(s, [m]) == Step(s, m)
  {
    assert [m][..0] == [];
  }

  /** Without read sections a grace period ends at once. */
  lemma GraceEnds(s: State) returns (moves: seq<Move>)
    requires Quiet(s) && (s.grace.Waiting? ==> s.grace.secs <= s.Sections())
    ensures Run(s, moves) == s.(grace := Over)
  {
    assert s.Sections() == {};
    RunOne(s, StartGrace);
    RunOne(s.(grace := Waiting({})), EndGrace);
    match s.grace {
      case Stale =>
        moves := [StartGrace] + [EndGrace];
        RunAppend(s, [StartGrace], [EndGrace]);
      case Waiting(secs) =>
        moves := [EndGrace];
        assert s == s.(grace := Waiting({}));
      case Over => moves := [];
    }
  }

  ghost function NodesOf(l: seq<Node>): set<Node> { set n | n in l }

  /** The state with the draining side given back. */
  ghost function Emptied(s: State, ls: Lists): State {
    s.WithHead(!s.active, None).(free := s.free + NodesOf(ls.Of(!s.active)))
  }

  /** One reclaim takes the first node off the draining side. */
  lemma Reclaims(s: State, ls: Lists)
    requires Inv(s, ls) && s.grace.Over? && ls.Of(!s.active) != []
    ensures var s', l := Step(s, Reclaim), ls.Of(!s.active);
      && l[0] in s.link && s' == s.WithHead(!s.active, s.link[l[0]]).(free := s.free + {l[0]})
      && After(s, ls, Reclaim).Of(!s.active) == l[1..]
  {
    OneOf(s, ls, !s.active);
    Pop(s.link, s.Head(!s.active), ls.Of(!s.active));
    hide Inv, Linked;
  }

  lemma OneLess(s: State, ls: Lists, s': State, ls': Lists, h: Option<Node>)
    requires ls.Of(!s.active) != [] && ls'.Of(!s.active) == ls.Of(!s.active)[1..]
    requires s' == s.WithHead(!s.active, h).(free := s.free + {ls.Of(!s.active)[0]})
    ensures s'.active == s.active && s'.grace == s.grace && Emptied(s', ls') == Emptied(s, ls)
  {
    var l := ls.Of(!s.active);
    assert NodesOf(l) == {l[0]} + NodesOf(l[1..]);
    assert s.free + {l[0]} + NodesOf(l[1..]) == s.free + NodesOf(l);
  }

  lemma NoneLeft(s: State, ls: Lists)
    requires Inv(s, ls) && ls.Of(!s.active) == []
    ensures Emptied(s, ls) == s
  {
    OneOf(s, ls, !s.active);
    assert NodesOf(ls.Of(!s.active)) == {};
    assert s.WithHead(!s.active, None) == s;
  }

  /** After a grace period the whole draining side can be given back. */
  lemma {:induction false} Empties(s: State, ls: Lists) returns (moves: seq<Move>)
    requires Inv(s, ls) && s.grace.Over?
    ensures Run(s, moves) == Emptied(s, ls)
    decreases |ls.Of(!s.active)|
  {
    RunNone(s);
    hide *;
    var l := ls.Of(!s.active);
    if l == [] {
      moves := [];
      NoneLeft(s, ls);
    } else {
      var s', ls' := Step(s, Reclaim), After(s, ls, Reclaim);
      Reclaims(s, ls);
      OneLess(s, ls, s', ls', s.link[l[0]]);
      Maintain(s, ls, Reclaim);
      var rest := Empties(s', ls');
      moves := [Reclaim] + rest;
      RunOne(s, Reclaim);
      RunAppend(s, [Reclaim], rest);
    }
  }

  lemma RunNone(s: State)
    ensures Run(s, []) == s
  {
  }

  /** Over a grace period and a round of reclaims the draining side empties and the sides change. */
  lemma Round(s: State, ls: Lists) returns (moves: seq<Move>)
    requires Inv(s, ls) && Quiet(s)
    ensures var s' := Run(s, moves);
      && s'.active == !s.active && s'.grace == Stale && s'.pc == s.pc && Quiet(s')
      && s'.Head(s.active) == s.Head(s.active) && s'.Head(!s.active) == None
  {
    var first := GraceEnds(s);
    var over := s.(grace := Over);
    OverInv(s, ls);
    var second := Empties(over, ls);
    var empty := Emptied(over, ls);
    RunOne(empty, Flip);
    RunAppend(s, first, second);
    RunAppend(s, first + second, [Flip]);
    moves := first + second + [Flip];
    hide Run, Inv;
  }

  /** Nobody is inside, so everything may be given back. */
  lemma OverInv(s: State, ls: Lists)
    requires Inv(s, ls) && Quiet(s)
    ensures Inv(s.(grace := Over), ls)
  {
    assert s.Sections() == {};
    assert s.(grace := Over).Sections() == {};
    assert forall n :: s.(grace := Over).Sees(n) == s.Sees(n) <= s.Sections();
    assert BothLinked(s.(grace := Over), ls) && Placed(s.(grace := Over), ls) && Prepared(s.(grace := Over));
    forall n | Draining(s.(grace := Over), ls, n) ensures s.Sees(n) == {} {
      assert s.Sees(n) <= s.Sections();
    }
    hide Linked, Placed, Prepared;
  }

  /**
   * From every state of a run in which no read section is open, two rounds give back everything: every node has been
   * given back as often as it has been unlinked.
   */
  lemma AllGivenBack(s0: State, moves: seq<Move>) returns (more: seq<Move>)
    requires Initial(s0) && Quiet(Run(s0, moves))
    ensures forall n :: Times(s0, moves + more, n, Return) == Times(s0, moves + more, n, Unlink)
  {
    var s := Run(s0, moves);
    var ls := Reached(s0, moves);
    var first := Round(s, ls);
    RunAppend(s0, moves, first);
    var ls' := Reached(s0, moves + first);
    var second := Round(Run(s, first), ls');
    RunAppend(s0, moves + first, second);
    more := first + second;
    assert moves + first + second == moves + more;
    forall n ensures Times(s0, moves + more, n, Return) == Times(s0, moves + more, n, Unlink) {
      NoneOut(s0, moves + more, n);
    }
  }

  lemma NoneOut(s0: State, moves: seq<Move>, n: Node)
    requires Initial(s0) && Quiet(Run(s0, moves)) && Run(s0, moves).head0.None? && Run(s0, moves).head1.None?
    ensures Times(s0, moves, n, Return) == Times(s0, moves, n, Unlink)
  {
    var ls := Conserved(s0, moves, n);
    hide Run, Times, Waits, Placed, Prepared;
  }

  // ----- a side drains to the end -----

  ghost function ListsOf(s0: State, moves: seq<Move>): Lists {
    if moves == [] then Lists([], [])
    else
      var before := moves[..|moves| - 1];
      After(Run(s0, before), ListsOf(s0, before), moves[|moves| - 1])
  }

  lemma {:induction false} ListsFit(s0: State, moves: seq<Move>)
    requires Initial(s0)
    ensures Inv(Run(s0, moves), ListsOf(s0, moves))
  {
    if moves != [] {
      var before := moves[..|moves| - 1];
      ListsFit(s0, before);
      Maintain(Run(s0, before), ListsOf(s0, before), moves[|moves| - 1]);
    }
  }

  /** A node on the draining side stays there until it is given back. */
  lemma DrainStep(s: State, ls: Lists, m: Move, n: Node)
    requires Inv(s, ls) && n in ls.Of(!s.active) && !Happens(s, m, n, Return)
    ensures n in After(s, ls, m).Of(!Step(s, m).active)
  {
    OneOf(s, ls, !s.active);
    ReturnStep(s, ls, m, n);
    hide Inv, Linked;
  }

  /** A node that is on the draining side at one time and has not been given back since is still there. */
  lemma {:induction false} DrainsOnly(s0: State, moves: seq<Move>, i: nat, n: Node)
    requires Initial(s0) && i <= |moves| && n in ListsOf(s0, moves[..i]).Of(!Run(s0, moves[..i]).active)
    requires Times(s0, moves, n, Return) == Times(s0, moves[..i], n, Return)
    ensures n in ListsOf(s0, moves).Of(!Run(s0, moves).active)
  {
    if i == |moves| {
      assert moves[..i] == moves;
    } else {
      var before, m := moves[..|moves| - 1], moves[|moves| - 1];
      assert before[..i] == moves[..i];
      TimesGrow(s0, before, i, n);
      DrainsOnly(s0, before, i, n);
      ListsFit(s0, before);
      hide Step, After, Happens, Inv;
      DrainStep(Run(s0, before), ListsOf(s0, before), m, n);
    }
  }

  lemma {:induction false} TimesGrow(s0: State, moves: seq<Move>, i: nat, n: Node)
    requires i <= |moves|
    ensures Times(s0, moves[..i], n, Return) <= Times(s0, moves, n, Return)
  {
    if i == |moves| {
      assert moves[..i] == moves;
    } else {
      assert moves[..|moves| - 1][..i] == moves[..i];
      TimesGrow(s0, moves[..|moves| - 1], i, n);
    }
  }

  // ----- a grace period between two flips -----

  /** Step k of a run changes the sides. */
  ghost predicate Flips(s0: State, moves: seq<Move>, k: nat)
    requires k < |moves|
  {
    moves[k].Flip? && Run(s0, moves[..k]).active != Run(s0, moves[..k + 1]).active
  }

  /** A section that was open is still open and the driver has not waited for it, or it has been left. */
  ghost predicate StillIn(s: State, th: Thread) {
    && th in s.pc && !s.pc[th].Out?
    && match s.grace
       case Stale => true
       case Waiting(secs) => th in secs
       case Over => false
  }

  lemma RunStep(s0: State, moves: seq<Move>, i: nat)
    requires i < |moves|
    ensures Run(s0, moves[..i + 1]) == Step(Run(s0, moves[..i]), moves[i])
  {
    assert moves[..i + 1][..i] == moves[..i];
  }

  lemma StaysIn(s: State, m: Move, th: Thread)
    requires StillIn(s, th) && !(m == Exit(th) && Step(s, m) != s)
    ensures StillIn(Step(s, m), th)
  {
  }

  lemma NoFlip(s: State, th: Thread)
    requires StillIn(s, th)
    ensures Step(s, Flip) == s
  {
  }

  lemma JustFlipped(s: State, th: Thread)
    requires Step(s, Flip).active != s.active && th in s.pc && !s.pc[th].Out?
    ensures StillIn(Step(s, Flip), th)
  {
  }

  lemma {:induction false} InUntilExit(s0: State, moves: seq<Move>, i: nat, j: nat, th: Thread)
    requires i <= j <= |moves| && StillIn(Run(s0, moves[..i]), th)
    requires forall k :: i <= k < j ==> moves[k] != Exit(th)
    ensures StillIn(Run(s0, moves[..j]), th)
    decreases j
  {
    if j > i {
      InUntilExit(s0, moves, i, j - 1, th);
      RunStep(s0, moves, j - 1);
      StaysIn(Run(s0, moves[..j - 1]), moves[j - 1], th);
    }
  }

  /** Between two changes of the sides every read section that was open at the first has been left. */
  lemma GraceBetweenFlips(s0: State, moves: seq<Move>, i: nat, j: nat, th: Thread)
    requires i < j < |moves| && Flips(s0, moves, i) && Flips(s0, moves, j)
    requires th in Run(s0, moves[..i]).pc && !Run(s0, moves[..i]).pc[th].Out?
    ensures exists k :: i < k < j && moves[k] == Exit(th)
  {
    RunStep(s0, moves, i);
    RunStep(s0, moves, j);
    JustFlipped(Run(s0, moves[..i]), th);
    hide Run, Step;
    if forall k :: i < k < j ==> moves[k] != Exit(th) {
      InUntilExit(s0, moves, i + 1, j, th);
      NoFlip(Run(s0, moves[..j]), th);
    }
  }
}

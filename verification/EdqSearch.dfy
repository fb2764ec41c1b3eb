/** Looking through the queue without changing it: the first eligible task, and scans with a cursor. */
module EdqSearch {
  import opened Options
  import opened RedBlack
  import opened Time
  import opened EdqTree

  // ----- the first eligible entry -----

  /** A linear scan of the queue. */
  ghost function EarliestEligible(c: Contents, cutoff: u64): Option<Entry<Key>> {
    if c == [] then None
    else if TimeBeforeEq(c[0].key.eligibility, cutoff) then Some(c[0])
    else EarliestEligible(c[1..], cutoff)
  }

  lemma {:induction false} ScanConcat(a: Contents, b: Contents, cutoff: u64)
    ensures EarliestEligible(a + b, cutoff) ==
      if EarliestEligible(a, cutoff).Some? then EarliestEligible(a, cutoff) else EarliestEligible(b, cutoff)
  {
    if a == [] {
      assert a + b == b;
    } else {
      assert (a + b)[1..] == a[1..] + b;
      ScanConcat(a[1..], b, cutoff);
    }
  }

  lemma ScanNode(t: EdqTree, cutoff: u64)
    requires t.Node?
    ensures EarliestEligible(InOrder(t), cutoff) ==
      if EarliestEligible(InOrder(t.left), cutoff).Some? then EarliestEligible(InOrder(t.left), cutoff)
      else if TimeBeforeEq(t.e.key.eligibility, cutoff) then Some(t.e)
      else EarliestEligible(InOrder(t.right), cutoff)
  {
    ScanConcat(InOrder(t.left) + [t.e], InOrder(t.right), cutoff);
    ScanConcat(InOrder(t.left), [t.e], cutoff);
    assert EarliestEligible([t.e], cutoff) == if TimeBeforeEq(t.e.key.eligibility, cutoff) then Some(t.e) else None;
  }

  /** The cached minimum of a subtree tells whether it holds an eligible entry. */
  lemma {:induction false} MinEligDecides(eb: u64, t: EdqTree, cutoff: u64)
    requires InRange(eb, t) && InWindow(eb, cutoff)
    ensures MinElig(eb, t) <= Sub(cutoff, eb) <==> EarliestEligible(InOrder(t), cutoff).Some?
  {
    if t.Node? {
      MinEligDecides(eb, t.left, cutoff);
      MinEligDecides(eb, t.right, cutoff);
      ScanNode(t, cutoff);
      WindowOrder(eb, t.e.key.eligibility, cutoff);
    }
  }

  lemma RootDecides(eb: u64, t: EdqTree, cutoff: u64)
    requires t.Node? && InRange(eb, t) && Exact(eb, t) && InWindow(eb, cutoff)
    ensures TimeBeforeEq(t.aug.eligibility, cutoff) <==> EarliestEligible(InOrder(t), cutoff).Some?
  {
    MinEligDecides(eb, t, cutoff);
    WindowOrder(eb, t.aug.eligibility, cutoff);
  }

  // ----- cursors -----

  datatype Cursor = Start | Past(deadline: u64, seqno: u64) | From(deadline: u64, seqno: u64)

  /** The comparison of the cursor with a node. */
  predicate KeyBefore(cur: Cursor, k: Key)
    requires !cur.Start?
  {
    if cur.deadline != k.deadline then TimeBefore(cur.deadline, k.deadline)
    else cur.seqno < k.seqno || (cur.From? && cur.seqno == k.seqno)
  }

  predicate Beyond(cur: Cursor, k: Key) { cur.Start? || KeyBefore(cur, k) }

  /** A linear scan for the first entry beyond the cursor. */
  ghost function NextOf(cur: Cursor, c: Contents): Option<Entry<Key>> {
    if c == [] then None
    else if Beyond(cur, c[0].key) then Some(c[0])
    else NextOf(cur, c[1..])
  }

  ghost function Advance(r: Option<Entry<Key>>): Cursor {
    if r.None? then Start else Past(r.value.key.deadline, r.value.key.seqno)
  }

  ghost predicate CursorFits(db: u64, cur: Cursor) { !cur.Start? ==> InWindow(db, cur.deadline) }

  /** Once one entry of a sorted queue is beyond the cursor, so are all that follow. */
  lemma BeyondIsUpward(db: u64, cur: Cursor, a: Key, b: Key)
    requires CursorFits(db, cur) && InWindow(db, a.deadline) && InWindow(db, b.deadline)
    requires Less(db, a, b) && Beyond(cur, a)
    ensures Beyond(cur, b)
  {
    if !cur.Start? {
      WindowOrder(db, cur.deadline, a.deadline);
      WindowOrder(db, cur.deadline, b.deadline);
    }
  }

  lemma {:induction false} NextIsFirst(cur: Cursor, c: Contents, k: nat)
    requires k <= |c| && (forall i :: 0 <= i < k ==> !Beyond(cur, c[i].key)) && (k < |c| ==> Beyond(cur, c[k].key))
    ensures NextOf(cur, c) == if k == |c| then None else Some(c[k])
  {
    if c != [] && k > 0 {
      NextIsFirst(cur, c[1..], k - 1);
    }
  }

  /** The cursor stands between the entries a and the entries b. */
  ghost predicate Splits(cur: Cursor, a: Contents, b: Contents) {
    (forall x <- a :: !Beyond(cur, x.key)) && (forall x <- b :: Beyond(cur, x.key))
  }

  lemma NextSplits(cur: Cursor, a: Contents, b: Contents)
    requires Splits(cur, a, b)
    ensures NextOf(cur, a + b) == if b == [] then None else Some(b[0])
  {
    NextIsFirst(cur, a + b, |a|);
  }

  /** A key at the place of a cursor; only deadline and number count. */
  ghost predicate AtPlace(cur: Cursor, k: Key) { !cur.Start? && cur.deadline == k.deadline && cur.seqno == k.seqno }

  /** A cursor at a queued key finds that entry or the next one, a cursor without a place the first one. */
  lemma CursorAtEntry(db: u64, eb: u64, c: Contents, k: nat)
    requires Sorted(db, c) && Windowed(db, eb, c) && k < |c|
    ensures NextOf(From(c[k].key.deadline, c[k].key.seqno), c) == Some(c[k])
    ensures NextOf(Past(c[k].key.deadline, c[k].key.seqno), c) == if k + 1 < |c| then Some(c[k + 1]) else None
    ensures NextOf(Start, c) == Some(c[0])
  {
    var from, past := From(c[k].key.deadline, c[k].key.seqno), Past(c[k].key.deadline, c[k].key.seqno);
    forall i | 0 <= i < |c|
      ensures (Beyond(from, c[i].key) <==> i >= k) && (Beyond(past, c[i].key) <==> i > k)
    {
      WindowOrder(db, c[k].key.deadline, c[i].key.deadline);
    }
    NextIsFirst(from, c, k);
    NextIsFirst(past, c, k + 1);
  }

  /** A cursor at a key that is not queued finds the first entry whose key comes later. */
  lemma CursorBetween(db: u64, eb: u64, c: Contents, cur: Cursor, key: Key, k: nat)
    requires Sorted(db, c) && Windowed(db, eb, c) && AtPlace(cur, key) && InWindow(db, key.deadline)
    requires k <= |c| && (forall i :: 0 <= i < k ==> Less(db, c[i].key, key))
    requires forall i :: k <= i < |c| ==> Less(db, key, c[i].key)
    ensures NextOf(cur, c) == if k < |c| then Some(c[k]) else None
  {
    forall i | 0 <= i < |c|
      ensures Beyond(cur, c[i].key) <==> i >= k
    {
      WindowOrder(db, key.deadline, c[i].key.deadline);
    }
    NextIsFirst(cur, c, k);
  }

  /** Every cursor in the window has such a place in a sorted queue, or stands at an entry. */
  lemma {:induction false} CursorHasPlace(db: u64, eb: u64, c: Contents, key: Key) returns (k: nat)
    requires Sorted(db, c) && Windowed(db, eb, c) && InWindow(db, key.deadline)
    ensures k <= |c| && (forall i :: 0 <= i < k ==> Less(db, c[i].key, key))
    ensures
      || (k < |c| && key.deadline == c[k].key.deadline && key.seqno == c[k].key.seqno)
      || (forall i :: k <= i < |c| ==> Less(db, key, c[i].key))
  {
    if c == [] || !Less(db, c[0].key, key) {
      k := 0;
      if c != [] {
        WindowOrder(db, key.deadline, c[0].key.deadline);
      }
    } else {
      k := CursorHasPlace(db, eb, c[1..], key);
      k := k + 1;
      assert forall i :: 1 <= i < |c| ==> c[i] == c[1..][i - 1];
    }
  }

  /** What a scan of bounded steps returns when the queue holds snaps[i] at step i. */
  ghost function Pass(cur: Cursor, snaps: seq<Contents>): seq<Entry<Key>>
    decreases snaps
  {
    if snaps == [] then []
    else
      var r := NextOf(cur, snaps[0]);
      if r.None? then [] else [r.value] + Pass(Advance(r), snaps[1..])
  }

  lemma {:induction false} NextBeyond(cur: Cursor, c: Contents)
    ensures NextOf(cur, c).Some? ==> NextOf(cur, c).value in c && Beyond(cur, NextOf(cur, c).value.key)
  {
    if c != [] && !Beyond(cur, c[0].key) {
      NextBeyond(cur, c[1..]);
    }
  }

  /** Within one pass the keys returned rise strictly, whatever joins or leaves the queue between the steps. */
  lemma {:induction false} PassRises(db: u64, eb: u64, cur: Cursor, snaps: seq<Contents>)
    requires CursorFits(db, cur) && (forall i :: 0 <= i < |snaps| ==> Windowed(db, eb, snaps[i]))
    ensures var out := Pass(cur, snaps);
      && Sorted(db, out)
      && (forall i :: 0 <= i < |out| ==> Beyond(cur, out[i].key) && InWindow(db, out[i].key.deadline))
    decreases snaps
  {
    if snaps != [] {
      var r := NextOf(cur, snaps[0]);
      NextBeyond(cur, snaps[0]);
      if r.Some? {
        var k, next, rest := r.value.key, Advance(r), Pass(Advance(r), snaps[1..]);
        assert InWindow(db, k.deadline) by {
          var i :| 0 <= i < |snaps[0]| && snaps[0][i] == r.value;
        }
        assert forall i :: 0 <= i < |snaps[1..]| ==> snaps[1..][i] == snaps[i + 1];
        PassRises(db, eb, next, snaps[1..]);
        forall i | 0 <= i < |rest|
          ensures Less(db, k, rest[i].key) && Beyond(cur, rest[i].key)
        {
          assert Beyond(next, rest[i].key);
          WindowOrder(db, k.deadline, rest[i].key.deadline);
          BeyondIsUpward(db, cur, k, rest[i].key);
        }
      }
    }
  }

  /** Over an unchanged queue a pass returns every entry once, in order, and only then starts again. */
  lemma {:induction false} PassVisitsAll(db: u64, eb: u64, c: Contents, k: nat)
    requires Sorted(db, c) && Windowed(db, eb, c) && k <= |c|
    ensures Pass(if k == 0 then Start else Advance(Some(c[k - 1])), seq(|c| - k + 1, i => c)) == c[k..]
    decreases |c| - k
  {
    var cur := if k == 0 then Start else Advance(Some(c[k - 1]));
    var snaps := seq(|c| - k + 1, i => c);
    forall i | 0 <= i < |c|
      ensures Beyond(cur, c[i].key) <==> i >= k
    {
      if k > 0 {
        WindowOrder(db, c[k - 1].key.deadline, c[i].key.deadline);
      }
    }
    NextIsFirst(cur, c, k);
    if k < |c| {
      assert snaps[1..] == seq(|c| - k, i => c);
      PassVisitsAll(db, eb, c, k + 1);
      assert c[k..] == [c[k]] + c[k + 1..];
    }
  }

  // ----- another half range -----

  ghost predicate InBoth(eb: u64, eb': u64, x: u64) { InWindow(eb, x) && InWindow(eb', x) }

  ghost function Nearer(eb: u64, a: u64, b: u64): u64 { if Sub(a, eb) < Sub(b, eb) then a else b }

  lemma NearerInBoth(eb: u64, eb': u64, a: u64, b: u64)
    requires InBoth(eb, eb', a) && InBoth(eb, eb', b)
    ensures Nearer(eb, a, b) == Nearer(eb', a, b) && InBoth(eb, eb', Nearer(eb, a, b))
  {
    WindowOrder(eb, a, b);
    WindowOrder(eb', a, b);
  }

  /** The minimums are exact for every half range that holds the eligibilities, or for none. */
  lemma {:induction false} RebaseExact(eb: u64, eb': u64, t: EdqTree)
    requires InRange(eb, t) && InRange(eb', t) && Exact(eb, t)
    ensures Exact(eb', t) && (t.Node? ==> InBoth(eb, eb', t.aug.eligibility))
  {
    if t.Node? {
      RebaseExact(eb, eb', t.left);
      RebaseExact(eb, eb', t.right);
      var own, l, r := t.e.key.eligibility, t.left, t.right;
      var a := if l.Leaf? then own else Nearer(eb, own, l.aug.eligibility);
      var b := if r.Leaf? then a else Nearer(eb, a, r.aug.eligibility);
      if l.Node? {
        NearerInBoth(eb, eb', own, l.aug.eligibility);
      }
      if r.Node? {
        NearerInBoth(eb, eb', a, r.aug.eligibility);
      }
      assert Sub(b, eb) == MinElig(eb, t) && Sub(b, eb') == MinElig(eb', t) by {
        assert MinElig(eb, l) == if l.Leaf? then TWO64 else Sub(l.aug.eligibility, eb);
        assert MinElig(eb, r) == if r.Leaf? then TWO64 else Sub(r.aug.eligibility, eb);
        assert MinElig(eb', l) == if l.Leaf? then TWO64 else Sub(l.aug.eligibility, eb');
        assert MinElig(eb', r) == if r.Leaf? then TWO64 else Sub(r.aug.eligibility, eb');
      }
      WindowOrder(eb, t.aug.eligibility, b);
    }
  }

  lemma RebaseSorted(db: u64, db': u64, eb: u64, eb': u64, c: Contents)
    requires Sorted(db, c) && Windowed(db, eb, c) && Windowed(db', eb', c)
    ensures Sorted(db', c)
  {
    forall i, j | 0 <= i < j < |c|
      ensures Less(db', c[i].key, c[j].key)
    {
      LessIsNodeLess(db, c[i].key, c[j].key);
      LessIsNodeLess(db', c[i].key, c[j].key);
    }
  }
}

/** Arena task queues: red-black trees of tasks, by virtual time or in order of arrival (lib/atq.bpf.c). */
module Atq {
  import opened RedBlack
  import opened RbShape
  import opened RbTree
  import opened Time

  /** The virtual time that asks for a place in order of arrival. */
  const FIFO: u64 := TWO64 - 1

  /** What the task says of its queue: none, this one, another one, or that it is dying. */
  datatype Owner = Free | Here | Elsewhere | Dead

  /** 0, -ENOSPC, -EINVAL, -ECANCELED and -EALREADY */
  datatype Result = Done | NoSpace | Mismatch | Canceled | Queued

  /** Every entry carries its own task. */
  ghost predicate OwnTasks(c: Contents) {
    forall x <- c :: x.key.value == x.ptr
  }

  ghost predicate AllBelow(c: Contents, bound: nat) {
    forall x <- c :: x.key.key < bound
  }

  lemma SomeEntry(c: Contents)
    ensures c != [] ==> exists x :: x in c
  {
    if c != [] {
      assert c[0] in c;
    }
  }

  /** A key above all others goes to the end. */
  lemma LastInserted(c: Contents, e: Entry<Item>, d: Contents)
    requires Inserted(c, e, d) && AllBelow(c, e.key.key)
    ensures d == c + [e]
  {
    var k :| 0 <= k <= |c| && Between(c[..k], e.key.key, c[k..]) && d == c[..k] + [e] + c[k..];
    SomeEntry(c[k..]);
    assert forall x <- c[k..] :: x in c;
    assert c[k..] == [];
    assert k == |c|;
  }

  lemma InsertedFacts(c: Contents, e: Entry<Item>, d: Contents, bound: nat)
    requires Inserted(c, e, d)
    ensures |d| == |c| + 1 && Ptrs(d) == Ptrs(c) + {e.ptr}
    ensures OwnTasks(c) && e.key.value == e.ptr ==> OwnTasks(d)
    ensures AllBelow(c, bound) && e.key.key < bound ==> AllBelow(d, bound)
  {
    var k :| 0 <= k <= |c| && Between(c[..k], e.key.key, c[k..]) && d == c[..k] + [e] + c[k..];
    assert c == c[..k] + c[k..];
    PtrsGrow(c[..k], e, c[k..]);
    assert forall x <- d :: x == e || x in c;
  }

  lemma RemovedFacts(c: Contents, n: Ptr, d: Contents, bound: nat)
    requires Removed(c, n, d) && forall i, j :: 0 <= i < j < |c| ==> c[i].ptr != c[j].ptr
    ensures |d| == |c| - 1 && Ptrs(d) == Ptrs(c) - {n}
    ensures OwnTasks(c) ==> OwnTasks(d)
    ensures AllBelow(c, bound) ==> AllBelow(d, bound)
  {
    var k :| 0 <= k < |c| && c[k].ptr == n && d == c[..k] + c[k + 1..];
    DropAt(c, k);
    assert forall x <- d :: x in c;
    DropPtrs(c, k);
  }

  lemma DropPtrs(c: Contents, k: nat)
    requires k < |c| && forall i, j :: 0 <= i < j < |c| ==> c[i].ptr != c[j].ptr
    ensures Ptrs(c[..k] + c[k + 1..]) == Ptrs(c) - {c[k].ptr}
  {
    var d := c[..k] + c[k + 1..];
    DropAt(c, k);
    forall x <- c | x.ptr != c[k].ptr
      ensures x in d
    {
      var i :| 0 <= i < |c| && c[i] == x;
      assert d[if i < k then i else i - 1] == x;
    }
    forall x <- d
      ensures x.ptr != c[k].ptr && x in c
    {
      var i :| 0 <= i < |d| && d[i] == x;
      assert x == c[if i < k then i else i + 1];
    }
  }

  /** The tasks that say they are queued here are those of the tree. */
  ghost predicate Owned(nodes: set<Ptr>, owner: map<Ptr, Owner>, c: Contents) {
    owner.Keys == nodes && NULL !in nodes && forall n <- owner :: owner[n] == Here <==> n in Ptrs(c)
  }

  lemma OwnedMore(nodes: set<Ptr>, owner: map<Ptr, Owner>, c: Contents, d: Contents, task: Ptr)
    requires Owned(nodes, owner, c) && task in owner && Ptrs(d) == Ptrs(c) + {task}
    ensures Owned(nodes, owner[task := Here], d)
  {
  }

  lemma OwnedLess(nodes: set<Ptr>, owner: map<Ptr, Owner>, c: Contents, d: Contents, task: Ptr, o: Owner)
    requires Owned(nodes, owner, c) && task in owner && Ptrs(d) == Ptrs(c) - {task} && o != Here
    ensures Owned(nodes, owner[task := o], d)
  {
  }

  lemma OwnedFacts(nodes: set<Ptr>, owner: map<Ptr, Owner>, c: Contents)
    requires Owned(nodes, owner, c)
    ensures owner.Keys == nodes && NULL !in nodes && forall n <- owner :: owner[n] == Here <==> n in Ptrs(c)
  {
  }

  lemma MayRepeat(mode: Mode, c: Contents, e: Entry<Item>, r: Status, d: Contents)
    requires InsertOutcome(mode, c, e, r, d) && mode.Duplicate?
    ensures r.Ok? && Inserted(c, e, d)
  {
  }

  lemma OwnFirst(c: Contents)
    requires OwnTasks(c) && c != []
    ensures c[0].key.value == c[0].ptr && c[0].ptr in Ptrs(c)
  {
    assert c[0] in c;
  }

  lemma BelowMore(c: Contents, n: nat)
    ensures AllBelow(c, n) ==> AllBelow(c, n + 1)
  {
  }

  lemma Wraps(n: nat)
    ensures (n % TWO64 + 1) % TWO64 == (n + 1) % TWO64
    ensures n < TWO64 ==> n % TWO64 == n
  {
  }

  lemma FirstOut(c: Contents, d: Contents)
    requires c != [] && d == c[1..] && Sorted(c)
    ensures Removed(c, c[0].ptr, d)
    ensures forall x <- c :: c[0].key.key <= x.key.key
  {
    assert d == c[..0] + c[1..];
  }

  class Atq {
    const tree: Rbtree
    const fifo: bool
    const capacity: u64
    var size: nat
    var next: u64
    var owner: map<Ptr, Owner>
    var holds: map<Ptr, nat>
    /** How many sequence numbers have been handed out, without wrap-around. */
    ghost var issued: nat

    ghost function Contents(): Contents
      reads tree
    {
      tree.Contents()
    }

    ghost predicate Valid()
      reads this, tree
    {
      && tree.Valid() && tree.insert.Duplicate?
      && Owned(tree.arena.Keys, owner, Contents()) && holds.Keys == owner.Keys
      && size == |Contents()| && size <= capacity && OwnTasks(Contents())
      && next == issued % TWO64
      && (fifo && issued <= TWO64 ==> AllBelow(Contents(), issued))
    }

    constructor (tasks: Arena<Item, ()>, fifo: bool, capacity: u64)
      requires NULL !in tasks
      ensures Valid() && Contents() == [] && owner.Keys == tasks.Keys && fresh(tree)
      ensures this.fifo == fifo && this.capacity == capacity && size == 0 && issued == 0
      ensures owner == (map n <- tasks :: Free) && holds == map n <- tasks :: 0
    {
      tree := new Rbtree(tasks, Duplicate);
      this.fifo, this.capacity := fifo, capacity;
      size, next, issued := 0, 0, 0;
      owner := map n <- tasks :: Free;
      holds := map n <- tasks :: 0;
    }

    /** Queues a task that is in no queue; equal virtual times leave in the reverse order of arrival. */
    method Insert(task: Ptr, vtime: u64) returns (r: Result)
      requires Valid() && task in owner
      modifies this, tree
      ensures Valid() && owner.Keys == old(owner.Keys) && holds == old(holds)
      ensures r ==
        if old(size) == capacity then NoSpace
        else if (vtime == FIFO) != fifo then Mismatch
        else match old(owner)[task]
          case Free => Done
          case Dead => Canceled
          case _ => Queued
      ensures !r.Done? ==>
        Contents() == old(Contents()) && owner == old(owner) && size == old(size) && issued == old(issued)
      ensures r.Done? ==> size == old(size) + 1 && owner == old(owner)[task := Here]
      ensures r.Done? ==>
        Inserted(old(Contents()), Entry(task, Item(if fifo then old(next) else vtime, task)), Contents())
      ensures r.Done? ==> issued == old(issued) + if fifo then 1 else 0
      ensures r.Done? && fifo && old(issued) < TWO64 ==>
        Contents() == old(Contents()) + [Entry(task, Item(old(issued), task))]
    {
      hide Owned, Inserted, Removed, Ptrs, OwnTasks, AllBelow, InsertOutcome, Same, Live, Balanced, Ordered, Sorted,
           InOrder;
      OwnedFacts(tree.arena.Keys, owner, Contents());
      if size == capacity {
        return NoSpace;
      }
      if (vtime == FIFO) != fifo {
        return Mismatch;
      }
      if owner[task] != Free {
        return if owner[task] == Dead then Canceled else Queued;
      }
      ghost var c := Contents();
      ghost var n := issued;
      var key := vtime;
      if vtime == FIFO {
        key := next;
        next := (next + 1) % TWO64;
        issued := issued + 1;
        Wraps(n);
      }
      tree.Label(task, Item(key, task));
      var s := tree.InsertNode(task);
      owner := owner[task := Here];
      size := size + 1;
      ghost var e := Entry(task, Item(key, task));
      MayRepeat(tree.insert, c, e, s, Contents());
      InsertedFacts(c, e, Contents(), n + 1);
      BelowMore(c, n);
      OwnedMore(tree.arena.Keys, old(owner), c, Contents(), task);
      if fifo && n < TWO64 {
        LastInserted(c, e, Contents());
      }
      return Done;
    }

    /** Takes a task out of this queue. */
    method Remove(task: Ptr, dead: bool) returns (r: Result)
      requires Valid() && task in owner
      modifies this, tree
      ensures Valid() && owner.Keys == old(owner.Keys) && issued == old(issued) && holds == old(holds)
      ensures r == if old(owner)[task] == Here then Done else Mismatch
      ensures r.Mismatch? ==> Contents() == old(Contents()) && owner == old(owner) && size == old(size)
      ensures r.Done? ==> Removed(old(Contents()), task, Contents()) && size == old(size) - 1
      ensures r.Done? ==> owner == old(owner)[task := if dead then Dead else Free]
    {
      hide Owned, Inserted, Removed, Ptrs, OwnTasks, AllBelow, InsertOutcome, Same, Live, Balanced, Ordered, Sorted,
           InOrder;
      OwnedFacts(tree.arena.Keys, owner, Contents());
      if owner[task] != Here {
        return Mismatch;
      }
      ghost var c := Contents();
      tree.Distinctness();
      var s := tree.RemoveNode(task);
      RemovedFacts(c, task, Contents(), issued);
      OwnedLess(tree.arena.Keys, owner, c, Contents(), task, if dead then Dead else Free);
      owner := owner[task := if dead then Dead else Free];
      size := size - 1;
      return Done;
    }

    /** Takes out a task of the least key: in order of arrival, the one that has waited longest. */
    method Pop(hold: bool) returns (task: Ptr)
      requires Valid()
      modifies this, tree
      ensures Valid() && issued == old(issued)
      ensures old(Contents()) == [] ==> task == NULL && Contents() == [] && owner == old(owner) && holds == old(holds)
      ensures old(Contents()) != [] ==>
        && task == old(Contents())[0].ptr && Contents() == old(Contents())[1..] && task in old(owner)
        && owner == old(owner)[task := Free] && size == old(size) - 1
        && task in old(holds) && holds == old(holds)[task := old(holds)[task] + if hold then 1 else 0]
        && forall x <- old(Contents()) :: old(Contents())[0].key.key <= x.key.key
    {
      hide Owned, Inserted, Removed, Ptrs, OwnTasks, AllBelow, InsertOutcome, Same, Live, Balanced, Ordered, Sorted,
           InOrder;
      OwnedFacts(tree.arena.Keys, owner, Contents());
      if size == 0 {
        return NULL;
      }
      ghost var c := Contents();
      tree.Distinctness();
      var s, item, node := tree.Pop();
      FirstOut(c, Contents());
      OwnFirst(c);
      RemovedFacts(c, node, Contents(), issued);
      OwnedLess(tree.arena.Keys, owner, c, Contents(), node, Free);
      size := size - 1;
      if hold {
        holds := holds[item.value := holds[item.value] + 1];
      }
      owner := owner[item.value := Free];
      return item.value;
    }

    method Peek() returns (task: Ptr)
      requires Valid()
      ensures task == if Contents() == [] then NULL else Contents()[0].ptr
    {
      if size == 0 {
        return NULL;
      }
      var s, item := tree.LeastItem();
      return item.value;
    }
  }
}

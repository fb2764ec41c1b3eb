/** A buddy chunk: order nibbles, marked bits and free lists, changed in place by allocation and freeing. */
module Buddy {
  import opened BuddyTree
  import opened BuddyLists

  const EINVAL := 22

  /** Two orders per byte: the even item's in the high nibble. */
  function OrderAt(orders: seq<nat>, idx: nat): nat
    requires |orders| == ITEMS / 2 && idx < ITEMS
  {
    if idx % 2 == 1 then orders[idx / 2] % 16 else orders[idx / 2] / 16
  }

  function WithOrder(orders: seq<nat>, idx: nat, order: nat): seq<nat>
    requires |orders| == ITEMS / 2 && idx < ITEMS && order < NUM_ORDERS
  {
    var was := orders[idx / 2];
    orders[idx / 2 := if idx % 2 == 1 then was / 16 * 16 + order else order * 16 + was % 16]
  }

  /** Storing an order changes that item's order and no other's. */
  lemma OrderStored(orders: seq<nat>, idx: nat, order: nat)
    requires |orders| == ITEMS / 2 && idx < ITEMS && order < NUM_ORDERS
    ensures |WithOrder(orders, idx, order)| == ITEMS / 2
    ensures forall i: nat :: i < ITEMS ==>
      OrderAt(WithOrder(orders, idx, order), i) == if i == idx then order else OrderAt(orders, i)
  {
  }

  /** The bits and nibbles describe the blocks: used ones are marked, and no other item is. */
  ghost predicate Shows(marked: seq<bool>, orders: seq<nat>, blocks: set<Block>) {
    && |marked| == ITEMS && |orders| == ITEMS / 2
    && (forall b :: b in blocks ==> b.idx < ITEMS && b.order < NUM_ORDERS)
    && (forall b :: b in blocks ==> marked[b.idx] == (b.kind != Free))
    && (forall b :: b in blocks && b.kind != Meta ==> OrderAt(orders, b.idx) == b.order)
    && (forall i :: 0 <= i < ITEMS && marked[i] ==> Starts(blocks, i))
  }

  ghost predicate Starts(blocks: set<Block>, i: nat) {
    exists b :: b in blocks && b.idx == i
  }

  lemma ShowsMore(marked: seq<bool>, orders: seq<nat>, orders': seq<nat>, blocks: set<Block>, b: Block)
    requires Shows(marked, orders, blocks) && Unique(blocks) && !Starts(blocks, b.idx) && b.idx < ITEMS
    requires b.order < NUM_ORDERS && |orders'| == ITEMS / 2
    requires b.kind != Meta ==> OrderAt(orders', b.idx) == b.order
    requires forall i: nat :: i < ITEMS && i != b.idx ==> OrderAt(orders', i) == OrderAt(orders, i)
    ensures Shows(marked[b.idx := b.kind != Free], orders', blocks + {b}) && Unique(blocks + {b})
  {
    hide OrderAt;
    forall c | c in blocks ensures c.idx != b.idx {
      assert Starts(blocks, c.idx);
    }
    forall i | 0 <= i < ITEMS && marked[b.idx := b.kind != Free][i] ensures Starts(blocks + {b}, i) {
      if i == b.idx {
        assert b in blocks + {b};
      } else {
        assert Starts(blocks, i);
        var c :| c in blocks && c.idx == i;
        assert c in blocks + {b};
      }
    }
  }

  lemma ShowsFewer(marked: seq<bool>, marked': seq<bool>, orders: seq<nat>, blocks: set<Block>, b: Block)
    requires Shows(marked, orders, blocks) && Unique(blocks) && b in blocks && marked' == marked[b.idx := false]
    ensures Shows(marked', orders, blocks - {b}) && Unique(blocks - {b}) && !Starts(blocks - {b}, b.idx)
  {
    hide OrderAt;
    forall i | 0 <= i < ITEMS && marked'[i] ensures Starts(blocks - {b}, i) {
      assert Starts(blocks, i);
      var c :| c in blocks && c.idx == i;
      assert c in blocks - {b};
    }
  }

  /** The head of a list is a free block. */
  lemma HeadsAreFree(marked: seq<bool>, headers: seq<Header>, heads: seq<nat>, lists: seq<seq<nat>>, orders: seq<nat>,
                     blocks: set<Block>, order: nat)
    requires Shows(marked, orders, blocks) && Listed(headers, heads, lists, blocks) && order < NUM_ORDERS
    requires heads[order] != ITEMS
    ensures Block(heads[order], order, Free) in blocks && heads[order] < ITEMS && !marked[heads[order]]
  {
    assert Linked(headers, heads[order], lists[order]);
    assert heads[order] in lists[order];
  }

  lemma ListedUsed(headers: seq<Header>, heads: seq<nat>, lists: seq<seq<nat>>, blocks: set<Block>, b: Block)
    requires b.kind != Free
    ensures Listed(headers, heads, lists, blocks + {b}) <==> Listed(headers, heads, lists, blocks)
    ensures Listed(headers, heads, lists, blocks - {b}) <==> Listed(headers, heads, lists, blocks)
  {
    hide Linked;
    assert forall i, o :: Block(i, o, Free) in blocks + {b} <==> Block(i, o, Free) in blocks;
    assert forall i, o :: Block(i, o, Free) in blocks - {b} <==> Block(i, o, Free) in blocks;
  }

  /** Some block is set aside for the chunk's own metadata. */
  ghost predicate Pinned(blocks: set<Block>) {
    exists b :: b in blocks && b.kind == Meta
  }

  class Chunk {
    var orders: seq<nat>
    var marked: seq<bool>
    var freelists: seq<nat>
    var headers: seq<Header>

    ghost var tree: Tree
    ghost var lists: seq<seq<nat>>

    ghost predicate Holds(blocks: set<Block>)
      reads this`marked, this`orders, this`headers, this`freelists, this`lists
    {
      Shows(marked, orders, blocks) && Listed(headers, freelists, lists, blocks) && Unique(blocks)
    }

    /** The header of an item can be reached: the item is not marked allocated. */
    ghost predicate HasHeader(idx: nat)
      reads this`marked
    {
      idx < ITEMS && |marked| == ITEMS && !marked[idx]
    }

    method SetOrder(idx: nat, order: nat) returns (ret: int)
      requires |orders| == ITEMS / 2
      modifies this`orders
      ensures |orders| == ITEMS / 2
      ensures ret == if order < NUM_ORDERS && idx < ITEMS then 0 else -EINVAL
      ensures forall i: nat :: i < ITEMS ==>
        OrderAt(orders, i) == if i == idx && order < NUM_ORDERS then order else old(OrderAt(orders, i))
    {
      if order >= NUM_ORDERS || idx >= ITEMS {
        return -EINVAL;
      }
      OrderStored(orders, idx, order);
      orders := WithOrder(orders, idx, order);
      return 0;
    }

    lemma NeighboursAreFree(blocks: set<Block>, idx: nat, order: nat)
      requires Holds(blocks) && Block(idx, order, Free) in blocks
      ensures HasHeader(idx) && |headers| == ITEMS
      ensures headers[idx].prev != ITEMS ==> HasHeader(headers[idx].prev)
      ensures headers[idx].next != ITEMS ==> HasHeader(headers[idx].next)
    {
      assert Linked(headers, freelists[order], lists[order]);
      assert idx in lists[order];
      var k :| 0 <= k < |lists[order]| && lists[order][k] == idx;
      Neighbours(headers, freelists[order], lists[order], k);
      hide Linked, HeaderIn;
      assert headers[idx].prev in lists[order] ==> Block(headers[idx].prev, order, Free) in blocks;
      assert headers[idx].next in lists[order] ==> Block(headers[idx].next, order, Free) in blocks;
    }

    /** An item where no block starts is not marked. */
    lemma ClearHeader(blocks: set<Block>, i: nat)
      requires Holds(blocks) && i < ITEMS && !Starts(blocks, i)
      ensures HasHeader(i)
    {
    }

    method LinkFirst(idx: nat, order: nat)
      requires |headers| == ITEMS && idx < ITEMS && order < NUM_ORDERS == |freelists| && freelists[order] <= ITEMS
      requires HasHeader(idx) && (freelists[order] != ITEMS ==> HasHeader(freelists[order]))
      modifies this`freelists, this`headers
      ensures headers == Pushed(old(headers), old(freelists)[order], idx) && freelists == old(freelists)[order := idx]
    {
      var next := freelists[order];
      headers := headers[idx := Header(ITEMS, next)];
      if next != ITEMS {
        headers := headers[next := headers[next].(prev := idx)];
      }
      freelists := freelists[order := idx];
    }

    method Unlink(idx: nat, order: nat)
      requires |headers| == ITEMS && idx < ITEMS && order < NUM_ORDERS == |freelists|
      requires headers[idx].prev <= ITEMS && headers[idx].next <= ITEMS && HasHeader(idx)
      requires headers[idx].prev != ITEMS ==> HasHeader(headers[idx].prev)
      requires headers[idx].next != ITEMS ==> HasHeader(headers[idx].next)
      modifies this`freelists, this`headers
      ensures headers == Pulled(old(headers), idx)
      ensures freelists ==
        if old(freelists)[order] == idx then old(freelists)[order := old(headers)[idx].next] else old(freelists)
    {
      var h := headers[idx];
      if h.prev != ITEMS {
        headers := headers[h.prev := headers[h.prev].(next := h.next)];
      }
      if h.next != ITEMS {
        headers := headers[h.next := headers[h.next].(prev := h.prev)];
      }
      if freelists[order] == idx {
        freelists := freelists[order := h.next];
      }
      headers := headers[idx := Header(ITEMS, ITEMS)];
    }

    /**
     * Puts a free block at the front of the list of its order. One that is there already makes a ring: no lists
     * fit the headers any more.
     */
    method AddFreelist(idx: nat, order: nat, ghost blocks: set<Block>)
      requires Holds(blocks) && HasHeader(idx) && order < NUM_ORDERS
      requires !Starts(blocks, idx) || Block(idx, order, Free) in blocks
      modifies this`orders, this`freelists, this`headers, this`lists
      ensures !Starts(blocks, idx) ==> Holds(blocks + {Block(idx, order, Free)})
      ensures Starts(blocks, idx) ==> Broken(headers, freelists)
    {
      ghost var before := orders;
      var _ := SetOrder(idx, order);
      Pushable(blocks, before, idx, order);
      hide Shows, OrderAt, Linked, Listed, Unique, Pushed, Starts, Broken;
      LinkFirst(idx, order);
      lists := lists[order := [idx] + lists[order]];
    }

    /** What comes of the lists when an item is pushed. */
    lemma Pushable(blocks: set<Block>, before: seq<nat>, idx: nat, order: nat)
      requires Shows(marked, before, blocks) && Listed(headers, freelists, lists, blocks) && Unique(blocks)
      requires HasHeader(idx) && order < NUM_ORDERS && |orders| == ITEMS / 2
      requires forall i: nat :: i < ITEMS ==> OrderAt(orders, i) == if i == idx then order else OrderAt(before, i)
      requires !Starts(blocks, idx) || Block(idx, order, Free) in blocks
      ensures |headers| == ITEMS && |freelists| == |lists| == NUM_ORDERS && freelists[order] <= ITEMS
      ensures freelists[order] != ITEMS ==> HasHeader(freelists[order])
      ensures var hs, heads := Pushed(headers, freelists[order], idx), freelists[order := idx];
        && (!Starts(blocks, idx) ==>
              var more := blocks + {Block(idx, order, Free)};
              Shows(marked, orders, more) && Unique(more)
              && Listed(hs, heads, lists[order := [idx] + lists[order]], more))
        && (Starts(blocks, idx) ==> Broken(hs, heads))
    {
      HeadsInRange(headers, freelists, lists, blocks, order);
      if freelists[order] != ITEMS {
        HeadsAreFree(marked, headers, freelists, lists, before, blocks, order);
      }
      if Starts(blocks, idx) {
        PushedTwice(headers, freelists, lists, blocks, idx, order);
      } else {
        ShowsMore(marked, before, orders, blocks, Block(idx, order, Free));
        assert marked[idx := false] == marked;
        hide Shows, OrderAt, Linked;
        assert forall b :: b in blocks ==> b.idx != idx;
        PushListed(headers, freelists, lists, blocks, idx, order);
      }
    }

    /** Takes a free block out of the list of its order. */
    method RemoveFreelist(idx: nat, order: nat, ghost blocks: set<Block>)
      requires Holds(blocks) && Block(idx, order, Free) in blocks
      modifies this`freelists, this`headers, this`lists
      ensures Holds(blocks - {Block(idx, order, Free)})
    {
      ShowsFewer(marked, marked, orders, blocks, Block(idx, order, Free));
      NeighboursAreFree(blocks, idx, order);
      hide Shows, OrderAt, Linked;
      ghost var k := PullListed(headers, freelists, lists, blocks, idx, order);
      hide Listed, Unique, Pulled, Without, Starts;
      Unlink(idx, order);
      lists := lists[order := Without(lists[order], k)];
    }

    // ----- a new chunk -----

    /** Freshly allocated pages: all zeroes. */
    constructor ()
      ensures |marked| == ITEMS && |orders| == ITEMS / 2 && |headers| == ITEMS && |freelists| == NUM_ORDERS
      ensures forall i :: 0 <= i < ITEMS ==> !marked[i]
    {
      marked := seq(ITEMS, i => false);
      orders := seq(ITEMS / 2, i => 0);
      headers := seq(ITEMS, i => Header(0, 0));
      freelists := seq(NUM_ORDERS, i => 0);
      tree, lists := Leaf(Free), [];
    }

    method EmptyLists()
      requires |marked| == ITEMS && |orders| == ITEMS / 2 && |headers| == ITEMS && |freelists| == NUM_ORDERS
      requires forall i :: 0 <= i < ITEMS ==> !marked[i]
      modifies this`freelists, this`lists
      ensures Holds({})
    {
      var ord := 0;
      while ord < NUM_ORDERS
        invariant ord <= NUM_ORDERS && |freelists| == NUM_ORDERS
        invariant forall o :: 0 <= o < ord ==> freelists[o] == ITEMS
      {
        freelists := freelists[ord := ITEMS];
        ord := ord + 1;
      }
      lists := seq(NUM_ORDERS, i => []);
    }

    method MarkMeta(idx: nat, ghost order: nat, ghost blocks: set<Block>)
      requires Holds(blocks) && idx < ITEMS && order < NUM_ORDERS && !Starts(blocks, idx)
      modifies this`marked
      ensures Holds(blocks + {Block(idx, order, Meta)})
    {
      ShowsMore(marked, orders, orders, blocks, Block(idx, order, Meta));
      ListedUsed(headers, freelists, lists, blocks, Block(idx, order, Meta));
      hide Shows, Listed, Unique, OrderAt;
      marked := marked[idx := true];
    }

    /**
     * Sets aside the first 2^order items of the hole and frees the blocks above them, leaving the buddy out
     * unless it is the last round.
     */
    method SetAside(idx: nat, order: nat, top: nat, last: bool, ghost p: Path)
      requires order <= top && (!last ==> order < top) && order < NUM_ORDERS && top + Depth(p) == NUM_ORDERS
      requires PathFits(p, top) && idx == Base(p, top)
      requires Holds(Around(p, top))
      modifies this`orders, this`marked, this`freelists, this`headers, this`lists
      ensures Holds(Around(p, top) + {Block(idx, order, Meta)} + Leftovers(idx, if last then order else order + 1, top))
    {
      hide Holds, Around, Base, Depth, Leftovers;
      OpenHole(p, top);
      OutsideHole(p, top, Block(idx, order, Meta));
      MarkMeta(idx, order, Around(p, top));
      AddLeftovers(idx, if last then order else order + 1, top, Around(p, top) + {Block(idx, order, Meta)});
    }

    /** The hole at the end of `p` is what is left after setting aside the first `idx` items. */
    ghost predicate Partly(p: Path, top: nat, idx: nat)
      reads this`marked, this`orders, this`headers, this`freelists, this`lists
    {
      && top + Depth(p) == NUM_ORDERS && PathFits(p, top) && idx == Base(p, top) && PathCanonical(p)
      && Holds(Around(p, top)) && CoversExactly(UsedAround(p, top), idx)
    }

    /** The metadata takes up exactly the first `items` items. */
    ghost predicate Ready(items: nat)
      reads this
    {
      Valid() && CoversExactly(Used(tree, 0, NUM_ORDERS), items)
    }

    /** One round of carving. */
    method CarveRound(idx: nat, order: nat, top: nat, last: bool, ghost p: Path) returns (ghost q: Path)
      requires order <= top && (!last ==> order < top) && order < NUM_ORDERS && Partly(p, top, idx)
      modifies this
      ensures !last ==> Partly(q, order, idx + Pow2(order))
      ensures last ==> Ready(idx + Pow2(order))
    {
      hide Holds, Around, Base, Depth, Leftovers, UsedAround, CoversExactly, PathFits, PathCanonical;
      SetAside(idx, order, top, last, p);
      q := p;
      if last {
        LastAside(p, top, order);
        tree := Plug(p, Carved(top, order, Meta));
      } else {
        NextAside(p, top, order);
        q := Down(Spine(p, top, order + 1), true, Leaf(Meta));
      }
    }

    method CarveRounds(size: nat) returns (ok: bool)
      requires size > 0 && Partly(Top, NUM_ORDERS, 0)
      modifies this
      ensures ok <==> size < 0x1_0000
      ensures ok ==> Ready(ItemsFor(size))
    {
      hide *;
      var top: nat, left: nat, idx: nat := NUM_ORDERS, size, 0;
      ghost var p := Top;
      FirstRound(size);
      while left > 0
        invariant Rounds(size, left, top, idx)
        invariant if left > 0 then Partly(p, top, idx) else Ready(ItemsFor(size))
      {
        var power := Log2(left);
        RoundSizes(size, left, top, idx);
        if power >= NUM_ORDERS {
          return false;
        }
        var order := OrderFor(power);
        left := left - if power >= 4 then Pow2(power) else left;
        p := CarveRound(idx, order, top, left == 0, p);
        idx := idx + Pow2(order);
        top := order;
      }
      AllRounds(size, top, idx);
      ok := true;
    }

    /**
     * Carves the metadata of `size` bytes out of a new chunk, in blocks of falling size, and frees
     * the rest. Fails if the metadata has 2^16 bytes or more.
     */
    method Carve(size: nat) returns (ok: bool)
      requires size > 0
      requires |marked| == ITEMS && |orders| == ITEMS / 2 && |headers| == ITEMS && |freelists| == NUM_ORDERS
      requires forall i :: 0 <= i < ITEMS ==> !marked[i]
      modifies this
      ensures ok <==> size < 0x1_0000
      ensures ok ==> Ready(ItemsFor(size))
    {
      EmptyLists();
      Untouched();
      ok := CarveRounds(size);
    }

    // ----- allocation -----

    /** Some block is pinned for the chunk's own metadata; no two free buddies stand side by side. */
    ghost predicate Valid()
      reads this
    {
      Fits(tree, NUM_ORDERS) && Canonical(tree) && Pinned(Blocks(tree, 0, NUM_ORDERS))
        && Holds(Blocks(tree, 0, NUM_ORDERS))
    }

    /** The first non-empty list from `order` up, or NUM_ORDERS. */
    method FindOrder(least: nat) returns (order: nat)
      requires |freelists| == NUM_ORDERS
      ensures order == NUM_ORDERS || (least <= order < NUM_ORDERS && freelists[order] != ITEMS)
      ensures forall o :: least <= o < order ==> freelists[o] == ITEMS
    {
      order := least;
      while order < NUM_ORDERS
        invariant forall o :: least <= o < order < NUM_ORDERS ==> freelists[o] == ITEMS
        invariant forall o :: least <= o < order && o < NUM_ORDERS ==> freelists[o] == ITEMS
      {
        if freelists[order] != ITEMS {
          return;
        }
        order := order + 1;
      }
      order := NUM_ORDERS;
    }

    /** Puts the halves above the first 2^least items of a block of order `order` on the free lists. */
    method AddLeftovers(idx: nat, least: nat, order: nat, ghost blocks: set<Block>)
      requires least <= order <= NUM_ORDERS && idx + Pow2(order) <= ITEMS
      requires Holds(blocks) && forall b :: b in blocks ==> b.idx <= idx || idx + Pow2(order) <= b.idx
      modifies this`orders, this`freelists, this`headers, this`lists
      ensures Holds(blocks + Leftovers(idx, least, order))
    {
      hide *;
      var ord := least;
      NoLeftovers(blocks, idx, least);
      while ord < order
        invariant least <= ord <= order && Holds(blocks + Leftovers(idx, least, ord))
      {
        ghost var now := blocks + Leftovers(idx, least, ord);
        HalfIsClear(blocks, idx, least, ord, order);
        ClearHeader(now, idx + Pow2(ord));
        AddFreelist(idx + Pow2(ord), ord, now);
        OneMoreLeftover(blocks, idx, least, ord);
        ord := ord + 1;
      }
    }

    /** Takes the first block off a list. */
    method TakeFirst(order: nat, ghost blocks: set<Block>) returns (idx: nat)
      requires Holds(blocks) && order < NUM_ORDERS && freelists[order] != ITEMS
      modifies this`freelists, this`headers, this`lists
      ensures idx == old(freelists)[order] && Block(idx, order, Free) in blocks
      ensures Holds(blocks - {Block(idx, order, Free)})
    {
      idx := freelists[order];
      HeadsAreFree(marked, headers, freelists, lists, orders, blocks, order);
      ShowsFewer(marked, marked, orders, blocks, Block(idx, order, Free));
      NeighboursAreFree(blocks, idx, order);
      FirstHasNoPrev(headers, freelists, lists, blocks, order);
      hide Shows, OrderAt, Linked;
      ghost var k := PullListed(headers, freelists, lists, blocks, idx, order);
      hide Listed, Unique, Without, Starts;
      var next := headers[idx].next;
      freelists := freelists[order := next];
      if next != ITEMS {
        headers := headers[next := headers[next].(prev := ITEMS)];
      }
      headers := headers[idx := Header(ITEMS, ITEMS)];
      lists := lists[order := Without(lists[order], k)];
    }

    /** Marks a block live at the wanted order. */
    method MarkLive(idx: nat, order: nat, ghost blocks: set<Block>)
      requires Holds(blocks) && idx < ITEMS && order < NUM_ORDERS && !Starts(blocks, idx)
      modifies this`orders, this`marked
      ensures Holds(blocks + {Block(idx, order, Live)})
    {
      var _ := SetOrder(idx, order);
      ShowsMore(marked, old(orders), orders, blocks, Block(idx, order, Live));
      ListedUsed(headers, freelists, lists, blocks, Block(idx, order, Live));
      hide Shows, Listed, Unique, OrderAt;
      marked := marked[idx := true];
    }

    /** Marks the start of a hole live and gives back the rest of it. */
    method Cut(idx: nat, least: nat, order: nat, ghost p: Path)
      requires least <= order && PathFits(p, order) && order + Depth(p) == NUM_ORDERS && idx == Base(p, order)
      requires Holds(Around(p, order)) && order < NUM_ORDERS
      modifies this`orders, this`marked, this`freelists, this`headers, this`lists
      ensures Holds(Around(p, order) + {Block(idx, least, Live)} + Leftovers(idx, least, order))
    {
      hide Holds, Around, Base, Depth, Leftovers;
      OpenHole(p, order);
      OutsideHole(p, order, Block(idx, least, Live));
      MarkLive(idx, least, Around(p, order));
      AddLeftovers(idx, least, order, Around(p, order) + {Block(idx, least, Live)});
    }

    /** Allocates from the first block of one list. */
    method AllocFrom(order: nat, least: nat) returns (idx: nat)
      requires Valid() && least <= order < NUM_ORDERS && freelists[order] != ITEMS
      modifies this
      ensures Valid() && idx != ITEMS && Block(idx, order, Free) in old(Frees(tree, 0, NUM_ORDERS))
      ensures Used(tree, 0, NUM_ORDERS) == old(Used(tree, 0, NUM_ORDERS)) + {Block(idx, least, Live)}
    {
      hide *;
      ValidMeans();
      ghost var blocks := Blocks(tree, 0, NUM_ORDERS);
      idx := TakeFirst(order, blocks);
      FreeBlock(tree, idx, order);
      ghost var p := HoleOf(tree, Block(idx, order, Free));
      Replaced(p, order, least);
      Cut(idx, least, order, p);
      tree := Plug(p, Carved(order, least, Live));
      ValidMeans();
    }

    lemma ValidMeans()
      ensures Valid() <==>
        && Fits(tree, NUM_ORDERS) && Canonical(tree) && Pinned(Blocks(tree, 0, NUM_ORDERS))
        && Holds(Blocks(tree, 0, NUM_ORDERS))
    {
    }

    /**
     * Allocates a block of order `least`, cut from the smallest free block that is large enough.
     * ITEMS stands for the null address.
     */
    method Alloc(least: nat) returns (idx: nat)
      requires Valid()
      modifies this
      ensures Valid()
      ensures idx == ITEMS <==> forall b :: b in old(Frees(tree, 0, NUM_ORDERS)) ==> b.order < least
      ensures idx == ITEMS ==> unchanged(this)
      ensures idx != ITEMS ==> Used(tree, 0, NUM_ORDERS) == old(Used(tree, 0, NUM_ORDERS)) + {Block(idx, least, Live)}
      ensures idx != ITEMS ==> exists o :: SmallestFit(old(Frees(tree, 0, NUM_ORDERS)), idx, o, least)
    {
      var order := FindOrder(least);
      NoneBelow(headers, freelists, lists, Blocks(tree, 0, NUM_ORDERS), least, order);
      assert forall b :: b in Blocks(tree, 0, NUM_ORDERS) ==> b.order < NUM_ORDERS;
      hide Valid, Blocks, Fits;
      if order == NUM_ORDERS {
        return ITEMS;
      }
      idx := AllocFrom(order, least);
      assert SmallestFit(old(Frees(tree, 0, NUM_ORDERS)), idx, order, least);
    }

    // ----- freeing -----

    /** The buddy of a hole reads as unallocated and of the same order exactly when it is one free block. */
    lemma SiblingShown(p: Path, order: nat, extra: set<Block>)
      requires PathFits(p, order) && order + Depth(p) == NUM_ORDERS && p.Down? && Holds(Around(p, order) + extra)
      ensures SibBase(p, order) < ITEMS && |marked| == ITEMS && |orders| == ITEMS / 2
      ensures !marked[SibBase(p, order)] && OrderAt(orders, SibBase(p, order)) == order <==> p.sib == Leaf(Free)
    {
      var b := FirstBlock(p.sib, SibBase(p, order), order);
      assert b in Around(p, order);
    }

    /** The right one of two merged buddies keeps a stale order. */
    method DropOrder(idx: nat, order: nat, ghost blocks: set<Block>)
      requires Holds(blocks) && idx < ITEMS && order < NUM_ORDERS && !Starts(blocks, idx)
      modifies this`orders
      ensures Holds(blocks)
    {
      var _ := SetOrder(idx, order);
      hide OrderAt;
      forall b | b in blocks ensures b.idx != idx {
        assert Starts(blocks, b.idx);
      }
    }

    /** Merges the hole at `at` with its buddy if that is free; `extra` is a block that already fills the hole. */
    method Merge(at: nat, order: nat, ghost p: Path, ghost extra: set<Block>) returns (merged: bool, idx: nat)
      requires order < NUM_ORDERS && order + Depth(p) == NUM_ORDERS && PathFits(p, order) && at == Base(p, order)
      requires p.Down? && Holds(Around(p, order) + extra) && (extra != {} ==> p.sib != Leaf(Free))
      modifies this`orders, this`freelists, this`headers, this`lists
      ensures merged <==> p.sib == Leaf(Free)
      ensures merged ==> Holds(Around(p.up, order + 1)) && idx == Base(p.up, order + 1)
      ensures !merged ==> unchanged(this) && idx == at
    {
      hide Holds, Around, Base, Flip, OrderAt;
      FlipIsSibling(p, order);
      SiblingShown(p, order, extra);
      var buddy := Flip(at, order);
      if marked[buddy] || OrderAt(orders, buddy) != order {
        return false, at;
      }
      assert Around(p, order) + extra == Around(p, order);
      DropSibling(p, order);
      FreeSibling(p, order);
      RemoveFreelist(buddy, order, Around(p, order));
      Halves(p, order);
      merged, idx := true, at;
      if buddy < at {
        idx, buddy := buddy, at;
      }
      DropOrder(buddy, order, Around(p.up, order + 1));
    }

    /**
     * Merges the hole at `start` with its free buddies for as long as there are any; the pinned metadata stops
     * it below the top. If the hole is filled already, by a free block, there is no free buddy.
     */
    method Coalesce(start: nat, order0: nat, ghost p0: Path, ghost extra: set<Block>)
      returns (idx: nat, order: nat, ghost p: Path)
      requires order0 + Depth(p0) == NUM_ORDERS && PathFits(p0, order0) && start == Base(p0, order0)
      requires Holds(Around(p0, order0) + extra) && PathCanonical(p0)
      requires extra != {} ==> p0.Down? && p0.sib != Leaf(Free)
      requires exists b :: b in UsedAround(p0, order0)
      modifies this`orders, this`freelists, this`headers, this`lists
      ensures order < NUM_ORDERS && order + Depth(p) == NUM_ORDERS && PathFits(p, order) && idx == Base(p, order)
      ensures Holds(Around(p, order) + extra) && PathCanonical(p) && p.Down? && p.sib != Leaf(Free)
      ensures UsedAround(p, order) == UsedAround(p0, order0)
      ensures extra != {} ==> p == p0 && order == order0
    {
      idx, order, p := start, order0, p0;
      hide Holds, Base, Around;
      while order < NUM_ORDERS
        invariant order + Depth(p) == NUM_ORDERS && PathFits(p, order) && idx == Base(p, order)
        invariant Holds(Around(p, order) + extra) && PathCanonical(p) && UsedAround(p, order) == UsedAround(p0, order0)
        invariant extra != {} ==> p == p0 && order == order0
        decreases p
      {
        NotTop(p, order);
        var merged;
        merged, idx := Merge(idx, order, p, extra);
        if !merged {
          return;
        }
        assert Around(p.up, order + 1) + extra == Around(p.up, order + 1);
        DropSibling(p, order);
        order, p := order + 1, p.up;
      }
      NotTop(p, order);
    }

    /** Clears the mark of a block and reads its order. A free block has none. */
    method Unmark(idx: nat, ghost b: Block, ghost blocks: set<Block>) returns (order: nat)
      requires Holds(blocks) && b in blocks && b.kind != Meta && b.idx == idx
      modifies this`marked
      ensures order == b.order && Holds(if b.kind == Live then blocks - {b} else blocks)
    {
      if b.kind == Live {
        ShowsFewer(marked, marked[idx := false], orders, blocks, b);
        ListedUsed(headers, freelists, lists, blocks, b);
      } else {
        assert marked[idx := false] == marked;
      }
      marked := marked[idx := false];
      order := OrderAt(orders, idx);
      hide Shows, Listed, Unique, OrderAt;
    }

    lemma Reachable(around: set<Block>, idx: nat, extra: set<Block>)
      requires Holds(around + extra) && idx < ITEMS && !Starts(around, idx) && forall b :: b in extra ==> b.kind == Free
      ensures HasHeader(idx)
      ensures Starts(around + extra, idx) <==> exists b :: b in extra && b.idx == idx
    {
    }

    /**
     * Frees the block at `at`, merging it with its free buddies. The code does not ask whether the block is live:
     * one that is free already is linked into its list a second time.
     */
    method Release(at: nat, ghost b: Block)
      requires Valid() && b in Blocks(tree, 0, NUM_ORDERS) && b.kind != Meta && b.idx == at
      modifies this
      ensures Valid() <==> b.kind == Live
      ensures b.kind == Live ==> Used(tree, 0, NUM_ORDERS) == old(Used(tree, 0, NUM_ORDERS)) - {b}
      ensures b.kind == Free ==> tree == old(tree) && Broken(headers, freelists)
    {
      hide Holds, Canonical, Fits, Blocks;
      ghost var blocks := Blocks(tree, 0, NUM_ORDERS);
      ghost var extra := if b.kind == Live then {} else {b};
      ghost var p0 := HoleOf(tree, b);
      Opened(p0, b);
      ghost var meta :| meta in blocks && meta.kind == Meta;
      assert meta in UsedAround(p0, b.order);
      NotTop(p0, b.order);
      PlugCanonical(p0, Leaf(b.kind));
      var order := Unmark(at, b, blocks);
      assert (if b.kind == Live then blocks - {b} else blocks) == Around(p0, b.order) + extra;
      var idx;
      ghost var p;
      idx, order, p := Coalesce(at, order, p0, extra);
      OpenHole(p, order);
      Reachable(Around(p, order), idx, extra);
      assert b.kind == Live ==> Around(p, order) + extra == Around(p, order);
      AddFreelist(idx, order, Around(p, order) + extra);
      if b.kind == Live {
        Closed(p, order);
        tree := Plug(p, Leaf(Free));
        assert meta in Used(tree, 0, NUM_ORDERS) && meta in Blocks(tree, 0, NUM_ORDERS);
      } else {
        BrokenIsInvalid();
      }
    }

    lemma BrokenIsInvalid()
      requires Broken(headers, freelists)
      ensures !Valid()
    {
    }
  }

  lemma NoLeftovers(blocks: set<Block>, idx: nat, order: nat)
    ensures blocks + Leftovers(idx, order, order) == blocks
  {
  }

  lemma OneMoreLeftover(blocks: set<Block>, idx: nat, least: nat, ord: nat)
    requires least <= ord
    ensures blocks + Leftovers(idx, least, ord + 1) ==
      blocks + Leftovers(idx, least, ord) + {Block(idx + Pow2(ord), ord, Free)}
  {
  }

  /** Nothing starts at the next half that a carving frees. */
  lemma HalfIsClear(blocks: set<Block>, idx: nat, least: nat, ord: nat, order: nat)
    requires least <= ord < order && idx + Pow2(order) <= ITEMS
    requires forall b :: b in blocks ==> b.idx <= idx || idx + Pow2(order) <= b.idx
    ensures idx + Pow2(ord) < ITEMS && !Starts(blocks + Leftovers(idx, least, ord), idx + Pow2(ord))
  {
    PowGrows(ord, order);
    forall b | b in Leftovers(idx, least, ord) ensures b.idx != idx + Pow2(ord) {
      PowGrows(b.order, ord);
    }
    hide Leftovers, Pow2;
  }

  /** The block is free, large enough, and no smaller free block is large enough. */
  ghost predicate SmallestFit(frees: set<Block>, idx: nat, order: nat, least: nat) {
    && Block(idx, order, Free) in frees && least <= order
    && forall b :: b in frees && b.order >= least ==> order <= b.order
  }

  lemma FirstHasNoPrev(headers: seq<Header>, heads: seq<nat>, lists: seq<seq<nat>>, blocks: set<Block>, order: nat)
    requires Listed(headers, heads, lists, blocks) && order < NUM_ORDERS && heads[order] != ITEMS
    ensures |headers| == ITEMS && heads[order] < ITEMS && headers[heads[order]].prev == ITEMS
  {
    assert Linked(headers, heads[order], lists[order]);
    assert headers[lists[order][0]] == HeaderIn(lists[order], 0);
  }

  lemma NoneBelow(headers: seq<Header>, heads: seq<nat>, lists: seq<seq<nat>>, blocks: set<Block>, least: nat,
                  order: nat)
    requires Listed(headers, heads, lists, blocks) && order <= NUM_ORDERS
    requires forall o :: least <= o < order ==> heads[o] == ITEMS
    requires forall b :: b in blocks ==> b.order < NUM_ORDERS
    ensures forall b :: b in blocks && b.kind == Free ==> b.order < least || b.order >= order
  {
    forall b | b in blocks && b.kind == Free ensures b.order < least || b.order >= order {
      assert b == Block(b.idx, b.order, Free);
      assert b.idx in lists[b.order];
      assert Linked(headers, heads[b.order], lists[b.order]);
    }
  }

  lemma OpenHole(p: Path, order: nat)
    requires PathFits(p, order) && order + Depth(p) == NUM_ORDERS
    ensures !Starts(Around(p, order), Base(p, order)) && Base(p, order) < ITEMS
  {
    AroundOutside(p, order);
    PowOrders();
    hide Around, Base, Pow2, Depth;
  }

  lemma OutsideHole(p: Path, order: nat, b: Block)
    requires PathFits(p, order) && order + Depth(p) == NUM_ORDERS && b.idx == Base(p, order)
    ensures b.idx + Pow2(order) <= ITEMS
    ensures forall c :: c in Around(p, order) + {b} ==> c.idx <= b.idx || b.idx + Pow2(order) <= c.idx
  {
    AroundOutside(p, order);
    PowOrders();
    hide Around, Base, Pow2, Depth;
  }

  /** A hole filled with a carved block makes a canonical chunk. */
  lemma FillHole(p: Path, order: nat, least: nat, kind: Kind)
    requires least <= order && PathFits(p, order) && order + Depth(p) == NUM_ORDERS && PathCanonical(p) && kind != Free
    ensures var t := Plug(p, Carved(order, least, kind)); (
      && Fits(t, NUM_ORDERS) && Canonical(t)
      && Blocks(t, 0, NUM_ORDERS) ==
        Around(p, order) + {Block(Base(p, order), least, kind)} + Leftovers(Base(p, order), least, order)
      && Used(t, 0, NUM_ORDERS) == UsedAround(p, order) + {Block(Base(p, order), least, kind)})
  {
    CarvedBlocks(order, least, kind, Base(p, order));
    PlugBlocks(p, Carved(order, least, kind), order);
    PlugCanonical(p, Carved(order, least, kind));
    hide Around, Base, Canonical, PathCanonical, Leftovers, Carved, Fits, Plug;
  }

  ghost function UsedAround(p: Path, order: nat): set<Block>
    requires PathFits(p, order)
  {
    set b | b in Around(p, order) && b.kind != Free
  }

  /** Merging a hole with its free buddy leaves the blocks around the two. */
  lemma DropSibling(p: Path, order: nat)
    requires PathFits(p, order) && order + Depth(p) == NUM_ORDERS && p.Down? && p.sib == Leaf(Free)
    ensures Around(p.up, order + 1) == Around(p, order) - {Block(SibBase(p, order), order, Free)}
    ensures UsedAround(p.up, order + 1) == UsedAround(p, order)
    ensures var right := Base(p.up, order + 1) + Pow2(order); right < ITEMS && !Starts(Around(p.up, order + 1), right)
  {
    AroundOutside(p.up, order + 1);
    PowOrders();
    assert Around(p, order) == {Block(SibBase(p, order), order, Free)} + Around(p.up, order + 1);
    assert Pow2(order + 1) == 2 * Pow2(order);
    hide Around, Base, Pow2, Depth;
  }

  lemma FreeSibling(p: Path, order: nat)
    requires PathFits(p, order) && p.Down? && p.sib == Leaf(Free)
    ensures Block(SibBase(p, order), order, Free) in Around(p, order)
  {
  }

  /** Of a hole and its buddy the left one starts where both together start. */
  lemma Halves(p: Path, order: nat)
    requires p.Down?
    ensures var low, high := Base(p.up, order + 1), Base(p.up, order + 1) + Pow2(order);
      low < high
        && if p.right then Base(p, order) == high && SibBase(p, order) == low
           else Base(p, order) == low && SibBase(p, order) == high
  {
  }

  lemma NotTop(p: Path, order: nat)
    requires PathFits(p, order) && order + Depth(p) == NUM_ORDERS && exists b :: b in UsedAround(p, order)
    ensures p.Down? && order < NUM_ORDERS
  {
  }

  /** Cutting a free block down to a live one. */
  lemma Replaced(p: Path, order: nat, least: nat)
    requires least <= order && PathFits(p, order) && order + Depth(p) == NUM_ORDERS && Canonical(Plug(p, Leaf(Free)))
    ensures Fits(Plug(p, Leaf(Free)), NUM_ORDERS) && Fits(Plug(p, Carved(order, least, Live)), NUM_ORDERS)
    ensures Base(p, order) < ITEMS
    ensures Around(p, order) == Blocks(Plug(p, Leaf(Free)), 0, NUM_ORDERS) - {Block(Base(p, order), order, Free)}
    ensures var t, idx := Plug(p, Carved(order, least, Live)), Base(p, order); (
      && Canonical(t)
      && Blocks(t, 0, NUM_ORDERS) == Around(p, order) + {Block(idx, least, Live)} + Leftovers(idx, least, order)
      && Used(t, 0, NUM_ORDERS) == Used(Plug(p, Leaf(Free)), 0, NUM_ORDERS) + {Block(idx, least, Live)}
      && (Pinned(Blocks(Plug(p, Leaf(Free)), 0, NUM_ORDERS)) ==> Pinned(Blocks(t, 0, NUM_ORDERS))))
  {
    hide Around, Base, Canonical, PathCanonical, Leftovers, Carved, Fits, Plug, Blocks;
    Opened(p, Block(Base(p, order), order, Free));
    OpenHole(p, order);
    FillHole(p, order, least, Live);
    forall b | b in Blocks(Plug(p, Leaf(Free)), 0, NUM_ORDERS) && b.kind == Meta
      ensures b in Blocks(Plug(p, Carved(order, least, Live)), 0, NUM_ORDERS) {
      assert b in UsedAround(p, order);
    }
  }

  lemma FreeBlock(t: Tree, idx: nat, order: nat)
    requires Fits(t, NUM_ORDERS) && Block(idx, order, Free) in Blocks(t, 0, NUM_ORDERS)
    ensures Block(idx, order, Free) in Frees(t, 0, NUM_ORDERS) && Block(idx, order, Free).idx == idx
  {
  }

  lemma HoleOf(t: Tree, b: Block) returns (p: Path)
    requires Fits(t, NUM_ORDERS) && b in Blocks(t, 0, NUM_ORDERS)
    ensures PathFits(p, b.order) && Plug(p, Leaf(b.kind)) == t && Base(p, b.order) == b.idx
    ensures b.order + Depth(p) == NUM_ORDERS
  {
    p := Reach(Top, t, NUM_ORDERS, b);
  }

  /** A block taken out of a canonical chunk leaves a hole. */
  lemma Opened(p: Path, b: Block)
    requires PathFits(p, b.order) && b.idx == Base(p, b.order) && b.order + Depth(p) == NUM_ORDERS
    requires Canonical(Plug(p, Leaf(b.kind)))
    ensures Fits(Plug(p, Leaf(b.kind)), NUM_ORDERS) && PathCanonical(p)
    ensures Around(p, b.order) == Blocks(Plug(p, Leaf(b.kind)), 0, NUM_ORDERS) - {b}
    ensures UsedAround(p, b.order) == Used(Plug(p, Leaf(b.kind)), 0, NUM_ORDERS) - {b}
  {
    AroundIs(p, b.order, b.kind);
    PlugCanonical(p, Leaf(b.kind));
    hide Around, Base, Canonical, PathCanonical;
  }

  /** A free block in a hole with no free buddy makes a canonical chunk. */
  lemma Closed(p: Path, order: nat)
    requires PathFits(p, order) && order + Depth(p) == NUM_ORDERS && PathCanonical(p) && p.Down? && p.sib != Leaf(Free)
    ensures Fits(Plug(p, Leaf(Free)), NUM_ORDERS) && Canonical(Plug(p, Leaf(Free)))
    ensures Blocks(Plug(p, Leaf(Free)), 0, NUM_ORDERS) == Around(p, order) + {Block(Base(p, order), order, Free)}
    ensures Used(Plug(p, Leaf(Free)), 0, NUM_ORDERS) == UsedAround(p, order)
  {
    PlugBlocks(p, Leaf(Free), order);
    PlugCanonical(p, Leaf(Free));
    hide Around, Base, Canonical, PathCanonical;
  }

  // ----- carving -----

  ghost predicate Covered(blocks: set<Block>, i: nat) {
    exists b :: b in blocks && b.Covers(i)
  }

  /** The blocks are all metadata and cover exactly the first `n` items. */
  ghost predicate CoversExactly(blocks: set<Block>, n: nat) {
    (forall b :: b in blocks ==> b.kind == Meta) && forall i: nat :: Covered(blocks, i) <==> i < n
  }

  lemma CoversMore(blocks: set<Block>, idx: nat, order: nat)
    requires CoversExactly(blocks, idx)
    ensures CoversExactly(blocks + {Block(idx, order, Meta)}, idx + Pow2(order))
  {
    var more, b := blocks + {Block(idx, order, Meta)}, Block(idx, order, Meta);
    assert b in more;
    forall i: nat ensures Covered(more, i) <==> i < idx + Pow2(order) {
      assert Covered(blocks, i) <==> i < idx;
      if Covered(blocks, i) {
        var c :| c in blocks && c.Covers(i);
        assert c in more;
      } else if b.Covers(i) {
        assert b in more;
      }
    }
  }

  /** The last round: the metadata block and the free blocks above it fill the hole. */
  lemma LastAside(p: Path, top: nat, order: nat)
    requires order <= top && top + Depth(p) == NUM_ORDERS && PathFits(p, top) && PathCanonical(p)
    requires CoversExactly(UsedAround(p, top), Base(p, top))
    ensures var t := Plug(p, Carved(top, order, Meta)); (
      && Fits(t, NUM_ORDERS) && Canonical(t) && Pinned(Blocks(t, 0, NUM_ORDERS))
      && Blocks(t, 0, NUM_ORDERS) ==
        Around(p, top) + {Block(Base(p, top), order, Meta)} + Leftovers(Base(p, top), order, top)
      && CoversExactly(Used(t, 0, NUM_ORDERS), Base(p, top) + Pow2(order)))
  {
    hide Around, Base, Depth, Leftovers, CoversExactly, PathFits, PathCanonical, Carved, Plug, Canonical, Blocks, Fits;
    FillHole(p, top, order, Meta);
    CoversMore(UsedAround(p, top), Base(p, top), order);
    assert Block(Base(p, top), order, Meta) in Blocks(Plug(p, Carved(top, order, Meta)), 0, NUM_ORDERS);
  }

  /** Another round follows: the buddy of the metadata block is the next hole. */
  lemma NextAside(p: Path, top: nat, order: nat)
    requires order < top && top + Depth(p) == NUM_ORDERS && PathFits(p, top) && PathCanonical(p)
    requires CoversExactly(UsedAround(p, top), Base(p, top))
    ensures var q := Down(Spine(p, top, order + 1), true, Leaf(Meta)); (
      && order + Depth(q) == NUM_ORDERS && PathFits(q, order) && Base(q, order) == Base(p, top) + Pow2(order)
      && PathCanonical(q)
      && Around(q, order) == Around(p, top) + {Block(Base(p, top), order, Meta)}
        + Leftovers(Base(p, top), order + 1, top)
      && CoversExactly(UsedAround(q, order), Base(p, top) + Pow2(order)))
  {
    hide *;
    SpineAround(p, top, order + 1);
    AsideHole(p, top, order, Spine(p, top, order + 1));
  }

  lemma AsideHole(p: Path, top: nat, order: nat, q: Path)
    requires order < top && top + Depth(p) == NUM_ORDERS && PathFits(p, top) && PathCanonical(p)
    requires CoversExactly(UsedAround(p, top), Base(p, top))
    requires Spines(p, top, order + 1, q)
    ensures var r := Down(q, true, Leaf(Meta)); (
      && order + Depth(r) == NUM_ORDERS && PathFits(r, order) && Base(r, order) == Base(p, top) + Pow2(order)
      && PathCanonical(r)
      && Around(r, order) == Around(p, top) + {Block(Base(p, top), order, Meta)}
        + Leftovers(Base(p, top), order + 1, top)
      && CoversExactly(UsedAround(r, order), Base(p, top) + Pow2(order)))
  {
    hide Around, Base, PathFits, Depth, Leftovers, PathCanonical, Pow2, CoversExactly, UsedAround;
    var idx, r := Base(p, top), Down(q, true, Leaf(Meta));
    HoleAfter(q, order);
    hide Spines;
    Regrouped({Block(idx, order, Meta)}, Around(p, top), Leftovers(idx, order + 1, top));
    assert Around(r, order) == Around(p, top) + {Block(idx, order, Meta)} + Leftovers(idx, order + 1, top);
    UsedAfter(p, top, r, order, idx, Leftovers(idx, order + 1, top));
    CoversMore(UsedAround(p, top), idx, order);
  }

  lemma UsedAfter(p: Path, top: nat, r: Path, order: nat, idx: nat, frees: set<Block>)
    requires PathFits(p, top) && PathFits(r, order) && (forall b :: b in frees ==> b.kind == Free)
    requires Around(r, order) == Around(p, top) + {Block(idx, order, Meta)} + frees
    ensures UsedAround(r, order) == UsedAround(p, top) + {Block(idx, order, Meta)}
  {
    hide Around, PathFits;
  }

  /** The right half of a hole whose left half is set aside. */
  lemma HoleAfter(q: Path, order: nat)
    requires PathFits(q, order + 1)
    ensures var r := Down(q, true, Leaf(Meta)); (
      && PathFits(r, order) && Depth(r) == 1 + Depth(q) && Base(r, order) == Base(q, order + 1) + Pow2(order)
      && Around(r, order) == {Block(Base(q, order + 1), order, Meta)} + Around(q, order + 1)
      && (PathCanonical(q) ==> PathCanonical(r)))
  {
  }

  lemma Untouched()
    ensures NUM_ORDERS + Depth(Top) == NUM_ORDERS && PathFits(Top, NUM_ORDERS) && Base(Top, NUM_ORDERS) == 0
    ensures PathCanonical(Top)
    ensures Around(Top, NUM_ORDERS) == {} && CoversExactly(UsedAround(Top, NUM_ORDERS), 0)
  {
  }

  /** The highest set bit of what is left, against the order of the hole. */
  function OrderFor(power: nat): nat { if power >= 4 then power - 4 else 0 }

  function ItemsFor(size: nat): nat { (size + 15) / 16 }

  /** Between the rounds: `idx` items are set aside and `left` bytes are left, fewer than a block of order `top` has. */
  ghost predicate Rounds(size: nat, left: nat, top: nat, idx: nat) {
    && top <= NUM_ORDERS && (left > 0 ==> idx * 16 + left == size) && (left == 0 ==> top < NUM_ORDERS)
    && if top == NUM_ORDERS then left == size else size < 0x1_0000 && left < 16 * Pow2(top)
  }

  lemma FirstRound(size: nat)
    ensures size > 0 ==> Rounds(size, size, NUM_ORDERS, 0)
  {
  }

  lemma AllRounds(size: nat, top: nat, idx: nat)
    requires Rounds(size, 0, top, idx)
    ensures size < 0x1_0000
  {
  }

  /** How large a round of carving is, and what is left after it. */
  lemma RoundSizes(size: nat, left: nat, top: nat, idx: nat)
    requires left > 0 && Rounds(size, left, top, idx)
    ensures var power := Log2(left);
      var order, left' := OrderFor(power), left - if power >= 4 then Pow2(power) else left;
      && 0 <= left'
      && (power >= NUM_ORDERS ==> size >= 0x1_0000)
      && (power < NUM_ORDERS ==>
            && order <= top && order < NUM_ORDERS && Rounds(size, left', order, idx + Pow2(order))
            && (if left' == 0 then idx + Pow2(order) == ItemsFor(size) else order < top))
  {
    Powers(left, top);
    hide Log2, Pow2;
  }

  lemma Powers(left: nat, top: nat)
    requires left > 0 && (top == NUM_ORDERS || left < 16 * Pow2(top))
    ensures var power := Log2(left); (
      && (power >= 4 ==> Pow2(power) == 16 * Pow2(power - 4) && Pow2(power) <= left < 2 * Pow2(power))
      && (power < 4 ==> left < 16) && Pow2(0) == 1
      && (power >= NUM_ORDERS <==> left >= 0x1_0000)
      && (power >= 4 && power < NUM_ORDERS ==> power - 4 < top))
  {
    var power := Log2(left);
    hide Log2;
    PowOrders();
    PowBounds(power, 4);
    PowBounds(power, NUM_ORDERS);
    if power >= 4 {
      PowTimes16(power - 4);
      PowBounds(power - 4, top);
    }
    hide Pow2;
  }

  lemma PowTimes16(k: nat)
    ensures Pow2(k + 4) == 16 * Pow2(k)
  {
    assert Pow2(k + 4) == 2 * Pow2(k + 3) && Pow2(k + 3) == 2 * Pow2(k + 2) && Pow2(k + 2) == 2 * Pow2(k + 1);
  }

  lemma PowBounds(a: nat, b: nat)
    ensures a < b ==> 2 * Pow2(a) <= Pow2(b)
    ensures a >= b ==> Pow2(a) >= Pow2(b)
    ensures Pow2(0) == 1 && Pow2(4) == 16
  {
    if a < b {
      PowGrows(a, b);
    } else if b < a {
      PowGrows(b, a);
    }
  }
}

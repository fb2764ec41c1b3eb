/**
 * The free lists of a buddy chunk: doubly linked through the headers that lie in the free
 * blocks, one list per order, with ITEMS for the end of a list.
 */
module BuddyLists {
  import opened BuddyTree

  const NUM_ORDERS: nat := 16
  const ITEMS: nat := 0x1_0000

  datatype Header = Header(prev: nat, next: nat)

  /** The header of entry `k` of a list. */
  ghost function HeaderIn(l: seq<nat>, k: nat): Header
    requires k < |l|
  {
    Header(if k == 0 then ITEMS else l[k - 1], if k + 1 < |l| then l[k + 1] else ITEMS)
  }

  /** `l` is the list that starts at `head`. */
  ghost predicate Linked(headers: seq<Header>, head: nat, l: seq<nat>) {
    && |headers| == ITEMS
    && (forall k :: 0 <= k < |l| ==> l[k] < ITEMS)
    && (forall j, k :: 0 <= j < k < |l| ==> l[j] != l[k])
    && (forall k :: 0 <= k < |l| ==> headers[l[k]] == HeaderIn(l, k))
    && head == if l == [] then ITEMS else l[0]
  }

  /** The headers after `idx` is put in front of the list at `head`. */
  function Pushed(headers: seq<Header>, head: nat, idx: nat): seq<Header>
    requires |headers| == ITEMS && idx < ITEMS && head <= ITEMS
  {
    var hs := headers[idx := Header(ITEMS, head)];
    if head == ITEMS then hs else hs[head := hs[head].(prev := idx)]
  }

  /** The headers after `idx` is taken out of its list. */
  function Pulled(headers: seq<Header>, idx: nat): seq<Header>
    requires |headers| == ITEMS && idx < ITEMS && headers[idx].prev <= ITEMS && headers[idx].next <= ITEMS
  {
    var h := headers[idx];
    var a := if h.prev == ITEMS then headers else headers[h.prev := headers[h.prev].(next := h.next)];
    var b := if h.next == ITEMS then a else a[h.next := a[h.next].(prev := h.prev)];
    b[idx := Header(ITEMS, ITEMS)]
  }

  lemma PushLinked(headers: seq<Header>, head: nat, l: seq<nat>, idx: nat)
    requires Linked(headers, head, l) && idx < ITEMS && idx !in l
    ensures Linked(Pushed(headers, head, idx), idx, [idx] + l)
  {
    HeadAt(headers, head, l);
    var hs, m := Pushed(headers, head, idx), [idx] + l;
    forall k | 0 <= k < |m| ensures m[k] < ITEMS && |hs| == ITEMS && hs[m[k]] == HeaderIn(m, k) {
      PushedEntry(headers, head, l, idx, k);
    }
    hide Pushed, HeaderIn;
  }

  lemma PushedAt(headers: seq<Header>, head: nat, idx: nat, x: nat)
    requires |headers| == ITEMS && idx < ITEMS && head <= ITEMS && idx != head && x < ITEMS
    ensures |Pushed(headers, head, idx)| == ITEMS
    ensures Pushed(headers, head, idx)[x] ==
      if x == idx then Header(ITEMS, head) else if x == head then Header(idx, headers[x].next) else headers[x]
  {
  }

  lemma EntryAt(headers: seq<Header>, head: nat, l: seq<nat>, j: nat)
    requires Linked(headers, head, l) && j < |l|
    ensures |headers| == ITEMS && l[j] < ITEMS && headers[l[j]] == HeaderIn(l, j) && (l[j] == head <==> j == 0)
  {
    hide HeaderIn;
    assert j > 0 ==> l[0] != l[j];
  }

  lemma HeadAt(headers: seq<Header>, head: nat, l: seq<nat>)
    requires Linked(headers, head, l)
    ensures |headers| == ITEMS && head <= ITEMS && head == if l == [] then ITEMS else l[0]
  {
  }

  lemma PushedEntry(headers: seq<Header>, head: nat, l: seq<nat>, idx: nat, k: nat)
    requires Linked(headers, head, l) && idx < ITEMS && idx !in l && k <= |l| && |headers| == ITEMS && head <= ITEMS
    ensures var hs, m := Pushed(headers, head, idx), [idx] + l;
      m[k] < ITEMS && |hs| == ITEMS && hs[m[k]] == HeaderIn(m, k)
  {
    hide Linked, Pushed;
    var m := [idx] + l;
    HeadAt(headers, head, l);
    if k > 0 {
      EntryAt(headers, head, l, k - 1);
      assert m[k] == l[k - 1] && l[k - 1] in l && (k < |l| ==> m[k + 1] == l[k]) && (k > 1 ==> m[k - 1] == l[k - 2]);
    }
    PushedAt(headers, head, idx, m[k]);
  }

  /** Headers outside a list may change. */
  lemma LinkedFrame(headers: seq<Header>, headers': seq<Header>, head: nat, l: seq<nat>)
    requires Linked(headers, head, l) && |headers'| == ITEMS && forall k :: 0 <= k < |l| ==>
      headers'[l[k]] == headers[l[k]]
    ensures Linked(headers', head, l)
  {
  }

  lemma Neighbours(headers: seq<Header>, head: nat, l: seq<nat>, k: nat)
    requires Linked(headers, head, l) && k < |l|
    ensures l[k] < ITEMS && headers[l[k]] == HeaderIn(l, k) && HeaderIn(l, k).prev <= ITEMS
    ensures HeaderIn(l, k).next <= ITEMS
    ensures HeaderIn(l, k).prev in l || HeaderIn(l, k).prev == ITEMS
    ensures HeaderIn(l, k).next in l || HeaderIn(l, k).next == ITEMS
    ensures HeaderIn(l, k).prev != l[k] && HeaderIn(l, k).next != l[k]
  {
  }

  /** A list without entry `k`. */
  function Without(l: seq<nat>, k: nat): (m: seq<nat>)
    requires k < |l|
    ensures |m| == |l| - 1 && forall j :: 0 <= j < |m| ==> m[j] == if j < k then l[j] else l[j + 1]
  {
    l[..k] + l[k + 1..]
  }

  lemma PulledAt(headers: seq<Header>, idx: nat, x: nat)
    requires |headers| == ITEMS && idx < ITEMS && headers[idx].prev <= ITEMS && headers[idx].next <= ITEMS && x < ITEMS
    requires x != idx
    ensures |Pulled(headers, idx)| == ITEMS
    ensures Pulled(headers, idx)[x] == Header(
      if x == headers[idx].next then headers[idx].prev else headers[x].prev,
      if x == headers[idx].prev then headers[idx].next else headers[x].next)
  {
  }

  lemma PulledEntry(headers: seq<Header>, head: nat, l: seq<nat>, k: nat, j: nat)
    requires Linked(headers, head, l) && k < |l| && j < |l| - 1
    requires l[k] < ITEMS && headers[l[k]].prev <= ITEMS && headers[l[k]].next <= ITEMS
    ensures Without(l, k)[j] < ITEMS && |Pulled(headers, l[k])| == ITEMS
    ensures Pulled(headers, l[k])[Without(l, k)[j]] == HeaderIn(Without(l, k), j)
  {
    var m, i := Without(l, k), if j < k then j else j + 1;
    assert m[j] == l[i] && l[i] != l[k];
    assert headers[l[i]] == HeaderIn(l, i) && headers[l[k]] == HeaderIn(l, k);
    assert headers[l[k]].prev == l[i] <==> i + 1 == k;
    assert headers[l[k]].next == l[i] <==> i == k + 1;
    PulledAt(headers, l[k], l[i]);
    hide Pulled, Linked, Without;
  }

  lemma PullLinked(headers: seq<Header>, head: nat, l: seq<nat>, k: nat)
    requires Linked(headers, head, l) && k < |l|
    requires l[k] < ITEMS && headers[l[k]].prev <= ITEMS && headers[l[k]].next <= ITEMS
    ensures Linked(Pulled(headers, l[k]), if head == l[k] then headers[l[k]].next else head, Without(l, k))
  {
    var m, hs := Without(l, k), Pulled(headers, l[k]);
    assert headers[l[k]] == HeaderIn(l, k) && (head == l[k] <==> k == 0);
    StillDistinct(l, k);
    PulledLength(headers, l[k]);
    forall j | 0 <= j < |m| ensures m[j] < ITEMS && hs[m[j]] == HeaderIn(m, j) {
      PulledEntry(headers, head, l, k, j);
    }
    hide Pulled, Without, HeaderIn;
  }

  lemma StillDistinct(l: seq<nat>, k: nat)
    requires k < |l| && forall a, b :: 0 <= a < b < |l| ==> l[a] != l[b]
    ensures forall a, b :: 0 <= a < b < |Without(l, k)| ==> Without(l, k)[a] != Without(l, k)[b]
  {
  }

  lemma PulledLength(headers: seq<Header>, idx: nat)
    requires |headers| == ITEMS && idx < ITEMS && headers[idx].prev <= ITEMS && headers[idx].next <= ITEMS
    ensures |Pulled(headers, idx)| == ITEMS
  {
  }

  /** Taking an entry out of one list leaves another as it is. */
  lemma PullElsewhere(headers: seq<Header>, head: nat, l: seq<nat>, k: nat, head': nat, l': seq<nat>)
    requires Linked(headers, head, l) && Linked(headers, head', l') && k < |l| && forall i :: i in l ==> i !in l'
    requires l[k] < ITEMS && headers[l[k]].prev <= ITEMS && headers[l[k]].next <= ITEMS
    ensures Linked(Pulled(headers, l[k]), head', l')
  {
    Neighbours(headers, head, l, k);
    PulledLength(headers, l[k]);
    hide Pulled;
    forall j | 0 <= j < |l'| ensures Pulled(headers, l[k])[l'[j]] == headers[l'[j]] {
      assert l'[j] in l';
      PulledAt(headers, l[k], l'[j]);
    }
    LinkedFrame(headers, Pulled(headers, l[k]), head', l');
  }

  /** The lists hold exactly the free blocks, each under its order. */
  ghost predicate Listed(headers: seq<Header>, heads: seq<nat>, lists: seq<seq<nat>>, blocks: set<Block>) {
    AllLinked(headers, heads, lists) && ShowFree(lists, blocks)
  }

  ghost predicate AllLinked(headers: seq<Header>, heads: seq<nat>, lists: seq<seq<nat>>) {
    && |heads| == NUM_ORDERS && |lists| == NUM_ORDERS
    && forall o :: 0 <= o < NUM_ORDERS ==> Linked(headers, heads[o], lists[o])
  }

  ghost predicate ShowFree(lists: seq<seq<nat>>, blocks: set<Block>) {
    && |lists| == NUM_ORDERS
    && forall o: nat, i: nat :: o < NUM_ORDERS ==> (i in lists[o] <==> Block(i, o, Free) in blocks)
  }

  lemma ListedMeans(headers: seq<Header>, heads: seq<nat>, lists: seq<seq<nat>>, blocks: set<Block>)
    ensures Listed(headers, heads, lists, blocks) <==> AllLinked(headers, heads, lists) && ShowFree(lists, blocks)
    ensures Listed(headers, heads, lists, blocks) ==> |heads| == |lists| == NUM_ORDERS
  {
  }

  /** No two blocks start at the same item. */
  ghost predicate Unique(blocks: set<Block>) {
    forall b, c {:trigger b in blocks, c in blocks} :: b in blocks && c in blocks && b.idx == c.idx ==> b == c
  }

  lemma PushListed(headers: seq<Header>, heads: seq<nat>, lists: seq<seq<nat>>, blocks: set<Block>, idx: nat, o: nat)
    requires Listed(headers, heads, lists, blocks) && Unique(blocks) && o < NUM_ORDERS && idx < ITEMS
    requires forall b :: b in blocks ==> b.idx != idx
    ensures |headers| == ITEMS && heads[o] <= ITEMS
    ensures Listed(Pushed(headers, heads[o], idx), heads[o := idx], lists[o := [idx] + lists[o]],
      blocks + {Block(idx, o, Free)})
  {
    hide HeaderIn;
    assert Linked(headers, heads[o], lists[o]);
    var hs, heads', lists' := Pushed(headers, heads[o], idx), heads[o := idx], lists[o := [idx] + lists[o]];
    assert idx !in lists[o];
    forall p | 0 <= p < NUM_ORDERS ensures Linked(hs, heads'[p], lists'[p]) {
      if p == o {
        PushLinked(headers, heads[o], lists[o], idx);
      } else {
        assert idx !in lists[p];
        forall i | i in lists[o] ensures i !in lists[p] {
          assert Block(i, o, Free) in blocks;
        }
        assert heads[o] != ITEMS ==> heads[o] in lists[o];
        LinkedFrame(headers, hs, heads[p], lists[p]);
      }
    }
  }

  lemma ListsApart(headers: seq<Header>, heads: seq<nat>, lists: seq<seq<nat>>, blocks: set<Block>, o: nat, p: nat,
                   i: nat)
    requires Listed(headers, heads, lists, blocks) && Unique(blocks) && o < NUM_ORDERS && p < NUM_ORDERS && o != p
    requires i in lists[o]
    ensures i !in lists[p]
  {
    hide Linked;
    assert Block(i, o, Free) in blocks;
    assert i in lists[p] ==> Block(i, p, Free) in blocks;
  }

  lemma PullOne(headers: seq<Header>, heads: seq<nat>, lists: seq<seq<nat>>, blocks: set<Block>, o: nat, k: nat, p: nat)
    requires Listed(headers, heads, lists, blocks) && Unique(blocks) && o < NUM_ORDERS && p < NUM_ORDERS && p != o
    requires k < |lists[o]|
    requires |headers| == ITEMS && lists[o][k] < ITEMS && headers[lists[o][k]].prev <= ITEMS
    requires headers[lists[o][k]].next <= ITEMS
    ensures Linked(Pulled(headers, lists[o][k]), heads[p], lists[p])
  {
    assert Linked(headers, heads[o], lists[o]) && Linked(headers, heads[p], lists[p]);
    hide Linked;
    forall i | i in lists[o] ensures i !in lists[p] {
      ListsApart(headers, heads, lists, blocks, o, p, i);
    }
    hide Listed, Unique, Pulled;
    PullElsewhere(headers, heads[o], lists[o], k, heads[p], lists[p]);
  }

  lemma StillListed(lists: seq<seq<nat>>, blocks: set<Block>, idx: nat, o: nat, l: seq<nat>)
    requires ShowFree(lists, blocks) && o < NUM_ORDERS && forall i :: i in l <==> i in lists[o] && i != idx
    ensures ShowFree(lists[o := l], blocks - {Block(idx, o, Free)})
  {
  }

  lemma PullListed(headers: seq<Header>, heads: seq<nat>, lists: seq<seq<nat>>, blocks: set<Block>, idx: nat, o: nat)
      returns (k: nat)
    requires Listed(headers, heads, lists, blocks) && Unique(blocks) && o < NUM_ORDERS && Block(idx, o, Free) in blocks
    ensures k < |lists[o]| && lists[o][k] == idx && |headers| == ITEMS && idx < ITEMS
    ensures headers[idx].prev <= ITEMS && headers[idx].next <= ITEMS
    ensures Listed(Pulled(headers, idx), if heads[o] == idx then heads[o := headers[idx].next] else heads,
                   lists[o := Without(lists[o], k)], blocks - {Block(idx, o, Free)})
  {
    hide *;
    ListedMeans(headers, heads, lists, blocks);
    k := PlaceOf(headers, heads, lists, blocks, idx, o);
    Neighbours(headers, heads[o], lists[o], k);
    PullAll(headers, heads, lists, blocks, o, k);
    PullShown(lists, blocks, o, k);
    ListedMeans(Pulled(headers, idx), if heads[o] == idx then heads[o := headers[idx].next] else heads,
                lists[o := Without(lists[o], k)], blocks - {Block(idx, o, Free)});
  }

  /** Every list is linked as before, but for the entry taken out. */
  lemma PullAll(headers: seq<Header>, heads: seq<nat>, lists: seq<seq<nat>>, blocks: set<Block>, o: nat, k: nat)
    requires Listed(headers, heads, lists, blocks) && Unique(blocks) && o < NUM_ORDERS && k < |lists[o]|
    requires |headers| == ITEMS && lists[o][k] < ITEMS && Linked(headers, heads[o], lists[o])
    requires headers[lists[o][k]].prev <= ITEMS && headers[lists[o][k]].next <= ITEMS
    ensures var idx := lists[o][k];
      AllLinked(Pulled(headers, idx), if heads[o] == idx then heads[o := headers[idx].next] else heads,
                lists[o := Without(lists[o], k)])
  {
    PullLinked(headers, heads[o], lists[o], k);
    hide Linked, Pulled, Without, Unique, HeaderIn, ShowFree;
    var idx := lists[o][k];
    var heads' := if heads[o] == idx then heads[o := headers[idx].next] else heads;
    var lists' := lists[o := Without(lists[o], k)];
    forall p | 0 <= p < NUM_ORDERS ensures Linked(Pulled(headers, idx), heads'[p], lists'[p]) {
      if p != o {
        PullOne(headers, heads, lists, blocks, o, k, p);
      }
    }
  }

  /** The lists hold the free blocks as before, but for the one taken out. */
  lemma PullShown(lists: seq<seq<nat>>, blocks: set<Block>, o: nat, k: nat)
    requires ShowFree(lists, blocks) && o < NUM_ORDERS && k < |lists[o]|
    requires forall a, b :: 0 <= a < b < |lists[o]| ==> lists[o][a] != lists[o][b]
    ensures ShowFree(lists[o := Without(lists[o], k)], blocks - {Block(lists[o][k], o, Free)})
  {
    MinusOne(lists[o], k);
    hide Without;
    StillListed(lists, blocks, lists[o][k], o, Without(lists[o], k));
  }

  /** Where a free block stands in the list of its order. */
  lemma PlaceOf(headers: seq<Header>, heads: seq<nat>, lists: seq<seq<nat>>, blocks: set<Block>, idx: nat, o: nat)
      returns (k: nat)
    requires Listed(headers, heads, lists, blocks) && o < NUM_ORDERS && Block(idx, o, Free) in blocks
    ensures k < |lists[o]| && lists[o][k] == idx && Linked(headers, heads[o], lists[o])
    ensures |headers| == ITEMS && idx < ITEMS && forall a, b :: 0 <= a < b < |lists[o]| ==> lists[o][a] != lists[o][b]
  {
    assert idx in lists[o];
    k :| 0 <= k < |lists[o]| && lists[o][k] == idx;
    assert Linked(headers, heads[o], lists[o]);
  }

  lemma MinusOne(l: seq<nat>, k: nat)
    requires k < |l| && forall a, b :: 0 <= a < b < |l| ==> l[a] != l[b]
    ensures forall i :: i in Without(l, k) <==> i in l && i != l[k]
  {
    forall i | i in l && i != l[k] ensures i in Without(l, k) {
      var j :| 0 <= j < |l| && l[j] == i;
      assert Without(l, k)[if j < k then j else j - 1] == i;
    }
  }

  // ----- a block that is pushed twice -----

  ghost predicate NextAfter(headers: seq<Header>, m: seq<nat>, i: nat) {
    |headers| == ITEMS
    && (i < |m| ==> m[i] < ITEMS && headers[m[i]].next == if i + 1 < |m| then m[i + 1] else ITEMS)
  }

  /** Up to entry `j` a sequence follows the next pointers. */
  ghost predicate Follows(headers: seq<Header>, m: seq<nat>, j: nat) {
    forall i: nat :: i <= j ==> NextAfter(headers, m, i)
  }

  /** From an entry that is pushed again the pointers go over all the entries in front of it, back to it. */
  lemma {:induction false} GoesRound(headers: seq<Header>, head: nat, l: seq<nat>, k: nat, m: seq<nat>, j: nat)
    requires Linked(headers, head, l) && j <= k < |l| && k > 0 && head <= ITEMS && l[k] < ITEMS
    requires m != [] && m[0] == l[k] && Follows(Pushed(headers, head, l[k]), m, j)
    ensures j + 1 < |m| && m[j + 1] == l[j]
    decreases j
  {
    hide *;
    PushedNext(headers, head, l, k, if j == 0 then 0 else j - 1);
    FollowsAt(Pushed(headers, head, l[k]), m, j);
    if j > 0 {
      GoesRound(headers, head, l, k, m, j - 1);
    }
  }

  lemma FollowsAt(headers: seq<Header>, m: seq<nat>, j: nat)
    requires Follows(headers, m, j)
    ensures |headers| == ITEMS
    ensures j < |m| ==> m[j] < ITEMS && headers[m[j]].next == if j + 1 < |m| then m[j + 1] else ITEMS
    ensures j > 0 ==> Follows(headers, m, j - 1)
  {
    assert NextAfter(headers, m, j);
  }

  lemma PushedNext(headers: seq<Header>, head: nat, l: seq<nat>, k: nat, j: nat)
    requires Linked(headers, head, l) && j < k < |l| && head <= ITEMS && l[k] < ITEMS
    ensures |headers| == ITEMS
    ensures var hs := Pushed(headers, head, l[k]);
      |hs| == ITEMS && l[0] < ITEMS && l[j] < ITEMS && l[j + 1] < ITEMS && hs[l[k]].next == l[0]
      && hs[l[j]].next == l[j + 1]
  {
    hide Linked, Pushed;
    EntryAt(headers, head, l, j);
    EntryAt(headers, head, l, 0);
    EntryAt(headers, head, l, j + 1);
    EntryAt(headers, head, l, k);
    Different(headers, head, l, j, k);
    PushedAt(headers, head, l[k], l[j]);
    PushedAt(headers, head, l[k], l[k]);
  }

  lemma Different(headers: seq<Header>, head: nat, l: seq<nat>, j: nat, k: nat)
    requires Linked(headers, head, l) && j < k < |l|
    ensures l[j] != l[k]
  {
  }

  lemma Ring(headers: seq<Header>, head: nat, l: seq<nat>, k: nat, m: seq<nat>)
    requires Linked(headers, head, l) && k < |l| && head <= ITEMS && l[k] < ITEMS
    ensures !Linked(Pushed(headers, head, l[k]), l[k], m)
  {
    var hs := Pushed(headers, head, l[k]);
    if k == 0 {
      assert hs[l[k]].prev == l[k];
      assert m != [] ==> HeaderIn(m, 0).prev == ITEMS;
    } else if m != [] && m[0] == l[k] && Follows(hs, m, k) {
      GoesRound(headers, head, l, k, m, k);
      assert m[k + 1] == m[0];
    }
  }

  /** No lists of any blocks fit the headers. */
  ghost predicate Broken(headers: seq<Header>, heads: seq<nat>) {
    forall ls, blocks :: !Listed(headers, heads, ls, blocks)
  }

  /** After a block has been pushed twice no lists fit the headers. */
  lemma PushedTwice(headers: seq<Header>, heads: seq<nat>, lists: seq<seq<nat>>, blocks: set<Block>, idx: nat, o: nat)
    requires Listed(headers, heads, lists, blocks) && o < NUM_ORDERS && Block(idx, o, Free) in blocks
    requires |headers| == ITEMS && |heads| == NUM_ORDERS && heads[o] <= ITEMS && idx < ITEMS
    ensures Broken(Pushed(headers, heads[o], idx), heads[o := idx])
  {
    var hs, heads' := Pushed(headers, heads[o], idx), heads[o := idx];
    assert Linked(headers, heads[o], lists[o]) && idx in lists[o];
    var k :| 0 <= k < |lists[o]| && lists[o][k] == idx;
    hide Linked, Pushed;
    forall ls, any ensures !Listed(hs, heads', ls, any) {
      if |ls| == NUM_ORDERS {
        Ring(headers, heads[o], lists[o], k, ls[o]);
        assert !Linked(hs, heads'[o], ls[o]);
      }
    }
  }

  lemma HeadsInRange(headers: seq<Header>, heads: seq<nat>, lists: seq<seq<nat>>, blocks: set<Block>, o: nat)
    requires Listed(headers, heads, lists, blocks) && o < NUM_ORDERS
    ensures |headers| == ITEMS && |heads| == |lists| == NUM_ORDERS && heads[o] <= ITEMS
  {
    assert Linked(headers, heads[o], lists[o]);
  }
}

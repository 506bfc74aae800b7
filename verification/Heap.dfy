/** The Kernighan & Ritchie allocator of umalloc.c: free list, live blocks, and how both tile what
    sbrk has returned. Addresses count units of one header; the static header `base` is at 0, below
    the heap. */
module Heap {

  datatype Header = Header(ptr: nat, size: nat)

  /** mem: the headers in memory. nodes: the free list from base on. live: the blocks given out, by
      the address of their header, with their sizes. tile: for each unit of the heap the block it is
      in. top: where sbrk continues. */
  datatype H = H(mem: map<nat, Header>, nodes: seq<nat>, live: map<nat, nat>, tile: map<nat, nat>, top: nat)

  // ------------------------------------------------------------------ the invariant

  /** The successor in a circle of n. */
  function Next(k: nat, n: nat): nat {
    if k + 1 < n then k + 1 else 0
  }

  predicate Node(h: H, k: nat)
    requires k < |h.nodes|
  {
    && h.nodes[k] in h.mem && h.mem[h.nodes[k]].ptr == h.nodes[Next(k, |h.nodes|)]
    && (h.mem[h.nodes[k]].size == 0 <==> k == 0)
  }

  /** The free list is a circle that starts with the empty block base. */
  ghost predicate Circle(h: H) {
    |h.nodes| > 0 && h.nodes[0] == 0 && forall k :: 0 <= k < |h.nodes| ==> Node(h, k)
  }

  function End(h: H, a: nat): nat
    requires a in h.mem
  {
    a + h.mem[a].size
  }

  predicate Before(h: H, k: nat)
    requires k + 1 < |h.nodes| && h.nodes[k] in h.mem
  {
    h.nodes[k] < h.nodes[k + 1] && End(h, h.nodes[k]) <= h.nodes[k + 1]
  }

  /** The list is in address order. */
  ghost predicate Ordered(h: H)
    requires Circle(h)
  {
    forall k :: 0 <= k < |h.nodes| - 1 ==> Node(h, k) && Before(h, k)
  }

  /** Neighbours in the list do not touch, except behind elements k with lo <= k < hi. */
  ghost predicate Coalesced(h: H, lo: int, hi: int)
    requires Circle(h)
  {
    forall k :: 0 <= k < |h.nodes| - 1 && !(lo <= k < hi) ==> Node(h, k) && End(h, h.nodes[k]) < h.nodes[k + 1]
  }

  ghost predicate LiveBlocks(h: H) {
    forall a :: a in h.live ==> 0 < a && a in h.mem && h.mem[a].size == h.live[a] > 0 && a !in h.nodes
  }

  predicate IsBlock(h: H, a: nat) {
    a in h.mem && a > 0 && (a in h.live || a in h.nodes)
  }

  predicate Within(h: H, u: nat)
    requires u in h.tile
  {
    IsBlock(h, h.tile[u]) && h.tile[u] <= u < End(h, h.tile[u]) && u < h.top
  }

  predicate Covers(h: H, a: nat, u: nat) {
    u in h.tile && h.tile[u] == a
  }

  /** Every unit of the heap is in exactly one block, free or live. */
  ghost predicate Tiled(h: H) {
    && (forall u :: u in h.tile ==> Within(h, u))
    && (forall a: nat, u: nat :: IsBlock(h, a) && a <= u < End(h, a) ==> Covers(h, a, u))
  }

  ghost predicate Loose(h: H, lo: int, hi: int) {
    Circle(h) && Ordered(h) && Coalesced(h, lo, hi) && LiveBlocks(h) && Tiled(h)
  }

  ghost predicate Inv(h: H) {
    Loose(h, 0, 0)
  }

  lemma {:induction false} Increasing(h: H, i: nat, j: nat)
    requires Circle(h) && Ordered(h) && i < j < |h.nodes|
    ensures h.nodes[i] < h.nodes[j]
    decreases j
  {
    assert Node(h, j - 1) && Before(h, j - 1);
    if i < j - 1 {
      Increasing(h, i, j - 1);
    }
  }

  /** Blocks do not overlap. */
  lemma {:induction false} Disjoint(h: H, a: nat, b: nat)
    requires Tiled(h) && IsBlock(h, a) && IsBlock(h, b) && a < b && h.mem[b].size > 0
    ensures End(h, a) <= b
  {
    assert Covers(h, b, b);
    assert b < End(h, a) ==> Covers(h, a, b);
  }

  // ------------------------------------------------------------------ giving a block back

  /** A live block becomes a list element behind element j. */
  function Insert(h: H, j: nat, a: nat): H
    requires j < |h.nodes| && h.nodes[j] in h.mem && a in h.mem
  {
    var p := h.nodes[j];
    h.(mem := h.mem[a := Header(h.mem[p].ptr, h.mem[a].size)][p := Header(a, h.mem[p].size)],
       nodes := h.nodes[..j + 1] + [a] + h.nodes[j + 1..],
       live := map b | b in h.live && b != a :: h.live[b])
  }

  /** The place of a in the list. */
  ghost predicate Fits(h: H, j: nat, a: nat) {
    && j < |h.nodes| && h.nodes[j] < a && (j + 1 < |h.nodes| ==> a < h.nodes[j + 1])
  }

  lemma {:induction false} InsertAt(h: H, j: nat, a: nat, k: nat)
    requires Circle(h) && j < |h.nodes| && a in h.mem && k < |h.nodes| + 1
    ensures j < |h.nodes| && h.nodes[j] in h.mem
    ensures |Insert(h, j, a).nodes| == |h.nodes| + 1
    ensures Insert(h, j, a).nodes[k] == if k <= j then h.nodes[k] else if k == j + 1 then a else h.nodes[k - 1]
  {
    assert Node(h, j);
  }

  lemma {:induction false} InsertCircle(h: H, j: nat, a: nat)
    requires Circle(h) && Ordered(h) && a in h.live && LiveBlocks(h) && Fits(h, j, a)
    ensures Node(h, j) && Circle(Insert(h, j, a))
  {
    assert Node(h, j);
    var g := Insert(h, j, a);
    forall k | 0 <= k < |g.nodes|
      ensures Node(g, k)
    {
      InsertAt(h, j, a, k);
      InsertAt(h, j, a, Next(k, |g.nodes|));
      var i := if k <= j then k else if k == j + 1 then j else k - 1;
      assert Node(h, i);
      if i < j {
        Increasing(h, i, j);
      } else if i > j {
        Increasing(h, j, i);
      }
    }
  }

  lemma {:induction false} InsertBlocks(h: H, j: nat, a: nat)
    requires Circle(h) && Ordered(h) && a in h.live && LiveBlocks(h) && Tiled(h) && Fits(h, j, a) && Node(h, j)
    ensures var g := Insert(h, j, a);
            && (forall b :: b in g.nodes <==> b in h.nodes || b == a)
            && (forall b :: IsBlock(g, b) <==> IsBlock(h, b))
            && (forall b :: b in h.mem ==> b in g.mem && g.mem[b].size == h.mem[b].size)
  {
    var g := Insert(h, j, a);
    forall b | b in h.nodes
      ensures b in g.nodes
    {
      var k :| 0 <= k < |h.nodes| && h.nodes[k] == b;
      InsertAt(h, j, a, if k <= j then k else k + 1);
    }
    InsertAt(h, j, a, j + 1);
    assert a in g.nodes;
  }

  /** A live block lies between the free blocks around it. */
  lemma {:induction false} InsertGaps(h: H, j: nat, a: nat)
    requires Circle(h) && Ordered(h) && a in h.live && LiveBlocks(h) && Tiled(h) && Fits(h, j, a) && Node(h, j)
    ensures End(h, h.nodes[j]) <= a
    ensures j + 1 < |h.nodes| ==> End(h, a) <= h.nodes[j + 1]
  {
    if j > 0 {
      assert h.nodes[j] in h.nodes;
      Increasing(h, 0, j);
      Disjoint(h, h.nodes[j], a);
    }
    if j + 1 < |h.nodes| {
      assert Node(h, j + 1) && h.nodes[j + 1] in h.nodes;
      Increasing(h, 0, j + 1);
      Disjoint(h, a, h.nodes[j + 1]);
    }
  }

  lemma {:induction false} InsertOrdered(h: H, j: nat, a: nat)
    requires Circle(h) && Ordered(h) && Coalesced(h, 0, 0) && a in h.mem && Fits(h, j, a) && Node(h, j)
    requires End(h, h.nodes[j]) <= a && (j + 1 < |h.nodes| ==> End(h, a) <= h.nodes[j + 1])
    requires var g := Insert(h, j, a);
             Circle(g) && forall b :: b in h.mem ==> b in g.mem && g.mem[b].size == h.mem[b].size
    ensures Ordered(Insert(h, j, a)) && Coalesced(Insert(h, j, a), j, j + 2)
  {
    hide Insert;
    var g := Insert(h, j, a);
    forall k | 0 <= k < |g.nodes| - 1
      ensures Node(g, k) && Before(g, k) && (!(j <= k < j + 2) ==> End(g, g.nodes[k]) < g.nodes[k + 1])
    {
      assert Node(g, k);
      InsertAt(h, j, a, 0);
      InsertAt(h, j, a, k);
      InsertAt(h, j, a, k + 1);
      if k < j {
        assert Node(h, k) && Before(h, k);
      } else if k > j + 1 {
        assert Node(h, k - 1) && Before(h, k - 1);
      }
    }
  }

  lemma {:induction false} InsertKeeps(h: H, j: nat, a: nat)
    requires Inv(h) && a in h.live && Fits(h, j, a)
    ensures Node(h, j) && Loose(Insert(h, j, a), j, j + 2)
  {
    hide Coalesced;
    InsertCircle(h, j, a);
    InsertBlocks(h, j, a);
    InsertGaps(h, j, a);
    InsertAt(h, j, a, 0);
    InsertOrdered(h, j, a);
    var g := Insert(h, j, a);
    forall b: nat, u: nat | IsBlock(g, b) && b <= u < End(g, b)
      ensures Covers(g, b, u)
    {
      assert IsBlock(h, b) && Covers(h, b, u);
    }
    forall u | u in g.tile
      ensures Within(g, u)
    {
      assert Within(h, u);
    }
  }

  // ------------------------------------------------------------------ joining neighbours

  /** Element k + 1 is joined to element k, which it touches. */
  function Merge(h: H, k: nat): H
    requires k + 1 < |h.nodes| && h.nodes[k] in h.mem && h.nodes[k + 1] in h.mem
  {
    var p, q := h.nodes[k], h.nodes[k + 1];
    h.(mem := h.mem[p := Header(h.mem[q].ptr, h.mem[p].size + h.mem[q].size)],
       nodes := h.nodes[..k + 1] + h.nodes[k + 2..],
       tile := map u | u in h.tile :: if h.tile[u] == q then p else h.tile[u])
  }

  lemma {:induction false} MergeAt(h: H, k: nat, i: nat)
    requires k + 1 < |h.nodes| && h.nodes[k] in h.mem && h.nodes[k + 1] in h.mem && i < |h.nodes| - 1
    ensures |Merge(h, k).nodes| == |h.nodes| - 1
    ensures Merge(h, k).nodes[i] == if i <= k then h.nodes[i] else h.nodes[i + 1]
  {
  }

  lemma {:induction false} MergeCircle(h: H, k: nat)
    requires Circle(h) && Ordered(h) && 0 < k && k + 1 < |h.nodes|
    ensures Node(h, k) && Node(h, k + 1) && Circle(Merge(h, k))
  {
    assert Node(h, k) && Node(h, k + 1);
    var g := Merge(h, k);
    forall i | 0 <= i < |g.nodes|
      ensures Node(g, i)
    {
      MergeAt(h, k, i);
      MergeAt(h, k, Next(i, |g.nodes|));
      if i < k {
        assert Node(h, i);
        Increasing(h, i, k);
      } else if i > k {
        assert Node(h, i + 1);
        Increasing(h, k, i + 1);
      }
    }
  }

  lemma {:induction false} MergeEnd(h: H, k: nat, i: nat)
    requires Circle(h) && Ordered(h) && 0 < k && k + 1 < |h.nodes| && Node(h, k) && Node(h, k + 1) && i < |h.nodes|
    ensures h.nodes[i] in h.mem && h.nodes[i] in Merge(h, k).mem
    ensures End(Merge(h, k), h.nodes[i]) == End(h, h.nodes[i]) + if i == k then h.mem[h.nodes[k + 1]].size else 0
  {
    assert Node(h, i);
    if i < k {
      Increasing(h, i, k);
    } else if i > k {
      Increasing(h, k, i);
    }
  }

  lemma {:induction false} GapAt(h: H, lo: int, hi: int, i: nat)
    requires Circle(h) && Ordered(h) && Coalesced(h, lo, hi) && i + 1 < |h.nodes|
    ensures h.nodes[i] in h.mem && Before(h, i) && (!(lo <= i < hi) ==> End(h, h.nodes[i]) < h.nodes[i + 1])
  {
    assert Node(h, i);
  }

  /** Element i of the list after the merge, and the one behind it. */
  lemma {:induction false} MergeBefore(h: H, k: nat, lo: int, hi: int, i: nat)
    requires Circle(h) && Ordered(h) && 0 < k && k + 1 < |h.nodes| && Node(h, k) && Node(h, k + 1)
    requires Circle(Merge(h, k))
    requires Coalesced(h, lo, hi) && hi == k + 1 && lo <= k
    requires End(h, h.nodes[k]) == h.nodes[k + 1] && i + 1 < |Merge(h, k).nodes|
    ensures var g := Merge(h, k); Node(g, i) && Before(g, i) && (!(lo <= i < k) ==> End(g, g.nodes[i]) < g.nodes[i + 1])
  {
    MergeNode(h, k, i);
    hide Merge, Circle, Ordered, Coalesced, Next;
    MergeAt(h, k, 0);
    MergeAt(h, k, i);
    MergeAt(h, k, i + 1);
    if i < k {
      MergeEnd(h, k, i);
      GapAt(h, lo, hi, i);
    } else {
      MergeEnd(h, k, if i == k then k else i + 1);
      GapAt(h, lo, hi, k);
      GapAt(h, lo, hi, i + 1);
    }
  }

  lemma {:induction false} MergeNode(h: H, k: nat, i: nat)
    requires k + 1 < |h.nodes| && h.nodes[k] in h.mem && h.nodes[k + 1] in h.mem
    requires Circle(Merge(h, k)) && i < |Merge(h, k).nodes|
    ensures Node(Merge(h, k), i)
  {
  }

  lemma {:induction false} MergeOrdered(h: H, k: nat, lo: int, hi: int)
    requires Circle(h) && Ordered(h) && 0 < k && k + 1 < |h.nodes| && Node(h, k) && Node(h, k + 1)
    requires Circle(Merge(h, k))
    requires Coalesced(h, lo, hi) && hi == k + 1 && lo <= k
    requires End(h, h.nodes[k]) == h.nodes[k + 1]
    ensures Ordered(Merge(h, k)) && Coalesced(Merge(h, k), lo, k)
  {
    hide Merge;
    var g := Merge(h, k);
    forall i | 0 <= i < |g.nodes| - 1
      ensures Node(g, i) && Before(g, i) && (!(lo <= i < k) ==> End(g, g.nodes[i]) < g.nodes[i + 1])
    {
      MergeBefore(h, k, lo, hi, i);
    }
  }

  lemma {:induction false} MergeNodes(h: H, k: nat, b: nat)
    requires Circle(h) && Ordered(h) && 0 < k && k + 1 < |h.nodes| && Node(h, k) && Node(h, k + 1)
    ensures b in Merge(h, k).nodes <==> b in h.nodes && b != h.nodes[k + 1]
  {
    var g := Merge(h, k);
    if b in h.nodes && b != h.nodes[k + 1] {
      var i :| 0 <= i < |h.nodes| && h.nodes[i] == b;
      MergeAt(h, k, if i <= k then i else i - 1);
    }
    if b in g.nodes {
      var i :| 0 <= i < |g.nodes| && g.nodes[i] == b;
      MergeAt(h, k, i);
      if i <= k {
        Increasing(h, i, k + 1);
      } else {
        Increasing(h, k + 1, i + 1);
      }
    }
  }

  lemma {:induction false} MergeTiled(h: H, k: nat)
    requires Circle(h) && Ordered(h) && LiveBlocks(h) && Tiled(h) && 0 < k && k + 1 < |h.nodes|
    requires Node(h, k) && Node(h, k + 1) && End(h, h.nodes[k]) == h.nodes[k + 1]
    ensures LiveBlocks(Merge(h, k)) && Tiled(Merge(h, k))
  {
    var g, p, q := Merge(h, k), h.nodes[k], h.nodes[k + 1];
    Increasing(h, 0, k);
    Increasing(h, k, k + 1);
    assert p in h.nodes && q in h.nodes;
    MergeNodes(h, k, p);
    forall a | a in g.live
      ensures 0 < a && a in g.mem && g.mem[a].size == g.live[a] > 0 && a !in g.nodes
    {
      MergeNodes(h, k, a);
    }
    forall u | u in g.tile
      ensures Within(g, u)
    {
      assert Within(h, u);
      MergeNodes(h, k, h.tile[u]);
    }
    forall b: nat, u: nat | IsBlock(g, b) && b <= u < End(g, b)
      ensures Covers(g, b, u)
    {
      MergeNodes(h, k, b);
      if b == p {
        assert Covers(h, if u < q then p else q, u);
      } else {
        assert IsBlock(h, b) && Covers(h, b, u);
      }
    }
  }

  lemma {:induction false} MergeKeeps(h: H, k: nat, lo: int, hi: int)
    requires Loose(h, lo, hi) && 0 < k && k + 1 < |h.nodes| && hi == k + 1 && lo <= k
    requires Node(h, k) && Node(h, k + 1) && End(h, h.nodes[k]) == h.nodes[k + 1]
    ensures Loose(Merge(h, k), lo, k)
  {
    hide Tiled, LiveBlocks, Coalesced;
    MergeCircle(h, k);
    MergeOrdered(h, k, lo, hi);
    MergeTiled(h, k);
  }

  /** Fewer exceptions, if what is left out does not touch. */
  lemma {:induction false} NoTouch(h: H, lo: int, hi: int, l: int, i: int)
    requires Loose(h, lo, hi)
    requires forall k :: lo <= k < hi && !(l <= k < i) && 0 <= k < |h.nodes| - 1 ==>
               Node(h, k) && End(h, h.nodes[k]) < h.nodes[k + 1]
    ensures Loose(h, l, i)
  {
  }

  // ------------------------------------------------------------------ free

  /** Behind element j + 1, which is new. */
  function JoinedUp(g: H, j: nat): H
    requires Circle(g)
  {
    if j + 2 < |g.nodes| && Node(g, j + 1) && Node(g, j + 2) && End(g, g.nodes[j + 1]) == g.nodes[j + 2]
    then Merge(g, j + 1) else g
  }

  function JoinedDown(g: H, j: nat): H
    requires Circle(g)
  {
    if 0 < j && j + 1 < |g.nodes| && Node(g, j) && Node(g, j + 1) && End(g, g.nodes[j]) == g.nodes[j + 1]
    then Merge(g, j) else g
  }

  ghost predicate SameHeap(g: H, h: H) {
    g.live == h.live && g.tile.Keys == h.tile.Keys && g.top == h.top
  }

  lemma {:induction false} JoinedUpKeeps(g: H, j: nat)
    requires Loose(g, j, j + 2)
    ensures Loose(JoinedUp(g, j), j, j + 1) && SameHeap(g, JoinedUp(g, j))
  {
    hide Tiled, LiveBlocks;
    if j + 2 < |g.nodes| {
      OrderedAt(g, j + 1);
      assert Node(g, j + 2);
    }
    if j + 2 < |g.nodes| && End(g, g.nodes[j + 1]) == g.nodes[j + 2] {
      MergeKeeps(g, j + 1, j, j + 2);
    } else {
      NoTouch(g, j, j + 2, j, j + 1);
    }
  }

  lemma {:induction false} JoinedDownKeeps(g: H, j: nat)
    requires Loose(g, j, j + 1)
    ensures Inv(JoinedDown(g, j)) && SameHeap(g, JoinedDown(g, j))
  {
    hide Tiled, LiveBlocks;
    if j + 1 < |g.nodes| {
      OrderedAt(g, j);
      assert Node(g, j + 1);
    }
    if 0 < j && j + 1 < |g.nodes| && End(g, g.nodes[j]) == g.nodes[j + 1] {
      MergeKeeps(g, j, j, j + 1);
      NoTouch(Merge(g, j), j, j, 0, 0);
    } else {
      NoTouch(g, j, j + 1, 0, 0);
    }
  }

  lemma {:induction false} OrderedAt(h: H, i: nat)
    requires Circle(h) && Ordered(h) && i + 1 < |h.nodes|
    ensures Node(h, i) && Before(h, i)
  {
  }

  /** free of block a, whose place is behind element j. */
  ghost function Freed(h: H, j: nat, a: nat): H
    requires Inv(h) && a in h.live && Fits(h, j, a)
  {
    InsertKeeps(h, j, a);
    JoinedUpKeeps(Insert(h, j, a), j);
    JoinedDown(JoinedUp(Insert(h, j, a), j), j)
  }

  /** Freeing keeps the heap in order, takes a from the live blocks, and neither adds nor loses memory. */
  lemma {:induction false} FreedKeeps(h: H, j: nat, a: nat)
    requires Inv(h) && a in h.live && Fits(h, j, a)
    ensures var g := Freed(h, j, a);
            && Inv(g) && g.live == (map b | b in h.live && b != a :: h.live[b])
            && g.tile.Keys == h.tile.Keys && g.top == h.top
  {
    InsertKeeps(h, j, a);
    hide Ordered, Coalesced, Tiled, Circle, JoinedUp, JoinedDown, Node;
    JoinedUpKeeps(Insert(h, j, a), j);
    JoinedDownKeeps(JoinedUp(Insert(h, j, a), j), j);
  }

  // ------------------------------------------------------------------ malloc

  /** Element k leaves the list and is given out. */
  function Unlink(h: H, k: nat): H
    requires 0 < k < |h.nodes| && h.nodes[k] in h.mem && h.nodes[k - 1] in h.mem
  {
    var p, q := h.nodes[k - 1], h.nodes[k];
    h.(mem := h.mem[p := Header(h.mem[q].ptr, h.mem[p].size)], nodes := h.nodes[..k] + h.nodes[k + 1..],
       live := h.live[q := h.mem[q].size])
  }

  lemma {:induction false} UnlinkAt(h: H, k: nat, i: nat)
    requires 0 < k < |h.nodes| && h.nodes[k] in h.mem && h.nodes[k - 1] in h.mem && i < |h.nodes| - 1
    ensures |Unlink(h, k).nodes| == |h.nodes| - 1
    ensures Unlink(h, k).nodes[i] == if i < k then h.nodes[i] else h.nodes[i + 1]
  {
  }

  lemma {:induction false} UnlinkCircle(h: H, k: nat)
    requires Circle(h) && Ordered(h) && 0 < k < |h.nodes| && Node(h, k) && Node(h, k - 1)
    ensures Circle(Unlink(h, k))
  {
    var g := Unlink(h, k);
    forall i | 0 <= i < |g.nodes|
      ensures Node(g, i)
    {
      UnlinkAt(h, k, i);
      UnlinkAt(h, k, Next(i, |g.nodes|));
      if i < k - 1 {
        assert Node(h, i);
        Increasing(h, i, k - 1);
      } else if i >= k {
        assert Node(h, i + 1);
        Increasing(h, k - 1, i + 1);
      }
    }
  }

  lemma {:induction false} UnlinkSize(h: H, k: nat, b: nat)
    requires 0 < k < |h.nodes| && h.nodes[k] in h.mem && h.nodes[k - 1] in h.mem && b in h.mem
    ensures b in Unlink(h, k).mem && End(Unlink(h, k), b) == End(h, b)
  {
  }

  lemma {:induction false} UnlinkOrdered(h: H, k: nat)
    requires Circle(h) && Ordered(h) && Coalesced(h, 0, 0) && 0 < k < |h.nodes| && Node(h, k) && Node(h, k - 1)
    requires Circle(Unlink(h, k))
    ensures Ordered(Unlink(h, k)) && Coalesced(Unlink(h, k), 0, 0)
  {
    var g := Unlink(h, k);
    forall i | 0 <= i < |g.nodes| - 1
      ensures Node(g, i) && Before(g, i) && End(g, g.nodes[i]) < g.nodes[i + 1]
    {
      assert Node(g, i);
      UnlinkBefore(h, k, i);
    }
  }

  lemma {:induction false} UnlinkBefore(h: H, k: nat, i: nat)
    requires Circle(h) && Ordered(h) && Coalesced(h, 0, 0) && 0 < k < |h.nodes| && Node(h, k) && Node(h, k - 1)
    requires i + 1 < |Unlink(h, k).nodes| && Unlink(h, k).nodes[i] in Unlink(h, k).mem
    ensures var g := Unlink(h, k); Before(g, i) && End(g, g.nodes[i]) < g.nodes[i + 1]
  {
    UnlinkAt(h, k, 0);
    UnlinkAt(h, k, i);
    UnlinkAt(h, k, i + 1);
    hide Unlink, Circle, Ordered, Coalesced, Next;
    if i < k - 1 {
      GapAt(h, 0, 0, i);
      UnlinkSize(h, k, h.nodes[i]);
    } else if i == k - 1 {
      GapAt(h, 0, 0, k - 1);
      GapAt(h, 0, 0, k);
      UnlinkSize(h, k, h.nodes[k - 1]);
    } else {
      GapAt(h, 0, 0, i + 1);
      UnlinkSize(h, k, h.nodes[i + 1]);
    }
  }

  lemma {:induction false} UnlinkNodes(h: H, k: nat, b: nat)
    requires Circle(h) && Ordered(h) && 0 < k < |h.nodes| && Node(h, k) && Node(h, k - 1)
    ensures b in Unlink(h, k).nodes <==> b in h.nodes && b != h.nodes[k]
  {
    var g := Unlink(h, k);
    if b in h.nodes && b != h.nodes[k] {
      var i :| 0 <= i < |h.nodes| && h.nodes[i] == b;
      UnlinkAt(h, k, if i < k then i else i - 1);
    }
    if b in g.nodes {
      var i :| 0 <= i < |g.nodes| && g.nodes[i] == b;
      UnlinkAt(h, k, i);
      if i < k {
        Increasing(h, i, k);
      } else {
        Increasing(h, k, i + 1);
      }
    }
  }

  lemma {:induction false} UnlinkTiled(h: H, k: nat)
    requires Circle(h) && Ordered(h) && LiveBlocks(h) && Tiled(h) && 0 < k < |h.nodes| && Node(h, k) && Node(h, k - 1)
    ensures LiveBlocks(Unlink(h, k)) && Tiled(Unlink(h, k))
  {
    var g := Unlink(h, k);
    Increasing(h, 0, k);
    UnlinkNodes(h, k, h.nodes[k]);
    assert h.nodes[k] in h.nodes;
    forall a | a in g.live
      ensures 0 < a && a in g.mem && g.mem[a].size == g.live[a] > 0 && a !in g.nodes
    {
      UnlinkNodes(h, k, a);
    }
    forall b: nat
      ensures IsBlock(g, b) <==> IsBlock(h, b)
    {
      UnlinkNodes(h, k, b);
      assert h.nodes[k - 1] in h.nodes;
    }
    forall u | u in g.tile
      ensures Within(g, u)
    {
      assert Within(h, u);
      UnlinkSize(h, k, h.tile[u]);
    }
    forall b: nat, u: nat | IsBlock(g, b) && b <= u < End(g, b)
      ensures Covers(g, b, u)
    {
      assert IsBlock(h, b);
      UnlinkSize(h, k, b);
      assert Covers(h, b, u);
    }
  }

  /** The whole of a free block is given out. */
  lemma {:induction false} UnlinkKeeps(h: H, k: nat)
    requires Inv(h) && 0 < k < |h.nodes|
    ensures Node(h, k) && Node(h, k - 1) && h.nodes[k] !in h.live && Inv(Unlink(h, k))
  {
    hide Tiled, Coalesced;
    assert Node(h, k) && Node(h, k - 1) && h.nodes[k] in h.nodes;
    UnlinkCircle(h, k);
    UnlinkOrdered(h, k);
    UnlinkTiled(h, k);
  }

  /** The last n units of element k are given out. */
  function Split(h: H, k: nat, n: nat): H
    requires k < |h.nodes| && h.nodes[k] in h.mem && n < h.mem[h.nodes[k]].size
  {
    var p := h.nodes[k];
    var rest := h.mem[p].size - n;
    var q := p + rest;
    var x := if q in h.mem then h.mem[q].ptr else 0;
    h.(mem := h.mem[p := Header(h.mem[p].ptr, rest)][q := Header(x, n)], live := h.live[q := n],
       tile := map u | u in h.tile :: if q <= u < q + n then q else h.tile[u])
  }

  predicate Known(h: H, b: nat) {
    b in h.live || b in h.nodes
  }

  lemma {:induction false} BlocksBelow(h: H, b: nat)
    requires Inv(h) && Known(h, b)
    ensures b in h.mem && (b > 0 ==> IsBlock(h, b) && h.mem[b].size > 0 && b < h.top)
  {
    if b in h.nodes {
      var k :| 0 <= k < |h.nodes| && h.nodes[k] == b;
      assert Node(h, k);
    }
    if b > 0 {
      assert IsBlock(h, b) && Covers(h, b, b);
      assert Within(h, b);
    }
  }

  /** A place inside a block is not the start of another. */
  lemma {:induction false} Inside(h: H, a: nat, q: nat)
    requires Inv(h) && IsBlock(h, a) && a < q < End(h, a)
    ensures !Known(h, q)
  {
    assert Covers(h, a, q);
    forall b: nat | Known(h, b)
      ensures b != q
    {
      BlocksBelow(h, b);
      assert b > 0 ==> Covers(h, b, b);
    }
  }

  lemma {:induction false} SplitNode(h: H, k: nat, n: nat, i: nat)
    requires Circle(h) && Ordered(h) && 0 < k < |h.nodes| && Node(h, k) && 0 < n < h.mem[h.nodes[k]].size
    requires i < |h.nodes|
    requires End(h, h.nodes[k]) - n !in h.nodes
    ensures var g := Split(h, k, n);
            Node(g, i) && h.nodes[i] in h.mem && End(g, g.nodes[i]) == End(h, h.nodes[i]) - if i == k then n else 0
  {
    assert Node(h, i) && h.nodes[i] in h.nodes;
    if i < k {
      Increasing(h, i, k);
    } else if i > k {
      Increasing(h, k, i);
    }
  }

  lemma {:induction false} SplitList(h: H, k: nat, n: nat)
    requires Circle(h) && Ordered(h) && Coalesced(h, 0, 0) && 0 < k < |h.nodes| && Node(h, k)
    requires 0 < n < h.mem[h.nodes[k]].size
    requires End(h, h.nodes[k]) - n !in h.nodes
    ensures var g := Split(h, k, n); Circle(g) && Ordered(g) && Coalesced(g, 0, 0)
  {
    hide Ordered, Coalesced;
    var g := Split(h, k, n);
    forall i | 0 <= i < |g.nodes|
      ensures Node(g, i)
    {
      SplitNode(h, k, n, i);
    }
    SplitGaps(h, k, n);
  }

  lemma {:induction false} SplitGaps(h: H, k: nat, n: nat)
    requires Circle(h) && Ordered(h) && Coalesced(h, 0, 0) && 0 < k < |h.nodes| && Node(h, k)
    requires 0 < n < h.mem[h.nodes[k]].size
    requires End(h, h.nodes[k]) - n !in h.nodes && Circle(Split(h, k, n))
    ensures var g := Split(h, k, n); Ordered(g) && Coalesced(g, 0, 0)
  {
    var g := Split(h, k, n);
    assert g.nodes == h.nodes;
    forall i | 0 <= i < |g.nodes| - 1
      ensures Node(g, i) && Before(g, i) && End(g, g.nodes[i]) < g.nodes[i + 1]
    {
      SplitNode(h, k, n, i);
      GapAt(h, 0, 0, i);
    }
  }

  lemma {:induction false} SplitTiled(h: H, k: nat, n: nat)
    requires Inv(h) && 0 < k < |h.nodes| && Node(h, k) && 0 < n < h.mem[h.nodes[k]].size
    requires h.nodes[k] > 0 && !Known(h, End(h, h.nodes[k]) - n)
    ensures LiveBlocks(Split(h, k, n)) && Tiled(Split(h, k, n))
  {
    hide Coalesced, Ordered;
    var g, p, q := Split(h, k, n), h.nodes[k], End(h, h.nodes[k]) - n;
    assert p in h.nodes && IsBlock(h, p);
    forall u | u in g.tile
      ensures Within(g, u)
    {
      assert Within(h, u);
      if q <= u < q + n {
        assert Covers(h, p, u);
      }
    }
    forall b: nat, u: nat | IsBlock(g, b) && b <= u < End(g, b)
      ensures Covers(g, b, u)
    {
      if b == q {
        assert Covers(h, p, u);
      } else {
        assert IsBlock(h, b) && Covers(h, b, u);
        assert q <= u < q + n ==> Covers(h, p, u);
      }
    }
  }

  lemma {:induction false} SplitKeeps(h: H, k: nat, n: nat)
    requires Inv(h) && 0 < k < |h.nodes| && Node(h, k) && 0 < n < h.mem[h.nodes[k]].size
    ensures Inv(Split(h, k, n)) && End(h, h.nodes[k]) - n !in h.live
    ensures Split(h, k, n).tile.Keys == h.tile.Keys
  {
    Increasing(h, 0, k);
    assert h.nodes[k] in h.nodes;
    Inside(h, h.nodes[k], End(h, h.nodes[k]) - n);
    SplitList(h, k, n);
    SplitTiled(h, k, n);
  }

  /** sbrk has returned n units at address a, and morecore has made them a block. */
  function Grow(h: H, a: nat, n: nat): H
  {
    var x := if a in h.mem then h.mem[a].ptr else 0;
    h.(mem := h.mem[a := Header(x, n)], live := h.live[a := n], top := a + n,
       tile := map u | u in h.tile.Keys + Units(a, n) :: if u in h.tile then h.tile[u] else a)
  }

  function Units(a: nat, n: nat): (s: set<nat>)
    ensures forall u :: u in s <==> a <= u < a + n
  {
    if n == 0 then {} else Units(a, n - 1) + {a + n - 1}
  }

  lemma {:induction false} GrowKeeps(h: H, a: nat, n: nat)
    requires Inv(h) && 0 < a && h.top <= a && 0 < n
    ensures Inv(Grow(h, a, n)) && !Known(h, a)
    ensures Grow(h, a, n).tile.Keys == h.tile.Keys + Units(a, n) && h.tile.Keys !! Units(a, n)
  {
    var g := Grow(h, a, n);
    forall b: nat | Known(h, b)
      ensures b != a
    {
      BlocksBelow(h, b);
    }
    assert !Known(h, a);
    GrowList(h, a, n);
    forall u | u in h.tile
      ensures u < a
    {
      assert Within(h, u);
    }
    GrowTiled(h, a, n);
  }

  lemma {:induction false} GrowNode(h: H, a: nat, n: nat, i: nat)
    requires Circle(h) && a !in h.nodes && i < |h.nodes|
    ensures var g := Grow(h, a, n); Node(g, i) && h.nodes[i] in h.mem && End(g, g.nodes[i]) == End(h, h.nodes[i])
  {
    assert Node(h, i) && h.nodes[i] in h.nodes;
    assert h.nodes[Next(i, |h.nodes|)] in h.nodes;
  }

  lemma {:induction false} GrowList(h: H, a: nat, n: nat)
    requires Circle(h) && Ordered(h) && Coalesced(h, 0, 0) && a !in h.nodes
    ensures var g := Grow(h, a, n); Circle(g) && Ordered(g) && Coalesced(g, 0, 0)
  {
    var g := Grow(h, a, n);
    assert g.nodes == h.nodes;
    hide Grow;
    forall i | 0 <= i < |g.nodes|
      ensures Node(g, i)
    {
      GrowNode(h, a, n, i);
    }
    forall i | 0 <= i < |g.nodes| - 1
      ensures Node(g, i) && Before(g, i) && End(g, g.nodes[i]) < g.nodes[i + 1]
    {
      GrowNode(h, a, n, i);
      GapAt(h, 0, 0, i);
    }
  }

  lemma {:induction false} GrowTiled(h: H, a: nat, n: nat)
    requires LiveBlocks(h) && Tiled(h) && 0 < a && h.top <= a && 0 < n && a !in h.nodes && a !in h.live
    requires forall u :: u in h.tile ==> u < a
    ensures LiveBlocks(Grow(h, a, n)) && Tiled(Grow(h, a, n))
  {
    hide Grow, Within, Covers;
    var g := Grow(h, a, n);
    GrowLive(h, a, n);
    forall u | u in g.tile
      ensures Within(g, u)
    {
      GrowWithin(h, a, n, u);
    }
    forall b: nat, u: nat | IsBlock(g, b) && b <= u < End(g, b)
      ensures Covers(g, b, u)
    {
      GrowCovers(h, a, n, b, u);
    }
  }

  lemma {:induction false} GrowLive(h: H, a: nat, n: nat)
    requires LiveBlocks(h) && 0 < a && 0 < n && a !in h.nodes && a !in h.live
    ensures LiveBlocks(Grow(h, a, n))
  {
  }

  lemma {:induction false} GrowWithin(h: H, a: nat, n: nat, u: nat)
    requires LiveBlocks(h) && Tiled(h) && 0 < a && h.top <= a && 0 < n && a !in h.nodes && a !in h.live
    requires u in Grow(h, a, n).tile
    ensures Within(Grow(h, a, n), u)
  {
    if u in h.tile {
      assert Within(h, u);
    }
  }

  lemma {:induction false} GrowCovers(h: H, a: nat, n: nat, b: nat, u: nat)
    requires Tiled(h) && 0 < a && 0 < n && (forall v :: v in h.tile ==> v < a)
    requires var g := Grow(h, a, n); IsBlock(g, b) && b <= u < End(g, b)
    ensures Covers(Grow(h, a, n), b, u)
  {
    if b != a {
      assert IsBlock(h, b) && Covers(h, b, u);
    }
  }
}

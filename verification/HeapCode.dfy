/** The code of umalloc.c. */
module HeapCode {
  import opened Heap

  /** nunits: the units malloc reserves for nbytes, header included, in 32-bit arithmetic. */
  function NUnits(nbytes: nat): (n: nat)
    ensures n >= 1
  {
    (nbytes + 7) % 0x1_0000_0000 / 8 + 1
  }

  /** The units behind the header hold nbytes, unless nbytes is so large that the sum wraps. */
  lemma {:induction false} UnitsSuffice(nbytes: nat)
    requires nbytes < 0x1_0000_0000
    ensures 8 * (NUnits(nbytes) - 1) >= nbytes <==> nbytes <= 0x1_0000_0000 - 8
  {
  }

  /** What morecore passes to sbrk for nu units: 8 * nu in 32 bits, which sbrk takes as an int. */
  function SbrkBytes(nu: nat): int {
    var bytes := 8 * nu % 0x1_0000_0000;
    if bytes < 0x8000_0000 then bytes else bytes - 0x1_0000_0000
  }

  /** It is the size of nu units exactly below 2^28 units; above it is negative, and 0 for 2^29. */
  lemma {:induction false} SbrkExact(nu: nat)
    requires nu <= 0x2000_0000
    ensures SbrkBytes(nu) == 8 * nu <==> nu < 0x1000_0000
    ensures 0x1000_0000 <= nu < 0x2000_0000 ==> SbrkBytes(nu) < 0
    ensures nu == 0x2000_0000 ==> SbrkBytes(nu) == 0
  {
  }

  /** Requests for which malloc asks sbrk for the wrong amount, if it asks. */
  lemma {:induction false} RequestExact(nbytes: nat)
    requires nbytes < 0x1_0000_0000
    ensures SbrkBytes(AtLeast(NUnits(nbytes))) == 8 * AtLeast(NUnits(nbytes)) <==>
              !(0x7fff_fff1 <= nbytes <= 0xffff_fff8)
  {
    assert NUnits(nbytes) <= 0x2000_0000;
    SbrkExact(AtLeast(NUnits(nbytes)));
  }

  /** What sbrk answers: an address at or above the old break, or -1. */
  datatype Offer = Refused | Given(at: nat)

  // ------------------------------------------------------------------ walking round the list

  /** Steps from element k to element t of a circle of n. */
  function Dist(k: nat, t: nat, n: nat): nat
    requires k < n && t < n
  {
    if k <= t then t - k else n - k + t
  }

  lemma {:induction false} FindPlace(h: H, a: nat, j: nat) returns (t: nat)
    requires Circle(h) && Ordered(h) && a !in h.nodes && j < |h.nodes| && h.nodes[j] < a
    ensures Fits(h, t, a)
    decreases |h.nodes| - j
  {
    if j + 1 < |h.nodes| && h.nodes[j + 1] < a {
      t := FindPlace(h, a, j + 1);
    } else {
      t := j;
      assert j + 1 < |h.nodes| ==> h.nodes[j + 1] in h.nodes;
    }
  }

  /** The loop of free stops at element k exactly if a belongs behind it. */
  lemma {:induction false} Stops(h: H, k: nat, a: nat)
    requires Circle(h) && Ordered(h) && a > 0 && k < |h.nodes|
    ensures h.nodes[k] in h.mem && h.mem[h.nodes[k]].ptr == h.nodes[Next(k, |h.nodes|)]
    ensures var p := h.nodes[k]; var q := h.mem[p].ptr;
            (a > p && a < q) || (p >= q && (a > p || a < q)) <==> Fits(h, k, a)
  {
    assert Node(h, k);
    if k + 1 < |h.nodes| {
      Increasing(h, k, k + 1);
    }
  }

  // ------------------------------------------------------------------ free on headers

  /** The header of a after the first join, and of p after the second. */
  function FreedMem(mem: map<nat, Header>, p: nat, a: nat): map<nat, Header>
    requires p in mem && a in mem && (mem[p].ptr in mem)
  {
    var q := mem[p].ptr;
    var x := if a + mem[a].size == q then Header(mem[q].ptr, mem[a].size + mem[q].size) else Header(q, mem[a].size);
    mem[a := x][p := if p + mem[p].size == a then Header(x.ptr, mem[p].size + x.size) else Header(a, mem[p].size)]
  }

  lemma {:induction false} LiveIn(h: H, a: nat)
    requires Inv(h) && a in h.live
    ensures a in h.mem && a > 0 && h.mem[a].size == h.live[a]
  {
  }

  lemma {:induction false} NodeIn(h: H, j: nat)
    requires Circle(h) && j < |h.nodes|
    ensures h.nodes[j] in h.mem && h.mem[h.nodes[j]].ptr == h.nodes[Next(j, |h.nodes|)]
    ensures h.nodes[Next(j, |h.nodes|)] in h.mem && (j == 0 ==> End(h, h.nodes[j]) == 0) && h.nodes[0] == 0
  {
    assert Node(h, j) && Node(h, Next(j, |h.nodes|));
  }

  lemma {:induction false} UpIs(g: H, j: nat)
    requires Circle(g) && j + 1 < |g.nodes|
    ensures g.nodes[j + 1] in g.mem && (j + 2 < |g.nodes| ==> g.nodes[j + 2] in g.mem)
    ensures JoinedUp(g, j) == if j + 2 < |g.nodes| && End(g, g.nodes[j + 1]) == g.nodes[j + 2]
              then Merge(g, j + 1) else g
  {
    assert Node(g, j + 1);
    assert j + 2 < |g.nodes| ==> Node(g, j + 2);
  }

  lemma {:induction false} DownIs(g: H, j: nat)
    requires Circle(g) && j + 1 < |g.nodes|
    ensures g.nodes[j] in g.mem && g.nodes[j + 1] in g.mem
    ensures JoinedDown(g, j) == if 0 < j && End(g, g.nodes[j]) == g.nodes[j + 1] then Merge(g, j) else g
  {
    assert Node(g, j) && Node(g, j + 1);
  }

  /** The list and the headers around a after the first join. */
  ghost predicate Upper(h: H, j: nat, a: nat, g: H) {
    && j < |h.nodes| && j + 1 < |g.nodes| && g.nodes[j] == h.nodes[j] && g.nodes[j + 1] == a && h.nodes[j] < a
    && h.nodes[j] in h.mem && a in h.mem && h.mem[h.nodes[j]].ptr in h.mem
    && var p, q := h.nodes[j], h.mem[h.nodes[j]].ptr;
       var x := if a + h.mem[a].size == q then Header(h.mem[q].ptr, h.mem[a].size + h.mem[q].size)
                else Header(q, h.mem[a].size);
       g.mem == h.mem[a := x][p := Header(a, h.mem[p].size)]
  }

  lemma {:induction false} UpMem(h: H, j: nat, a: nat)
    requires Inv(h) && a in h.live && Fits(h, j, a) && Node(h, j) && Circle(Insert(h, j, a))
    ensures Upper(h, j, a, JoinedUp(Insert(h, j, a), j))
  {
    hide Circle, Ordered, Coalesced, Tiled, LiveBlocks, Node, JoinedUp, Insert, Upper;
    if j + 1 < |h.nodes| && a in h.mem && a + h.mem[a].size == h.nodes[j + 1] {
      UpMerged(h, j, a);
    } else {
      UpApart(h, j, a);
    }
  }

  /** The block behind a does not touch it, or there is none. */
  lemma {:induction false} UpApart(h: H, j: nat, a: nat)
    requires Inv(h) && a in h.live && Fits(h, j, a) && Node(h, j) && Circle(Insert(h, j, a))
    requires j + 1 < |h.nodes| && a in h.mem ==> a + h.mem[a].size != h.nodes[j + 1]
    ensures Upper(h, j, a, JoinedUp(Insert(h, j, a), j))
  {
    hide Circle, Ordered, Coalesced, Tiled, LiveBlocks, Node, JoinedUp;
    NodeIn(h, j);
    LiveIn(h, a);
    InsertAt(h, j, a, j);
    InsertAt(h, j, a, j + 1);
    UpIs(Insert(h, j, a), j);
    if j + 1 < |h.nodes| {
      InsertAt(h, j, a, j + 2);
    }
  }

  lemma {:induction false} UpMerged(h: H, j: nat, a: nat)
    requires Inv(h) && a in h.live && Fits(h, j, a) && Node(h, j) && Circle(Insert(h, j, a))
    requires j + 1 < |h.nodes| && a in h.mem && a + h.mem[a].size == h.nodes[j + 1]
    ensures Upper(h, j, a, JoinedUp(Insert(h, j, a), j))
  {
    hide Circle, Ordered, Coalesced, Tiled, LiveBlocks, Node, JoinedUp;
    NodeIn(h, j);
    LiveIn(h, a);
    var g := Insert(h, j, a);
    InsertAt(h, j, a, j);
    InsertAt(h, j, a, j + 1);
    InsertAt(h, j, a, j + 2);
    UpIs(g, j);
    MergeAt(g, j + 1, j);
    MergeAt(g, j + 1, j + 1);
  }

  lemma {:induction false} DownMem(h: H, j: nat, a: nat)
    requires Inv(h) && a in h.live && Fits(h, j, a)
    ensures Node(h, j) && h.mem[h.nodes[j]].ptr in h.mem && a in h.mem
    ensures var g := Freed(h, j, a);
            && g.mem == FreedMem(h.mem, h.nodes[j], a)
            && j < |g.nodes| && g.nodes[j] == h.nodes[j]
            && exists k :: 0 <= k < |g.nodes| && Large(g, k, h.mem[a].size)
  {
    hide Insert, JoinedUp, JoinedDown, Circle, Ordered, Coalesced, Tiled, LiveBlocks, Next, Node;
    NodeIn(h, j);
    LiveIn(h, a);
    InsertKeeps(h, j, a);
    JoinedUpKeeps(Insert(h, j, a), j);
    UpMem(h, j, a);
    var u := JoinedUp(Insert(h, j, a), j);
    DownIs(u, j);
    var g := JoinedDown(u, j);
    if 0 < j && End(u, u.nodes[j]) == u.nodes[j + 1] {
      MergeAt(u, j, j);
      assert Large(g, j, h.mem[a].size);
    } else {
      assert Large(g, j + 1, h.mem[a].size);
    }
  }

  predicate Large(h: H, k: nat, n: nat)
    requires k < |h.nodes|
  {
    h.nodes[k] in h.mem && h.mem[h.nodes[k]].size >= n
  }

  class Allocator {
    var mem: map<nat, Header>
    var freep: int             // -1 before the first call
    ghost var h: H

    ghost predicate Ready()
      reads this
    {
      h.mem == mem && Inv(h) && freep >= 0 && freep in h.nodes
    }

    ghost predicate Valid()
      reads this
    {
      Ready() || (freep == -1 && h == H(mem, [], map[], map[], h.top))
    }

    /** A program that has not called malloc yet. */
    constructor (top: nat)
      ensures Valid() && h.live == map[] && h.tile == map[] && h.top == top
    {
      mem, freep := map[], -1;
      h := H(map[], [], map[], map[], top);
    }

    /** The first loop of free: the list element behind which block bp belongs. */
    method Place(bp: nat) returns (p: nat, ghost j: nat)
      requires Ready() && bp in h.live
      ensures Fits(h, j, bp) && p == h.nodes[j] && p in mem
    {
      hide Tiled, Coalesced, Fits, Node, Ordered;
      ghost var n := |h.nodes|;
      ghost var t := FindPlace(h, bp, 0);
      j :| 0 <= j < n && h.nodes[j] == freep;
      p := freep;
      Stops(h, j, bp);
      while !(bp > p && bp < mem[p].ptr)
        invariant j < n && t < n && Fits(h, t, bp) && p == h.nodes[j] && p in mem
        invariant mem[p].ptr == h.nodes[Next(j, n)]
        invariant (bp > p && bp < mem[p].ptr) || (p >= mem[p].ptr && (bp > p || bp < mem[p].ptr)) <==> Fits(h, j, bp)
        decreases Dist(j, t, n)
      {
        if p >= mem[p].ptr && (bp > p || bp < mem[p].ptr) {
          break;
        }
        p := mem[p].ptr;
        j := Next(j, n);
        Stops(h, j, bp);
      }
    }

    /** free, of a block that malloc has returned and that has not been freed. */
    method Free(bp: nat)
      requires Ready() && bp in h.live
      modifies this
      ensures Ready()
      ensures h.live == (map b | b in old(h).live && b != bp :: old(h).live[b])
      ensures h.tile.Keys == old(h).tile.Keys && h.top == old(h).top
      ensures exists k :: 0 <= k < |h.nodes| && Large(h, k, old(h).live[bp])
    {
      hide Freed, Node, Circle, Ordered, Coalesced, Tiled;
      var p;
      ghost var j;
      p, j := Place(bp);
      DownMem(h, j, bp);
      FreedKeeps(h, j, bp);
      LiveIn(h, bp);
      ghost var g := Freed(h, j, bp);
      var q := mem[p].ptr;
      if bp + mem[bp].size == q {
        mem := mem[bp := Header(mem[q].ptr, mem[bp].size + mem[q].size)];
      } else {
        mem := mem[bp := Header(q, mem[bp].size)];
      }
      if p + mem[p].size == bp {
        mem := mem[p := Header(mem[bp].ptr, mem[p].size + mem[bp].size)];
      } else {
        mem := mem[p := Header(bp, mem[p].size)];
      }
      freep := p;
      h := g;
      assert h.nodes[j] in h.nodes;
    }

    /** morecore: at least 4096 units from sbrk, put on the list. `short`: sbrk has been asked for
        another amount than morecore would record, and the model stops. */
    method MoreCore(n: nat, offer: Offer) returns (p: int, short: bool)
      requires Ready() && 0 < n && (offer.Given? ==> 0 < offer.at && h.top <= offer.at)
      modifies this
      ensures Ready() && h.live == old(h).live
      ensures short <==> offer.Given? && SbrkBytes(AtLeast(n)) != 8 * AtLeast(n)
      ensures p == -1 <==> offer.Refused? || short
      ensures p == -1 ==> h == old(h) && freep == old(freep)
      ensures p != -1 ==> p == freep && (exists k :: 0 <= k < |h.nodes| && Large(h, k, n))
      ensures p != -1 ==> h.tile.Keys == old(h).tile.Keys + Units(offer.at, AtLeast(n))
      ensures p != -1 ==> h.top == offer.at + AtLeast(n)
      ensures p != -1 ==> old(h).tile.Keys !! Units(offer.at, AtLeast(n))
    {
      hide Inv;
      if offer.Refused? {
        return -1, false;
      }
      var nu := AtLeast(n);
      if SbrkBytes(nu) != 8 * nu {
        return -1, true;
      }
      var hp := offer.at;
      GrowKeeps(h, hp, nu);
      ghost var o := h;
      mem := mem[hp := Header(if hp in mem then mem[hp].ptr else 0, nu)];
      h := Grow(h, hp, nu);
      Free(hp);
      assert h.live == o.live;
      ghost var k :| 0 <= k < |h.nodes| && Large(h, k, nu);
      assert Large(h, k, n);
      return freep, false;
    }

    /** The end of malloc, with a block that is large enough. */
    method Take(prevp: nat, p: nat, n: nat, ghost k: nat) returns (a: nat)
      requires Ready() && 0 < n && 0 < k < |h.nodes| && p == h.nodes[k] && prevp == h.nodes[k - 1] && Large(h, k, n)
      requires prevp in mem
      modifies this
      ensures Ready() && a !in old(h).live && h.live == old(h).live[a := n]
      ensures h.tile.Keys == old(h).tile.Keys && h.top == old(h).top
    {
      hide Tiled, Coalesced, Ordered, LiveBlocks;
      UnlinkKeeps(h, k);
      ghost var o := h;
      a := p;
      if mem[p].size == n {
        mem := mem[prevp := Header(mem[p].ptr, mem[prevp].size)];
        h := Unlink(h, k);
        UnlinkAt(o, k, k - 1);
      } else {
        SplitKeeps(h, k, n);
        mem := mem[p := Header(mem[p].ptr, mem[p].size - n)];
        a := p + mem[p].size;
        mem := mem[a := Header(if a in mem then mem[a].ptr else 0, n)];
        h := Split(h, k, n);
      }
      freep := prevp;
      assert h.nodes[k - 1] == prevp;
    }

    /** One round of malloc's loop, from the element behind freep to freep: the first block of at
        least n units, with its predecessor. */
    method Search(n: nat) returns (found: bool, prevp: nat, p: nat, ghost k: nat)
      requires Ready() && 0 < n
      ensures found ==> 0 < k < |h.nodes| && p == h.nodes[k] && prevp == h.nodes[k - 1] && prevp in mem
      ensures found ==> Large(h, k, n)
      ensures !found ==> forall x :: 0 <= x < |h.nodes| ==> !Large(h, x, n)
    {
      hide Tiled, Coalesced, Ordered, LiveBlocks, Node;
      ghost var f :| 0 <= f < |h.nodes| && h.nodes[f] == freep;
      NodeIn(h, f);
      prevp := freep;
      p := mem[prevp].ptr;
      ghost var i: nat := f;
      k := Next(f, |h.nodes|);
      while true
        invariant i < |h.nodes| && k == Next(i, |h.nodes|) && prevp == h.nodes[i] && p == h.nodes[k] && prevp in mem
        invariant p in mem
        invariant forall x :: 0 <= x < |h.nodes| && Order(f, x, |h.nodes|) < Order(f, k, |h.nodes|) ==> !Large(h, x, n)
        decreases |h.nodes| - Order(f, k, |h.nodes|)
      {
        if mem[p].size >= n {
          NotBase(h, k, n);
          return true, prevp, p, k;
        }
        SameNode(h, k, f);
        if p == freep {
          return false, prevp, p, k;
        }
        NodeIn(h, k);
        prevp, p := p, mem[p].ptr;
        i, k := k, Next(k, |h.nodes|);
      }
    }

    /** malloc: the address behind the header of a block of the right size that was not live, or 0.
        sbrk is asked at most once, and only if no free block is large enough; morecore's result is
        freep, from where the loop goes on. `short` as for morecore. */
    method Malloc(nbytes: nat, offer: Offer) returns (r: nat, short: bool, ghost grown: bool)
      requires Valid() && nbytes < 0x1_0000_0000
      requires offer.Given? ==> 0 < offer.at && h.top <= offer.at
      modifies this
      ensures Ready()
      ensures r == 0 ==> !grown && (offer.Refused? || short) && h.live == old(h).live
      ensures short ==> r == 0
      ensures short <==> offer.Given? && 0x7fff_fff1 <= nbytes <= 0xffff_fff8
                         && forall k :: 0 <= k < |old(h).nodes| ==> !Large(old(h), k, NUnits(nbytes))
      ensures r == 0 ==> forall k :: 0 <= k < |h.nodes| ==> !Large(h, k, NUnits(nbytes))
      ensures r != 0 ==> r - 1 !in old(h).live && h.live == old(h).live[r - 1 := NUnits(nbytes)]
      ensures grown ==> offer.Given? && h.top == offer.at + AtLeast(NUnits(nbytes))
      ensures grown ==> h.tile.Keys == old(h).tile.Keys + Units(offer.at, AtLeast(NUnits(nbytes)))
      ensures grown ==> forall k :: 0 <= k < |old(h).nodes| ==> !Large(old(h), k, NUnits(nbytes))
      ensures !grown ==> h.tile.Keys == old(h).tile.Keys && h.top == old(h).top
    {
      hide Inv, NUnits;
      var n := NUnits(nbytes);
      if freep == -1 {
        StartInv(mem, h.top);
        mem := mem[0 := Header(0, 0)];
        freep := 0;
        h := H(mem, [0], map[], map[], h.top);
      }
      grown, short := false, false;
      RequestExact(nbytes);
      var found, prevp, p;
      ghost var k;
      found, prevp, p, k := Search(n);
      if !found {
        var q;
        q, short := MoreCore(n, offer);
        if q == -1 {
          return 0, short, grown;
        }
        grown := true;
        found, prevp, p, k := Search(n);
      }
      var a := Take(prevp, p, n, k);
      r := a + 1;
    }
  }

  /** morecore asks for 4096 units at least. */
  function AtLeast(n: nat): nat {
    if n < 4096 then 4096 else n
  }

  /** The order in which malloc visits a circle of n elements from the one behind element f on. */
  function Order(f: nat, x: nat, n: nat): nat
    requires f < n && x < n
  {
    if x > f then x - f - 1 else n - f - 1 + x
  }

  /** base is no block to give out. */
  lemma {:induction false} NotBase(h: H, k: nat, n: nat)
    requires Circle(h) && k < |h.nodes| && h.nodes[k] in h.mem && h.mem[h.nodes[k]].size >= n > 0
    ensures k > 0
  {
    assert Node(h, k);
  }

  lemma {:induction false} SameNode(h: H, k: nat, f: nat)
    requires Circle(h) && Ordered(h) && k < |h.nodes| && f < |h.nodes|
    ensures h.nodes[k] == h.nodes[f] ==> k == f
  {
    if k < f {
      Increasing(h, k, f);
    } else if f < k {
      Increasing(h, f, k);
    }
  }

  lemma {:induction false} StartInv(mem: map<nat, Header>, top: nat)
    ensures Inv(H(mem[0 := Header(0, 0)], [0], map[], map[], top))
  {
  }
}

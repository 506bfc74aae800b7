/** bio.c: the circular list of buffers in most-recently-released order, and what bget picks. */
module BufferCache {
  import opened Blocks

  const NBUF := 30
  const HEAD := NBUF           // bcache.head, as an index
  const NODEV := 0xffff_ffff   // the dev of a buffer that has never been used

  datatype Buf = Buf(dev: nat, sector: nat, busy: bool, valid: bool, dirty: bool, data: Block) {
    predicate Caches(d: nat, s: nat) {
      dev == d && sector == s
    }

    /** bget may recycle it: dirty and idle means the log has not committed it yet. */
    predicate Free() {
      !busy && !dirty
    }
  }

  // ------------------------------------------------------------------ orders and what bget picks

  /** Indices buffers, most recently released first. */
  ghost predicate Indices(order: seq<nat>) {
    && (forall i :: 0 <= i < |order| ==> order[i] < NBUF)
    && (forall i, j :: 0 <= i < j < |order| ==> order[i] != order[j])
  }

  ghost predicate IsOrder(order: seq<nat>) {
    |order| == NBUF && Indices(order)
  }

  /** The position, from k on, of the first buffer that caches the sector; NBUF if none does. */
  function First(bufs: seq<Buf>, order: seq<nat>, dev: nat, sector: nat, k: nat): (f: nat)
    requires |bufs| == NBUF && IsOrder(order) && k <= NBUF
    ensures k <= f <= NBUF
    ensures f < NBUF ==> bufs[order[f]].Caches(dev, sector)
    ensures forall i :: k <= i < f ==> !bufs[order[i]].Caches(dev, sector)
    decreases NBUF - k
  {
    if k == NBUF || bufs[order[k]].Caches(dev, sector) then k else First(bufs, order, dev, sector, k + 1)
  }

  /** The position, up to k, of the last buffer that is neither busy nor dirty; -1 if there is none. */
  function Victim(bufs: seq<Buf>, order: seq<nat>, k: int): (v: int)
    requires |bufs| == NBUF && IsOrder(order) && -1 <= k < NBUF
    ensures -1 <= v <= k
    ensures v >= 0 ==> bufs[order[v]].Free()
    ensures forall i :: v < i <= k ==> !bufs[order[i]].Free()
    decreases k + 1
  {
    if k < 0 || bufs[order[k]].Free() then k else Victim(bufs, order, k - 1)
  }

  /** How one pass of bget, from acquire to release or sleep, ends. */
  datatype Pass = Got(b: nat) | Sleep(on: nat) | NoBuffers

  /** One pass of bget: the cached buffer if it is idle, else wait for it; if the sector is not
      cached, the least recently released free buffer, now for this sector. */
  function Lookup(bufs: seq<Buf>, order: seq<nat>, dev: nat, sector: nat): (Pass, seq<Buf>)
    requires |bufs| == NBUF && IsOrder(order)
  {
    var k := First(bufs, order, dev, sector, 0);
    if k < NBUF then
      var b := order[k];
      if bufs[b].busy then (Sleep(b), bufs) else (Got(b), bufs[b := bufs[b].(busy := true)])
    else
      var v := Victim(bufs, order, NBUF - 1);
      if v < 0 then (NoBuffers, bufs)
      else (Got(order[v]), bufs[order[v] := Buf(dev, sector, true, false, false, bufs[order[v]].data)])
  }

  function Remove(order: seq<nat>, k: nat): (r: seq<nat>)
    requires k < |order|
    ensures |r| == |order| - 1
    ensures forall i :: 0 <= i < |r| ==> r[i] == order[if i < k then i else i + 1]
  {
    order[..k] + order[k + 1..]
  }

  /** Buffer order[k] moved to the front. */
  function ToFront(order: seq<nat>, k: nat): seq<nat>
    requires k < |order|
  {
    [order[k]] + Remove(order, k)
  }

  // ------------------------------------------------------------------ links

  /** The k'th element of the circular list: head, the buffers in order, head again. */
  function At(order: seq<nat>, k: nat): nat {
    if 1 <= k <= |order| then order[k - 1] else HEAD
  }

  ghost predicate Links(next: seq<nat>, prev: seq<nat>, order: seq<nat>) {
    && |next| == |prev| == NBUF + 1 && Indices(order)
    && forall k {:trigger At(order, k)} :: 0 <= k <= |order| ==>
                       next[At(order, k)] == At(order, k + 1) && prev[At(order, k + 1)] == At(order, k)
  }

  lemma {:induction false} Unlinked(next: seq<nat>, prev: seq<nat>, order: seq<nat>, k: nat)
    requires Links(next, prev, order) && k < |order|
    ensures var b := order[k];
            && next[b] <= NBUF && prev[b] <= NBUF
            && Links(next[prev[b] := next[b]], prev[next[b] := prev[b]], Remove(order, k))
  {
    var b, rest := order[k], Remove(order, k);
    assert At(order, k + 1) == b;
    assert prev[b] == At(order, k) && next[b] == At(order, k + 2);
    forall i | 0 <= i <= |rest|
      ensures next[prev[b] := next[b]][At(rest, i)] == At(rest, i + 1)
      ensures prev[next[b] := prev[b]][At(rest, i + 1)] == At(rest, i)
    {
      assert At(rest, i) == if i <= k then At(order, i) else At(order, i + 1);
      assert At(rest, i + 1) == if i < k then At(order, i + 1) else At(order, i + 2);
    }
  }

  lemma {:induction false} Inserted(next: seq<nat>, prev: seq<nat>, order: seq<nat>, b: nat)
    requires Links(next, prev, order) && b < NBUF && b !in order
    ensures var f := next[HEAD];
            && f <= NBUF
            && Links(next[b := f][HEAD := b], prev[b := HEAD][f := b], [b] + order)
  {
    var f, longer := next[HEAD], [b] + order;
    assert At(order, 0) == HEAD && f == At(order, 1);
    forall i | 0 <= i <= |longer|
      ensures next[b := f][HEAD := b][At(longer, i)] == At(longer, i + 1)
      ensures prev[b := HEAD][f := b][At(longer, i + 1)] == At(longer, i)
    {
      if i > 0 {
        assert At(longer, i + 1) == At(order, i);
        if i > 1 {
          assert At(longer, i) == At(order, i - 1);
        }
      }
    }
  }

  /** Where a position of the list is in the circle. */
  lemma {:induction false} AtIs(order: seq<nat>, k: nat)
    requires IsOrder(order) && k <= NBUF
    ensures if k < NBUF then At(order, k + 1) == order[k] != HEAD else At(order, k + 1) == HEAD
    ensures At(order, 0) == HEAD
  {
  }

  // ------------------------------------------------------------------ the code

  class BCache {
    var buf: seq<Buf>
    var next: seq<nat>
    var prev: seq<nat>
    ghost var order: seq<nat>

    ghost predicate Valid()
      reads this
    {
      |buf| == NBUF && |order| == NBUF && Links(next, prev, order)
    }

    /** binit. */
    constructor (data: Block)
      ensures Valid()
      ensures forall b :: 0 <= b < NBUF ==> buf[b] == Buf(NODEV, 0, false, false, false, data)
      ensures forall k :: 0 <= k < NBUF ==> order[k] == NBUF - 1 - k
    {
      buf := seq(NBUF, _ => Buf(0, 0, false, false, false, data));
      next, prev := seq(NBUF + 1, _ => HEAD), seq(NBUF + 1, _ => HEAD);
      order := [];
      new;
      var b := 0;
      while b < NBUF
        invariant b <= NBUF == |buf| && |order| == b && Links(next, prev, order)
        invariant forall k :: 0 <= k < b ==> order[k] == b - 1 - k
        invariant forall c :: 0 <= c < b ==> buf[c] == Buf(NODEV, 0, false, false, false, data)
        invariant forall c :: b <= c < NBUF ==> buf[c] == Buf(0, 0, false, false, false, data)
      {
        Inserted(next, prev, order, b);
        next := next[b := next[HEAD]];
        prev := prev[b := HEAD];
        buf := buf[b := buf[b].(dev := NODEV)];
        prev := prev[next[HEAD] := b];
        next := next[HEAD := b];
        order := [b] + order;
        b := b + 1;
      }
    }

    /** The first loop of bget, forward from the most recently released buffer. */
    method Search(dev: nat, sector: nat) returns (b: nat)
      requires Valid()
      ensures b == At(order, First(buf, order, dev, sector, 0) + 1)
    {
      ghost var k := 0;
      assert At(order, 0) == HEAD;
      b := next[HEAD];
      while b != HEAD && !buf[b].Caches(dev, sector)
        invariant k <= NBUF && b == At(order, k + 1)
        invariant First(buf, order, dev, sector, 0) == First(buf, order, dev, sector, k)
        decreases NBUF - k
      {
        b, k := next[b], k + 1;
      }
    }

    /** The second loop of bget, backward from the least recently released buffer. */
    method Recyclable() returns (b: nat)
      requires Valid()
      ensures b == At(order, Victim(buf, order, NBUF - 1) + 1)
    {
      ghost var k := NBUF - 1;
      assert At(order, NBUF + 1) == HEAD && At(order, NBUF) == prev[HEAD];
      b := prev[HEAD];
      while b != HEAD && !buf[b].Free()
        invariant -1 <= k < NBUF && b == At(order, k + 1)
        invariant Victim(buf, order, NBUF - 1) == Victim(buf, order, k)
        decreases k
      {
        assert At(order, k) == prev[At(order, k + 1)];
        b, k := prev[b], k - 1;
      }
    }

    lemma {:induction false} Orders()
      requires Valid()
      ensures IsOrder(order)
    {
    }

    /** One pass of bget. */
    method Bget(dev: nat, sector: nat) returns (r: Pass)
      requires Valid()
      modifies `buf
      ensures Valid() && (r, buf) == Lookup(old(buf), order, dev, sector)
    {
      hide Links, First, Victim;
      var b := Search(dev, sector);
      Orders();
      ghost var k := First(buf, order, dev, sector, 0);
      AtIs(order, k);
      if b != HEAD {
        if buf[b].busy {
          return Sleep(b);
        }
        buf := buf[b := buf[b].(busy := true)];
        return Got(b);
      }
      b := Recyclable();
      ghost var v := Victim(buf, order, NBUF - 1);
      if v >= 0 {
        AtIs(order, v);
      }
      if b == HEAD {
        return NoBuffers;
      }
      buf := buf[b := Buf(dev, sector, true, false, false, buf[b].data)];
      return Got(b);
    }

    /** brelse: a panic if the buffer is idle; else it becomes idle and the most recently released one. */
    method Brelse(b: nat, ghost k: nat) returns (panicked: bool)
      requires Valid() && k < NBUF && b == order[k]
      modifies `buf, `next, `prev, `order
      ensures panicked <==> !old(buf)[b].busy
      ensures panicked ==> buf == old(buf) && next == old(next) && prev == old(prev) && order == old(order)
      ensures !panicked ==> Valid() && order == ToFront(old(order), k)
      ensures !panicked ==> buf == old(buf)[b := old(buf)[b].(busy := false)]
    {
      if !buf[b].busy {
        return true;
      }
      Unlinked(next, prev, order, k);
      ghost var rest := Remove(order, k);
      ghost var before, after := prev[b], next[b];
      prev := prev[next[b] := prev[b]];
      assert prev[b] == before;
      next := next[prev[b] := next[b]];
      Inserted(next, prev, rest, b);
      next := next[b := next[HEAD]];
      prev := prev[b := HEAD];
      prev := prev[next[HEAD] := b];
      next := next[HEAD := b];
      order := [b] + rest;
      buf := buf[b := buf[b].(busy := false)];
      return false;
    }
  }
}

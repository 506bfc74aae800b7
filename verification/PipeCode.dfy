/** pipe.c's ring of PIPESIZE bytes with its two 32-bit counters, as a byte stream. */
module PipeCode {
  import opened Blocks

  const PIPESIZE := 512
  const WORDS := 0x1_0000_0000

  /** Counters that differ by at most PIPESIZE can be compared modulo 2^32. */
  lemma {:induction false} Compare(r: nat, w: nat, d: nat)
    requires r <= w <= r + 512 && d <= 512
    ensures w % WORDS == (r % WORDS + d) % WORDS <==> w == r + d
  {
    SumMod(r, d);
    if w % WORDS == (r + d) % WORDS {
      assert w - (r + d) == WORDS * (w / WORDS - (r + d) / WORDS);
    }
  }

  lemma {:induction false} SumMod(x: nat, d: nat)
    ensures (x % WORDS + d) % WORDS == (x + d) % WORDS
  {
    var q := x / WORDS;
    assert x == WORDS * q + x % WORDS;
  }

  /** The place of a byte in the ring does not depend on the wrap. */
  lemma {:induction false} Place(x: nat)
    ensures x % WORDS % 512 == x % 512
  {
    var q, y := 0x80_0000 * (x / WORDS), x % WORDS;
    assert x == 512 * q + y;
    Shift(q, y);
  }

  lemma {:induction false} Shift(q: nat, y: nat)
    ensures (512 * q + y) % 512 == y % 512
  {
    var a := y / 512;
    assert 512 * q + y == 512 * (q + a) + y % 512;
  }

  /** Two places of the ring that hold live bytes are different. */
  lemma {:induction false} Apart(j: nat, k: nat)
    requires j < k < j + 512
    ensures j % 512 != k % 512
  {
  }

  class Pipe {
    var data: array<byte>
    var nread: nat
    var nwrite: nat
    var readopen: bool
    var writeopen: bool
    ghost var stored: seq<byte>      // all bytes ever stored
    ghost var removed: nat           // how many of them have been removed

    /** The live bytes are stored[removed..], at their places; the counters are the lengths modulo
        2^32. */
    ghost predicate Valid()
      reads this, data
    {
      && data.Length == PIPESIZE
      && removed <= |stored| <= removed + PIPESIZE
      && nread == removed % WORDS && nwrite == |stored| % WORDS
      && forall k :: removed <= k < |stored| ==> data[k % 512] == stored[k]
    }

    ghost function Buffered(): seq<byte>
      reads this
      requires removed <= |stored|
    {
      stored[removed..]
    }

    /** The test for an empty pipe. */
    lemma {:induction false} Sound()
      requires Valid()
      ensures removed <= |stored| <= removed + PIPESIZE && (nread == nwrite <==> Buffered() == [])
    {
      Compare(removed, |stored|, 0);
    }

    /** The new pipe of pipealloc. */
    constructor ()
      ensures Valid() && fresh(data) && stored == [] && removed == 0 && readopen && writeopen
    {
      data := new byte[PIPESIZE](_ => 0);
      nread, nwrite, readopen, writeopen := 0, 0, true, true;
      stored, removed := [], 0;
    }

    /** The loop of pipewrite from byte i on, up to its end or the first time the pipe is full. */
    method Write(addr: seq<byte>, i: nat) returns (j: nat)
      requires Valid() && i <= |addr|
      modifies `nwrite, `stored, data
      ensures Valid() && i <= j <= |addr| && stored == old(stored) + addr[i..j]
      ensures j == |addr| || |Buffered()| == PIPESIZE
      ensures j - i == if |addr| - i <= PIPESIZE - old(|Buffered()|) then |addr| - i else PIPESIZE - old(|Buffered()|)
    {
      j := i;
      while j < |addr|
        invariant Valid() && i <= j <= |addr| && stored == old(stored) + addr[i..j]
      {
        Compare(removed, |stored|, 512);
        if nwrite == (nread + PIPESIZE) % WORDS {
          return;
        }
        Store(addr[j]);
        j := j + 1;
      }
    }

    method Store(b: byte)
      requires Valid() && |stored| < removed + PIPESIZE
      modifies `nwrite, `stored, data
      ensures Valid() && stored == old(stored) + [b]
    {
      Place(|stored|);
      SumMod(|stored|, 1);
      forall k | removed <= k < |stored|
        ensures k % 512 != |stored| % 512
      {
        Apart(k, |stored|);
      }
      data[nwrite % PIPESIZE] := b;
      nwrite := (nwrite + 1) % WORDS;
      stored := stored + [b];
    }

    /** The oldest byte leaves. */
    method Fetch() returns (b: byte)
      requires Valid() && removed < |stored|
      modifies `nread, `removed
      ensures Valid() && b == stored[old(removed)] && removed == old(removed) + 1
    {
      Place(removed);
      SumMod(removed, 1);
      b := data[nread % PIPESIZE];
      nread := (nread + 1) % WORDS;
      removed := removed + 1;
    }

    /** The copy loop of piperead. */
    method Read(n: int) returns (addr: seq<byte>)
      requires Valid()
      modifies `nread, `removed
      ensures |addr| == if n <= 0 then 0 else if n <= old(|Buffered()|) then n else old(|Buffered()|)
      ensures Valid() && removed == old(removed) + |addr| && addr == old(Buffered())[..|addr|]
    {
      addr := [];
      ghost var first := removed;
      while |addr| < n
        invariant Valid() && removed == first + |addr| && addr == stored[first..removed]
        invariant n > 0 ==> |addr| <= n
        invariant n <= 0 ==> addr == []
      {
        Compare(removed, |stored|, 0);
        if nread == nwrite {
          break;
        }
        var b := Fetch();
        addr := addr + [b];
      }
    }
  }
}

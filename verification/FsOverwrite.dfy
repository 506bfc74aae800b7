/** What writei logs when, and what it logs for a write that stays within its file. */
module FsOverwrite {
  import opened Blocks
  import opened FsLayout
  import opened FsState
  import opened FsFiles
  import opened FsWrite
  import opened Seqs
  import Log

  // ------------------------------------------------------------------ when log_write is called

  /** A transaction as log.c sees it: the sectors passed to log_write, the header log.lh, and the most
      entries the header had when log_write was called. */
  datatype Logging = Logging(sectors: set<nat>, lh: seq<word>, peak: nat)

  /** The header lists the sectors, each once. */
  ghost predicate Lists(t: Logging) {
    Distinct(t.lh) && forall b: nat :: b in t.sectors <==> b in t.lh
  }

  type Txn = t: Logging | Lists(t) witness Logging({}, [], 0)

  lemma {:induction false} ListsAll(t: Txn)
    ensures |t.lh| == |t.sectors|
  {
    assert Lists(t);
    DistinctSize(t.lh, t.sectors);
  }

  /** log_write of sector b. */
  ghost function Logs(t: Txn, b: word): (u: Txn)
    ensures u.sectors == t.sectors + {b} && u.lh == Log.Absorb(t.lh, b)
    ensures u.peak == if |t.sectors| > t.peak then |t.sectors| else t.peak
    ensures |u.lh| == |u.sectors|
  {
    ListsAll(t);
    LogsLists(t, b);
    var u := Logging(t.sectors + {b}, Log.Absorb(t.lh, b), if |t.lh| > t.peak then |t.lh| else t.peak);
    ListsAll(u);
    u
  }

  lemma {:induction false} LogsLists(t: Txn, b: word)
    ensures Lists(Logging(t.sectors + {b}, Log.Absorb(t.lh, b), if |t.lh| > t.peak then |t.lh| else t.peak))
  {
    assert Lists(t);
  }

  /** `after` and `top` are the sectors logged and the most that were in the header when log_write
      was called, `before` and `peak` what they were earlier. */
  ghost predicate Peaked(before: set<nat>, peak: nat, after: set<nat>, top: nat) {
    before <= after && peak <= top && (top == peak || top <= |after|)
  }

  lemma {:induction false} PeakedTrans(a: set<nat>, p: nat, b: set<nat>, q: nat, c: set<nat>, r: nat)
    requires Peaked(a, p, b, q) && Peaked(b, q, c, r)
    ensures Peaked(a, p, c, r)
  {
    Within(b, c);
  }

  // ------------------------------------------------------------------ changes are logged

  /** Blocks have changed only where they are logged, and what has been logged since `base` lies below
      the log. */
  ghost predicate Confined(g: Geo, before: seq<Block>, base: set<nat>, after: seq<Block>, logged: set<nat>) {
    && |before| == |after| == g.size && base <= logged
    && (forall b :: 0 <= b < g.size && b !in logged ==> after[b] == before[b])
    && (forall b :: b in logged && b !in base ==> b + g.nlog < g.size)
  }

  lemma {:induction false} ConfinedTrans(g: Geo, a: seq<Block>, la: set<nat>, b: seq<Block>, lb: set<nat>,
                                         c: seq<Block>, lc: set<nat>)
    requires Confined(g, a, la, b, lb) && Confined(g, b, lb, c, lc)
    ensures Confined(g, a, la, c, lc)
  {
  }

  /** One block is written and logged. */
  lemma {:induction false} ConfinedBlock(g: Geo, disk: seq<Block>, base: set<nat>, b: nat, x: Block)
    requires |disk| == g.size && b + g.nlog < g.size
    ensures Confined(g, disk, base, disk[b := x], base + {b})
  {
  }

  /** balloc, on a file system in order. */
  lemma {:induction false} ConfinedTaken(g: Geo, s: FS, base: set<nat>, b: nat)
    requires Accounted(g, s) && b < g.size && !Bit(g, s.disk, b)
    ensures g.IsData(b) && Confined(g, s.disk, base, Taken(g, s.disk, b), base + {g.BBlock(b), b})
  {
  }

  // ------------------------------------------------------------------ overwriting

  /** Blocks lo up to hi of file i. */
  function DataBlocks(s: FS, i: nat, lo: nat, hi: nat): set<nat>
    requires i < |s.inodes| && |s.inodes[i].addrs| == NDIRECT + 1 && lo <= hi <= MAXFILE
  {
    if lo == hi then {} else DataBlocks(s, i, lo, hi - 1) + {BlockOf(s, i, hi - 1)}
  }

  lemma {:induction false} DataBlocksNew(g: Geo, s: FS, i: nat, lo: nat, hi: nat, c: nat)
    requires Accounted(g, s) && i < g.ninodes && lo <= hi <= c < MAXFILE
    requires forall bn :: lo <= bn < hi ==> BlockOf(s, i, bn) != 0
    requires BlockOf(s, i, c) != 0
    ensures BlockOf(s, i, c) !in DataBlocks(s, i, lo, hi)
  {
    hide Refs, Bits, Slot;
    if lo < hi {
      DataBlocksNew(g, s, i, lo, hi - 1, c);
      BlockOwned(g, s, i, hi - 1);
      BlockOwned(g, s, i, c);
    }
  }

  /** Different blocks of a file are different sectors. */
  lemma {:induction false} DataBlocksSize(g: Geo, s: FS, i: nat, lo: nat, hi: nat)
    requires Accounted(g, s) && i < g.ninodes && lo <= hi <= MAXFILE
    requires forall bn :: lo <= bn < hi ==> BlockOf(s, i, bn) != 0
    ensures |DataBlocks(s, i, lo, hi)| == hi - lo
  {
    hide Refs, Bits, Slot;
    if lo < hi {
      DataBlocksSize(g, s, i, lo, hi - 1);
      DataBlocksNew(g, s, i, lo, hi - 1, hi - 1);
    }
  }

  ghost predicate SameMap(g: Geo, s: FS, t: FS, i: nat) {
    && Shape(g, s) && Shape(g, t) && i < g.ninodes
    && forall bn :: 0 <= bn < MAXFILE ==> BlockOf(t, i, bn) == BlockOf(s, i, bn)
  }

  lemma {:induction false} FilledMap(g: Geo, t: FS, i: nat, bn: nat, r: nat, chunk: seq<byte>)
    requires Accounted(g, t) && i < g.ninodes && r + |chunk| <= BSIZE
    requires bn < MAXFILE && 0 < BlockOf(t, i, bn) < g.size
    ensures SameMap(g, t, Filled(t, i, bn, r, chunk), i)
  {
    WriteAccounts(g, t, i, bn, Patch(t.disk[BlockOf(t, i, bn)], r, chunk));
  }

  /** writei has overwritten the q blocks from lo on, and logged nothing else. */
  ghost predicate Overwriting(g: Geo, s: FS, t: FS, i: nat, lo: nat, q: nat, base: set<nat>, logged: set<nat>) {
    SameMap(g, s, t, i) && lo + q <= MAXFILE && logged == base + DataBlocks(s, i, lo, lo + q)
  }

  lemma {:induction false} OverwritingStep(g: Geo, s: FS, t: FS, u: FS, i: nat, lo: nat, q: nat,
                                           base: set<nat>, before: set<nat>, logged: set<nat>)
    requires Overwriting(g, s, t, i, lo, q, base, before) && lo + q < MAXFILE && SameMap(g, t, u, i)
    requires logged == before + {BlockOf(t, i, lo + q)}
    ensures Overwriting(g, s, u, i, lo, q + 1, base, logged)
  {
    assert DataBlocks(s, i, lo, lo + q + 1) == DataBlocks(s, i, lo, lo + q) + {BlockOf(s, i, lo + q)};
  }

  /** The loop of writei goes from block to block. */
  lemma {:induction false} NextBlock(off: nat, tot: nat, n: nat, q: nat, k: nat)
    requires tot < n && Whole(off % 512, tot, q) && q == Touched(off % 512, tot)
    requires var r := (off + tot) % 512; k == if n - tot < 512 - r then n - tot else 512 - r
    ensures (off + tot) / 512 == off / 512 + q
    ensures q + 1 == Touched(off % 512, tot + k) && (tot + k < n ==> Whole(off % 512, tot + k, q + 1))
  {
    if tot > 0 {
      Split(off + tot, off / 512 + q, 0);
    }
    TouchedStep(off % 512, tot, q, k);
  }

  lemma {:induction false} LoopStart(g: Geo, s: FS, i: nat, off: nat, src: seq<byte>, base: set<nat>, peak: nat)
    requires Consistent(g, s) && i < g.ninodes && off <= s.inodes[i].size && off + |src| <= MAXBYTES
    ensures Writing(g, s, s, i, off, src, off % 512, 0, base, base, Tally({}, {})) && Whole(off % 512, 0, 0)
    ensures Touched(off % 512, 0) == 0 && Peaked(base, peak, base, peak) && Confined(g, s.disk, base, s.disk, base)
    ensures Overwriting(g, s, s, i, off / 512, 0, base, base)
  {
    hide Refs, Bits, Slot;
    WritingStart(g, s, i, off, src, off % 512, base);
  }

  lemma {:induction false} InsideMapped(g: Geo, s: FS, t: FS, i: nat, off: nat, q: nat,
                                        base: set<nat>, logged: set<nat>, bn: nat)
    requires Consistent(g, s) && Overwriting(g, s, t, i, off / 512, q, base, logged)
    requires bn == off / 512 + q && bn * 512 < s.inodes[i].size
    ensures bn < MAXFILE && BlockOf(t, i, bn) == BlockOf(s, i, bn) != 0
  {
    MappedBelowSize(g, s, i, bn);
  }

  /** The sectors are the blocks with bytes off up to off + n of the file, one for each. */
  ghost predicate LogsExactly(g: Geo, s: FS, i: nat, off: nat, n: nat, logged: set<nat>)
    requires Shape(g, s) && i < g.ninodes
  {
    && off / 512 + Touched(off % 512, n) <= MAXFILE
    && logged == DataBlocks(s, i, off / 512, off / 512 + Touched(off % 512, n))
    && |logged| == Touched(off % 512, n)
  }

  /** A write within a file logs exactly the touched blocks. */
  lemma {:induction false} OverwriteSize(g: Geo, s: FS, t: FS, i: nat, off: nat, n: nat, q: nat, logged: set<nat>)
    requires Consistent(g, s) && i < g.ninodes && off + n <= s.inodes[i].size && q == Touched(off % 512, n)
    requires Overwriting(g, s, t, i, off / 512, q, {}, logged) && 0 < n
    ensures LogsExactly(g, s, i, off, n, logged)
  {
    hide Refs, Bits, Slot, BlockOf;
    TouchedIs(off % 512, n);
    var lo := off / 512;
    forall bn | lo <= bn < lo + q
      ensures BlockOf(s, i, bn) != 0
    {
      MappedBelowSize(g, s, i, bn);
    }
    DataBlocksSize(g, s, i, lo, lo + q);
    assert logged == DataBlocks(s, i, lo, lo + q);
  }

  /** More than k blocks are touched exactly if the bytes run over the end of the k'th. */
  lemma {:induction false} TouchedMore(r: nat, n: nat, k: nat)
    requires r < 512 && 0 < n
    ensures Touched(r, n) > k <==> r + n > k * 512
  {
    TouchedIs(r, n);
  }
}

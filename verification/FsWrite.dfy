/** What writei does to files: one loop iteration, all of them, and what they log. */
module FsWrite {
  import opened Blocks
  import opened FsLayout
  import opened FsState
  import opened FsFiles

  /** Only addresses of inode i have changed in memory, and no inode on disk. */
  ghost predicate InodesStay(g: Geo, s: FS, t: FS, i: nat) {
    && g.Valid() && Shape(g, s) && Shape(g, t) && i < g.ninodes
    && t.inodes == s.inodes[i := s.inodes[i].(addrs := t.inodes[i].addrs)]
    && (s.inodes[i].addrs[NDIRECT] != 0 ==> t.inodes[i].addrs[NDIRECT] == s.inodes[i].addrs[NDIRECT])
    && forall m :: 0 <= m < g.ninodes ==> t.disk[g.IBlock(m)] == s.disk[g.IBlock(m)]
  }

  /** The bytes of `chunk` are in file i at offset o, in blocks the file has. */
  ghost predicate Holds(g: Geo, t: FS, i: nat, o: nat, chunk: seq<byte>) {
    && Shape(g, t) && i < g.ninodes && o + |chunk| <= MAXBYTES
    && forall bn, r :: 0 <= bn < MAXFILE && 0 <= r < BSIZE ==> HoldsByte(t, i, o, chunk, bn, r)
  }

  predicate HoldsByte(t: FS, i: nat, o: nat, chunk: seq<byte>, bn: nat, r: nat)
    requires i < |t.inodes| && |t.inodes[i].addrs| == NDIRECT + 1 && bn < MAXFILE && r < BSIZE
  {
    o <= bn * 512 + r < o + |chunk| ==> BlockOf(t, i, bn) != 0 && ByteAt(t, i, bn, r) == chunk[bn * 512 + r - o]
  }

  /** All bytes in blocks files had are still there, except k bytes of file i at offset o. */
  ghost predicate Keeps(g: Geo, s: FS, t: FS, i: nat, o: nat, k: nat) {
    && Shape(g, s) && Shape(g, t)
    && forall m, bn, r :: 0 <= m < g.ninodes && 0 <= bn < MAXFILE && 0 <= r < BSIZE ==>
         KeepsByte(s, t, i, o, k, m, bn, r)
  }

  predicate KeepsByte(s: FS, t: FS, i: nat, o: nat, k: nat, m: nat, bn: nat, r: nat)
    requires m < |s.inodes| && |s.inodes[m].addrs| == NDIRECT + 1 && bn < MAXFILE && r < BSIZE
    requires m < |t.inodes| && |t.inodes[m].addrs| == NDIRECT + 1
  {
    BlockOf(s, m, bn) != 0 ==>
      && BlockOf(t, m, bn) != 0
      && ((m == i && o <= bn * 512 + r < o + k) || ByteAt(t, m, bn, r) == ByteAt(s, m, bn, r))
  }

  /** One iteration of writei's loop: `chunk` goes to offset r of the bn'th block. */
  ghost predicate Step(g: Geo, s: FS, t: FS, i: nat, bn: nat, r: nat, chunk: seq<byte>) {
    && Accounted(g, t) && InodesStay(g, s, t, i) && bn < MAXFILE
    && Holds(g, t, i, bn * 512 + r, chunk) && Keeps(g, s, t, i, bn * 512 + r, |chunk|)
    && BlockOf(t, i, bn) != 0
    && (BlockOf(s, i, bn) != 0 ==> t.inodes == s.inodes)
  }

  // ------------------------------------------------------------------ one iteration

  /** The state after bmap found or made the block and memmove filled it. */
  function Filled(s: FS, i: nat, bn: nat, r: nat, chunk: seq<byte>): FS
    requires i < |s.inodes| && |s.inodes[i].addrs| == NDIRECT + 1 && bn < MAXFILE
    requires BlockOf(s, i, bn) < |s.disk| && r + |chunk| <= BSIZE
  {
    var b := BlockOf(s, i, bn);
    WithBlock(s, b, Patch(s.disk[b], r, chunk))
  }

  lemma {:induction false} FilledByte(g: Geo, s: FS, i: nat, bn: nat, r: nat, chunk: seq<byte>, m: nat, c: nat, q: nat)
    requires Accounted(g, s) && i < g.ninodes && m < g.ninodes && r + |chunk| <= BSIZE
    requires bn < MAXFILE && 0 < BlockOf(s, i, bn) < g.size
    requires c < MAXFILE && q < BSIZE && BlockOf(s, m, c) != 0
    ensures var t := Filled(s, i, bn, r, chunk);
            && BlockOf(t, m, c) == BlockOf(s, m, c)
            && ByteAt(t, m, c, q) == if m == i && c == bn && r <= q < r + |chunk| then chunk[q - r]
                 else ByteAt(s, m, c, q)
  {
    var p := Patch(s.disk[BlockOf(s, i, bn)], r, chunk);
    WriteAccounts(g, s, i, bn, p);
    WriteData(g, s, i, bn, p, m, c);
  }

  lemma {:induction false} FilledHolds(g: Geo, s: FS, i: nat, bn: nat, r: nat, chunk: seq<byte>)
    requires Accounted(g, s) && i < g.ninodes && r + |chunk| <= BSIZE
    requires bn < MAXFILE && 0 < BlockOf(s, i, bn) < g.size
    ensures Holds(g, Filled(s, i, bn, r, chunk), i, bn * 512 + r, chunk)
  {
    hide BlockOf, ByteAt, Refs, Bits, Patch;
    var t, o := Filled(s, i, bn, r, chunk), bn * 512 + r;
    forall c, q | 0 <= c < MAXFILE && 0 <= q < BSIZE
      ensures HoldsByte(t, i, o, chunk, c, q)
    {
      if o <= c * 512 + q < o + |chunk| {
        assert c == bn;
        FilledByte(g, s, i, bn, r, chunk, i, c, q);
      }
    }
  }

  lemma {:induction false} FilledKeeps(g: Geo, s: FS, i: nat, bn: nat, r: nat, chunk: seq<byte>)
    requires Accounted(g, s) && i < g.ninodes && r + |chunk| <= BSIZE
    requires bn < MAXFILE && 0 < BlockOf(s, i, bn) < g.size
    ensures Keeps(g, s, Filled(s, i, bn, r, chunk), i, bn * 512 + r, |chunk|)
  {
    hide BlockOf, ByteAt, Refs, Bits, Patch;
    var t, o := Filled(s, i, bn, r, chunk), bn * 512 + r;
    forall m, c, q | 0 <= m < g.ninodes && 0 <= c < MAXFILE && 0 <= q < BSIZE
      ensures KeepsByte(s, t, i, o, |chunk|, m, c, q)
    {
      if BlockOf(s, m, c) != 0 {
        FilledByte(g, s, i, bn, r, chunk, m, c, q);
      }
    }
  }

  lemma {:induction false} FilledAccounted(g: Geo, s: FS, i: nat, bn: nat, r: nat, chunk: seq<byte>)
    requires Accounted(g, s) && i < g.ninodes && r + |chunk| <= BSIZE
    requires bn < MAXFILE && 0 < BlockOf(s, i, bn) < g.size
    ensures Accounted(g, Filled(s, i, bn, r, chunk)) && InodesStay(g, s, Filled(s, i, bn, r, chunk), i)
    ensures BlockOf(Filled(s, i, bn, r, chunk), i, bn) == BlockOf(s, i, bn)
  {
    hide Patch, Slot, Refs;
    var b := BlockOf(s, i, bn);
    WriteAccounts(g, s, i, bn, Patch(s.disk[b], r, chunk));
    SameAccounted(g, s, Filled(s, i, bn, r, chunk));
    BlockOwned(g, s, i, bn);
    ExtendsRefl(g, s, i);
  }

  lemma {:induction false} KeepsTrans(g: Geo, s: FS, t: FS, u: FS, i: nat, o: nat, k: nat)
    requires Shape(g, s) && Shape(g, t) && FilesStay(g, s, t) && Keeps(g, t, u, i, o, k)
    ensures Keeps(g, s, u, i, o, k)
  {
    hide BlockOf, Data;
    forall m, bn, r | 0 <= m < g.ninodes && 0 <= bn < MAXFILE && 0 <= r < BSIZE
      ensures KeepsByte(s, u, i, o, k, m, bn, r)
    {
      if BlockOf(s, m, bn) != 0 {
        assert BlockOf(t, m, bn) == BlockOf(s, m, bn) && Data(t, m, bn) == Data(s, m, bn);
        assert KeepsByte(t, u, i, o, k, m, bn, r);
      }
    }
  }

  lemma {:induction false} InodesStayTrans(g: Geo, s: FS, t: FS, u: FS, i: nat)
    requires Extends(g, s, t, i) && InodesStay(g, t, u, i)
    ensures InodesStay(g, s, u, i)
  {
  }

  /** bmap, then memmove into the block. */
  lemma {:induction false} BmapThenFill(g: Geo, s: FS, t: FS, i: nat, bn: nat, r: nat, chunk: seq<byte>)
    requires Accounted(g, t) && Extends(g, s, t, i) && i < g.ninodes && r + |chunk| <= BSIZE
    requires bn < MAXFILE && BlockOf(t, i, bn) != 0
    requires BlockOf(s, i, bn) != 0 ==> t == s
    ensures BlockOf(t, i, bn) < g.size
    ensures Step(g, s, Filled(t, i, bn, r, chunk), i, bn, r, chunk)
  {
    BlockOwned(g, t, i, bn);
    FilledAccounted(g, t, i, bn, r, chunk);
    FilledHolds(g, t, i, bn, r, chunk);
    FilledKeeps(g, t, i, bn, r, chunk);
    KeepsTrans(g, s, t, Filled(t, i, bn, r, chunk), i, bn * 512 + r, |chunk|);
    InodesStayTrans(g, s, t, Filled(t, i, bn, r, chunk), i);
  }

  // ------------------------------------------------------------------ all iterations

  /** The state of writei, which started in s, when it has written src[..tot] at offset off. */
  ghost predicate Progress(g: Geo, s: FS, t: FS, i: nat, off: nat, src: seq<byte>, tot: nat) {
    && Consistent(g, s) && Accounted(g, t) && InodesStay(g, s, t, i) && tot <= |src|
    && Holds(g, t, i, off, src[..tot]) && Keeps(g, s, t, i, off, tot)
    && (t.inodes == s.inodes || off + tot > s.inodes[i].size)
  }

  lemma {:induction false} ProgressStart(g: Geo, s: FS, i: nat, off: nat, src: seq<byte>)
    requires Consistent(g, s) && i < g.ninodes && off <= MAXBYTES
    ensures Progress(g, s, s, i, off, src, 0)
  {
    ExtendsRefl(g, s, i);
  }

  lemma {:induction false} HoldsStepAt(g: Geo, t: FS, u: FS, i: nat, off: nat, src: seq<byte>, tot: nat, k: nat,
                                       bn: nat, r: nat)
    requires tot + k <= |src| && Holds(g, t, i, off, src[..tot])
    requires Holds(g, u, i, off + tot, src[tot..tot + k]) && Keeps(g, t, u, i, off + tot, k)
    requires bn < MAXFILE && r < BSIZE
    ensures HoldsByte(u, i, off, src[..tot + k], bn, r)
  {
    hide BlockOf, ByteAt;
    assert HoldsByte(t, i, off, src[..tot], bn, r) && HoldsByte(u, i, off + tot, src[tot..tot + k], bn, r);
    assert KeepsByte(t, u, i, off + tot, k, i, bn, r);
  }

  lemma {:induction false} HoldsStep(g: Geo, t: FS, u: FS, i: nat, off: nat, src: seq<byte>, tot: nat, k: nat)
    requires tot + k <= |src| && Holds(g, t, i, off, src[..tot])
    requires Holds(g, u, i, off + tot, src[tot..tot + k]) && Keeps(g, t, u, i, off + tot, k)
    ensures Holds(g, u, i, off, src[..tot + k])
  {
    hide HoldsByte, KeepsByte;
    var all := src[..tot + k];
    forall bn, r | 0 <= bn < MAXFILE && 0 <= r < BSIZE
      ensures HoldsByte(u, i, off, all, bn, r)
    {
      HoldsStepAt(g, t, u, i, off, src, tot, k, bn, r);
    }
  }

  lemma {:induction false} KeepsStep(g: Geo, s: FS, t: FS, u: FS, i: nat, off: nat, tot: nat, k: nat)
    requires Keeps(g, s, t, i, off, tot) && Keeps(g, t, u, i, off + tot, k)
    ensures Keeps(g, s, u, i, off, tot + k)
  {
    hide BlockOf, ByteAt;
    var n := tot + k;
    forall m, bn, r | 0 <= m < g.ninodes && 0 <= bn < MAXFILE && 0 <= r < BSIZE
      ensures KeepsByte(s, u, i, off, n, m, bn, r)
    {
      assert KeepsByte(s, t, i, off, tot, m, bn, r) && KeepsByte(t, u, i, off + tot, k, m, bn, r);
    }
  }

  lemma {:induction false} InodesStayStep(g: Geo, s: FS, t: FS, u: FS, i: nat)
    requires InodesStay(g, s, t, i) && InodesStay(g, t, u, i)
    ensures InodesStay(g, s, u, i)
  {
  }

  /** Blocks below the old end of the file are there, so an iteration that allocates is beyond it. */
  lemma {:induction false} GrowStep(g: Geo, s: FS, t: FS, u: FS, i: nat, off: nat, tot: nat, bn: nat, k: nat)
    requires Consistent(g, s) && Keeps(g, s, t, i, off, tot) && i < g.ninodes && 0 < k
    requires t.inodes == s.inodes || off + tot > s.inodes[i].size
    requires bn < MAXFILE && bn * 512 <= off + tot && (BlockOf(t, i, bn) != 0 ==> u.inodes == t.inodes)
    ensures u.inodes == s.inodes || off + tot + k > s.inodes[i].size
  {
    if off + tot < s.inodes[i].size {
      MappedBelowSize(g, s, i, bn);
      assert KeepsByte(s, t, i, off, tot, i, bn, 0);
    }
  }

  lemma {:induction false} ProgressStep(g: Geo, s: FS, t: FS, u: FS, i: nat, off: nat, src: seq<byte>, tot: nat,
                                        bn: nat, r: nat, k: nat)
    requires Progress(g, s, t, i, off, src, tot) && tot + k <= |src| && 0 < k && off + tot == bn * 512 + r
    requires Step(g, t, u, i, bn, r, src[tot..tot + k])
    ensures Progress(g, s, u, i, off, src, tot + k)
  {
    hide Slot, Refs, Bits, Holds, Keeps, NoHoles, Fits;
    HoldsStep(g, t, u, i, off, src, tot, k);
    KeepsStep(g, s, t, u, i, off, tot, k);
    InodesStayStep(g, s, t, u, i);
    GrowStep(g, s, t, u, i, off, tot, bn, k);
  }

  // ------------------------------------------------------------------ the end of writei

  ghost predicate AllSynced(g: Geo, s: FS)
    requires Shape(g, s) && g.Valid()
  {
    forall m :: 0 <= m < g.ninodes ==> Synced(g, s, m)
  }

  /** c with src written over it at offset off, which may be the end. */
  function Splice(c: seq<byte>, off: nat, src: seq<byte>): (r: seq<byte>)
    requires off <= |c|
    ensures |r| == if off + |src| > |c| then off + |src| else |c|
  {
    c[..off] + src + if off + |src| <= |c| then c[off + |src|..] else []
  }

  function Resized(s: FS, i: nat, size: nat): FS
    requires i < |s.inodes|
  {
    s.(inodes := s.inodes[i := s.inodes[i].(size := size)])
  }

  lemma {:induction false} ResizedAccounts(g: Geo, s: FS, i: nat, size: nat)
    requires g.Valid() && Shape(g, s) && i < g.ninodes && size <= MAXBYTES
    ensures SameAccounts(g, s, Resized(s, i, size))
  {
    var t := Resized(s, i, size);
    forall m, k | 0 <= m < g.ninodes && 0 <= k < NSLOT
      ensures Slot(t, m, k) == Slot(s, m, k)
    {
      SlotFrame(g, s, t, m, k);
    }
  }

  /** The end of writei: ip->size and iupdate if the file has grown. */
  function Finished(g: Geo, t: FS, i: nat, end: nat): FS
    requires g.Valid() && Shape(g, t) && i < g.ninodes && end <= MAXBYTES
  {
    if end > t.inodes[i].size then Updated(g, Resized(t, i, end), i) else t
  }

  /** Finishing changes no block of any file, and keeps the accounts. */
  lemma {:induction false} FinishedFiles(g: Geo, t: FS, i: nat, end: nat)
    requires Accounted(g, t) && i < g.ninodes && end <= MAXBYTES
    ensures var u := Finished(g, t, i, end); Accounted(g, u) && FilesStay(g, t, u)
  {
    if end > t.inodes[i].size {
      var r := Resized(t, i, end);
      ResizedAccounts(g, t, i, end);
      SameAccounted(g, t, r);
      UpdatedAccounts(g, r, i);
      SameAccounted(g, r, Updated(g, r, i));
      UpdatedFiles(g, r, i);
      FilesStayResized(g, t, i, end);
    }
  }

  lemma {:induction false} FilesStayResized(g: Geo, t: FS, i: nat, end: nat)
    requires Accounted(g, t) && i < g.ninodes && end <= MAXBYTES
    requires var r := Resized(t, i, end); Shape(g, r) && FilesStay(g, r, Updated(g, r, i)) && SameAccounts(g, t, r)
    ensures FilesStay(g, t, Updated(g, Resized(t, i, end), i))
  {
    var r := Resized(t, i, end);
    forall m, bn | 0 <= m < g.ninodes && 0 <= bn < MAXFILE && BlockOf(t, m, bn) != 0
      ensures BlockOf(Updated(g, r, i), m, bn) == BlockOf(t, m, bn) && Data(Updated(g, r, i), m, bn) == Data(t, m, bn)
    {
      assert BlockOf(r, m, bn) == BlockOf(t, m, bn);
    }
  }

  /** u is t with nothing but sizes and disk inodes changed; file i now ends at or behind `end`. */
  ghost predicate Ends(g: Geo, s: FS, t: FS, u: FS, i: nat, end: nat) {
    && Shape(g, s) && Shape(g, t) && Shape(g, u) && i < g.ninodes && FilesStay(g, t, u)
    && forall m :: 0 <= m < g.ninodes ==>
         u.inodes[m].size == if m == i && end > s.inodes[m].size then end else s.inodes[m].size
  }

  lemma {:induction false} FinishedEnds(g: Geo, s: FS, t: FS, i: nat, end: nat)
    requires Accounted(g, t) && InodesStay(g, s, t, i) && end <= MAXBYTES
    ensures var u := Finished(g, t, i, end);
            Ends(g, s, t, u, i, end) && forall m :: 0 <= m < g.ninodes && m != i ==> u.inodes[m] == s.inodes[m]
  {
    FinishedFiles(g, t, i, end);
  }

  /** No holes afterwards: new blocks below the new size have just been written. */
  lemma {:induction false} EndsNoHoles(g: Geo, s: FS, t: FS, u: FS, i: nat, off: nat, src: seq<byte>)
    requires Consistent(g, s) && Holds(g, t, i, off, src) && Keeps(g, s, t, i, off, |src|)
    requires Ends(g, s, t, u, i, off + |src|) && off <= s.inodes[i].size
    ensures NoHoles(g, u)
  {
    forall m, bn | 0 <= m < g.ninodes && 0 <= bn < MAXFILE && bn * 512 < u.inodes[m].size
      ensures BlockOf(u, m, bn) != 0
    {
      if bn * 512 < s.inodes[m].size {
        assert BlockOf(s, m, bn) != 0 && KeepsByte(s, t, i, off, |src|, m, bn, 0);
      } else {
        assert HoldsByte(t, i, off, src, bn, 0);
      }
      assert BlockOf(t, m, bn) != 0;
    }
  }

  lemma {:induction false} EndsByte(g: Geo, s: FS, t: FS, u: FS, i: nat, off: nat, src: seq<byte>, m: nat, x: nat)
    requires Consistent(g, s) && Holds(g, t, i, off, src) && Keeps(g, s, t, i, off, |src|)
    requires Ends(g, s, t, u, i, off + |src|) && off <= s.inodes[i].size
    requires m < g.ninodes && x < u.inodes[m].size
    ensures x < MAXBYTES
    ensures FileByte(u, m, x) == if m == i && off <= x < off + |src| then src[x - off] else FileByte(s, m, x)
  {
    var bn, r := x / 512, x % 512;
    if m == i && off <= x < off + |src| {
      assert HoldsByte(t, i, off, src, bn, r);
    } else {
      MappedBelowSize(g, s, m, bn);
      assert KeepsByte(s, t, i, off, |src|, m, bn, r);
    }
    assert Data(u, m, bn) == Data(t, m, bn);
  }

  lemma {:induction false} SplicedContents(g: Geo, s: FS, t: FS, u: FS, i: nat, off: nat, src: seq<byte>)
    requires Consistent(g, s) && Holds(g, t, i, off, src) && Keeps(g, s, t, i, off, |src|)
    requires Ends(g, s, t, u, i, off + |src|) && off <= s.inodes[i].size
    ensures Contents(g, u, i) == Splice(Contents(g, s, i), off, src)
  {
    var c, d := Contents(g, u, i), Splice(Contents(g, s, i), off, src);
    forall x | 0 <= x < |c|
      ensures c[x] == d[x]
    {
      EndsByte(g, s, t, u, i, off, src, i, x);
      SpliceAt(Contents(g, s, i), off, src, x);
    }
  }

  lemma {:induction false} SpliceAt(c: seq<byte>, off: nat, src: seq<byte>, x: nat)
    requires off <= |c| && x < |Splice(c, off, src)|
    ensures Splice(c, off, src)[x] == if off <= x < off + |src| then src[x - off] else c[x]
  {
  }

  lemma {:induction false} OtherContents(g: Geo, s: FS, t: FS, u: FS, i: nat, off: nat, src: seq<byte>, m: nat)
    requires Consistent(g, s) && Holds(g, t, i, off, src) && Keeps(g, s, t, i, off, |src|)
    requires Ends(g, s, t, u, i, off + |src|) && off <= s.inodes[i].size && m < g.ninodes && m != i
    ensures Contents(g, u, m) == Contents(g, s, m)
  {
    forall x | 0 <= x < s.inodes[m].size
      ensures FileByte(u, m, x) == FileByte(s, m, x)
    {
      EndsByte(g, s, t, u, i, off, src, m, x);
    }
  }

  lemma {:induction false} FinishedSyncedAt(g: Geo, s: FS, t: FS, i: nat, end: nat, m: nat)
    requires InodesStay(g, s, t, i) && end <= MAXBYTES && m < g.ninodes && Synced(g, s, m)
    requires t.inodes == s.inodes || end > s.inodes[i].size
    ensures Synced(g, Finished(g, t, i, end), m)
  {
    if end > t.inodes[i].size {
      UpdatedSynced(g, Resized(t, i, end), i, m);
      if m != i {
        SyncedFrame(g, s, Resized(t, i, end), m);
      }
    } else {
      SyncedFrame(g, s, t, m);
    }
  }

  /** If the in-memory inode changed, it has been written to disk. */
  lemma {:induction false} FinishedSynced(g: Geo, s: FS, t: FS, i: nat, end: nat)
    requires InodesStay(g, s, t, i) && AllSynced(g, s) && end <= MAXBYTES
    requires t.inodes == s.inodes || end > s.inodes[i].size
    ensures AllSynced(g, Finished(g, t, i, end))
  {
    forall m | 0 <= m < g.ninodes
      ensures Synced(g, Finished(g, t, i, end), m)
    {
      FinishedSyncedAt(g, s, t, i, end, m);
    }
  }

  /** What the end of writei comes to. */
  ghost predicate Closed(g: Geo, s: FS, t: FS, u: FS, i: nat, end: nat) {
    && Accounted(g, u) && AllSynced(g, u) && Ends(g, s, t, u, i, end)
    && u.inodes[i] == s.inodes[i].(size := u.inodes[i].size, addrs := t.inodes[i].addrs)
    && forall m :: 0 <= m < g.ninodes && m != i ==> u.inodes[m] == s.inodes[m]
  }

  lemma {:induction false} FinishedClosed(g: Geo, s: FS, t: FS, i: nat, end: nat)
    requires Accounted(g, t) && InodesStay(g, s, t, i) && AllSynced(g, s) && end <= MAXBYTES
    requires t.inodes == s.inodes || end > s.inodes[i].size
    ensures Closed(g, s, t, Finished(g, t, i, end), i, end)
  {
    FinishedFiles(g, t, i, end);
    FinishedSynced(g, s, t, i, end);
    FinishedEnds(g, s, t, i, end);
  }

  /** File i is spliced; every other file keeps its inode and its bytes. */
  ghost predicate Wrote(g: Geo, s: FS, u: FS, i: nat, off: nat, src: seq<byte>)
    requires Shape(g, s) && Shape(g, u) && NoHoles(g, s) && NoHoles(g, u)
  {
    && i < g.ninodes && off <= s.inodes[i].size
    && Contents(g, u, i) == Splice(Contents(g, s, i), off, src)
    && u.inodes[i] == s.inodes[i].(size := u.inodes[i].size, addrs := u.inodes[i].addrs)
    && forall m :: 0 <= m < g.ninodes && m != i ==>
         u.inodes[m] == s.inodes[m] && Contents(g, u, m) == Contents(g, s, m)
  }

  lemma {:induction false} EndsWrote(g: Geo, s: FS, t: FS, u: FS, i: nat, off: nat, src: seq<byte>)
    requires Consistent(g, s) && Holds(g, t, i, off, src) && Keeps(g, s, t, i, off, |src|)
    requires Ends(g, s, t, u, i, off + |src|) && off <= s.inodes[i].size
    requires forall m :: 0 <= m < g.ninodes && m != i ==> u.inodes[m] == s.inodes[m]
    requires u.inodes[i] == s.inodes[i].(size := u.inodes[i].size, addrs := u.inodes[i].addrs)
    ensures NoHoles(g, u) && Wrote(g, s, u, i, off, src)
  {
    EndsNoHoles(g, s, t, u, i, off, src);
    SplicedContents(g, s, t, u, i, off, src);
    forall m | 0 <= m < g.ninodes && m != i
      ensures Contents(g, u, m) == Contents(g, s, m)
    {
      OtherContents(g, s, t, u, i, off, src, m);
    }
  }

  lemma {:induction false} SpliceTwice(c: seq<byte>, off: nat, a: seq<byte>, b: seq<byte>)
    requires off <= |c|
    ensures Splice(Splice(c, off, a), off + |a|, b) == Splice(c, off, a + b)
  {
    var d, e := Splice(Splice(c, off, a), off + |a|, b), Splice(c, off, a + b);
    forall x | 0 <= x < |e|
      ensures d[x] == e[x]
    {
      SpliceAt(Splice(c, off, a), off + |a|, b, x);
      SpliceAt(c, off, a + b, x);
      if x < |Splice(c, off, a)| {
        SpliceAt(c, off, a, x);
      }
    }
  }

  /** Two writes next to each other are one. */
  lemma {:induction false} WroteTwice(g: Geo, s: FS, t: FS, u: FS, i: nat, off: nat, a: seq<byte>, b: seq<byte>)
    requires Shape(g, s) && Shape(g, t) && Shape(g, u) && NoHoles(g, s) && NoHoles(g, t) && NoHoles(g, u)
    requires Wrote(g, s, t, i, off, a) && Wrote(g, t, u, i, off + |a|, b)
    ensures Wrote(g, s, u, i, off, a + b)
  {
    hide Splice, Slot;
    SpliceTwice(Contents(g, s, i), off, a, b);
  }

  // ------------------------------------------------------------------ what writei logs

  /** b is a sector that a call of bmap for block bn of file i may pass to log_write: the block it
      returns, or its bitmap block; behind the direct blocks also the indirect block, and the bitmap
      block of that if it is new. */
  predicate BmapLogs(g: Geo, s: FS, t: FS, i: nat, bn: nat, b: nat)
    requires Shape(g, s) && Shape(g, t) && i < g.ninodes && bn < MAXFILE
  {
    var taken, a := BlockOf(t, i, bn), t.inodes[i].addrs[NDIRECT];
    && BlockOf(s, i, bn) == 0
    && (|| b == taken
        || b == g.BBlock(taken)
        || (bn >= NDIRECT && b == a)
        || (bn >= NDIRECT && s.inodes[i].addrs[NDIRECT] == 0 && b == g.BBlock(a)))
  }

  /** What an iteration adds to the logged sectors. */
  predicate StepLogs(g: Geo, s: FS, t: FS, i: nat, bn: nat, b: nat)
    requires Shape(g, s) && Shape(g, t) && i < g.ninodes && bn < MAXFILE
  {
    BmapLogs(g, s, t, i, bn, b) || b == BlockOf(t, i, bn)
  }

  lemma {:induction false} FillLogs(g: Geo, s: FS, t: FS, i: nat, bn: nat, r: nat, chunk: seq<byte>)
    requires Accounted(g, t) && Shape(g, s) && i < g.ninodes && r + |chunk| <= BSIZE
    requires bn < MAXFILE && 0 < BlockOf(t, i, bn) < g.size
    ensures var u := Filled(t, i, bn, r, chunk);
            && Shape(g, u) && BlockOf(u, i, bn) == BlockOf(t, i, bn)
            && forall b :: BmapLogs(g, s, t, i, bn, b) ==> BmapLogs(g, s, u, i, bn, b)
  {
    WriteAccounts(g, t, i, bn, Patch(t.disk[BlockOf(t, i, bn)], r, chunk));
  }

  /** How many blocks n bytes fall into that start at offset r of a block. */
  function Touched(r: nat, n: nat): nat
    requires r < 512
    decreases n
  {
    if n == 0 then 0 else if n <= 512 - r then 1 else 1 + Touched(0, n - (512 - r))
  }

  lemma {:induction false} TouchedIs(r: nat, n: nat)
    requires r < 512
    ensures Touched(r, n) == if n == 0 then 0 else (r + n + 511) / 512
    decreases n
  {
    if n > 512 - r {
      TouchedIs(0, n - (512 - r));
    }
  }

  /** One more chunk is one more block, if the bytes so far end at the end of a block. */
  lemma {:induction false} TouchedStep(r: nat, tot: nat, q: nat, k: nat)
    requires r < 512 && 0 < k <= 512
    requires if tot == 0 then r + k <= 512 else r + tot == 512 * q
    ensures Touched(r, tot + k) == Touched(r, tot) + 1
    decreases tot
  {
    if tot > 512 - r {
      TouchedStep(0, tot - (512 - r), q - 1, k);
    }
  }

  /** Data blocks and bitmap blocks that writei has logged so far. */
  datatype Tally = Tally(data: set<nat>, maps: set<nat>)

  predicate IsIndirect(s: FS, i: nat, b: nat)
    requires i < |s.inodes| && |s.inodes[i].addrs| == NDIRECT + 1
  {
    b != 0 && b == s.inodes[i].addrs[NDIRECT]
  }

  /** What writei has logged for the first tot bytes at offset r of a block: a data block for each
      block touched, a bitmap block for each new one, and the indirect block. A first block that is
      not written from its start is not new. */
  ghost predicate Tallied(g: Geo, s: FS, t: FS, i: nat, r: nat, tot: nat, base: set<nat>, logged: set<nat>, c: Tally)
    requires Shape(g, s) && Shape(g, t) && i < g.ninodes && r < 512
  {
    && (forall b :: b in logged ==> b in base || b in c.data || b in c.maps || IsIndirect(t, i, b))
    && |c.data| <= Touched(r, tot)
    && |c.maps| <= Touched(r, tot) - (if tot > 0 && r > 0 then 1 else 0)
                   + (if s.inodes[i].addrs[NDIRECT] == 0 && t.inodes[i].addrs[NDIRECT] != 0 then 1 else 0)
  }

  function Count(g: Geo, s: FS, t: FS, i: nat, bn: nat, c: Tally): Tally
    requires Shape(g, s) && Shape(g, t) && i < g.ninodes && bn < MAXFILE
  {
    var b, a := BlockOf(t, i, bn), t.inodes[i].addrs[NDIRECT];
    Tally(c.data + {b},
          if BlockOf(s, i, bn) != 0 then c.maps
          else c.maps + {g.BBlock(b)} + if bn < NDIRECT || s.inodes[i].addrs[NDIRECT] != 0 then {} else {g.BBlock(a)})
  }

  lemma {:induction false} AddOne<T>(a: set<T>, x: T)
    ensures |a + {x}| <= |a| + 1
  {
    if x in a {
      assert a + {x} == a;
    }
  }

  /** The counts after one more iteration. */
  lemma {:induction false} CountSizes(g: Geo, t: FS, u: FS, i: nat, bn: nat, c: Tally)
    requires Shape(g, t) && Shape(g, u) && i < g.ninodes && bn < MAXFILE
    ensures var d := Count(g, t, u, i, bn, c);
            && |d.data| <= |c.data| + 1
            && |d.maps| <= |c.maps| + (if BlockOf(t, i, bn) != 0 then 0 else 1)
                         + (if BlockOf(t, i, bn) != 0 || bn < NDIRECT || t.inodes[i].addrs[NDIRECT] != 0 then 0 else 1)
  {
    var b, a := BlockOf(u, i, bn), u.inodes[i].addrs[NDIRECT];
    AddOne(c.data, b);
    AddOne(c.maps, g.BBlock(b));
    AddOne(c.maps + {g.BBlock(b)}, g.BBlock(a));
  }

  lemma {:induction false} TallySets(g: Geo, t: FS, u: FS, i: nat, bn: nat, c: Tally, b: nat)
    requires Shape(g, t) && Shape(g, u) && i < g.ninodes && bn < MAXFILE
    requires bn >= NDIRECT ==> u.inodes[i].addrs[NDIRECT] != 0
    requires StepLogs(g, t, u, i, bn, b) || b in c.data || b in c.maps
    ensures var d := Count(g, t, u, i, bn, c); b in d.data || b in d.maps || IsIndirect(u, i, b)
  {
  }

  /** tot bytes at offset r of a block end at the end of a block, or are none. */
  ghost predicate Whole(r: nat, tot: nat, q: nat) {
    r < 512 && (tot > 0 ==> r + tot == 512 * q)
  }

  lemma {:induction false} TallyStep(g: Geo, s: FS, t: FS, u: FS, i: nat, r: nat, tot: nat, q: nat, bn: nat, k: nat,
                                     base: set<nat>, before: set<nat>, logged: set<nat>, c: Tally)
    requires Shape(g, s) && Shape(g, t) && Shape(g, u) && i < g.ninodes && bn < MAXFILE
    requires Whole(r, tot, q) && 0 < k <= 512 && (tot == 0 ==> r + k <= 512)
    requires tot == 0 && r > 0 ==> BlockOf(t, i, bn) != 0
    requires s.inodes[i].addrs[NDIRECT] != 0 ==> t.inodes[i].addrs[NDIRECT] == s.inodes[i].addrs[NDIRECT]
    requires t.inodes[i].addrs[NDIRECT] != 0 ==> u.inodes[i].addrs[NDIRECT] == t.inodes[i].addrs[NDIRECT]
    requires bn >= NDIRECT ==> u.inodes[i].addrs[NDIRECT] != 0
    requires Tallied(g, s, t, i, r, tot, base, before, c)
    requires forall b :: b in logged ==> b in before || StepLogs(g, t, u, i, bn, b)
    ensures Tallied(g, s, u, i, r, tot + k, base, logged, Count(g, t, u, i, bn, c))
  {
    TouchedStep(r, tot, q, k);
    CountSizes(g, t, u, i, bn, c);
    var d := Count(g, t, u, i, bn, c);
    forall b | b in logged
      ensures b in base || b in d.data || b in d.maps || IsIndirect(u, i, b)
    {
      if StepLogs(g, t, u, i, bn, b) || b in c.data || b in c.maps {
        TallySets(g, t, u, i, bn, c, b);
      }
    }
  }

  /** The loop of writei when it has written src[..tot]; r is off % BSIZE. */
  ghost predicate Writing(g: Geo, s: FS, t: FS, i: nat, off: nat, src: seq<byte>, r: nat, tot: nat,
                          base: set<nat>, logged: set<nat>, c: Tally) {
    && Progress(g, s, t, i, off, src, tot) && r < 512 && Tallied(g, s, t, i, r, tot, base, logged, c)
    && (tot == 0 ==> t == s)
  }

  lemma {:induction false} WritingStart(g: Geo, s: FS, i: nat, off: nat, src: seq<byte>, r: nat, base: set<nat>)
    requires Consistent(g, s) && i < g.ninodes && off <= MAXBYTES && r < 512
    ensures Writing(g, s, s, i, off, src, r, 0, base, base, Tally({}, {}))
  {
    ProgressStart(g, s, i, off, src);
  }

  /** One iteration of writei, for its effect and for its tally. */
  lemma {:induction false} WritingStep(g: Geo, s: FS, t: FS, u: FS, i: nat, off: nat, src: seq<byte>, r: nat, tot: nat,
                                       q: nat, bn: nat, o: nat, k: nat,
                                       base: set<nat>, before: set<nat>, logged: set<nat>, c: Tally) returns (d: Tally)
    requires Writing(g, s, t, i, off, src, r, tot, base, before, c)
    requires Whole(r, tot, q) && off + tot == bn * 512 + o && (tot == 0 ==> o == r)
    requires 0 < k && o + k <= 512 && tot + k <= |src| && off <= s.inodes[i].size
    requires Step(g, t, u, i, bn, o, src[tot..tot + k])
    requires forall b :: b in logged ==> b in before || StepLogs(g, t, u, i, bn, b)
    ensures Writing(g, s, u, i, off, src, r, tot + k, base, logged, d)
  {
    ProgressStep(g, s, t, u, i, off, src, tot, bn, o, k);
    if tot == 0 && r > 0 {
      MappedBelowSize(g, s, i, bn);
    }
    TallyStep(g, s, t, u, i, r, tot, q, bn, k, base, before, logged, c);
    d := Count(g, t, u, i, bn, c);
  }

  /** Everything a call of writei logs: at most Touched data blocks, as many bitmap blocks (one
      less if the write starts inside a block, one more for a new indirect block), the indirect
      block and the inode block. */
  ghost predicate TalliedWrite(g: Geo, u: FS, i: nat, r: nat, n: nat, base: set<nat>, logged: set<nat>, c: Tally)
    requires Shape(g, u) && i < g.ninodes && r < 512
  {
    && (forall b :: b in logged ==>
          b in base || b in c.data || b in c.maps || b == u.inodes[i].addrs[NDIRECT] || b == g.IBlock(i))
    && |c.data| <= Touched(r, n)
    && |c.maps| <= Touched(r, n) - (if n > 0 && r > 0 then 1 else 0) + 1
  }

  lemma {:induction false} TallyDone(g: Geo, s: FS, t: FS, u: FS, i: nat, r: nat, n: nat,
                                     base: set<nat>, before: set<nat>, logged: set<nat>, c: Tally)
    requires Shape(g, s) && Shape(g, t) && Shape(g, u) && i < g.ninodes && u.inodes[i].addrs == t.inodes[i].addrs
    requires r < 512 && Tallied(g, s, t, i, r, n, base, before, c)
    requires forall b :: b in logged ==> b in before || b == g.IBlock(i)
    ensures TalliedWrite(g, u, i, r, n, base, logged, c)
  {
  }

  lemma {:induction false} Within<T>(a: set<T>, b: set<T>)
    requires forall x :: x in a ==> x in b
    ensures |a| <= |b|
  {
    if a != {} {
      var x :| x in a;
      Within(a - {x}, b - {x});
    }
  }

  lemma {:induction false} UnionSize<T>(a: set<T>, b: set<T>)
    ensures |a + b| <= |a| + |b|
  {
    if x :| x in b {
      UnionSize(a, b - {x});
      AddOne(a + (b - {x}), x);
      assert a + (b - {x}) + {x} == a + b;
    } else {
      assert a + b == a;
    }
  }

  lemma {:induction false} LoopSize(g: Geo, s: FS, t: FS, i: nat, r: nat, tot: nat, logged: set<nat>, c: Tally)
    requires Shape(g, s) && Shape(g, t) && i < g.ninodes && r < 512 && Tallied(g, s, t, i, r, tot, {}, logged, c)
    ensures |logged| <= |c.data| + |c.maps| + 1
  {
    var rest := {t.inodes[i].addrs[NDIRECT]};
    UnionSize(c.data, c.maps);
    UnionSize(c.data + c.maps, rest);
    Within(logged, c.data + c.maps + rest);
  }

  /** The loop of writei logs at most 29 sectors for at most 13 blocks' worth of bytes, and at most
      27 before its last iteration. */
  lemma {:induction false} LoopBound(g: Geo, s: FS, t: FS, i: nat, r: nat, tot: nat, q: nat, n: nat,
                                     logged: set<nat>, c: Tally)
    requires Shape(g, s) && Shape(g, t) && i < g.ninodes && r < 512 && tot <= n <= 13 * 512
    requires Tallied(g, s, t, i, r, tot, {}, logged, c) && (tot < n ==> Whole(r, tot, q))
    ensures |logged| <= if tot < n then 27 else 29
  {
    TouchedIs(r, tot);
    LoopSize(g, s, t, i, r, tot, logged, c);
  }

  /** A write of at most 13 blocks' worth of bytes, at any offset, logs at most 30 sectors. */
  lemma {:induction false} ChunkBound(g: Geo, u: FS, i: nat, r: nat, n: nat, logged: set<nat>, c: Tally)
    requires Shape(g, u) && i < g.ninodes && r < 512 && n <= 13 * 512
    requires TalliedWrite(g, u, i, r, n, {}, logged, c)
    ensures |logged| <= 30
  {
    TouchedIs(r, n);
    var rest := {u.inodes[i].addrs[NDIRECT], g.IBlock(i)};
    AddOne({u.inodes[i].addrs[NDIRECT]}, g.IBlock(i));
    assert rest == {u.inodes[i].addrs[NDIRECT]} + {g.IBlock(i)};
    UnionSize(c.data, c.maps);
    UnionSize(c.data + c.maps, rest);
    Within(logged, c.data + c.maps + rest);
  }
}

/** Files as byte sequences over the blocks of FsState, and what each kind of block write does to
    them. */
module FsFiles {
  import opened Blocks
  import opened FsLayout
  import opened FsState

  const MAXBYTES := 71680      // MAXFILE * BSIZE

  /** The block number of the bn'th block of file i, 0 if it has none. */
  function BlockOf(s: FS, i: nat, bn: nat): nat
    requires i < |s.inodes| && |s.inodes[i].addrs| == NDIRECT + 1 && bn < MAXFILE
  {
    Slot(s, i, SlotOf(bn))
  }

  /** Every block below the size of a file is there. */
  ghost predicate NoHoles(g: Geo, s: FS)
    requires Shape(g, s)
  {
    && (forall i :: 0 <= i < g.ninodes ==> s.inodes[i].size <= MAXBYTES)
    && (forall i, bn :: 0 <= i < g.ninodes && 0 <= bn < MAXFILE && bn * 512 < s.inodes[i].size ==>
          BlockOf(s, i, bn) != 0)
  }

  /** The inode on disk is the one in memory. */
  predicate Synced(g: Geo, s: FS, i: nat)
    requires Shape(g, s) && g.Valid() && i < g.ninodes
  {
    InodeAt(s.disk[g.IBlock(i)], i % 8) == s.inodes[i]
  }

  ghost predicate Consistent(g: Geo, s: FS) {
    Accounted(g, s) && NoHoles(g, s)
  }

  /** The block that holds the bn'th block of file i. */
  function Data(s: FS, i: nat, bn: nat): Block
    requires i < |s.inodes| && |s.inodes[i].addrs| == NDIRECT + 1 && bn < MAXFILE
  {
    var b := BlockOf(s, i, bn);
    if b < |s.disk| then s.disk[b] else ZeroBlock()
  }

  /** Byte r of the bn'th block of file i. */
  function ByteAt(s: FS, i: nat, bn: nat, r: nat): byte
    requires i < |s.inodes| && |s.inodes[i].addrs| == NDIRECT + 1 && bn < MAXFILE && r < BSIZE
  {
    Data(s, i, bn).bytes[r]
  }

  function FileByte(s: FS, i: nat, x: nat): byte
    requires i < |s.inodes| && |s.inodes[i].addrs| == NDIRECT + 1 && x < MAXBYTES
  {
    ByteAt(s, i, x / 512, x % 512)
  }

  /** The first n bytes of a file. */
  function Bytes(s: FS, i: nat, n: nat): (r: seq<byte>)
    requires i < |s.inodes| && |s.inodes[i].addrs| == NDIRECT + 1 && n <= MAXBYTES
    ensures |r| == n && forall x :: 0 <= x < n ==> r[x] == FileByte(s, i, x)
  {
    if n == 0 then [] else Bytes(s, i, n - 1) + [FileByte(s, i, n - 1)]
  }

  /** The contents of a file. */
  function Contents(g: Geo, s: FS, i: nat): seq<byte>
    requires Shape(g, s) && i < g.ninodes && s.inodes[i].size <= MAXBYTES
  {
    Bytes(s, i, s.inodes[i].size)
  }

  // ------------------------------------------------------------------ frames

  lemma {:induction false} BlockOwned(g: Geo, s: FS, i: nat, bn: nat)
    requires Accounted(g, s) && i < g.ninodes && bn < MAXFILE && BlockOf(s, i, bn) != 0
    ensures var b := BlockOf(s, i, bn); g.IsData(b) && b in s.owner && s.owner[b] == Ref(i, SlotOf(bn))
  {
    assert Owned(g, s, BlockOf(s, i, bn), Ref(i, SlotOf(bn)));
  }

  /** No file loses a block, and no block of a file changes. */
  ghost predicate FilesStay(g: Geo, s: FS, t: FS)
    requires Shape(g, s) && Shape(g, t)
  {
    forall m, bn :: 0 <= m < g.ninodes && 0 <= bn < MAXFILE && BlockOf(s, m, bn) != 0 ==>
      BlockOf(t, m, bn) == BlockOf(s, m, bn) && Data(t, m, bn) == Data(s, m, bn)
  }

  lemma {:induction false} AttachInodeFiles(g: Geo, s: FS, i: nat, k: nat, b: nat)
    requires Accounted(g, s) && Available(g, s, b) && i < g.ninodes && k <= NDIRECT && Slot(s, i, k) == 0
    ensures FilesStay(g, s, AttachInode(g, s, i, k, b))
  {
    var t := AttachInode(g, s, i, k, b);
    AttachInodeIs(g, s, i, k, b);
    forall m, bn | 0 <= m < g.ninodes && 0 <= bn < MAXFILE && BlockOf(s, m, bn) != 0
      ensures BlockOf(t, m, bn) == BlockOf(s, m, bn) && Data(t, m, bn) == Data(s, m, bn)
    {
      BlockOwned(g, s, m, bn);
      TakenFrame(g, s.disk, b, BlockOf(s, m, bn));
    }
  }

  lemma {:induction false} AttachEntryData(g: Geo, s: FS, i: nat, j: nat, b: nat, c: nat)
    requires g.Valid() && Shape(g, s) && i < g.ninodes && j < NINDIRECT && g.IsData(b) && g.IsData(c) && c != b
    requires g.IsData(s.inodes[i].addrs[NDIRECT]) && s.inodes[i].addrs[NDIRECT] != c
    ensures AttachEntry(g, s, i, j, b).disk[c] == s.disk[c]
  {
    TakenFrame(g, s.disk, b, c);
  }

  lemma {:induction false} AttachEntryFile(g: Geo, s: FS, i: nat, j: nat, b: nat, m: nat, bn: nat)
    requires Accounted(g, s) && Available(g, s, b) && i < g.ninodes && j < NINDIRECT
    requires s.inodes[i].addrs[NDIRECT] != 0 && Slot(s, i, NDIRECT + 1 + j) == 0
    requires m < g.ninodes && bn < MAXFILE && BlockOf(s, m, bn) != 0
    ensures s.inodes[i].addrs[NDIRECT] < g.size
    ensures var t := AttachEntry(g, s, i, j, b);
            BlockOf(t, m, bn) == BlockOf(s, m, bn) && Data(t, m, bn) == Data(s, m, bn)
  {
    IndirectOwned(g, s, i);
    BlockOwned(g, s, m, bn);
    AttachEntrySlots(g, s, i, j, b, m, SlotOf(bn));
    AttachEntryData(g, s, i, j, b, BlockOf(s, m, bn));
  }

  lemma {:induction false} AttachEntryFiles(g: Geo, s: FS, i: nat, j: nat, b: nat)
    requires Accounted(g, s) && Available(g, s, b) && i < g.ninodes && j < NINDIRECT
    requires s.inodes[i].addrs[NDIRECT] != 0 && Slot(s, i, NDIRECT + 1 + j) == 0
    ensures s.inodes[i].addrs[NDIRECT] < g.size
    ensures FilesStay(g, s, AttachEntry(g, s, i, j, b))
  {
    IndirectOwned(g, s, i);
    var t := AttachEntry(g, s, i, j, b);
    forall m, bn | 0 <= m < g.ninodes && 0 <= bn < MAXFILE && BlockOf(s, m, bn) != 0
      ensures BlockOf(t, m, bn) == BlockOf(s, m, bn) && Data(t, m, bn) == Data(s, m, bn)
    {
      AttachEntryFile(g, s, i, j, b, m, bn);
    }
  }

  // ------------------------------------------------------------------ writing blocks in place

  lemma {:induction false} SlotFrame(g: Geo, s: FS, t: FS, m: nat, k: nat)
    requires Shape(g, s) && Shape(g, t) && m < g.ninodes && k < NSLOT
    requires t.inodes[m].addrs == s.inodes[m].addrs
    requires var a := s.inodes[m].addrs[NDIRECT]; 0 < a < g.size ==> t.disk[a] == s.disk[a]
    ensures Slot(t, m, k) == Slot(s, m, k)
  {
  }

  /** Same slots and bits, nothing allocated or freed. */
  ghost predicate SameAccounts(g: Geo, s: FS, t: FS) {
    && g.Valid() && Shape(g, s) && Shape(g, t) && t.owner == s.owner
    && (forall m, k :: 0 <= m < g.ninodes && 0 <= k < NSLOT ==> Slot(t, m, k) == Slot(s, m, k))
    && (forall c :: 0 <= c < g.size ==> (Bit(g, t.disk, c) <==> Bit(g, s.disk, c)))
  }

  lemma {:induction false} SameAccounted(g: Geo, s: FS, t: FS)
    requires Accounted(g, s) && SameAccounts(g, s, t)
    ensures Accounted(g, t)
  {
    forall c | c in t.owner
      ensures Owned(g, t, c, t.owner[c])
    {
      assert Owned(g, s, c, s.owner[c]);
    }
  }

  /** memmove of src into a block at offset o. */
  function Patch(b: Block, o: nat, src: seq<byte>): (r: Block)
    requires o + |src| <= BSIZE
    ensures forall k :: 0 <= k < BSIZE ==> r.bytes[k] == if o <= k < o + |src| then src[k - o] else b.bytes[k]
  {
    Sector(b.bytes[..o] + src + b.bytes[o + |src|..])
  }

  function WithBlock(s: FS, b: nat, x: Block): FS
    requires b < |s.disk|
  {
    s.(disk := s.disk[b := x])
  }

  lemma {:induction false} WriteAccounts(g: Geo, s: FS, i: nat, bn: nat, x: Block)
    requires Accounted(g, s) && i < g.ninodes && bn < MAXFILE && BlockOf(s, i, bn) != 0
    ensures BlockOf(s, i, bn) < g.size
    ensures SameAccounts(g, s, WithBlock(s, BlockOf(s, i, bn), x))
  {
    BlockOwned(g, s, i, bn);
    var b := BlockOf(s, i, bn);
    var t := WithBlock(s, b, x);
    forall m, k | 0 <= m < g.ninodes && 0 <= k < NSLOT
      ensures Slot(t, m, k) == Slot(s, m, k)
    {
      if s.inodes[m].addrs[NDIRECT] != 0 {
        IndirectOwned(g, s, m);
      }
      SlotFrame(g, s, t, m, k);
    }
    forall c | 0 <= c < g.size
      ensures Bit(g, t.disk, c) <==> Bit(g, s.disk, c)
    {
      BitFrame(g, s.disk, b, x, c);
    }
  }

  /** Writing the bn'th block of file i changes that block of that file only. */
  lemma {:induction false} WriteData(g: Geo, s: FS, i: nat, bn: nat, x: Block, m: nat, c: nat)
    requires Accounted(g, s) && i < g.ninodes && bn < MAXFILE && BlockOf(s, i, bn) != 0
    requires m < g.ninodes && c < MAXFILE && BlockOf(s, m, c) != 0
    ensures BlockOf(s, i, bn) < g.size
    ensures Data(WithBlock(s, BlockOf(s, i, bn), x), m, c) == if m == i && c == bn then x else Data(s, m, c)
  {
    hide Accounted, Slot, Refs;
    BlockOwned(g, s, i, bn);
    BlockOwned(g, s, m, c);
    WriteAccounts(g, s, i, bn, x);
  }

  // ------------------------------------------------------------------ iupdate

  function Updated(g: Geo, s: FS, i: nat): FS
    requires g.Valid() && Shape(g, s) && i < g.ninodes
  {
    WithBlock(s, g.IBlock(i), PutInode(s.disk[g.IBlock(i)], i % 8, s.inodes[i]))
  }

  lemma {:induction false} UpdatedAccounts(g: Geo, s: FS, i: nat)
    requires Accounted(g, s) && i < g.ninodes
    ensures SameAccounts(g, s, Updated(g, s, i))
  {
    var t := Updated(g, s, i);
    forall m, k | 0 <= m < g.ninodes && 0 <= k < NSLOT
      ensures Slot(t, m, k) == Slot(s, m, k)
    {
      if s.inodes[m].addrs[NDIRECT] != 0 {
        IndirectOwned(g, s, m);
      }
      SlotFrame(g, s, t, m, k);
    }
  }

  lemma {:induction false} UpdatedFiles(g: Geo, s: FS, i: nat)
    requires Accounted(g, s) && i < g.ninodes
    ensures FilesStay(g, s, Updated(g, s, i))
  {
    hide Accounted, PutInode, Refs;
    UpdatedAccounts(g, s, i);
    var t := Updated(g, s, i);
    forall m, bn | 0 <= m < g.ninodes && 0 <= bn < MAXFILE && BlockOf(s, m, bn) != 0
      ensures BlockOf(t, m, bn) == BlockOf(s, m, bn) && Data(t, m, bn) == Data(s, m, bn)
    {
      BlockOwned(g, s, m, bn);
    }
  }

  /** iupdate brings the inode on disk up to date and no other one. */
  lemma {:induction false} UpdatedSynced(g: Geo, s: FS, i: nat, m: nat)
    requires g.Valid() && Shape(g, s) && i < g.ninodes && m < g.ninodes
    ensures Synced(g, Updated(g, s, i), m) == (m == i || Synced(g, s, m))
  {
    InodeAtPutInode(s.disk[g.IBlock(i)], i % 8, s.inodes[i], m % 8);
  }

  /** Inodes on disk are not disturbed by changes elsewhere. */
  lemma {:induction false} SyncedFrame(g: Geo, s: FS, t: FS, m: nat)
    requires g.Valid() && Shape(g, s) && Shape(g, t) && m < g.ninodes
    requires t.inodes[m] == s.inodes[m] && t.disk[g.IBlock(m)] == s.disk[g.IBlock(m)]
    ensures Synced(g, t, m) == Synced(g, s, m)
  {
  }

  // ------------------------------------------------------------------ what bmap may do

  /** Only the block map of file i has grown: every block of every file stays, every inode but the
      addresses of inode i stays, in memory and on disk. */
  ghost predicate Extends(g: Geo, s: FS, t: FS, i: nat) {
    && g.Valid() && Shape(g, s) && Shape(g, t) && i < g.ninodes && FilesStay(g, s, t)
    && t.inodes == s.inodes[i := s.inodes[i].(addrs := t.inodes[i].addrs)]
    && (s.inodes[i].addrs[NDIRECT] != 0 ==> t.inodes[i].addrs[NDIRECT] == s.inodes[i].addrs[NDIRECT])
    && forall m :: 0 <= m < g.ninodes ==> t.disk[g.IBlock(m)] == s.disk[g.IBlock(m)]
  }

  lemma {:induction false} ExtendsRefl(g: Geo, s: FS, i: nat)
    requires g.Valid() && Shape(g, s) && i < g.ninodes
    ensures Extends(g, s, s, i)
  {
    assert s.inodes[i].(addrs := s.inodes[i].addrs) == s.inodes[i];
  }

  lemma {:induction false} ExtendsTrans(g: Geo, s: FS, t: FS, u: FS, i: nat)
    requires Extends(g, s, t, i) && Extends(g, t, u, i)
    ensures Extends(g, s, u, i)
  {
    forall m, bn | 0 <= m < g.ninodes && 0 <= bn < MAXFILE && BlockOf(s, m, bn) != 0
      ensures BlockOf(u, m, bn) == BlockOf(s, m, bn) && Data(u, m, bn) == Data(s, m, bn)
    {
      assert BlockOf(t, m, bn) == BlockOf(s, m, bn);
    }
  }

  lemma {:induction false} AttachInodeExtends(g: Geo, s: FS, i: nat, k: nat, b: nat)
    requires Accounted(g, s) && Available(g, s, b) && i < g.ninodes && k <= NDIRECT && Slot(s, i, k) == 0
    ensures var t := AttachInode(g, s, i, k, b);
            Accounted(g, t) && Extends(g, s, t, i) && Slot(t, i, k) == b && t.disk[b] == ZeroBlock()
  {
    AttachInodeIs(g, s, i, k, b);
    AttachAccounted(g, s, AttachInode(g, s, i, k, b), i, k, b);
    AttachInodeFiles(g, s, i, k, b);
  }

  lemma {:induction false} AttachEntryAccounted(g: Geo, s: FS, i: nat, j: nat, b: nat)
    requires Accounted(g, s) && Available(g, s, b) && i < g.ninodes && j < NINDIRECT
    requires s.inodes[i].addrs[NDIRECT] != 0 && Slot(s, i, NDIRECT + 1 + j) == 0
    ensures s.inodes[i].addrs[NDIRECT] < g.size
    ensures var t := AttachEntry(g, s, i, j, b); Accounted(g, t) && Slot(t, i, NDIRECT + 1 + j) == b
  {
    AttachEntryIs(g, s, i, j, b);
    AttachAccounted(g, s, AttachEntry(g, s, i, j, b), i, NDIRECT + 1 + j, b);
  }

  lemma {:induction false} AttachEntryBlocks(g: Geo, s: FS, i: nat, j: nat, b: nat, m: nat)
    requires g.Valid() && Shape(g, s) && i < g.ninodes && j < NINDIRECT && m < g.ninodes && g.IsData(b)
    requires g.IsData(s.inodes[i].addrs[NDIRECT]) && s.inodes[i].addrs[NDIRECT] != b
    ensures var t := AttachEntry(g, s, i, j, b);
            t.disk[g.IBlock(m)] == s.disk[g.IBlock(m)] && t.disk[b] == ZeroBlock()
  {
    TakenFrame(g, s.disk, b, g.IBlock(m));
  }

  lemma {:induction false} AttachEntryExtends(g: Geo, s: FS, i: nat, j: nat, b: nat)
    requires Accounted(g, s) && Available(g, s, b) && i < g.ninodes && j < NINDIRECT
    requires s.inodes[i].addrs[NDIRECT] != 0 && Slot(s, i, NDIRECT + 1 + j) == 0
    ensures s.inodes[i].addrs[NDIRECT] < g.size
    ensures var t := AttachEntry(g, s, i, j, b); Extends(g, s, t, i) && t.disk[b] == ZeroBlock()
  {
    IndirectOwned(g, s, i);
    AttachEntryFiles(g, s, i, j, b);
    AttachEntryBlocks(g, s, i, j, b, i);
    var t := AttachEntry(g, s, i, j, b);
    forall m | 0 <= m < g.ninodes
      ensures t.disk[g.IBlock(m)] == s.disk[g.IBlock(m)]
    {
      AttachEntryBlocks(g, s, i, j, b, m);
    }
    ExtendsRefl(g, s, i);
  }

  // ------------------------------------------------------------------ bytes of a chunk

  /** Offset x lies in block bn, at r. */
  lemma {:induction false} Split(x: nat, bn: nat, r: nat)
    requires x == bn * 512 + r && r < 512
    ensures x / 512 == bn && x % 512 == r
  {
  }

  /** A chunk that stays within one block reads from that block. */
  lemma {:induction false} ReadChunk(g: Geo, s: FS, i: nat, bn: nat, r: nat, k: nat)
    requires Shape(g, s) && i < g.ninodes && s.inodes[i].size <= MAXBYTES
    requires bn * 512 + r + k <= s.inodes[i].size && r + k <= BSIZE && k > 0
    requires 0 < BlockOf(s, i, bn) < g.size
    ensures var o := bn * 512 + r;
            Contents(g, s, i)[o..o + k] == s.disk[BlockOf(s, i, bn)].bytes[r..r + k]
  {
    hide BlockOf, FileByte, Bytes;
    var o := bn * 512 + r;
    var c, d := Contents(g, s, i)[o..o + k], s.disk[BlockOf(s, i, bn)].bytes[r..r + k];
    forall j | 0 <= j < k
      ensures c[j] == d[j]
    {
      ByteIn(s, i, bn, r + j);
      assert c[j] == FileByte(s, i, o + j);
    }
  }

  lemma {:induction false} ByteIn(s: FS, i: nat, bn: nat, r: nat)
    requires i < |s.inodes| && |s.inodes[i].addrs| == NDIRECT + 1 && r < BSIZE && bn < MAXFILE
    requires BlockOf(s, i, bn) < |s.disk|
    ensures FileByte(s, i, bn * 512 + r) == s.disk[BlockOf(s, i, bn)].bytes[r]
  {
    hide BlockOf;
    Split(bn * 512 + r, bn, r);
  }

  lemma {:induction false} SliceJoin(c: seq<byte>, a: nat, b: nat, d: nat)
    requires a <= b <= d <= |c|
    ensures c[a..d] == c[a..b] + c[b..d]
  {
  }

  /** A block with bytes below the size of a file is a block of the file. */
  lemma {:induction false} MappedBelowSize(g: Geo, s: FS, i: nat, bn: nat)
    requires Consistent(g, s) && i < g.ninodes && bn * 512 < s.inodes[i].size
    ensures bn < MAXFILE && 0 < BlockOf(s, i, bn) < g.size
  {
    BlockOwned(g, s, i, bn);
  }
}

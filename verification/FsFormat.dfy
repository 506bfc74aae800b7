/** File systems to start from: a formatted disk, a disk with one file, and the bitmap mkfs makes. */
module FsFormat {
  import opened Blocks
  import opened FsLayout
  import opened FsState
  import opened FsFiles
  import opened FsWrite

  const T_FILE := 2

  // ------------------------------------------------------------------ a formatted disk

  function NoInode(): Inode {
    Inode(0, 0, 0, 0, 0, [0, 0, 0, 0, 0, 0, 0, 0, 0, 0, 0, 0, 0])
  }

  lemma {:induction false} ZeroBits(k: nat)
    ensures !TestBit(0, k)
  {
    if k > 0 {
      ZeroBits(k - 1);
    }
  }

  lemma {:induction false} ZeroInodes(i: nat)
    requires i < IPB
    ensures InodeAt(ZeroBlock(), i) == NoInode()
  {
    hide Word;
    var ws := Words(ZeroBlock(), 16 * i, 16);
    forall k | 0 <= k < 16
      ensures ws[k] == 0
    {
      WordsAt(ZeroBlock(), 16 * i, 16, k);
      ZeroWords(16 * i + k);
    }
    assert ws[3..] == NoInode().addrs;
  }

  /** The blocks with the bits below n set that no file may use. */
  function Reserved(g: Geo, n: nat): (disk: seq<Block>)
    requires g.Valid() && n <= g.size
    ensures |disk| == g.size
  {
    if n == 0 then seq(g.size, _ => ZeroBlock())
    else if g.IsData(n - 1) then Reserved(g, n - 1)
    else Mark(g, Reserved(g, n - 1), n - 1, true)
  }

  lemma {:induction false} NoBits(g: Geo, disk: seq<Block>, c: nat)
    requires g.Valid() && |disk| == g.size && c < g.size
    requires disk[g.BBlock(c)] == ZeroBlock()
    ensures !Bit(g, disk, c)
  {
    ZeroBits(c % 4096 % 8);
  }

  lemma {:induction false} ReservedBit(g: Geo, n: nat, c: nat)
    requires g.Valid() && n <= g.size && c < g.size
    ensures Bit(g, Reserved(g, n), c) <==> c < n && !g.IsData(c)
  {
    hide Bit, Mark;
    if n == 0 {
      NoBits(g, Reserved(g, 0), c);
    } else {
      ReservedBit(g, n - 1, c);
      BitOfMark(g, Reserved(g, n - 1), n - 1, true, c);
    }
  }

  lemma {:induction false} ReservedFrame(g: Geo, n: nat, c: nat)
    requires g.Valid() && n <= g.size && c < g.ninodes / 8 + 3
    ensures Reserved(g, n)[c] == ZeroBlock()
  {
    if n > 0 {
      ReservedFrame(g, n - 1, c);
    }
  }

  function Formatted(g: Geo): FS
    requires g.Valid()
  {
    FS(Reserved(g, g.size), seq(g.ninodes, _ => NoInode()), map[])
  }

  /** A formatted disk satisfies all that the code keeps, and its files are empty. */
  lemma {:induction false} FormattedConsistent(g: Geo)
    requires g.Valid()
    ensures Consistent(g, Formatted(g)) && AllSynced(g, Formatted(g))
    ensures forall i :: 0 <= i < g.ninodes ==> Contents(g, Formatted(g), i) == []
  {
    hide Bit, InodeAt, Reserved;
    var s := Formatted(g);
    forall b | 0 <= b < g.size
      ensures Bit(g, s.disk, b) <==> !g.IsData(b) || b in s.owner
    {
      ReservedBit(g, g.size, b);
    }
    forall m | 0 <= m < g.ninodes
      ensures Synced(g, s, m)
    {
      ReservedFrame(g, g.size, g.IBlock(m));
      ZeroInodes(m % 8);
    }
  }

  // ------------------------------------------------------------------ a disk with one file

  /** Inode i is that of an empty file, as ialloc and create leave it, but not on disk yet. */
  function Typed(s: FS, i: nat): FS
    requires i < |s.inodes|
  {
    s.(inodes := s.inodes[i := s.inodes[i].(kind := T_FILE, nlink := 1)])
  }

  lemma {:induction false} TypedAccounts(g: Geo, s: FS, i: nat)
    requires g.Valid() && Shape(g, s) && i < g.ninodes
    ensures SameAccounts(g, s, Typed(s, i))
  {
    var t := Typed(s, i);
    forall m, k | 0 <= m < g.ninodes && 0 <= k < NSLOT
      ensures Slot(t, m, k) == Slot(s, m, k)
    {
      SlotFrame(g, s, t, m, k);
    }
  }

  /** A formatted disk with an empty file in inode i. */
  function Created(g: Geo, i: nat): (t: FS)
    requires g.Valid() && i < g.ninodes
    ensures Shape(g, t)
  {
    TypedShape(g, i);
    UpdatedShape(g, Typed(Formatted(g), i), i);
    Updated(g, Typed(Formatted(g), i), i)
  }

  lemma {:induction false} TypedShape(g: Geo, i: nat)
    requires g.Valid() && i < g.ninodes
    ensures |Formatted(g).inodes| == g.ninodes && Shape(g, Typed(Formatted(g), i))
  {
    hide Reserved, Fits;
    NoInodeFits();
  }

  lemma {:induction false} NoInodeFits()
    ensures Fits(NoInode()) && Fits(NoInode().(kind := T_FILE, nlink := 1))
  {
  }

  lemma {:induction false} UpdatedShape(g: Geo, s: FS, i: nat)
    requires g.Valid() && Shape(g, s) && i < g.ninodes
    ensures Shape(g, Updated(g, s, i))
  {
    hide PutInode;
  }

  lemma {:induction false} CreatedConsistent(g: Geo, i: nat)
    requires g.Valid() && i < g.ninodes
    ensures Consistent(g, Created(g, i)) && AllSynced(g, Created(g, i))
  {
    hide Formatted, Slot, Refs, Bits, Updated;
    FormattedConsistent(g);
    var s := Formatted(g);
    var t := Typed(s, i);
    FormattedSlots(g, i);
    TypedAccounts(g, s, i);
    SameAccounted(g, s, t);
    UpdatedAccounts(g, t, i);
    SameAccounted(g, t, Created(g, i));
    CreatedInodes(g, i);
    forall m | 0 <= m < g.ninodes
      ensures Synced(g, Created(g, i), m)
    {
      UpdatedSynced(g, t, i, m);
      if m != i {
        SyncedFrame(g, s, t, m);
      }
    }
  }

  lemma {:induction false} CreatedInodes(g: Geo, i: nat)
    requires g.Valid() && i < g.ninodes
    ensures var t := Created(g, i);
            && t.owner == map[] && t.inodes[i] == NoInode().(kind := T_FILE, nlink := 1)
            && (forall m :: 0 <= m < g.ninodes ==> t.inodes[m].size == 0)
            && (forall k :: 0 <= k < NDIRECT ==> Slot(t, i, k) == 0)
  {
  }

  /** Its first n direct blocks are the first n data blocks. */
  function Extended(g: Geo, i: nat, n: nat): (t: FS)
    requires g.Valid() && i < g.ninodes && n <= NDIRECT && g.DataStart() + n + g.nlog <= g.size
    ensures Shape(g, t)
  {
    if n == 0 then Created(g, i)
    else
      AttachShape(g, Extended(g, i, n - 1), i, n - 1, g.DataStart() + n - 1);
      AttachInode(g, Extended(g, i, n - 1), i, n - 1, g.DataStart() + n - 1)
  }

  lemma {:induction false} AttachShape(g: Geo, s: FS, i: nat, k: nat, b: nat)
    requires g.Valid() && Shape(g, s) && i < g.ninodes && k <= NDIRECT && b < g.size
    ensures Shape(g, AttachInode(g, s, i, k, b))
  {
    hide Taken;
  }

  /** Nothing but the first n direct blocks of inode i has been allocated. */
  ghost predicate OnlyBlocks(g: Geo, t: FS, i: nat, n: nat) {
    && g.Valid() && i < g.ninodes && n <= NDIRECT && Accounted(g, t) && InodesStay(g, Created(g, i), t, i)
    && (forall b :: b in t.owner ==> b < g.DataStart() + n)
    && (forall k :: 0 <= k < NDIRECT ==> Slot(t, i, k) == if k < n then g.DataStart() + k else 0)
  }

  lemma {:induction false} OnlyBlocksStep(g: Geo, s: FS, i: nat, n: nat)
    requires OnlyBlocks(g, s, i, n) && n < NDIRECT && g.DataStart() + n + g.nlog < g.size
    ensures OnlyBlocks(g, AttachInode(g, s, i, n, g.DataStart() + n), i, n + 1)
  {
    hide Bit, Created, Taken, Refs, Slot;
    var b := g.DataStart() + n;
    var t := AttachInode(g, s, i, n, b);
    AttachInodeExtends(g, s, i, n, b);
    ExtendedStay(g, s, t, i);
    forall k | 0 <= k < NDIRECT
      ensures Slot(t, i, k) == if k < n + 1 then g.DataStart() + k else 0
    {
      AttachInodeSlots(g, s, i, n, b, i, k);
    }
  }

  lemma {:induction false} ExtendedKeeps(g: Geo, i: nat, n: nat)
    requires g.Valid() && i < g.ninodes && n <= NDIRECT && g.DataStart() + n + g.nlog <= g.size
    ensures OnlyBlocks(g, Extended(g, i, n), i, n)
  {
    hide OnlyBlocks, AttachInode;
    if n == 0 {
      CreatedOnly(g, i);
    } else {
      ExtendedKeeps(g, i, n - 1);
      OnlyBlocksStep(g, Extended(g, i, n - 1), i, n - 1);
    }
  }

  lemma {:induction false} CreatedOnly(g: Geo, i: nat)
    requires g.Valid() && i < g.ninodes
    ensures OnlyBlocks(g, Created(g, i), i, 0)
  {
    hide Created, Slot, Refs, Bits;
    CreatedConsistent(g, i);
    CreatedInodes(g, i);
    ExtendsRefl(g, Created(g, i), i);
  }

  lemma {:induction false} FormattedSlots(g: Geo, i: nat)
    requires g.Valid() && i < g.ninodes
    ensures Formatted(g).owner == map[] && forall m :: 0 <= m < g.ninodes ==> Formatted(g).inodes[m] == NoInode()
    ensures forall k :: 0 <= k < NDIRECT ==> Slot(Formatted(g), i, k) == 0
  {
  }

  lemma {:induction false} ExtendedStay(g: Geo, s: FS, t: FS, i: nat)
    requires g.Valid() && i < g.ninodes && InodesStay(g, Created(g, i), s, i) && Extends(g, s, t, i)
    ensures InodesStay(g, Created(g, i), t, i)
  {
    hide Created;
  }

  /** A file of n full blocks in inode i. */
  function OneFile(g: Geo, i: nat, n: nat): FS
    requires g.Valid() && i < g.ninodes && n <= NDIRECT && g.DataStart() + n + g.nlog <= g.size
  {
    Finished(g, Extended(g, i, n), i, n * 512)
  }

  /** Such a disk satisfies all that the code keeps. i is a file's inode: ialloc starts at 1, and ilock
      accepts its type. */
  lemma {:induction false} OneFileConsistent(g: Geo, i: nat, n: nat)
    requires g.Valid() && 1 <= i < g.ninodes && 0 < n <= NDIRECT && g.DataStart() + n + g.nlog <= g.size
    ensures var u := OneFile(g, i, n);
            && Consistent(g, u) && AllSynced(g, u)
            && u.inodes[i].kind == T_FILE && u.inodes[i].nlink == 1 && u.inodes[i].size == n * 512
  {
    hide Created, Extended, Slot, Refs, Bits, Finished, Updated;
    var t, u := Extended(g, i, n), OneFile(g, i, n);
    CreatedConsistent(g, i);
    CreatedInodes(g, i);
    ExtendedKeeps(g, i, n);
    FinishedClosed(g, Created(g, i), t, i, n * 512);
    forall m, bn | 0 <= m < g.ninodes && 0 <= bn < MAXFILE && bn * 512 < u.inodes[m].size
      ensures BlockOf(u, m, bn) != 0
    {
      assert BlockOf(t, i, bn) == g.DataStart() + bn;
    }
  }

  // ------------------------------------------------------------------ the bitmap of mkfs

  /** balloc of mkfs: the bits of the first `used` blocks, in the only bitmap block it writes. */
  method MkfsBalloc(used: nat) returns (buf: Block)
    requires used < BPB
    ensures forall c :: 0 <= c < BPB ==> (BitAt(buf, c) <==> c < used)
  {
    hide BitAt, PutBitAt;
    buf := ZeroBlock();
    ZeroBitmap();
    for i := 0 to used
      invariant forall c :: 0 <= c < BPB ==> (BitAt(buf, c) <==> c < i)
    {
      forall c | 0 <= c < BPB
        ensures BitAt(PutBitAt(buf, i, true), c) <==> c < i + 1
      {
        BitAtPutBitAt(buf, i, true, c);
      }
      buf := PutBitAt(buf, i, true);
    }
  }

  lemma {:induction false} ZeroBitmap()
    ensures forall c :: 0 <= c < BPB ==> !BitAt(ZeroBlock(), c)
  {
    forall c | 0 <= c < BPB
      ensures !BitAt(ZeroBlock(), c)
    {
      ZeroBits(c % 8);
    }
  }

  /** Exactly the first n blocks are marked, as mkfs leaves them. */
  ghost predicate MarkedBelow(g: Geo, disk: seq<Block>, n: nat)
    requires g.Valid() && |disk| == g.size
  {
    forall c :: 0 <= c < g.size ==> (Bit(g, disk, c) <==> c < n)
  }

  /** Such a bitmap does not mark the log. */
  lemma {:induction false} MkfsNotAccounted(g: Geo, s: FS, n: nat)
    requires g.Valid() && Shape(g, s) && MarkedBelow(g, s.disk, n) && n + g.nlog <= g.size && 0 < g.nlog
    ensures !Accounted(g, s)
  {
    hide Bit, Refs;
    assert !Bit(g, s.disk, g.size - 1) && !g.IsData(g.size - 1);
  }

  /** The size that mkfs gives the root directory, whose entries take off bytes. */
  function RootSize(off: nat): nat {
    (off / 512 + 1) * 512
  }

  /** When the entries fill their blocks exactly, that size has a hole at the end. */
  lemma {:induction false} MkfsRootHole(g: Geo, s: FS, i: nat, off: nat)
    requires Shape(g, s) && i < g.ninodes && off < MAXBYTES
    requires forall bn :: 0 <= bn < MAXFILE ==> (BlockOf(s, i, bn) != 0 <==> bn * 512 < off)
    ensures (forall bn :: 0 <= bn < MAXFILE && bn * 512 < RootSize(off) ==> BlockOf(s, i, bn) != 0) <==> off % 512 != 0
  {
    hide BlockOf;
    var last := off / 512;
    assert last < MAXFILE && last * 512 < RootSize(off);
    assert last * 512 < off <==> off % 512 != 0;
    assert BlockOf(s, i, last) != 0 <==> last * 512 < off;
  }

  /** k calls of the kernel's balloc later. */
  function AfterBallocs(g: Geo, disk: seq<Block>, n: nat, k: nat): (r: seq<Block>)
    requires g.Valid() && |disk| == g.size && n + k <= g.size
    ensures |r| == g.size
  {
    if k == 0 then disk else Taken(g, AfterBallocs(g, disk, n, k - 1), n + k - 1)
  }

  lemma {:induction false} BallocsMark(g: Geo, disk: seq<Block>, n: nat, k: nat)
    requires g.Valid() && |disk| == g.size && MarkedBelow(g, disk, n) && g.DataStart() <= n && n + k + g.nlog <= g.size
    ensures MarkedBelow(g, AfterBallocs(g, disk, n, k), n + k)
  {
    hide Bit, Taken;
    if k > 0 {
      BallocsMark(g, disk, n, k - 1);
      forall c | 0 <= c < g.size
        ensures Bit(g, AfterBallocs(g, disk, n, k), c) <==> c < n + k
      {
        BitOfTaken(g, AfterBallocs(g, disk, n, k - 1), n + k - 1, c);
      }
    }
  }

  /** On mkfs's bitmap the kernel's balloc hands out the blocks in order, and the block of the log
      header, log.start, as soon as it has handed out the data blocks. */
  lemma {:induction false} MkfsReachesLog(g: Geo, disk: seq<Block>, n: nat, k: nat, b: nat)
    requires g.Valid() && |disk| == g.size && MarkedBelow(g, disk, n) && g.DataStart() <= n && n + k + g.nlog <= g.size
    requires FirstFree(g, AfterBallocs(g, disk, n, k), b)
    ensures b == n + k && (!g.IsData(b) <==> k == g.size - g.nlog - n)
  {
    hide Bit, AfterBallocs;
    BallocsMark(g, disk, n, k);
    var d := AfterBallocs(g, disk, n, k);
    assert n + k < g.size ==> !Bit(g, d, n + k);
  }

  /** With the log's bits clear, after any number of allocations and releases: balloc returns a block
      of the log exactly if every data block is taken, and then log.start. */
  lemma {:induction false} LogBlockExact(g: Geo, disk: seq<Block>, b: nat)
    requires g.Valid() && |disk| == g.size && 0 < g.nlog
    requires forall c :: 0 <= c < g.DataStart() ==> Bit(g, disk, c)
    requires forall c :: g.size - g.nlog <= c < g.size ==> !Bit(g, disk, c)
    requires FirstFree(g, disk, b)
    ensures !g.IsData(b) <==> forall c :: 0 <= c < g.size && g.IsData(c) ==> Bit(g, disk, c)
    ensures !g.IsData(b) ==> b == g.size - g.nlog
  {
    hide Bit;
    assert !Bit(g, disk, g.size - g.nlog);
  }
}

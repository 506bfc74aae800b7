/** The block and inode state of fs.c, and its accounting: which slot owns which block. */
module FsState {
  import opened Blocks
  import opened FsLayout

  // ------------------------------------------------------------------ where things are

  datatype Geo = Geo(size: nat, ninodes: nat, nlog: nat) {
    /** First block behind boot block, super block, inodes and bitmap. */
    function DataStart(): nat {
      ninodes / 8 + 3 + size / 4096 + 1
    }

    ghost predicate Valid() {
      1 <= ninodes && DataStart() + nlog <= size < 0x8000_0000
    }

    /** Blocks files may use: behind the metadata, below the log. */
    predicate IsData(b: nat) {
      DataStart() <= b && b + nlog < size
    }

    /** The bitmap block with the bit of block b. */
    function BBlock(b: nat): (r: nat)
      ensures Valid() && b < size ==> ninodes / 8 + 3 <= r < DataStart()
    {
      b / 4096 + ninodes / 8 + 3
    }

    /** The block with inode i. */
    function IBlock(i: nat): (r: nat)
      ensures i < ninodes ==> 2 <= r < ninodes / 8 + 3
    {
      i / 8 + 2
    }
  }

  // ------------------------------------------------------------------ slots

  /** The slots of an inode that can hold a block number: 0..11 direct, 12 the indirect block,
      13.. its entries. */
  const NSLOT := 141

  datatype Ref = Ref(inum: nat, slot: nat)

  datatype FS = FS(disk: seq<Block>, inodes: seq<Inode>, owner: map<nat, Ref>)

  /** The slot for the bn'th block of a file. */
  function SlotOf(bn: nat): nat {
    if bn < NDIRECT then bn else bn + 1
  }

  predicate Shape(g: Geo, s: FS) {
    && |s.disk| == g.size && |s.inodes| == g.ninodes
    && forall i :: 0 <= i < g.ninodes ==> Fits(s.inodes[i])
  }

  function Slot(s: FS, i: nat, k: nat): nat
    requires i < |s.inodes| && |s.inodes[i].addrs| == NDIRECT + 1 && k < NSLOT
  {
    var a := s.inodes[i].addrs;
    if k <= NDIRECT then a[k]
    else if a[NDIRECT] == 0 || a[NDIRECT] >= |s.disk| then 0
    else Word(s.disk[a[NDIRECT]], k - NDIRECT - 1)
  }

  predicate Bit(g: Geo, disk: seq<Block>, b: nat)
    requires g.Valid() && |disk| == g.size && b < g.size
  {
    BitAt(disk[g.BBlock(b)], b % 4096)
  }

  /** The bits of one bitmap block. */
  lemma {:induction false} BitIn(g: Geo, disk: seq<Block>, base: nat, bi: nat)
    requires g.Valid() && |disk| == g.size && base % 4096 == 0 && bi < BPB && base + bi < g.size
    ensures Bit(g, disk, base + bi) == BitAt(disk[g.BBlock(base)], bi)
  {
    hide BitAt;
    assert (base + bi) / 4096 == base / 4096 && (base + bi) % 4096 == bi;
  }

  /** The block balloc finds. */
  ghost predicate FirstFree(g: Geo, disk: seq<Block>, b: nat)
    requires g.Valid() && |disk| == g.size
  {
    b < g.size && !Bit(g, disk, b) && forall c :: 0 <= c < b ==> Bit(g, disk, c)
  }

  /** Every block number in a slot is owned by that slot, and the other way round. */
  ghost predicate Refs(g: Geo, s: FS)
    requires Shape(g, s)
  {
    && (forall i, k :: 0 <= i < g.ninodes && 0 <= k < NSLOT && Slot(s, i, k) != 0 ==>
          Slot(s, i, k) in s.owner && s.owner[Slot(s, i, k)] == Ref(i, k))
    && (forall b :: b in s.owner ==> Owned(g, s, b, s.owner[b]))
  }

  ghost predicate Owned(g: Geo, s: FS, b: nat, r: Ref)
    requires Shape(g, s)
  {
    g.IsData(b) && r.inum < g.ninodes && r.slot < NSLOT && Slot(s, r.inum, r.slot) == b
  }

  /** A bit is set for the metadata, the log and the owned blocks, and for nothing else. */
  ghost predicate Bits(g: Geo, s: FS)
    requires g.Valid() && Shape(g, s)
  {
    forall b :: 0 <= b < g.size ==> (Bit(g, s.disk, b) <==> !g.IsData(b) || b in s.owner)
  }

  ghost predicate Accounted(g: Geo, s: FS) {
    g.Valid() && Shape(g, s) && Refs(g, s) && Bits(g, s)
  }

  // ------------------------------------------------------------------ taking a block

  /** The blocks after the bit of b has been set or cleared. */
  function Mark(g: Geo, disk: seq<Block>, b: nat, v: bool): (r: seq<Block>)
    requires g.Valid() && |disk| == g.size && b < g.size
    ensures |r| == |disk|
  {
    disk[g.BBlock(b) := PutBitAt(disk[g.BBlock(b)], b % 4096, v)]
  }

  lemma {:induction false} BitOfMark(g: Geo, disk: seq<Block>, b: nat, v: bool, c: nat)
    requires g.Valid() && |disk| == g.size && b < g.size && c < g.size
    ensures Bit(g, Mark(g, disk, b, v), c) == if c == b then v else Bit(g, disk, c)
  {
    BitAtPutBitAt(disk[g.BBlock(b)], b % 4096, v, c % 4096);
  }

  /** balloc: the bit of b set, and b zeroed. */
  function Taken(g: Geo, disk: seq<Block>, b: nat): (r: seq<Block>)
    requires g.Valid() && |disk| == g.size && b < g.size
    ensures |r| == |disk|
  {
    Mark(g, disk, b, true)[b := ZeroBlock()]
  }

  /** Bits of blocks are not disturbed by writing data blocks. */
  lemma {:induction false} BitFrame(g: Geo, disk: seq<Block>, b: nat, x: Block, c: nat)
    requires g.Valid() && |disk| == g.size && g.IsData(b) && c < g.size
    ensures Bit(g, disk[b := x], c) == Bit(g, disk, c)
  {
  }

  lemma {:induction false} BitOfTaken(g: Geo, disk: seq<Block>, b: nat, c: nat)
    requires g.Valid() && |disk| == g.size && g.IsData(b) && c < g.size
    ensures Bit(g, Taken(g, disk, b), c) == (c == b || Bit(g, disk, c))
  {
    BitOfMark(g, disk, b, true, c);
    BitFrame(g, Mark(g, disk, b, true), b, ZeroBlock(), c);
  }

  lemma {:induction false} TakenFrame(g: Geo, disk: seq<Block>, b: nat, c: nat)
    requires g.Valid() && |disk| == g.size && g.IsData(b) && c < g.size && c != b
    requires g.IsData(c) || c < g.ninodes / 8 + 3
    ensures Taken(g, disk, b)[c] == disk[c]
  {
  }

  lemma {:induction false} ZeroWords(j: nat)
    requires j < NWORDS
    ensures Word(ZeroBlock(), j) == 0
  {
  }

  // ------------------------------------------------------------------ giving it to a slot

  /** A free block that a file may use. */
  ghost predicate Available(g: Geo, s: FS, b: nat) {
    g.Valid() && Shape(g, s) && g.IsData(b) && !Bit(g, s.disk, b)
  }

  /** An indirect block is owned by slot 12 of its inode. */
  lemma {:induction false} IndirectOwned(g: Geo, s: FS, i: nat)
    requires Accounted(g, s) && i < g.ninodes && s.inodes[i].addrs[NDIRECT] != 0
    ensures var a := s.inodes[i].addrs[NDIRECT]; g.IsData(a) && a in s.owner && s.owner[a] == Ref(i, NDIRECT)
  {
    assert Slot(s, i, NDIRECT) == s.inodes[i].addrs[NDIRECT];
    assert Owned(g, s, Slot(s, i, NDIRECT), Ref(i, NDIRECT));
  }

  /** bmap stores a new block in ip->addrs[k]. */
  function AttachInode(g: Geo, s: FS, i: nat, k: nat, b: nat): FS
    requires g.Valid() && Shape(g, s) && i < g.ninodes && k <= NDIRECT && b < g.size
  {
    var ip := s.inodes[i];
    FS(Taken(g, s.disk, b), s.inodes[i := ip.(addrs := ip.addrs[k := b])], s.owner[b := Ref(i, k)])
  }

  /** bmap stores a new block in entry j of the indirect block. */
  function AttachEntry(g: Geo, s: FS, i: nat, j: nat, b: nat): FS
    requires g.Valid() && Shape(g, s) && i < g.ninodes && j < NINDIRECT && b < g.size
    requires s.inodes[i].addrs[NDIRECT] < g.size
  {
    var d, a := Taken(g, s.disk, b), s.inodes[i].addrs[NDIRECT];
    FS(d[a := PutWord(d[a], j, b)], s.inodes, s.owner[b := Ref(i, NDIRECT + 1 + j)])
  }

  lemma {:induction false} AttachInodeSlots(g: Geo, s: FS, i: nat, k: nat, b: nat, m: nat, l: nat)
    requires Accounted(g, s) && Available(g, s, b) && i < g.ninodes && k <= NDIRECT && Slot(s, i, k) == 0
    requires m < g.ninodes && l < NSLOT
    ensures Slot(AttachInode(g, s, i, k, b), m, l) == if m == i && l == k then b else Slot(s, m, l)
  {
    hide Mark, ZeroBlock, Bit, Refs;
    var t := AttachInode(g, s, i, k, b);
    if l > NDIRECT {
      if m == i && k == NDIRECT {
        ZeroWords(l - NDIRECT - 1);
      } else if s.inodes[m].addrs[NDIRECT] != 0 {
        IndirectOwned(g, s, m);
        TakenFrame(g, s.disk, b, s.inodes[m].addrs[NDIRECT]);
      }
    }
  }

  /** The indirect blocks after an entry has been stored in that of inode i. */
  lemma {:induction false} AttachEntryWords(g: Geo, s: FS, i: nat, j: nat, b: nat, m: nat, l: nat)
    requires Accounted(g, s) && Available(g, s, b) && i < g.ninodes && j < NINDIRECT && m < g.ninodes && l < NINDIRECT
    requires s.inodes[i].addrs[NDIRECT] != 0 && s.inodes[m].addrs[NDIRECT] != 0
    ensures s.inodes[i].addrs[NDIRECT] < g.size && s.inodes[m].addrs[NDIRECT] < g.size
    ensures var a := s.inodes[m].addrs[NDIRECT];
            Word(AttachEntry(g, s, i, j, b).disk[a], l) == if m == i && l == j then b else Word(s.disk[a], l)
  {
    hide PutWord, Mark, Bit, Refs;
    IndirectOwned(g, s, i);
    IndirectOwned(g, s, m);
    TakenFrame(g, s.disk, b, s.inodes[m].addrs[NDIRECT]);
    if m == i {
      WordOfPutWord(s.disk[s.inodes[i].addrs[NDIRECT]], j, b, l);
    }
  }

  lemma {:induction false} AttachEntrySlots(g: Geo, s: FS, i: nat, j: nat, b: nat, m: nat, l: nat)
    requires Accounted(g, s) && Available(g, s, b) && i < g.ninodes && j < NINDIRECT
    requires s.inodes[i].addrs[NDIRECT] != 0 && Slot(s, i, NDIRECT + 1 + j) == 0
    requires m < g.ninodes && l < NSLOT
    ensures s.inodes[i].addrs[NDIRECT] < g.size
    ensures Slot(AttachEntry(g, s, i, j, b), m, l) == if m == i && l == NDIRECT + 1 + j then b else Slot(s, m, l)
  {
    hide Accounted, Taken, Word, Bit;
    IndirectOwned(g, s, i);
    if l > NDIRECT && s.inodes[m].addrs[NDIRECT] != 0 {
      AttachEntryWords(g, s, i, j, b, m, l - NDIRECT - 1);
    }
  }

  /** t differs from s in its slots and bits only by block b, now owned by slot (i, k). */
  ghost predicate Attached(g: Geo, s: FS, t: FS, i: nat, k: nat, b: nat) {
    && g.Valid() && Shape(g, s) && Shape(g, t) && i < g.ninodes && k < NSLOT && g.IsData(b)
    && t.owner == s.owner[b := Ref(i, k)]
    && (forall m, l :: 0 <= m < g.ninodes && 0 <= l < NSLOT ==>
          Slot(t, m, l) == if m == i && l == k then b else Slot(s, m, l))
    && (forall c :: 0 <= c < g.size ==> (Bit(g, t.disk, c) <==> c == b || Bit(g, s.disk, c)))
  }

  lemma {:induction false} AttachInodeIs(g: Geo, s: FS, i: nat, k: nat, b: nat)
    requires Accounted(g, s) && Available(g, s, b) && i < g.ninodes && k <= NDIRECT && Slot(s, i, k) == 0
    ensures Attached(g, s, AttachInode(g, s, i, k, b), i, k, b)
  {
    var t := AttachInode(g, s, i, k, b);
    forall m, l | 0 <= m < g.ninodes && 0 <= l < NSLOT
      ensures Slot(t, m, l) == if m == i && l == k then b else Slot(s, m, l)
    {
      AttachInodeSlots(g, s, i, k, b, m, l);
    }
    forall c | 0 <= c < g.size
      ensures Bit(g, t.disk, c) <==> c == b || Bit(g, s.disk, c)
    {
      BitOfTaken(g, s.disk, b, c);
    }
  }

  lemma {:induction false} AttachEntryIs(g: Geo, s: FS, i: nat, j: nat, b: nat)
    requires Accounted(g, s) && Available(g, s, b) && i < g.ninodes && j < NINDIRECT
    requires s.inodes[i].addrs[NDIRECT] != 0 && Slot(s, i, NDIRECT + 1 + j) == 0
    ensures s.inodes[i].addrs[NDIRECT] < g.size
    ensures Attached(g, s, AttachEntry(g, s, i, j, b), i, NDIRECT + 1 + j, b)
  {
    IndirectOwned(g, s, i);
    var t, d, a := AttachEntry(g, s, i, j, b), Taken(g, s.disk, b), s.inodes[i].addrs[NDIRECT];
    forall m, l | 0 <= m < g.ninodes && 0 <= l < NSLOT
      ensures Slot(t, m, l) == if m == i && l == NDIRECT + 1 + j then b else Slot(s, m, l)
    {
      AttachEntrySlots(g, s, i, j, b, m, l);
    }
    forall c | 0 <= c < g.size
      ensures Bit(g, t.disk, c) <==> c == b || Bit(g, s.disk, c)
    {
      BitOfTaken(g, s.disk, b, c);
      BitFrame(g, d, a, PutWord(d[a], j, b), c);
    }
  }

  lemma {:induction false} AttachRefs(g: Geo, s: FS, t: FS, i: nat, k: nat, b: nat)
    requires g.Valid() && Shape(g, s) && Refs(g, s) && Attached(g, s, t, i, k, b) && b !in s.owner
    ensures forall m, l :: 0 <= m < g.ninodes && 0 <= l < NSLOT && Slot(t, m, l) != 0 ==>
              Slot(t, m, l) in t.owner && t.owner[Slot(t, m, l)] == Ref(m, l)
  {
    forall m, l | 0 <= m < g.ninodes && 0 <= l < NSLOT && Slot(t, m, l) != 0
      ensures Slot(t, m, l) in t.owner && t.owner[Slot(t, m, l)] == Ref(m, l)
    {
      assert (m == i && l == k) || Slot(t, m, l) == Slot(s, m, l);
    }
  }

  lemma {:induction false} AttachOwners(g: Geo, s: FS, t: FS, i: nat, k: nat, b: nat)
    requires g.Valid() && Shape(g, s) && Refs(g, s) && Attached(g, s, t, i, k, b) && Slot(s, i, k) == 0
    ensures forall c :: c in t.owner ==> Owned(g, t, c, t.owner[c])
  {
    forall c | c in t.owner
      ensures Owned(g, t, c, t.owner[c])
    {
      if c != b {
        assert Owned(g, s, c, s.owner[c]);
      }
    }
  }

  /** Giving a free block to an empty slot keeps the accounts. */
  lemma {:induction false} AttachAccounted(g: Geo, s: FS, t: FS, i: nat, k: nat, b: nat)
    requires Accounted(g, s) && Attached(g, s, t, i, k, b) && b !in s.owner && Slot(s, i, k) == 0
    ensures Accounted(g, t)
  {
    AttachRefs(g, s, t, i, k, b);
    AttachOwners(g, s, t, i, k, b);
  }
}

/** What itrunc does: every block of one file is freed, exactly once, and nothing else. */
module FsTrunc {
  import opened Blocks
  import opened FsLayout
  import opened FsState
  import opened FsFiles
  import opened FsWrite

  /** The order in which itrunc visits the slots: direct blocks, entries of the indirect block, the
      indirect block itself. */
  function Rank(k: nat): (r: nat)
    requires k < NSLOT
    ensures r < NSLOT
  {
    if k < NDIRECT then k else if k == NDIRECT then NSLOT - 1 else k - 1
  }

  /** b belongs to one of the first n slots itrunc visits of file i. */
  ghost predicate Visited(s: FS, i: nat, n: nat, b: nat) {
    b in s.owner && s.owner[b].inum == i && s.owner[b].slot < NSLOT && Rank(s.owner[b].slot) < n
  }

  /** The blocks when itrunc, started in s, has visited the first n slots of file i. */
  ghost predicate Freed(g: Geo, s: FS, disk: seq<Block>, i: nat, n: nat)
    requires g.Valid() && |s.disk| == g.size
  {
    && |disk| == g.size
    && (forall b {:trigger Bit(g, disk, b)} :: 0 <= b < g.size ==>
          (Bit(g, disk, b) <==> Bit(g, s.disk, b) && !Visited(s, i, n, b)))
    && (forall b: nat {:trigger disk[b]} :: g.IsData(b) || b < g.ninodes / 8 + 3 ==> disk[b] == s.disk[b])
  }

  lemma {:induction false} FreedStart(g: Geo, s: FS, i: nat)
    requires g.Valid() && |s.disk| == g.size
    ensures Freed(g, s, s.disk, i, 0)
  {
  }

  lemma {:induction false} VisitedStep(g: Geo, s: FS, i: nat, k: nat, b: nat)
    requires Accounted(g, s) && i < g.ninodes && k < NSLOT
    ensures Visited(s, i, Rank(k) + 1, b) <==> Visited(s, i, Rank(k), b) || (b != 0 && b == Slot(s, i, k))
  {
    hide Slot, Shape, Bits;
    if b in s.owner {
      assert Owned(g, s, b, s.owner[b]);
    }
  }

  /** An empty slot. */
  lemma {:induction false} SkipSlot(g: Geo, s: FS, disk: seq<Block>, i: nat, k: nat)
    requires Accounted(g, s) && i < g.ninodes && k < NSLOT && Slot(s, i, k) == 0
    requires Freed(g, s, disk, i, Rank(k))
    ensures Freed(g, s, disk, i, Rank(k) + 1)
  {
    hide Refs, Bits, Slot;
    forall b | 0 <= b < g.size
      ensures Bit(g, disk, b) <==> Bit(g, s.disk, b) && !Visited(s, i, Rank(k) + 1, b)
    {
      VisitedStep(g, s, i, k, b);
    }
  }

  /** The block in a slot is a data block whose bit is still set when its turn comes. */
  lemma {:induction false} StillTaken(g: Geo, s: FS, disk: seq<Block>, i: nat, k: nat)
    requires Accounted(g, s) && i < g.ninodes && k < NSLOT && Slot(s, i, k) != 0
    requires Freed(g, s, disk, i, Rank(k))
    ensures g.IsData(Slot(s, i, k)) && Bit(g, disk, Slot(s, i, k))
  {
    var b := Slot(s, i, k);
    assert b in s.owner && Owned(g, s, b, s.owner[b]) && s.owner[b] == Ref(i, k);
  }

  lemma {:induction false} FreeSlot(g: Geo, s: FS, disk: seq<Block>, i: nat, k: nat)
    requires Accounted(g, s) && i < g.ninodes && k < NSLOT && g.IsData(Slot(s, i, k))
    requires Freed(g, s, disk, i, Rank(k))
    ensures Freed(g, s, Mark(g, disk, Slot(s, i, k), false), i, Rank(k) + 1)
  {
    hide Refs, Bits, Slot;
    var b := Slot(s, i, k);
    forall c | 0 <= c < g.size
      ensures Bit(g, Mark(g, disk, b, false), c) <==> Bit(g, s.disk, c) && !Visited(s, i, Rank(k) + 1, c)
    {
      BitOfMark(g, disk, b, false, c);
      VisitedStep(g, s, i, k, c);
    }
  }

  /** The owners that remain. */
  function Kept(s: FS, i: nat): map<nat, Ref> {
    map b | b in s.owner && s.owner[b].inum != i :: s.owner[b]
  }

  ghost predicate Emptied(p: Inode, q: Inode) {
    && q == p.(size := 0, addrs := q.addrs) && |q.addrs| == NDIRECT + 1
    && forall k :: 0 <= k <= NDIRECT ==> q.addrs[k] == 0
  }

  /** The state before itrunc calls iupdate. */
  ghost predicate Truncated(g: Geo, s: FS, t: FS, i: nat) {
    && Accounted(g, s) && i < g.ninodes && Freed(g, s, t.disk, i, NSLOT)
    && |t.inodes| == |s.inodes| && Emptied(s.inodes[i], t.inodes[i])
    && (forall m :: 0 <= m < g.ninodes && m != i ==> t.inodes[m] == s.inodes[m])
    && t.owner == Kept(s, i)
  }

  lemma {:induction false} TruncatedSlot(g: Geo, s: FS, t: FS, i: nat, m: nat, k: nat)
    requires Truncated(g, s, t, i) && m < g.ninodes && k < NSLOT
    ensures Shape(g, t)
    ensures Slot(t, m, k) == if m == i then 0 else Slot(s, m, k)
  {
    if m != i {
      if s.inodes[m].addrs[NDIRECT] != 0 {
        IndirectOwned(g, s, m);
      }
    }
  }

  lemma {:induction false} TruncatedAccounted(g: Geo, s: FS, t: FS, i: nat)
    requires Truncated(g, s, t, i)
    ensures Accounted(g, t)
  {
    hide Bit, Word;
    TruncatedSlot(g, s, t, i, i, 0);
    forall m, k | 0 <= m < g.ninodes && 0 <= k < NSLOT && Slot(t, m, k) != 0
      ensures Slot(t, m, k) in t.owner && t.owner[Slot(t, m, k)] == Ref(m, k)
    {
      TruncatedSlot(g, s, t, i, m, k);
    }
    forall b | b in t.owner
      ensures Owned(g, t, b, t.owner[b])
    {
      assert Owned(g, s, b, s.owner[b]);
      TruncatedSlot(g, s, t, i, s.owner[b].inum, s.owner[b].slot);
    }
    forall b | 0 <= b < g.size
      ensures Bit(g, t.disk, b) <==> !g.IsData(b) || b in t.owner
    {
      if b in s.owner {
        assert Owned(g, s, b, s.owner[b]);
      }
    }
  }

  /** Every other file keeps its blocks. */
  lemma {:induction false} TruncatedData(g: Geo, s: FS, t: FS, i: nat, m: nat, bn: nat)
    requires Truncated(g, s, t, i) && m < g.ninodes && m != i && bn < MAXFILE && BlockOf(s, m, bn) != 0
    ensures Shape(g, t) && BlockOf(t, m, bn) == BlockOf(s, m, bn) && Data(t, m, bn) == Data(s, m, bn)
  {
    TruncatedSlot(g, s, t, i, m, SlotOf(bn));
    BlockOwned(g, s, m, bn);
  }

  /** The free data blocks. */
  ghost function Free(g: Geo, s: FS): set<nat>
    requires g.Valid() && |s.disk| == g.size
  {
    set b | 0 <= b < g.size && g.IsData(b) && !Bit(g, s.disk, b)
  }

  /** itrunc: the blocks of file i, and no others, become free; file i is empty; the inodes on disk
      are the ones in memory. */
  ghost predicate Dropped(g: Geo, s: FS, u: FS, i: nat) {
    && Consistent(g, s) && Consistent(g, u) && AllSynced(g, u) && i < g.ninodes
    && (forall b :: b in Free(g, u) <==> b in Free(g, s) || (b in s.owner && s.owner[b].inum == i))
    && Emptied(s.inodes[i], u.inodes[i])
    && (forall m :: 0 <= m < g.ninodes && m != i ==>
         u.inodes[m] == s.inodes[m] && Contents(g, u, m) == Contents(g, s, m))
  }

  lemma {:induction false} TruncatedFiles(g: Geo, s: FS, t: FS, i: nat, m: nat, bn: nat)
    requires Truncated(g, s, t, i) && m < g.ninodes && m != i && bn < MAXFILE && BlockOf(s, m, bn) != 0
    ensures Accounted(g, t)
    ensures var u := Updated(g, t, i); BlockOf(u, m, bn) == BlockOf(s, m, bn) && Data(u, m, bn) == Data(s, m, bn)
  {
    hide Refs, Bits, Slot;
    TruncatedAccounted(g, s, t, i);
    TruncatedData(g, s, t, i, m, bn);
    UpdatedFiles(g, t, i);
  }

  lemma {:induction false} TruncatedContents(g: Geo, s: FS, t: FS, i: nat, m: nat)
    requires Truncated(g, s, t, i) && NoHoles(g, s) && m < g.ninodes && m != i
    ensures Accounted(g, t) && Contents(g, Updated(g, t, i), m) == Contents(g, s, m)
  {
    hide Refs, Bits, Slot;
    TruncatedAccounted(g, s, t, i);
    var u := Updated(g, t, i);
    forall x | 0 <= x < s.inodes[m].size
      ensures FileByte(u, m, x) == FileByte(s, m, x)
    {
      MappedBelowSize(g, s, m, x / 512);
      TruncatedFiles(g, s, t, i, m, x / 512);
    }
  }

  lemma {:induction false} TruncatedNoHoles(g: Geo, s: FS, t: FS, i: nat)
    requires Truncated(g, s, t, i) && NoHoles(g, s)
    ensures Accounted(g, t) && NoHoles(g, Updated(g, t, i))
  {
    hide Refs, Bits, Slot;
    TruncatedAccounted(g, s, t, i);
    var u := Updated(g, t, i);
    forall m, bn | 0 <= m < g.ninodes && 0 <= bn < MAXFILE && bn * 512 < u.inodes[m].size
      ensures BlockOf(u, m, bn) != 0
    {
      assert BlockOf(s, m, bn) != 0;
      TruncatedFiles(g, s, t, i, m, bn);
    }
  }

  lemma {:induction false} TruncatedSynced(g: Geo, s: FS, t: FS, i: nat)
    requires Truncated(g, s, t, i) && AllSynced(g, s)
    ensures Accounted(g, t) && AllSynced(g, Updated(g, t, i))
  {
    hide Refs, Bits, Slot;
    TruncatedAccounted(g, s, t, i);
    forall m | 0 <= m < g.ninodes
      ensures Synced(g, Updated(g, t, i), m)
    {
      UpdatedSynced(g, t, i, m);
      if m != i {
        SyncedFrame(g, s, t, m);
      }
    }
  }

  lemma {:induction false} TruncatedFree(g: Geo, s: FS, t: FS, i: nat, b: nat)
    requires Truncated(g, s, t, i)
    ensures Accounted(g, t)
    ensures b in Free(g, Updated(g, t, i)) <==> b in Free(g, s) || (b in s.owner && s.owner[b].inum == i)
  {
    TruncatedAccounted(g, s, t, i);
    UpdatedAccounts(g, t, i);
    if b in s.owner {
      assert Owned(g, s, b, s.owner[b]);
    }
  }

  lemma {:induction false} TruncatedDropped(g: Geo, s: FS, t: FS, i: nat)
    requires Truncated(g, s, t, i) && NoHoles(g, s) && AllSynced(g, s)
    ensures Shape(g, t) && Dropped(g, s, Updated(g, t, i), i)
  {
    hide Refs, Bits, Slot, Freed;
    TruncatedAccounted(g, s, t, i);
    var u := Updated(g, t, i);
    UpdatedAccounts(g, t, i);
    SameAccounted(g, t, u);
    TruncatedNoHoles(g, s, t, i);
    TruncatedSynced(g, s, t, i);
    forall b
      ensures b in Free(g, u) <==> b in Free(g, s) || (b in s.owner && s.owner[b].inum == i)
    {
      if b >= 0 {
        TruncatedFree(g, s, t, i, b);
      }
    }
    forall m | 0 <= m < g.ninodes && m != i
      ensures Contents(g, u, m) == Contents(g, s, m)
    {
      TruncatedContents(g, s, t, i, m);
    }
  }
}

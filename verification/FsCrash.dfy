/** Files, log and crashes together: a transaction of filewrite, cut anywhere, leaves the old file or the
    new one. */
module FsCrash {
  import opened Blocks
  import opened FsLayout
  import opened FsState
  import opened FsFiles
  import opened FsWrite
  import opened FsOverwrite
  import Log

  /** The blocks below the log, which is log.start of them. */
  function Home(g: Geo, blocks: seq<Block>): seq<Block>
    requires g.Valid() && |blocks| == g.size
  {
    blocks[..g.size - g.nlog]
  }

  /** A file system as the kernel finds it after a reboot: blocks from the recovered disk, and inodes read
      from them. The blocks of the log do not matter. */
  ghost predicate Mounted(g: Geo, v: FS, home: seq<Block>) {
    && g.Valid() && |v.disk| == g.size && |v.inodes| == g.ninodes && Home(g, v.disk) == home
    && forall m :: 0 <= m < g.ninodes ==> v.inodes[m] == InodeAt(v.disk[g.IBlock(m)], m % 8)
  }

  /** v holds the files of s, with the same block map and bitmap. */
  ghost predicate SameFiles(g: Geo, v: FS, s: FS) {
    && Consistent(g, s) && v.inodes == s.inodes && Consistent(g, v.(owner := s.owner))
    && AllSynced(g, v.(owner := s.owner))
    && forall m :: 0 <= m < g.ninodes ==> Contents(g, v, m) == Contents(g, s, m)
  }

  // ------------------------------------------------------------------ after the reboot

  lemma {:induction false} MountedInodes(g: Geo, v: FS, s: FS)
    requires g.Valid() && Shape(g, s) && AllSynced(g, s) && Mounted(g, v, Home(g, s.disk))
    ensures v.inodes == s.inodes && Shape(g, v) && AllSynced(g, v)
    ensures forall b :: 0 <= b < g.size - g.nlog ==> v.disk[b] == s.disk[b]
  {
    forall b | 0 <= b < g.size - g.nlog
      ensures v.disk[b] == s.disk[b]
    {
      assert Home(g, v.disk)[b] == Home(g, s.disk)[b];
    }
    forall m | 0 <= m < g.ninodes
      ensures v.inodes[m] == s.inodes[m]
    {
      assert Synced(g, s, m);
    }
  }

  lemma {:induction false} MountedAccounts(g: Geo, v: FS, s: FS)
    requires Accounted(g, s) && Shape(g, v) && v.inodes == s.inodes
    requires forall b :: 0 <= b < g.size - g.nlog ==> v.disk[b] == s.disk[b]
    ensures SameAccounts(g, s, v.(owner := s.owner)) && Accounted(g, v.(owner := s.owner))
  {
    var u := v.(owner := s.owner);
    forall m, k | 0 <= m < g.ninodes && 0 <= k < NSLOT
      ensures Slot(u, m, k) == Slot(s, m, k)
    {
      if s.inodes[m].addrs[NDIRECT] != 0 {
        IndirectOwned(g, s, m);
      }
      SlotFrame(g, s, u, m, k);
    }
    forall c | 0 <= c < g.size
      ensures Bit(g, u.disk, c) <==> Bit(g, s.disk, c)
    {
      assert u.disk[g.BBlock(c)] == s.disk[g.BBlock(c)];
    }
    SameAccounted(g, s, u);
  }

  lemma {:induction false} MountedByte(g: Geo, v: FS, s: FS, m: nat, x: nat)
    requires Consistent(g, s) && SameAccounts(g, s, v) && v.inodes == s.inodes
    requires forall b :: 0 <= b < g.size - g.nlog ==> v.disk[b] == s.disk[b]
    requires m < g.ninodes && x < s.inodes[m].size
    ensures FileByte(v, m, x) == FileByte(s, m, x)
  {
    hide Refs, Bits, Slot;
    var bn := x / 512;
    MappedBelowSize(g, s, m, bn);
    BlockOwned(g, s, m, bn);
    assert BlockOf(v, m, bn) == BlockOf(s, m, bn);
  }

  lemma {:induction false} MountedContents(g: Geo, v: FS, s: FS, m: nat)
    requires Consistent(g, s) && SameAccounts(g, s, v) && v.inodes == s.inodes && m < g.ninodes
    requires forall b :: 0 <= b < g.size - g.nlog ==> v.disk[b] == s.disk[b]
    ensures Contents(g, v, m) == Contents(g, s, m)
  {
    hide FileByte, SameAccounts, Refs, Bits;
    ShapeOf(g, s, v);
    forall x | 0 <= x < s.inodes[m].size
      ensures FileByte(v, m, x) == FileByte(s, m, x)
    {
      MountedByte(g, v, s, m, x);
    }
  }

  lemma {:induction false} ShapeOf(g: Geo, s: FS, v: FS)
    requires SameAccounts(g, s, v)
    ensures Shape(g, v)
  {
  }

  /** A reboot from the blocks of a file system in order finds its files. */
  lemma {:induction false} MountedSame(g: Geo, v: FS, s: FS)
    requires Consistent(g, s) && AllSynced(g, s) && Mounted(g, v, Home(g, s.disk))
    ensures SameFiles(g, v, s)
  {
    hide Refs, Bits, Slot, Mounted, Contents;
    MountedInodes(g, v, s);
    MountedAccounts(g, v, s);
    var u := v.(owner := s.owner);
    NoHolesSame(g, s, u);
    forall m | 0 <= m < g.ninodes
      ensures Synced(g, u, m)
    {
      SyncedFrame(g, v, u, m);
    }
    forall m | 0 <= m < g.ninodes
      ensures Contents(g, v, m) == Contents(g, s, m)
    {
      MountedContents(g, u, s, m);
      OwnerAside(g, v, s.owner, m);
    }
  }

  lemma {:induction false} NoHolesSame(g: Geo, s: FS, u: FS)
    requires Consistent(g, s) && SameAccounts(g, s, u) && u.inodes == s.inodes
    ensures NoHoles(g, u)
  {
    hide Refs, Bits, Slot;
    forall i, bn | 0 <= i < g.ninodes && 0 <= bn < MAXFILE && bn * 512 < u.inodes[i].size
      ensures BlockOf(u, i, bn) != 0
    {
      assert BlockOf(s, i, bn) != 0;
      assert Slot(u, i, SlotOf(bn)) == Slot(s, i, SlotOf(bn));
    }
  }

  /** Contents do not depend on the history field. */
  lemma {:induction false} OwnerAside(g: Geo, v: FS, owner: map<nat, Ref>, m: nat)
    requires Shape(g, v) && m < g.ninodes && v.inodes[m].size <= MAXBYTES
    ensures Contents(g, v, m) == Contents(g, v.(owner := owner), m)
  {
    var u := v.(owner := owner);
    forall x | 0 <= x < v.inodes[m].size
      ensures FileByte(u, m, x) == FileByte(v, m, x)
    {
    }
  }

  // ------------------------------------------------------------------ one transaction

  /** The log of the file system: its home blocks, an empty header, and the log blocks behind it. */
  ghost predicate LogOf(g: Geo, d: Log.Disk, s: FS)
    requires g.Valid() && |s.disk| == g.size
  {
    d.home == Home(g, s.disk) && Log.Count(d.head) == 0 && |d.log| + 1 == g.nlog
  }

  /** log.lh names the logged sectors, and the log has room for them. */
  ghost predicate HeaderOf(d: Log.Disk, logged: set<nat>, h: seq<word>) {
    |h| <= Log.LOGSIZE && |h| <= |d.log| && forall b :: b in logged <==> b in h
  }

  lemma {:induction false} ReadyForCommit(g: Geo, s: FS, u: FS, logged: set<nat>, d: Log.Disk, h: seq<word>)
    requires g.Valid() && Confined(g, s.disk, {}, u.disk, logged) && LogOf(g, d, s) && HeaderOf(d, logged, h)
    ensures Log.ReadyToCommit(d, d.(home := Home(g, u.disk)), h)
  {
    var c := d.(home := Home(g, u.disk));
    forall i | 0 <= i < |h|
      ensures h[i] < |d.home|
    {
      assert h[i] in h && h[i] in logged;
    }
    forall b | 0 <= b < |d.home| && c.home[b] != d.home[b]
      ensures b in h
    {
      assert u.disk[b] != s.disk[b];
    }
  }

  /** The disk after the first k sector writes of the commit, a crash, any number of interrupted
      recoveries, and a complete one. */
  ghost function Recovered(g: Geo, s: FS, u: FS, logged: set<nat>, d: Log.Disk, h: seq<word>, k: nat, cuts: seq<nat>)
    : (home: seq<Block>)
    requires g.Valid() && Confined(g, s.disk, {}, u.disk, logged) && LogOf(g, d, s) && HeaderOf(d, logged, h)
    requires k <= Log.CommitLength(h)
    ensures home == Home(g, if k <= |h| then s.disk else u.disk)
  {
    ReadyForCommit(g, s, u, logged, d, h);
    Log.CrashAtomicity(d, d.(home := Home(g, u.disk)), h, k, cuts);
    var e := Log.Reboots(Log.AfterCommit(d, d.(home := Home(g, u.disk)), h, k), cuts);
    Log.AfterRecovery(e, Log.RecoveryLength(e)).home
  }

  /** A transaction of filewrite, as FileSystem.WriteTransaction leaves it, is cut by a crash at any sector
      write of its commit, or before it. After recovery and reboot the file has its old contents, or
      those with all bytes written; every other file is as before; and the file system is in order. */
  lemma {:induction false} CrashDuringWrite(g: Geo, s: FS, u: FS, i: nat, off: nat, src: seq<byte>, logged: set<nat>,
                                            d: Log.Disk, h: seq<word>, k: nat, cuts: seq<nat>, v: FS)
    requires Consistent(g, s) && AllSynced(g, s) && Consistent(g, u) && AllSynced(g, u)
    requires Wrote(g, s, u, i, off, src) && Confined(g, s.disk, {}, u.disk, logged)
    requires LogOf(g, d, s) && HeaderOf(d, logged, h) && k <= Log.CommitLength(h)
    requires Mounted(g, v, Recovered(g, s, u, logged, d, h, k, cuts))
    ensures SameFiles(g, v, s) || SameFiles(g, v, u)
    ensures Contents(g, v, i) == Contents(g, s, i) || Contents(g, v, i) == Splice(Contents(g, s, i), off, src)
    ensures forall m :: 0 <= m < g.ninodes && m != i ==> Contents(g, v, m) == Contents(g, s, m)
  {
    hide Refs, Bits, Slot, Mounted, Contents, Recovered, Confined;
    if k <= |h| {
      MountedSame(g, v, s);
    } else {
      MountedSame(g, v, u);
    }
  }
}

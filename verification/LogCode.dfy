/** The sequential code of log.c that commits and recovers, on the blocks bread returns. */
module LogCode {
  import opened Blocks
  import opened Log
  import opened Seqs

  class LogArea {
    var disk: Disk             // sectors on the device
    var cache: Disk            // what bread returns
    var lh: seq<word>          // log.lh: n and sector[0..n)
    ghost var crashes: seq<Disk>  // what a crash right after each sector write leaves behind

    /** Header and log blocks are always written through. */
    ghost predicate Valid()
      reads this
    {
      && disk.SameShape(cache) && HomeSectors(disk, lh)
      && cache.head == disk.head && cache.log == disk.log
    }

    constructor (disk: Disk)
      ensures Valid() && this.disk == disk && cache == disk && lh == [] && crashes == []
    {
      this.disk, cache, lh, crashes := disk, disk, [], [];
    }

    method Bwrite(sector: nat, data: Block)
      requires Valid()
      modifies `disk, `cache, `crashes
      ensures Valid() && disk == old(disk).Put(sector, data) && cache == old(cache).Put(sector, data)
      ensures crashes == old(crashes) + [disk]
    {
      disk, cache := disk.Put(sector, data), cache.Put(sector, data);
      crashes := crashes + [disk];
    }

    method InstallTrans()
      requires Valid()
      modifies `disk, `cache, `crashes
      ensures Valid()
      ensures disk == Installed(old(disk), lh, |lh|) && cache == Installed(old(cache), lh, |lh|)
      ensures |crashes| == |old(crashes)| + |lh| && old(crashes) <= crashes
      ensures forall k :: |old(crashes)| <= k < |crashes| ==>
                              crashes[k] == Installed(old(disk), lh, k - |old(crashes)| + 1)
    {
      var tail := 0;
      while tail < |lh|
        invariant Valid() && tail <= |lh|
        invariant disk == Installed(old(disk), lh, tail) && cache == Installed(old(cache), lh, tail)
        invariant |crashes| == |old(crashes)| + tail && old(crashes) <= crashes
        invariant forall k :: |old(crashes)| <= k < |crashes| ==>
                              crashes[k] == Installed(old(disk), lh, k - |old(crashes)| + 1)
      {
        Bwrite(lh[tail], cache.Get(|cache.home| + tail + 1));
        tail := tail + 1;
      }
    }

    method ReadHead()
      requires Valid() && WellFormed(cache)
      modifies `lh
      ensures Valid() && lh == Header(cache.head)
    {
      var buf := cache.Get(|cache.home|);
      var n := Word(buf, 0);
      lh := [];
      var i := 0;
      while i < n
        invariant i <= n && lh == Words(buf, 1, i)
      {
        lh := lh + [Word(buf, 1 + i)];
        i := i + 1;
      }
    }

    method WriteHead()
      requires Valid()
      modifies `disk, `cache, `crashes
      ensures Valid()
      ensures disk == old(disk).(head := PutHeader(old(disk).head, lh))
      ensures cache == old(cache).(head := PutHeader(old(disk).head, lh))
      ensures crashes == old(crashes) + [disk]
    {
      var buf := cache.Get(|cache.home|);
      ghost var all := [|lh|] + lh;
      var hb := PutWord(buf, 0, |lh|);
      var i := 0;
      assert hb == PutWords(buf, 0, all[..1]);
      while i < |lh|
        invariant i <= |lh| && hb == PutWords(buf, 0, all[..i + 1])
      {
        assert all[..i + 2][..i + 1] == all[..i + 1];
        hb := PutWord(hb, 1 + i, lh[i]);
        i := i + 1;
      }
      assert all[..i + 1] == all;
      Bwrite(|cache.home|, hb);
    }

    /** recover_from_log, on the freshly read disk: the disk passes exactly through the states
        whose safety Log.RecoveryPrefix states. */
    method RecoverFromLog()
      requires Valid() && WellFormed(disk) && cache == disk
      modifies `disk, `cache, `crashes, `lh
      ensures Valid() && lh == [] && cache == disk
      ensures disk.home == Logical(old(disk)) && Count(disk.head) == 0
      ensures |crashes| == |old(crashes)| + RecoveryLength(old(disk))
      ensures forall k :: |old(crashes)| <= k < |crashes| ==>
                              crashes[k] == AfterRecovery(old(disk), k - |old(crashes)| + 1)
    {
      ReadHead();
      InstallTrans();
      lh := [];
      WriteHead();
    }

    method WriteLog()
      requires Valid()
      modifies `disk, `cache, `crashes
      ensures Valid()
      ensures disk == Logged(old(disk), old(cache), lh, |lh|) && cache == Logged(old(cache), old(cache), lh, |lh|)
      ensures |crashes| == |old(crashes)| + |lh| && old(crashes) <= crashes
      ensures forall k :: |old(crashes)| <= k < |crashes| ==>
                              crashes[k] == Logged(old(disk), old(cache), lh, k - |old(crashes)| + 1)
    {
      var tail := 0;
      while tail < |lh|
        invariant Valid() && tail <= |lh|
        invariant disk == Logged(old(disk), old(cache), lh, tail) && cache == Logged(old(cache), old(cache), lh, tail)
        invariant |crashes| == |old(crashes)| + tail && old(crashes) <= crashes
        invariant forall k :: |old(crashes)| <= k < |crashes| ==>
                              crashes[k] == Logged(old(disk), old(cache), lh, k - |old(crashes)| + 1)
      {
        Bwrite(|cache.home| + tail + 1, cache.Get(lh[tail]));
        tail := tail + 1;
      }
    }

    /** log_write of a buffer whose new contents are `data`: the guard, the search for the sector,
        and the pinned block. What the next commit needs keeps holding. */
    method LogWrite(sector: word, data: Block, outstanding: nat) returns (panicked: bool)
      requires Valid() && ReadyToCommit(disk, cache, lh) && sector < |cache.home|
      modifies `cache, `lh
      ensures panicked <==> GuardFails(|old(lh)|, |disk.log|) || outstanding < 1
      ensures panicked ==> lh == old(lh) && cache == old(cache)
      ensures !panicked ==> lh == Absorb(old(lh), sector) && cache == old(cache).Put(sector, data)
      ensures !panicked ==> forall b :: b in lh <==> b in old(lh) || b == sector
      ensures Distinct(old(lh)) ==> Distinct(lh)
      ensures !panicked ==> |lh| == |old(lh)| + if sector in old(lh) then 0 else 1
      ensures Valid() && ReadyToCommit(disk, cache, lh)
    {
      if |lh| >= LOGSIZE || |lh| >= |disk.log| || outstanding < 1 {
        return true;
      }
      panicked := false;
      var i := 0;
      while i < |lh| && lh[i] != sector
        invariant i <= |lh| && sector !in lh[..i]
      {
        i := i + 1;
      }
      if i == |lh| {
        assert lh[..i] == lh;
        lh := lh + [sector];
      } else {
        lh := lh[i := sector];
      }
      cache := cache.Put(sector, data);
    }

    /** commit: the disk passes exactly through the states Log.CrashAtomicity speaks about. */
    method Commit()
      requires Valid() && ReadyToCommit(disk, cache, lh)
      modifies `disk, `cache, `crashes, `lh
      ensures Valid() && lh == []
      ensures disk.home == cache.home == old(cache).home && Count(disk.head) == 0
      ensures |crashes| == |old(crashes)| + CommitLength(old(lh))
      ensures forall k :: |old(crashes)| <= k < |crashes| ==>
                              crashes[k] == AfterCommit(old(disk), old(cache), old(lh), k - |old(crashes)| + 1)
    {
      hide Overlay, Copied, Header, PutHeader, AfterCommit, ReadyToCommit, HeaderDisk;
      if |lh| > 0 {
        CommitHomes(disk, cache, lh);
        ghost var d, c, h := disk, cache, lh;
        HeaderIs(d, c, h);
        WriteLog();
        ghost var logged := crashes;
        WriteHead();
        InstallTrans();
        ghost var installed := crashes;
        lh := [];
        WriteHead();
        CommitTrace(d, c, h, |old(crashes)|, logged, installed, crashes);
      } else {
        NothingLogged(disk, cache, lh);
      }
    }
  }

  /** A disk after install_trans has copied the first n log blocks home. */
  function Installed(d: Disk, h: seq<nat>, n: nat): Disk
    requires n <= |h| <= |d.log| && forall i :: 0 <= i < |h| ==> h[i] < |d.home|
  {
    d.(home := Overlay(d.home, h, d.log, n))
  }

  lemma {:induction false} CommitHomes(d: Disk, c: Disk, h: seq<word>)
    requires ReadyToCommit(d, c, h)
    ensures var v := Copied(d.log, c, h, |h|);
            Overlay(d.home, h, v, |h|) == c.home == Overlay(c.home, h, v, |h|)
  {
    var v := Copied(d.log, c, h, |h|);
    OverlayNewer(d.home, c.home, h, v);
    OverlayNewer(c.home, c.home, h, v);
  }

  lemma {:induction false} CommitPhase(d: Disk, c: Disk, h: seq<word>, k: nat)
    requires ReadyToCommit(d, c, h) && h != [] && 0 < k <= CommitLength(h)
    ensures var e, g := AfterCommit(d, c, h, k), HeaderDisk(d, c, h);
            && (k <= |h| ==> e == Logged(d, c, h, k))
            && (k == |h| + 1 ==> e == g)
            && (|h| < k <= 2 * |h| + 1 ==> e == Installed(g, h, k - |h| - 1))
            && (k == CommitLength(h) ==> e == Disk(c.home, PutHeader(g.head, []), g.log))
  {
    HeaderCommits(d, c, h);
  }

  lemma {:induction false} NothingLogged(d: Disk, c: Disk, h: seq<word>)
    requires ReadyToCommit(d, c, h) && h == []
    ensures d.home == c.home && Count(d.head) == 0 && CommitLength(h) == 0
  {
    assert d.home == c.home;
  }

  lemma {:induction false} HeaderIs(d: Disk, c: Disk, h: seq<word>)
    requires ReadyToCommit(d, c, h)
    ensures |h| <= LOGSIZE && |h| <= |d.log| && d.SameShape(c) && forall i :: 0 <= i < |h| ==> h[i] < |c.home|
    ensures HeaderDisk(d, c, h) == Logged(d, c, h, |h|).(head := PutHeader(d.head, h))
  {
  }

  /** The states that the four parts of commit leave behind are those of AfterCommit. */
  lemma {:induction false} CommitTrace(d: Disk, c: Disk, h: seq<word>, base: nat,
                                       logged: seq<Disk>, installed: seq<Disk>, all: seq<Disk>)
    requires ReadyToCommit(d, c, h) && h != []
    requires |logged| == base + |h| && |installed| == |logged| + 1 + |h| && |all| == |installed| + 1
    requires logged <= installed <= all
    requires forall k :: base <= k < |logged| ==> logged[k] == Logged(d, c, h, k - base + 1)
    requires installed[|logged|] == HeaderDisk(d, c, h)
    requires forall k :: |logged| < k < |installed| ==>
               installed[k] == Installed(HeaderDisk(d, c, h), h, k - (|logged| + 1) + 1)
    requires var g := HeaderDisk(d, c, h); all[|installed|] == Disk(c.home, PutHeader(g.head, []), g.log)
    ensures forall k :: base <= k < |all| ==> all[k] == AfterCommit(d, c, h, k - base + 1)
  {
    hide Logged, Installed, AfterCommit, HeaderDisk, ReadyToCommit;
    forall k | base <= k < |all|
      ensures all[k] == AfterCommit(d, c, h, k - base + 1)
    {
      CommitPhase(d, c, h, k - base + 1);
      assert k < |logged| ==> all[k] == installed[k] == logged[k];
      assert k < |installed| ==> all[k] == installed[k];
    }
  }

  /** A disk after write_log has copied the first n cached blocks to the log. */
  function Logged(d: Disk, cache: Disk, h: seq<nat>, n: nat): Disk
    requires n <= |h| <= |d.log| && forall i :: 0 <= i < |h| ==> h[i] < |cache.home|
  {
    d.(log := Copied(d.log, cache, h, n))
  }
}

/** The write-ahead log of log.c on a disk whose single-sector writes are atomic.

    A run of the log code is described by the sector writes it issues, and a crash keeps a prefix
    of them. `Logical` is what recovery makes of a disk; the theorems say that the only write of a
    whole commit that changes it is the write of the non-empty header. */
module Log {
  import opened Blocks

  const MAXOPBLOCKS := 10
  const LOGSIZE := 3 * MAXOPBLOCKS

  /** Sectors in order: the home blocks, the log header at log.start, the log blocks. So log.start
      is |home| and log.size is 1 + |log|. */
  datatype Disk = Disk(home: seq<Block>, head: Block, log: seq<Block>) {

    function Sectors(): nat {
      |home| + 1 + |log|
    }

    function Get(s: nat): Block
      requires s < Sectors()
    {
      if s < |home| then home[s] else if s == |home| then head else log[s - |home| - 1]
    }

    /** A single-sector write; one beyond the end of the disk changes nothing on it. */
    function Put(s: nat, b: Block): (r: Disk)
      ensures r.SameShape(this)
    {
      if s < |home| then this.(home := home[s := b])
      else if s == |home| then this.(head := b)
      else if s < Sectors() then this.(log := log[s - |home| - 1 := b])
      else this
    }

    predicate SameShape(d: Disk) {
      |home| == |d.home| && |log| == |d.log|
    }
  }

  datatype Write = Write(sector: nat, data: Block)

  function Apply(d: Disk, w: Write): Disk {
    d.Put(w.sector, w.data)
  }

  // ------------------------------------------------------------------ the on-disk header

  /** n as stored in a header block. */
  function Count(b: Block): word {
    Word(b, 0)
  }

  /** sector[0..n) as stored in a header block. */
  function Header(b: Block): seq<word>
    requires Count(b) <= LOGSIZE
  {
    Words(b, 1, Count(b))
  }

  /** write_head leaves the words behind the n'th entry as they were. */
  function PutHeader(b: Block, h: seq<word>): (r: Block)
    requires |h| <= LOGSIZE
    ensures Count(r) == |h| && Header(r) == h
  {
    HeaderOfPutWords(b, h);
    PutWords(b, 0, [|h|] + h)
  }

  lemma {:induction false} HeaderOfPutWords(b: Block, h: seq<word>)
    requires |h| <= LOGSIZE
    ensures var r := PutWords(b, 0, [|h|] + h); Count(r) == |h| && Header(r) == h
  {
    var ws := [|h|] + h;
    var r := PutWords(b, 0, ws);
    WordOfPutWords(b, 0, ws, 0);
    forall i | 0 <= i < |h|
      ensures Header(r)[i] == h[i]
    {
      WordsAt(r, 1, |h|, i);
      WordOfPutWords(b, 0, ws, 1 + i);
    }
  }

  // ------------------------------------------------------------------ the meaning of a disk

  /** Sectors a transaction may log: below the log, and no more of them than it has room for. */
  ghost predicate HomeSectors(d: Disk, h: seq<nat>) {
    && |h| <= LOGSIZE && |h| <= |d.log|
    && forall i :: 0 <= i < |h| ==> h[i] < |d.home|
  }

  ghost predicate WellFormed(d: Disk) {
    Count(d.head) <= LOGSIZE && HomeSectors(d, Header(d.head))
  }

  /** `home` with sector h[i] replaced by v[i], for i = 0, 1, ..., n-1 in turn. */
  function Overlay(home: seq<Block>, h: seq<nat>, v: seq<Block>, n: nat): (r: seq<Block>)
    requires n <= |h| && n <= |v|
    requires forall i :: 0 <= i < |h| ==> h[i] < |home|
    ensures |r| == |home|
  {
    if n == 0 then home else Overlay(home, h, v, n - 1)[h[n - 1] := v[n - 1]]
  }

  /** The home blocks a disk stands for: those in place, overlaid with the logged ones. */
  ghost function Logical(d: Disk): (home: seq<Block>)
    requires WellFormed(d)
  {
    var h := Header(d.head);
    Overlay(d.home, h, d.log, |h|)
  }

  lemma {:induction false} EmptyLog(d: Disk)
    requires Count(d.head) == 0
    ensures WellFormed(d) && Logical(d) == d.home
  {
    assert Header(d.head) == [];
  }

  /** s is one of the first n sectors of h. */
  predicate Among(h: seq<nat>, n: nat, s: nat)
    requires n <= |h|
  {
    exists i :: 0 <= i < n && h[i] == s
  }

  /** Overlaying reads the old contents only outside the overlaid sectors. */
  lemma {:induction false} OverlayAt(x: seq<Block>, y: seq<Block>, h: seq<nat>, v: seq<Block>, n: nat, s: nat)
    requires n <= |h| && n <= |v| && |x| == |y| && s < |x|
    requires forall i :: 0 <= i < |h| ==> h[i] < |x|
    ensures Among(h, n, s) || x[s] == y[s] ==> Overlay(x, h, v, n)[s] == Overlay(y, h, v, n)[s]
    ensures !Among(h, n, s) ==> Overlay(x, h, v, n)[s] == x[s]
    ensures Among(h, n, s) ==> exists i :: 0 <= i < n && h[i] == s && Overlay(x, h, v, n)[s] == v[i]
  {
    if n > 0 {
      assert Among(h, n, s) <==> Among(h, n - 1, s) || s == h[n - 1];
      OverlayAt(x, y, h, v, n - 1, s);
    }
  }

  /** Two disks that differ only in overlaid sectors look the same afterwards. */
  lemma {:induction false} OverlaySame(x: seq<Block>, y: seq<Block>, h: seq<nat>, v: seq<Block>)
    requires |h| <= |v| && |x| == |y|
    requires forall i :: 0 <= i < |h| ==> h[i] < |x|
    requires forall s :: 0 <= s < |x| ==> Among(h, |h|, s) || x[s] == y[s]
    ensures Overlay(x, h, v, |h|) == Overlay(y, h, v, |h|)
  {
    forall s | 0 <= s < |x|
      ensures Overlay(x, h, v, |h|)[s] == Overlay(y, h, v, |h|)[s]
    {
      OverlayAt(x, y, h, v, |h|, s);
    }
  }

  /** Installing any part of the logged blocks of a committed log changes nothing logically. */
  lemma {:induction false} InstallPrefix(d: Disk, k: nat)
    requires WellFormed(d) && k <= |Header(d.head)|
    ensures var e := d.(home := Overlay(d.home, Header(d.head), d.log, k));
            WellFormed(e) && Logical(e) == Logical(d)
  {
    var h := Header(d.head);
    var e := d.(home := Overlay(d.home, h, d.log, k));
    forall s | 0 <= s < |d.home|
      ensures Among(h, |h|, s) || e.home[s] == d.home[s]
    {
      OverlayAt(d.home, d.home, h, d.log, k, s);
    }
    OverlaySame(e.home, d.home, h, d.log);
  }

  // ------------------------------------------------------------------ recovery

  /** recover_from_log issues one write per logged block, then clears the header. */
  function RecoveryLength(d: Disk): nat
    requires Count(d.head) <= LOGSIZE
  {
    |Header(d.head)| + 1
  }

  function RecoveryWrite(d: Disk, i: nat): Write
    requires Count(d.head) <= LOGSIZE && |Header(d.head)| <= |d.log| && i < RecoveryLength(d)
  {
    var h := Header(d.head);
    if i < |h| then Write(h[i], d.log[i]) else Write(|d.home|, PutHeader(d.head, []))
  }

  /** The disk after the first k writes of a recovery of d. */
  ghost function AfterRecovery(d: Disk, k: nat): (e: Disk)
    requires WellFormed(d) && k <= RecoveryLength(d)
  {
    var h := Header(d.head);
    if k <= |h| then d.(home := Overlay(d.home, h, d.log, k))
    else Disk(Logical(d), PutHeader(d.head, []), d.log)
  }

  lemma {:induction false} RecoveryStep(d: Disk, k: nat)
    requires WellFormed(d) && k < RecoveryLength(d)
    ensures AfterRecovery(d, 0) == d
    ensures AfterRecovery(d, k + 1) == Apply(AfterRecovery(d, k), RecoveryWrite(d, k))
  {
  }

  /** Cut recovery after any number of writes: the disk still stands for the same home blocks;
      run it to the end: they are in place and the log is empty. */
  lemma {:induction false} RecoveryPrefix(d: Disk, k: nat)
    requires WellFormed(d) && k <= RecoveryLength(d)
    ensures var e := AfterRecovery(d, k);
            && WellFormed(e) && Logical(e) == Logical(d)
            && (k == RecoveryLength(d) ==> e.home == Logical(d) && Count(e.head) == 0)
  {
    if k < RecoveryLength(d) {
      InstallPrefix(d, k);
    } else {
      EmptyLog(AfterRecovery(d, k));
    }
  }

  /** The disk after booting |cuts| times, the i'th recovery crashing after cuts[i] writes
      (or as many as it makes). */
  ghost function Reboots(d: Disk, cuts: seq<nat>): (e: Disk)
    requires WellFormed(d)
    ensures WellFormed(e)
  {
    if cuts == [] then d
    else
      var before := Reboots(d, cuts[..|cuts| - 1]);
      var cut := cuts[|cuts| - 1];
      var k := if cut <= RecoveryLength(before) then cut else RecoveryLength(before);
      RecoveryPrefix(before, k);
      AfterRecovery(before, k)
  }

  /** However often recovery is interrupted, the recovery that completes restores Logical(d). */
  lemma {:induction false} RecoveryRestores(d: Disk, cuts: seq<nat>)
    requires WellFormed(d)
    ensures var e := Reboots(d, cuts);
            var f := AfterRecovery(e, RecoveryLength(e));
            Logical(e) == Logical(d) == f.home && Count(f.head) == 0
  {
    if cuts != [] {
      var before := Reboots(d, cuts[..|cuts| - 1]);
      RecoveryRestores(d, cuts[..|cuts| - 1]);
      var cut := cuts[|cuts| - 1];
      RecoveryPrefix(before, if cut <= RecoveryLength(before) then cut else RecoveryLength(before));
    }
    var e := Reboots(d, cuts);
    RecoveryPrefix(e, RecoveryLength(e));
  }

  // ------------------------------------------------------------------ log_write and commit

  /** The guard of log_write panics: the header has n entries, and the log `room` blocks behind it. */
  predicate GuardFails(n: nat, room: nat) {
    n >= LOGSIZE || n >= room
  }

  /** log_write records a sector once per transaction (absorption). */
  function Absorb(lh: seq<word>, s: word): seq<word> {
    if s in lh then lh else lh + [s]
  }

  /** What holds when commit() starts: the on-disk log is empty, and every block whose cached
      contents are newer than its disk contents is in the in-memory header. */
  ghost predicate ReadyToCommit(disk: Disk, cache: Disk, h: seq<nat>) {
    && disk.SameShape(cache) && HomeSectors(disk, h)
    && Count(disk.head) == 0 && cache.head == disk.head
    && forall s :: 0 <= s < |disk.home| && cache.home[s] != disk.home[s] ==> s in h
  }

  /** commit() issues nothing for an empty header; otherwise write_log, write_head,
      install_trans and write_head again. */
  function CommitLength(h: seq<nat>): nat {
    if h == [] then 0 else 2 * |h| + 2
  }

  function CommitWrite(cache: Disk, h: seq<word>, i: nat): Write
    requires |h| <= LOGSIZE && (forall j :: 0 <= j < |h| ==> h[j] < |cache.home|)
    requires i < CommitLength(h)
  {
    var n, committed := |h|, PutHeader(cache.head, h);
    if i < n then Write(|cache.home| + 1 + i, cache.home[h[i]])
    else if i == n then Write(|cache.home|, committed)
    else if i <= 2 * n then Write(h[i - n - 1], cache.home[h[i - n - 1]])
    else Write(|cache.home|, PutHeader(committed, []))
  }

  /** The log area after write_log has copied the first k blocks. */
  function Copied(log: seq<Block>, cache: Disk, h: seq<nat>, k: nat): (r: seq<Block>)
    requires k <= |h| <= |log| && forall j :: 0 <= j < |h| ==> h[j] < |cache.home|
    ensures |r| == |log| && forall i :: 0 <= i < k ==> r[i] == cache.home[h[i]]
  {
    if k == 0 then log else Copied(log, cache, h, k - 1)[k - 1 := cache.home[h[k - 1]]]
  }

  /** The disk right after the non-empty header is written. */
  ghost function HeaderDisk(disk: Disk, cache: Disk, h: seq<word>): (d: Disk)
    requires ReadyToCommit(disk, cache, h)
    ensures WellFormed(d)
  {
    Disk(disk.home, PutHeader(cache.head, h), Copied(disk.log, cache, h, |h|))
  }

  /** The disk after the first k writes of a commit: a partly filled log area; from the header
      write on, a partial recovery of the committed disk. */
  ghost function AfterCommit(disk: Disk, cache: Disk, h: seq<word>, k: nat): (e: Disk)
    requires ReadyToCommit(disk, cache, h) && k <= CommitLength(h)
  {
    if k <= |h| then disk.(log := Copied(disk.log, cache, h, k))
    else AfterRecovery(HeaderDisk(disk, cache, h), k - |h| - 1)
  }

  lemma {:induction false} CommitStep(disk: Disk, cache: Disk, h: seq<word>, k: nat)
    requires ReadyToCommit(disk, cache, h) && k < CommitLength(h)
    ensures AfterCommit(disk, cache, h, 0) == disk
    ensures AfterCommit(disk, cache, h, k + 1) == Apply(AfterCommit(disk, cache, h, k), CommitWrite(cache, h, k))
  {
    if k > |h| {
      InstallStep(disk, cache, h, k);
    } else if k == |h| {
      HeaderStep(disk, cache, h);
    }
  }

  /** The header write. */
  lemma {:induction false} HeaderStep(disk: Disk, cache: Disk, h: seq<word>)
    requires ReadyToCommit(disk, cache, h) && h != []
    ensures AfterCommit(disk, cache, h, |h| + 1) ==
            Apply(AfterCommit(disk, cache, h, |h|), CommitWrite(cache, h, |h|))
  {
    hide AfterRecovery, Copied;
    RecoveryStep(HeaderDisk(disk, cache, h), 0);
  }

  /** The writes behind it are those of a recovery. */
  lemma {:induction false} InstallStep(disk: Disk, cache: Disk, h: seq<word>, k: nat)
    requires ReadyToCommit(disk, cache, h) && |h| < k < CommitLength(h)
    ensures AfterCommit(disk, cache, h, k + 1) == Apply(AfterCommit(disk, cache, h, k), CommitWrite(cache, h, k))
  {
    hide AfterRecovery;
    var d := HeaderDisk(disk, cache, h);
    RecoveryStep(d, k - |h| - 1);
    assert CommitWrite(cache, h, k) == RecoveryWrite(d, k - |h| - 1);
  }

  /** Overlaying the newer blocks on the older ones yields the newer ones. */
  lemma {:induction false} OverlayNewer(older: seq<Block>, newer: seq<Block>, h: seq<nat>, v: seq<Block>)
    requires |h| <= |v| && |older| == |newer|
    requires forall i :: 0 <= i < |h| ==> h[i] < |newer| && v[i] == newer[h[i]]
    requires forall s :: 0 <= s < |older| && newer[s] != older[s] ==> s in h
    ensures Overlay(older, h, v, |h|) == newer
  {
    forall s | 0 <= s < |older|
      ensures Overlay(older, h, v, |h|)[s] == newer[s]
    {
      OverlayAt(older, older, h, v, |h|, s);
    }
  }

  /** The committed disk stands for the cached blocks. */
  lemma {:induction false} HeaderCommits(disk: Disk, cache: Disk, h: seq<word>)
    requires ReadyToCommit(disk, cache, h)
    ensures Logical(HeaderDisk(disk, cache, h)) == cache.home
  {
    OverlayNewer(disk.home, cache.home, h, HeaderDisk(disk, cache, h).log);
  }

  /** Crash atomicity of commit(): cut it after any k writes. Up to and including the last log
      block the disk stands for the old home blocks; from the header write on, for the new ones. */
  lemma {:induction false} CommitPrefix(disk: Disk, cache: Disk, h: seq<word>, k: nat)
    requires ReadyToCommit(disk, cache, h) && k <= CommitLength(h)
    ensures var e := AfterCommit(disk, cache, h, k);
            && WellFormed(e)
            && Logical(e) == (if k <= |h| then disk else cache).home
            && (k == CommitLength(h) ==> e.home == cache.home && Count(e.head) == 0)
  {
    if h == [] {
      EmptyLog(disk);
      assert disk.home == cache.home;
    } else if k <= |h| {
      EmptyLog(AfterCommit(disk, cache, h, k));
    } else {
      HeaderCommits(disk, cache, h);
      RecoveryPrefix(HeaderDisk(disk, cache, h), k - |h| - 1);
    }
  }

  /** End to end: a commit cut after k writes, then any number of interrupted recoveries, then
      one that completes. */
  lemma {:induction false} CrashAtomicity(disk: Disk, cache: Disk, h: seq<word>, k: nat, cuts: seq<nat>)
    requires ReadyToCommit(disk, cache, h) && k <= CommitLength(h)
    ensures var crashed := AfterCommit(disk, cache, h, k);
            && WellFormed(crashed)
            && var e := Reboots(crashed, cuts);
               var f := AfterRecovery(e, RecoveryLength(e));
               f.home == (if k <= |h| then disk else cache).home && Count(f.head) == 0
  {
    CommitPrefix(disk, cache, h, k);
    RecoveryRestores(AfterCommit(disk, cache, h, k), cuts);
  }
}

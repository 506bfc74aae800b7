/** The code of fs.c and file.c on the blocks bread returns. A panic stops the kernel; the methods
    report it. */
module FsCode {
  import opened Blocks
  import opened FsLayout
  import opened FsState
  import opened FsFiles
  import opened FsWrite
  import opened FsOverwrite
  import opened FsTrunc
  import opened FsFormat
  import Log

  const T_DEV := 3
  const CHUNK := 6656          // filewrite's max: ((LOGSIZE - 1 - 1 - 2) / 2) * 512

  /** off + n in 32-bit unsigned arithmetic. */
  function Add32(x: word, y: word): word {
    (x + y) % 0x1_0000_0000
  }

  function Min(x: int, y: int): int {
    if x < y then x else y
  }

  /** An open file that is an inode. */
  class OpenFile {
    const writable: bool
    const ip: nat
    var off: word

    constructor (writable: bool, ip: nat, off: word)
      ensures this.writable == writable && this.ip == ip && this.off == off
    {
      this.writable, this.ip, this.off := writable, ip, off;
    }
  }

  class FileSystem {
    const g: Geo
    var fs: FS                       // blocks, in-memory fs.inodes, and the owners of the blocks
    ghost var log: Txn               // what has been passed to log_write since begin_op

    constructor (g: Geo, fs: FS)
      ensures this.g == g && this.fs == fs && log == Logging({}, [], 0)
    {
      this.g, this.fs, log := g, fs, Logging({}, [], 0);
    }

    /** log_write of a block, from the view of the transaction. */
    ghost method LogWrite(b: nat)
      requires b < 0x8000_0000
      modifies `log
      ensures log == Logs(old(log), b)
      ensures Peaked(old(log.sectors), old(log.peak), log.sectors, log.peak)
    {
      Within(log.sectors, log.sectors + {b});
      log := Logs(log, b);
    }

    /** What balloc does with the block it has found. */
    method MarkAndZero(b: nat)
      requires g.Valid() && |fs.disk| == g.size && b < g.size
      modifies `fs, `log
      ensures fs == old(fs).(disk := Taken(g, old(fs).disk, b)) && log.sectors == old(log.sectors) + {g.BBlock(b), b}
      ensures Peaked(old(log.sectors), old(log.peak), log.sectors, log.peak)
    {
      fs := fs.(disk := fs.disk[g.BBlock(b) := PutBitAt(fs.disk[g.BBlock(b)], b % 4096, true)]);
      LogWrite(g.BBlock(b));
      ghost var mid, top := log.sectors, log.peak;
      fs := fs.(disk := fs.disk[b := ZeroBlock()]);
      LogWrite(b);
      PeakedTrans(old(log.sectors), old(log.peak), mid, top, log.sectors, log.peak);
    }

    /** The inner loop of balloc: the first clear bit of the bitmap block for the blocks from base on. */
    method ScanBits(base: nat) returns (bi: nat)
      requires g.Valid() && |fs.disk| == g.size && base < g.size && base % 4096 == 0
      ensures bi <= BPB && (bi < BPB && base + bi < g.size ==> !Bit(g, fs.disk, base + bi))
      ensures forall c :: base <= c < base + bi && c < g.size ==> Bit(g, fs.disk, c)
    {
      hide BitAt, Bit;
      var bp := fs.disk[g.BBlock(base)];
      bi := 0;
      while bi < BPB && base + bi < g.size
        invariant bi <= BPB && forall c :: base <= c < base + bi && c < g.size ==> Bit(g, fs.disk, c)
      {
        BitIn(g, fs.disk, base, bi);
        if !BitAt(bp, bi) {
          return;
        }
        bi := bi + 1;
      }
    }

    /** balloc: the first free block, marked and zeroed; a panic if there is none. */
    method Balloc() returns (b: nat, panicked: bool)
      requires g.Valid() && |fs.disk| == g.size
      modifies `fs, `log
      ensures panicked <==> forall c :: 0 <= c < g.size ==> Bit(g, old(fs).disk, c)
      ensures panicked ==> fs == old(fs) && log == old(log)
      ensures !panicked ==> FirstFree(g, old(fs).disk, b) && fs == old(fs).(disk := Taken(g, old(fs).disk, b))
      ensures !panicked ==> log.sectors == old(log.sectors) + {g.BBlock(b), b}
      ensures Peaked(old(log.sectors), old(log.peak), log.sectors, log.peak)
    {
      hide Bit;
      var base := 0;
      while base < g.size
        invariant fs == old(fs) && log == old(log) && base % 4096 == 0
        invariant forall c :: 0 <= c < base && c < g.size ==> Bit(g, fs.disk, c)
      {
        var bi := ScanBits(base);
        if bi < BPB && base + bi < g.size {
          b := base + bi;
          MarkAndZero(b);
          return b, false;
        }
        base := base + BPB;
      }
      return 0, true;
    }

    /** bfree: clears the bit; a panic if it is clear already. */
    method Bfree(b: nat) returns (panicked: bool)
      requires g.Valid() && |fs.disk| == g.size && b < g.size
      modifies `fs, `log
      ensures panicked <==> !Bit(g, old(fs).disk, b)
      ensures panicked ==> fs == old(fs) && log == old(log)
      ensures !panicked ==> fs == old(fs).(disk := Mark(g, old(fs).disk, b, false))
      ensures !panicked ==> log.sectors == old(log.sectors) + {g.BBlock(b)}
    {
      var bp := fs.disk[g.BBlock(b)];
      var bi := b % 4096;
      if !BitAt(bp, bi) {
        return true;
      }
      fs := fs.(disk := fs.disk[g.BBlock(b) := PutBitAt(bp, bi, false)]);
      LogWrite(g.BBlock(b));
      return false;
    }

    /** Room is what balloc looks for. */
    ghost predicate Full()
      reads this
      requires g.Valid() && |fs.disk| == g.size
    {
      forall c :: 0 <= c < g.size ==> Bit(g, fs.disk, c)
    }

    /** Take a block for entry k of ip->addrs, which is empty: the two places of bmap that do. */
    method BallocInode(i: nat, k: nat) returns (b: nat, panicked: bool)
      requires Accounted(g, fs) && i < g.ninodes && k <= NDIRECT && Slot(fs, i, k) == 0
      modifies `fs, `log
      ensures panicked ==> |fs.disk| == g.size && Full() && log.sectors == old(log.sectors)
      ensures Peaked(old(log.sectors), old(log.peak), log.sectors, log.peak)
      ensures !panicked ==> Accounted(g, fs) && Extends(g, old(fs), fs, i)
      ensures !panicked ==> b != 0 && Slot(fs, i, k) == b && b < g.size && fs.disk[b] == ZeroBlock()
      ensures !panicked ==> log.sectors == old(log.sectors) + {g.BBlock(b), b}
      ensures !panicked ==> Confined(g, old(fs).disk, old(log.sectors), fs.disk, log.sectors)
    {
      ghost var s := fs;
      b, panicked := Balloc();
      if panicked {
        return;
      }
      AttachInodeExtends(g, s, i, k, b);
      ConfinedTaken(g, s, old(log.sectors), b);
      var ip := fs.inodes[i];
      fs := fs.(inodes := fs.inodes[i := ip.(addrs := ip.addrs[k := b])], owner := fs.owner[b := Ref(i, k)]);
      assert fs == AttachInode(g, s, i, k, b);
    }

    /** Take a block for entry j of the indirect block. */
    method BallocEntry(i: nat, j: nat) returns (b: nat, panicked: bool)
      requires g.Valid() && Shape(g, fs) && i < g.ninodes && j < NINDIRECT && fs.inodes[i].addrs[NDIRECT] < g.size
      modifies `fs, `log
      ensures panicked ==> |fs.disk| == g.size && Full() && log.sectors == old(log.sectors)
      ensures Peaked(old(log.sectors), old(log.peak), log.sectors, log.peak)
      ensures !panicked ==> b < g.size && !Bit(g, old(fs).disk, b) && fs == AttachEntry(g, old(fs), i, j, b)
      ensures !panicked ==> log.sectors == old(log.sectors) + {g.BBlock(b), b, fs.inodes[i].addrs[NDIRECT]}
    {
      b, panicked := Balloc();
      if panicked {
        return;
      }
      ghost var mid, top := log.sectors, log.peak;
      var a := fs.inodes[i].addrs[NDIRECT];
      fs := fs.(disk := fs.disk[a := PutWord(fs.disk[a], j, b)], owner := fs.owner[b := Ref(i, NDIRECT + 1 + j)]);
      LogWrite(a);
      PeakedTrans(old(log.sectors), old(log.peak), mid, top, log.sectors, log.peak);
    }

    /** bmap's "load indirect block, allocating if necessary". */
    method LoadIndirect(i: nat) returns (a: nat, panicked: bool)
      requires Accounted(g, fs) && i < g.ninodes
      modifies `fs, `log
      ensures panicked ==> |fs.disk| == g.size && Full() && log.sectors == old(log.sectors)
      ensures Peaked(old(log.sectors), old(log.peak), log.sectors, log.peak)
      ensures old(fs).inodes[i].addrs[NDIRECT] != 0 ==> !panicked && log == old(log)
      ensures !panicked ==> Accounted(g, fs) && Extends(g, old(fs), fs, i)
      ensures !panicked ==> a != 0 && a == fs.inodes[i].addrs[NDIRECT] && a < g.size
      ensures !panicked && old(fs).inodes[i].addrs[NDIRECT] != 0 ==> fs == old(fs) && log == old(log)
      ensures !panicked && old(fs).inodes[i].addrs[NDIRECT] == 0 ==>
                fs.disk[a] == ZeroBlock() && log.sectors == old(log.sectors) + {g.BBlock(a), a}
      ensures !panicked ==> Confined(g, old(fs).disk, old(log.sectors), fs.disk, log.sectors)
    {
      a, panicked := fs.inodes[i].addrs[NDIRECT], false;
      if a == 0 {
        a, panicked := BallocInode(i, NDIRECT);
      } else {
        IndirectOwned(g, fs, i);
        ExtendsRefl(g, fs, i);
      }
    }

    /** The part of bmap for the direct blocks. */
    method BmapDirect(i: nat, k: nat) returns (addr: nat, panicked: bool)
      requires Accounted(g, fs) && i < g.ninodes && k < NDIRECT
      modifies `fs, `log
      ensures panicked ==> |fs.disk| == g.size && Full() && log.sectors == old(log.sectors)
      ensures Peaked(old(log.sectors), old(log.peak), log.sectors, log.peak)
      ensures Slot(old(fs), i, k) != 0 ==> !panicked && log == old(log)
      ensures !panicked ==> Accounted(g, fs) && Extends(g, old(fs), fs, i)
      ensures !panicked ==> addr == Slot(fs, i, k) && addr != 0
      ensures !panicked && Slot(old(fs), i, k) != 0 ==> fs == old(fs) && log == old(log)
      ensures !panicked && Slot(old(fs), i, k) == 0 ==> addr < g.size && fs.disk[addr] == ZeroBlock()
      ensures !panicked ==> forall x :: x in log.sectors ==> x in old(log.sectors) || BmapLogs(g, old(fs), fs, i, k, x)
      ensures !panicked ==> Confined(g, old(fs).disk, old(log.sectors), fs.disk, log.sectors)
    {
      hide Refs, Bits, FilesStay;
      addr, panicked := fs.inodes[i].addrs[k], false;
      if addr == 0 {
        addr, panicked := BallocInode(i, k);
      } else {
        ExtendsRefl(g, fs, i);
      }
    }

    /** The part of bmap behind the direct blocks. */
    method BmapIndirect(i: nat, j: nat) returns (addr: nat, panicked: bool)
      requires Accounted(g, fs) && i < g.ninodes && j < NINDIRECT
      modifies `fs, `log
      ensures panicked ==> |fs.disk| == g.size && Full() && |log.sectors| <= |old(log.sectors)| + 2
      ensures Peaked(old(log.sectors), old(log.peak), log.sectors, log.peak)
      ensures Slot(old(fs), i, NDIRECT + 1 + j) != 0 ==> !panicked && log == old(log)
      ensures !panicked ==> Accounted(g, fs) && Extends(g, old(fs), fs, i)
      ensures !panicked ==> addr == Slot(fs, i, NDIRECT + 1 + j) && addr != 0
      ensures !panicked && Slot(old(fs), i, NDIRECT + 1 + j) != 0 ==> fs == old(fs) && log == old(log)
      ensures !panicked && Slot(old(fs), i, NDIRECT + 1 + j) == 0 ==> addr < g.size && fs.disk[addr] == ZeroBlock()
      ensures !panicked ==> forall x :: x in log.sectors ==>
                x in old(log.sectors) || BmapLogs(g, old(fs), fs, i, NDIRECT + j, x)
      ensures !panicked ==> Confined(g, old(fs).disk, old(log.sectors), fs.disk, log.sectors)
    {
      ghost var s := fs;
      var a;
      a, panicked := LoadIndirect(i);
      if panicked {
        return 0, true;
      }
      ghost var t, mid, top := fs, log.sectors, log.peak;
      addr := Word(fs.disk[a], j);
      ZeroWords(j);
      if addr == 0 {
        UnionSize(old(log.sectors), {g.BBlock(a), a});
        addr, panicked := BallocEntry(i, j);
        PeakedTrans(old(log.sectors), old(log.peak), mid, top, log.sectors, log.peak);
        if !panicked {
          AttachEntryAll(g, t, fs, i, j, addr);
          ExtendsTrans(g, s, t, fs, i);
          EntryLogs(g, s, t, fs, i, j, old(log.sectors), mid, log.sectors);
          EntryConfined(g, t, fs, i, j, addr, mid, log.sectors);
          ConfinedTrans(g, s.disk, old(log.sectors), t.disk, mid, fs.disk, log.sectors);
        }
      }
    }

    /** bmap: the block number of the bn'th block of file i, allocating it if it is missing. */
    method Bmap(i: nat, bn: nat) returns (addr: nat, panicked: bool)
      requires Accounted(g, fs) && i < g.ninodes
      modifies `fs, `log
      ensures panicked ==> bn >= MAXFILE || (|fs.disk| == g.size && Full())
      ensures panicked ==> |log.sectors| <= |old(log.sectors)| + 2
      ensures Peaked(old(log.sectors), old(log.peak), log.sectors, log.peak)
      ensures bn < MAXFILE && BlockOf(old(fs), i, bn) != 0 ==> !panicked && log == old(log)
      ensures !panicked ==> bn < MAXFILE && Accounted(g, fs) && Extends(g, old(fs), fs, i)
      ensures !panicked ==> addr == BlockOf(fs, i, bn) && addr != 0
      ensures !panicked && BlockOf(old(fs), i, bn) != 0 ==> fs == old(fs) && log == old(log)
      ensures !panicked && BlockOf(old(fs), i, bn) == 0 ==> addr < g.size && fs.disk[addr] == ZeroBlock()
      ensures !panicked ==> forall x :: x in log.sectors ==> x in old(log.sectors) || BmapLogs(g, old(fs), fs, i, bn, x)
      ensures !panicked ==> Confined(g, old(fs).disk, old(log.sectors), fs.disk, log.sectors)
    {
      hide Refs, Bits, Slot, FilesStay, BmapLogs, ZeroBlock, Bit, Fits;
      if bn < NDIRECT {
        assert SlotOf(bn) == bn;
        addr, panicked := BmapDirect(i, bn);
      } else if bn - NDIRECT < NINDIRECT {
        assert SlotOf(bn) == NDIRECT + 1 + (bn - NDIRECT);
        addr, panicked := BmapIndirect(i, bn - NDIRECT);
      } else {
        addr, panicked := 0, true;
      }
    }

    /** The body of readi's loop: k bytes at offset r of the bn'th block. */
    method ReadStep(i: nat, bn: nat, r: nat, k: nat) returns (chunk: seq<byte>)
      requires Consistent(g, fs) && i < g.ninodes
      requires bn * 512 + r + k <= fs.inodes[i].size && r + k <= BSIZE && k > 0
      modifies `fs, `log
      ensures fs == old(fs) && log == old(log)
      ensures chunk == Contents(g, fs, i)[bn * 512 + r..bn * 512 + r + k]
    {
      hide Slot, Refs, Bits, Fits, Extends, Data;
      MappedBelowSize(g, fs, i, bn);
      var addr, panicked := Bmap(i, bn);
      ReadChunk(g, fs, i, bn, r, k);
      chunk := fs.disk[addr].bytes[r..r + k];
    }

    /** readi's loop. */
    method ReadLoop(i: nat, off: nat, n: nat) returns (dst: seq<byte>)
      requires Consistent(g, fs) && i < g.ninodes && off + n <= fs.inodes[i].size
      modifies `fs, `log
      ensures fs == old(fs) && log == old(log)
      ensures dst == Contents(g, fs, i)[off..off + n]
    {
      hide Refs, Bits, Fits, Shape, ByteAt;
      ghost var c := Contents(g, fs, i);
      dst := [];
      var tot := 0;
      while tot < n
        invariant fs == old(fs) && log == old(log)
        invariant tot <= n && dst == c[off..off + tot]
      {
        var bn, r := (off + tot) / 512, (off + tot) % 512;
        var k := Min(n - tot, BSIZE - r);
        var chunk := ReadStep(i, bn, r, k);
        SliceJoin(c, off, off + tot, off + tot + k);
        dst, tot := dst + chunk, tot + k;
      }
    }

    /** readi of a file that is not a device. It allocates nothing, although it calls bmap. */
    method Readi(i: nat, off: word, n: word) returns (r: int, dst: seq<byte>)
      requires Consistent(g, fs) && i < g.ninodes && fs.inodes[i].kind != T_DEV
      modifies `fs, `log
      ensures fs == old(fs) && log == old(log)
      ensures r == -1 <==> off > fs.inodes[i].size || Add32(off, n) < off
      ensures r != -1 ==> r == |dst| == (if off + n > fs.inodes[i].size then fs.inodes[i].size - off else n)
      ensures r != -1 ==> dst == Contents(g, fs, i)[off..off + r]
    {
      hide Bytes, FileByte, BlockOf, NoHoles, Refs, Bits;
      dst := [];
      if off > fs.inodes[i].size || Add32(off, n) < off {
        return -1, dst;
      }
      var m: nat := n;
      if off + n > fs.inodes[i].size {
        m := fs.inodes[i].size - off;
      }
      dst := ReadLoop(i, off, m);
      return m, dst;
    }

    /** The body of writei's loop: the bytes of `chunk` at offset r of the bn'th block. */
    method WriteStep(i: nat, bn: nat, r: nat, chunk: seq<byte>) returns (panicked: bool)
      requires Accounted(g, fs) && i < g.ninodes && bn < MAXFILE && r + |chunk| <= BSIZE
      modifies `fs, `log
      ensures panicked ==> |fs.disk| == g.size && Full() && |log.sectors| <= |old(log.sectors)| + 2
      ensures Peaked(old(log.sectors), old(log.peak), log.sectors, log.peak)
      ensures BlockOf(old(fs), i, bn) != 0 ==>
                !panicked && SameMap(g, old(fs), fs, i) && log.sectors == old(log.sectors) + {BlockOf(old(fs), i, bn)}
      ensures !panicked ==> Step(g, old(fs), fs, i, bn, r, chunk)
      ensures !panicked ==> forall x :: x in log.sectors ==> x in old(log.sectors) || StepLogs(g, old(fs), fs, i, bn, x)
      ensures !panicked ==> Confined(g, old(fs).disk, old(log.sectors), fs.disk, log.sectors)
    {
      hide Slot, Refs, Bits, Extends, Data;
      ghost var s := fs;
      var addr;
      addr, panicked := Bmap(i, bn);
      if panicked {
        return;
      }
      ghost var t, mid, top := fs, log.sectors, log.peak;
      BmapThenFill(g, s, t, i, bn, r, chunk);
      FillLogs(g, s, t, i, bn, r, chunk);
      FilledMap(g, t, i, bn, r, chunk);
      BlockOwned(g, t, i, bn);
      ConfinedBlock(g, t.disk, mid, addr, Patch(t.disk[addr], r, chunk));
      fs := fs.(disk := fs.disk[addr := Patch(fs.disk[addr], r, chunk)]);
      LogWrite(addr);
      PeakedTrans(old(log.sectors), old(log.peak), mid, top, log.sectors, log.peak);
      ConfinedTrans(g, s.disk, old(log.sectors), t.disk, mid, fs.disk, log.sectors);
      assert fs == Filled(t, i, bn, r, chunk);
    }

    /** writei's loop, with a tally of what it logs. Within the file it logs the blocks it writes. */
    method WriteLoop(i: nat, off: nat, src: seq<byte>) returns (panicked: bool, ghost c: Tally)
      requires Consistent(g, fs) && i < g.ninodes && off <= fs.inodes[i].size && off + |src| <= MAXBYTES
      modifies `fs, `log
      ensures panicked ==> |fs.disk| == g.size && Full()
      ensures !panicked ==> Writing(g, old(fs), fs, i, off, src, off % 512, |src|, old(log.sectors), log.sectors, c)
      ensures Peaked(old(log.sectors), old(log.peak), log.sectors, log.peak)
      ensures !panicked ==> Confined(g, old(fs).disk, old(log.sectors), fs.disk, log.sectors)
      ensures old(log.sectors) == {} && |src| <= CHUNK ==> |log.sectors| < Log.LOGSIZE
      ensures off + |src| <= old(fs).inodes[i].size ==>
                && !panicked
                && Overwriting(g, old(fs), fs, i, off / 512, Touched(off % 512, |src|), old(log.sectors), log.sectors)
    {
      hide Refs, Bits, Fits, Slot, Holds, Keeps, Tallied, Step, StepLogs, BmapLogs, Touched, Overwriting, Peaked,
           Confined, Lists, NoHoles, SameMap, InodesStay;
      ghost var s, base, r0, q := fs, log.sectors, off % 512, 0;
      ghost var inside := off + |src| <= s.inodes[i].size;
      LoopStart(g, s, i, off, src, base, log.peak);
      panicked, c := false, Tally({}, {});
      var tot := 0;
      while tot < |src|
        invariant tot <= |src| && Writing(g, s, fs, i, off, src, r0, tot, base, log.sectors, c)
        invariant q == Touched(r0, tot) && (tot < |src| ==> Whole(r0, tot, q))
        invariant Peaked(base, old(log.peak), log.sectors, log.peak) && Confined(g, s.disk, base, fs.disk, log.sectors)
        invariant inside ==> Overwriting(g, s, fs, i, off / 512, q, base, log.sectors)
      {
        var bn, r := (off + tot) / 512, (off + tot) % 512;
        var k := Min(|src| - tot, BSIZE - r);
        ghost var t, before, top := fs, log.sectors, log.peak;
        NextBlock(off, tot, |src|, q, k);
        if inside {
          InsideMapped(g, s, fs, i, off, q, base, log.sectors, bn);
        }
        panicked := WriteStep(i, bn, r, src[tot..tot + k]);
        PeakedTrans(base, old(log.peak), before, top, log.sectors, log.peak);
        if panicked {
          if base == {} && |src| <= CHUNK {
            LoopBound(g, s, t, i, r0, tot, q, |src|, before, c);
          }
          return;
        }
        ConfinedTrans(g, s.disk, base, t.disk, before, fs.disk, log.sectors);
        c := WritingStep(g, s, t, fs, i, off, src, r0, tot, q, bn, r, k, base, before, log.sectors, c);
        if inside {
          OverwritingStep(g, s, t, fs, i, off / 512, q, base, before, log.sectors);
        }
        tot, q := tot + k, q + 1;
      }
      if base == {} && |src| <= CHUNK {
        LoopBound(g, s, fs, i, r0, |src|, q, |src|, log.sectors, c);
      }
    }

    /** iupdate. */
    method Iupdate(i: nat)
      requires g.Valid() && Shape(g, fs) && i < g.ninodes
      modifies `fs, `log
      ensures fs == Updated(g, old(fs), i) && log.sectors == old(log.sectors) + {g.IBlock(i)}
      ensures log.peak == if |old(log.sectors)| > old(log.peak) then |old(log.sectors)| else old(log.peak)
    {
      fs := fs.(disk := fs.disk[g.IBlock(i) := PutInode(fs.disk[g.IBlock(i)], i % 8, fs.inodes[i])]);
      LogWrite(g.IBlock(i));
    }

    /** The end of writei. */
    method Finish(i: nat, end: nat, ghost s: FS)
      requires Accounted(g, fs) && InodesStay(g, s, fs, i) && AllSynced(g, s) && end <= MAXBYTES
      requires fs.inodes == s.inodes || end > s.inodes[i].size
      modifies `fs, `log
      ensures Closed(g, s, old(fs), fs, i, end)
      ensures forall x :: x in log.sectors ==> x in old(log.sectors) || x == g.IBlock(i)
      ensures log.peak <= if |old(log.sectors)| > old(log.peak) then |old(log.sectors)| else old(log.peak)
      ensures end <= s.inodes[i].size ==> log.sectors == old(log.sectors)
      ensures Confined(g, old(fs).disk, old(log.sectors), fs.disk, log.sectors)
    {
      ghost var t := fs;
      if end > fs.inodes[i].size {
        fs := fs.(inodes := fs.inodes[i := fs.inodes[i].(size := end)]);
        Iupdate(i);
      }
      assert fs == Finished(g, t, i, end);
      FinishedClosed(g, s, t, i, end);
    }

    /** writei, once the request has been accepted. */
    method WriteAccepted(i: nat, off: nat, src: seq<byte>) returns (panicked: bool, ghost c: Tally)
      requires Consistent(g, fs) && AllSynced(g, fs) && i < g.ninodes
      requires off <= fs.inodes[i].size && off + |src| <= MAXBYTES
      modifies `fs, `log
      ensures panicked ==> |fs.disk| == g.size && Full()
      ensures !panicked ==> Consistent(g, fs) && AllSynced(g, fs) && Wrote(g, old(fs), fs, i, off, src)
      ensures !panicked ==> TalliedWrite(g, fs, i, off % 512, |src|, old(log.sectors), log.sectors, c)
      ensures !panicked ==> Confined(g, old(fs).disk, old(log.sectors), fs.disk, log.sectors)
      ensures old(log.sectors) == {} && old(log.peak) == 0 && |src| <= CHUNK ==> log.peak < Log.LOGSIZE
      ensures off + |src| <= old(fs).inodes[i].size && 0 < |src| && old(log.sectors) == {} ==>
                !panicked && LogsExactly(g, old(fs), i, off, |src|, log.sectors)
    {
      hide Slot, Refs, Bits, Fits, Holds, Keeps, Touched, Overwriting, Confined;
      ghost var s := fs;
      panicked, c := WriteLoop(i, off, src);
      if panicked {
        return;
      }
      ghost var t, before := fs, log.sectors;
      Finish(i, off + |src|, s);
      ConfinedTrans(g, s.disk, old(log.sectors), t.disk, before, fs.disk, log.sectors);
      assert src[..|src|] == src;
      EndsWrote(g, s, t, fs, i, off, src);
      TallyDone(g, s, t, fs, i, off % 512, |src|, old(log.sectors), before, log.sectors, c);
      if off + |src| <= s.inodes[i].size && 0 < |src| && old(log.sectors) == {} {
        OverwriteSize(g, s, t, i, off, |src|, Touched(off % 512, |src|), log.sectors);
      }
    }

    /** writei of a file that is not a device: refused without effect, or done in full. */
    method Writei(i: nat, off: word, src: seq<byte>) returns (r: int, panicked: bool, ghost c: Tally)
      requires Consistent(g, fs) && AllSynced(g, fs) && i < g.ninodes && fs.inodes[i].kind != T_DEV
      requires |src| < 0x1_0000_0000
      modifies `fs, `log
      ensures panicked ==> |fs.disk| == g.size && Full()
      ensures !panicked ==>
                (r == -1 <==> off > old(fs).inodes[i].size || Add32(off, |src|) < off || off + |src| > MAXBYTES)
      ensures !panicked && r == -1 ==> fs == old(fs) && log == old(log)
      ensures !panicked && r != -1 ==> r == |src| && off <= old(fs).inodes[i].size
      ensures !panicked && r != -1 ==> Consistent(g, fs) && AllSynced(g, fs) && Wrote(g, old(fs), fs, i, off, src)
      ensures !panicked && r != -1 ==> TalliedWrite(g, fs, i, off % 512, |src|, old(log.sectors), log.sectors, c)
      ensures !panicked && r != -1 ==> Confined(g, old(fs).disk, old(log.sectors), fs.disk, log.sectors)
      ensures old(log.sectors) == {} && old(log.peak) == 0 && |src| <= CHUNK ==> log.peak < Log.LOGSIZE
      ensures off + |src| <= old(fs).inodes[i].size && 0 < |src| && old(log.sectors) == {} ==>
                !panicked && r == |src| && LogsExactly(g, old(fs), i, off, |src|, log.sectors)
    {
      hide Refs, Bits, Slot, Fits, Wrote, TalliedWrite, LogsExactly, Confined;
      panicked, c := false, Tally({}, {});
      if off > fs.inodes[i].size || Add32(off, |src|) < off {
        return -1, panicked, c;
      }
      if Add32(off, |src|) > MAXBYTES {
        return -1, panicked, c;
      }
      panicked, c := WriteAccepted(i, off, src);
      return |src|, panicked, c;
    }

    /** One turn of filewrite's loop: a transaction of its own. On an empty log with LOGSIZE blocks it
        never trips the guard of log_write; within the file it logs the blocks it writes, which are
        more than MAXOPBLOCKS exactly if it runs over the end of the tenth. */
    method WriteTransaction(f: OpenFile, src: seq<byte>) returns (r: int, panicked: bool)
      requires Consistent(g, fs) && AllSynced(g, fs) && f.ip < g.ninodes && fs.inodes[f.ip].kind != T_DEV
      requires 0 < |src| <= CHUNK
      modifies `fs, `log, f
      ensures panicked ==> |fs.disk| == g.size && Full()
      ensures !panicked ==> (r == -1 <==> old(f.off) > old(fs).inodes[f.ip].size || old(f.off) + |src| > MAXBYTES)
      ensures !panicked && r == -1 ==> fs == old(fs) && f.off == old(f.off)
      ensures !panicked && r != -1 ==> r == |src| && f.off == old(f.off) + |src|
      ensures !panicked && r != -1 ==>
                Consistent(g, fs) && AllSynced(g, fs) && Wrote(g, old(fs), fs, f.ip, old(f.off), src)
      ensures !panicked ==> |log.lh| == |log.sectors| <= Log.LOGSIZE
      ensures !panicked && r != -1 ==> Confined(g, old(fs).disk, {}, fs.disk, log.sectors)
      ensures !Log.GuardFails(log.peak, Log.LOGSIZE)
      ensures old(f.off) + |src| <= old(fs).inodes[f.ip].size ==>
                !panicked && r == |src| && LogsExactly(g, old(fs), f.ip, old(f.off), |src|, log.sectors)
                && (|log.sectors| > Log.MAXOPBLOCKS <==> old(f.off) % 512 + |src| > 10 * 512)
    {
      hide Refs, Bits, Slot, Fits, Wrote, TalliedWrite, DataBlocks, Confined;
      log := Logging({}, [], 0);
      ghost var c;
      r, panicked, c := Writei(f.ip, f.off, src);
      ListsAll(log);
      if !panicked && r > 0 {
        ChunkBound(g, fs, f.ip, f.off % 512, |src|, log.sectors, c);
        TouchedMore(f.off % 512, |src|, Log.MAXOPBLOCKS);
        f.off := f.off + r;
      }
    }

    /** filewrite: transactions of at most Log.LOGSIZE sectors each, which together write a prefix of
        addr[..n] at the file's offset; all of it iff it starts in the file and ends below MAXBYTES. */
    method FileWrite(f: OpenFile, addr: seq<byte>, n: int)
      returns (r: int, panicked: bool, ghost done: nat, ghost txns: seq<set<nat>>)
      requires Consistent(g, fs) && AllSynced(g, fs) && f.ip < g.ninodes && fs.inodes[f.ip].kind != T_DEV
      requires n <= |addr|
      modifies `fs, `log, f
      ensures forall k :: 0 <= k < |txns| ==> |txns[k]| <= Log.LOGSIZE
      ensures panicked ==> |fs.disk| == g.size && Full()
      ensures !panicked ==> Consistent(g, fs) && AllSynced(g, fs) && f.off == old(f.off) + done
      ensures !panicked ==> done <= |addr| && (done == 0 ==> fs == old(fs))
      ensures !panicked && done > 0 ==> Wrote(g, old(fs), fs, f.ip, old(f.off), addr[..done])
      ensures !panicked ==> r == if f.writable && done == n then n else -1
      ensures !panicked && !f.writable ==> done == 0
      ensures !panicked && f.writable && n >= 0 ==>
                (done == n <==> n == 0 || (old(f.off) <= old(fs).inodes[f.ip].size && old(f.off) + n <= MAXBYTES))
      ensures !panicked && f.writable && done < n ==> |txns| > 0 && done == 6656 * (|txns| - 1)
      ensures !panicked && f.writable && done < n ==>
                old(f.off) > old(fs).inodes[f.ip].size || old(f.off) + done + Min(CHUNK, n - done) > MAXBYTES
    {
      hide Refs, Bits, Slot, Fits, Wrote;
      ghost var s, off := fs, f.off;
      done, txns, panicked := 0, [], false;
      if !f.writable {
        return -1, panicked, done, txns;
      }
      var i := 0;
      while i < n
        invariant done == i && (i <= n || i == 0) && f.off == off + i
        invariant Consistent(g, fs) && AllSynced(g, fs) && fs.inodes[f.ip].kind != T_DEV
        invariant i == 0 ==> fs == s
        invariant i > 0 ==> Wrote(g, s, fs, f.ip, off, addr[..i]) && off <= s.inodes[f.ip].size && off + i <= MAXBYTES
        invariant i > 0 ==> off + i <= fs.inodes[f.ip].size
        invariant forall k :: 0 <= k < |txns| ==> |txns[k]| <= Log.LOGSIZE
        invariant i < n ==> i == 6656 * |txns|
      {
        var n1 := n - i;
        if n1 > CHUNK {
          n1 := CHUNK;
        }
        ghost var t := fs;
        r, panicked := WriteTransaction(f, addr[i..i + n1]);
        if panicked {
          return;
        }
        txns := txns + [log.sectors];
        if r < 0 {
          break;
        }
        ChunkWrote(g, s, t, fs, f.ip, off, addr, i, n1);
        i := i + r;
        done := i;
      }
      return if i == n then n else -1, panicked, done, txns;
    }

    /** The first loop of itrunc. */
    method TruncDirect(i: nat, ghost s: FS)
      requires Accounted(g, fs) && i < g.ninodes && s == fs
      modifies `fs, `log
      ensures Freed(g, s, fs.disk, i, NDIRECT) && fs.owner == s.owner
      ensures |fs.inodes| == |s.inodes| && forall m :: 0 <= m < g.ninodes && m != i ==> fs.inodes[m] == s.inodes[m]
      ensures fs.inodes[i] == s.inodes[i].(addrs := fs.inodes[i].addrs) && |fs.inodes[i].addrs| == NDIRECT + 1
      ensures forall k :: 0 <= k <= NDIRECT ==> fs.inodes[i].addrs[k] == if k < NDIRECT then 0 else s.inodes[i].addrs[k]
    {
      hide Refs, Bits;
      FreedStart(g, s, i);
      for j := 0 to NDIRECT
        invariant Freed(g, s, fs.disk, i, j) && fs.owner == s.owner
        invariant |fs.inodes| == |s.inodes| && forall m :: 0 <= m < g.ninodes && m != i ==> fs.inodes[m] == s.inodes[m]
        invariant fs.inodes[i] == s.inodes[i].(addrs := fs.inodes[i].addrs) && |fs.inodes[i].addrs| == NDIRECT + 1
        invariant forall k :: 0 <= k <= NDIRECT ==> fs.inodes[i].addrs[k] == if k < j then 0 else s.inodes[i].addrs[k]
      {
        var b := fs.inodes[i].addrs[j];
        assert b == Slot(s, i, j);
        if b != 0 {
          StillTaken(g, s, fs.disk, i, j);
          FreeSlot(g, s, fs.disk, i, j);
          var panicked := Bfree(b);
          fs := fs.(inodes := fs.inodes[i := fs.inodes[i].(addrs := fs.inodes[i].addrs[j := 0])]);
        } else {
          SkipSlot(g, s, fs.disk, i, j);
        }
      }
    }

    /** The loop over the entries of the indirect block, and the indirect block itself. */
    method TruncIndirect(i: nat, ghost s: FS)
      requires Accounted(g, s) && i < g.ninodes && |s.disk| == g.size && Freed(g, s, fs.disk, i, NDIRECT)
      requires |fs.inodes| == |s.inodes| && |fs.inodes[i].addrs| == NDIRECT + 1
      requires fs.inodes[i].addrs[NDIRECT] == s.inodes[i].addrs[NDIRECT] != 0
      modifies `fs, `log
      ensures Freed(g, s, fs.disk, i, NSLOT) && fs.owner == old(fs).owner
      ensures fs.inodes == old(fs).inodes[i := old(fs).inodes[i].(addrs := old(fs).inodes[i].addrs[NDIRECT := 0])]
    {
      hide Refs, Bits, Bit, Visited;
      IndirectOwned(g, s, i);
      var bp := fs.disk[fs.inodes[i].addrs[NDIRECT]];
      for j := 0 to NINDIRECT
        invariant Freed(g, s, fs.disk, i, NDIRECT + j) && fs.owner == old(fs).owner && fs.inodes == old(fs).inodes
      {
        var b := Word(bp, j);
        assert b == Slot(s, i, NDIRECT + 1 + j);
        if b != 0 {
          StillTaken(g, s, fs.disk, i, NDIRECT + 1 + j);
          FreeSlot(g, s, fs.disk, i, NDIRECT + 1 + j);
          var panicked := Bfree(b);
        } else {
          SkipSlot(g, s, fs.disk, i, NDIRECT + 1 + j);
        }
      }
      StillTaken(g, s, fs.disk, i, NDIRECT);
      FreeSlot(g, s, fs.disk, i, NDIRECT);
      var panicked := Bfree(fs.inodes[i].addrs[NDIRECT]);
      fs := fs.(inodes := fs.inodes[i := fs.inodes[i].(addrs := fs.inodes[i].addrs[NDIRECT := 0])]);
    }

    /** itrunc. None of its bfree calls panics. */
    method Itrunc(i: nat)
      requires Consistent(g, fs) && AllSynced(g, fs) && i < g.ninodes
      modifies `fs, `log
      ensures Dropped(g, old(fs), fs, i)
    {
      hide Refs, Bits, Fits;
      ghost var s := fs;
      TruncDirect(i, s);
      if fs.inodes[i].addrs[NDIRECT] != 0 {
        TruncIndirect(i, s);
      } else {
        NoIndirect(g, s, fs.disk, i);
      }
      fs := fs.(inodes := fs.inodes[i := fs.inodes[i].(size := 0)]);
      fs := fs.(owner := Kept(fs, i));
      TruncatedDropped(g, s, fs, i);
      Iupdate(i);
    }
  }

  /** A single filewrite transaction, on a file in any inode but the unused inode 0, that logs eleven
      sectors, one more than begin_op reserves. */
  method LargeChunk(g: Geo, i: nat, src: seq<byte>) returns (r: int, f: OpenFile, d: FileSystem)
    requires g.Valid() && 1 <= i < g.ninodes && g.DataStart() + 11 + g.nlog <= g.size && |src| == 11 * 512
    ensures r == |src| && Log.MAXOPBLOCKS < |d.log.sectors| == 11
    ensures f.writable && f.ip == i && d.g == g && Consistent(g, d.fs) && d.fs.inodes[i].kind == T_FILE
    ensures Contents(g, d.fs, i) == src
  {
    hide Refs, Bits, Slot, Fits, Finished, Formatted, DataBlocks, Consistent;
    OneFileConsistent(g, i, 11);
    d := new FileSystem(g, OneFile(g, i, 11));
    f := new OpenFile(true, i, 0);
    var panicked;
    r, panicked := d.WriteTransaction(f, src);
    TouchedIs(0, |src|);
  }

  /** The transactions of filewrite add up. */
  lemma {:induction false} ChunkWrote(g: Geo, s: FS, t: FS, u: FS, i: nat, off: nat, addr: seq<byte>, k: nat, n: nat)
    requires Shape(g, s) && Shape(g, t) && Shape(g, u) && NoHoles(g, s) && NoHoles(g, t) && NoHoles(g, u)
    requires k + n <= |addr| && (k == 0 ==> t == s) && (k > 0 ==> Wrote(g, s, t, i, off, addr[..k]))
    requires Wrote(g, t, u, i, off + k, addr[k..k + n])
    ensures Wrote(g, s, u, i, off, addr[..k + n])
    ensures off + k + n <= u.inodes[i].size && u.inodes[i].kind == t.inodes[i].kind
  {
    hide Splice, Slot;
    if k == 0 {
      assert addr[k..k + n] == addr[..k + n];
    } else {
      WroteTwice(g, s, t, u, i, off, addr[..k], addr[k..k + n]);
      assert addr[..k] + addr[k..k + n] == addr[..k + n];
    }
    assert |Contents(g, u, i)| == u.inodes[i].size;
  }

  /** Without an indirect block there are no entries to free. */
  lemma {:induction false} NoIndirect(g: Geo, s: FS, disk: seq<Block>, i: nat)
    requires Accounted(g, s) && i < g.ninodes && s.inodes[i].addrs[NDIRECT] == 0 && Freed(g, s, disk, i, NDIRECT)
    ensures Freed(g, s, disk, i, NSLOT)
  {
    forall b | 0 <= b < g.size
      ensures Visited(s, i, NSLOT, b) <==> Visited(s, i, NDIRECT, b)
    {
      if b in s.owner {
        assert Owned(g, s, b, s.owner[b]);
      }
    }
  }

  /** What BallocEntry leaves behind. */
  lemma {:induction false} AttachEntryAll(g: Geo, s: FS, t: FS, i: nat, j: nat, b: nat)
    requires Accounted(g, s) && b < g.size && !Bit(g, s.disk, b) && i < g.ninodes && j < NINDIRECT
    requires s.inodes[i].addrs[NDIRECT] != 0 && s.inodes[i].addrs[NDIRECT] < g.size
    requires Slot(s, i, NDIRECT + 1 + j) == 0 && t == AttachEntry(g, s, i, j, b)
    ensures Accounted(g, t) && Extends(g, s, t, i)
    ensures b != 0 && Slot(t, i, NDIRECT + 1 + j) == b && t.disk[b] == ZeroBlock()
  {
    AttachEntryAccounted(g, s, i, j, b);
    AttachEntryExtends(g, s, i, j, b);
  }

  lemma {:induction false} EntryConfined(g: Geo, t: FS, u: FS, i: nat, j: nat, b: nat, mid: set<nat>, logged: set<nat>)
    requires Accounted(g, t) && i < g.ninodes && j < NINDIRECT && b < g.size && !Bit(g, t.disk, b)
    requires t.inodes[i].addrs[NDIRECT] != 0 && t.inodes[i].addrs[NDIRECT] < g.size && u == AttachEntry(g, t, i, j, b)
    requires logged == mid + {g.BBlock(b), b, u.inodes[i].addrs[NDIRECT]}
    ensures Confined(g, t.disk, mid, u.disk, logged)
  {
    hide Confined, Refs, Bits, Bit, Taken;
    IndirectOwned(g, t, i);
    ConfinedTaken(g, t, mid, b);
    var d, a := Taken(g, t.disk, b), t.inodes[i].addrs[NDIRECT];
    ConfinedBlock(g, d, mid + {g.BBlock(b), b}, a, PutWord(d[a], j, b));
    assert mid + {g.BBlock(b), b} + {a} == logged;
    ConfinedTrans(g, t.disk, mid, d, mid + {g.BBlock(b), b}, u.disk, logged);
  }

  /** The sectors logged for the indirect block, if it is new, and then for the entry. */
  lemma {:induction false} EntryLogs(g: Geo, s: FS, t: FS, u: FS, i: nat, j: nat, before: set<nat>, mid: set<nat>,
                                     logged: set<nat>)
    requires Shape(g, s) && Shape(g, t) && Shape(g, u) && i < g.ninodes && j < NINDIRECT
    requires Slot(s, i, NDIRECT + 1 + j) == 0 && u.inodes[i].addrs[NDIRECT] == t.inodes[i].addrs[NDIRECT]
    requires var a := t.inodes[i].addrs[NDIRECT];
             mid == if s.inodes[i].addrs[NDIRECT] != 0 then before else before + {g.BBlock(a), a}
    requires var a, b := u.inodes[i].addrs[NDIRECT], Slot(u, i, NDIRECT + 1 + j); logged == mid + {g.BBlock(b), b, a}
    ensures forall x :: x in logged ==> x in before || BmapLogs(g, s, u, i, NDIRECT + j, x)
  {
    assert SlotOf(NDIRECT + j) == NDIRECT + 1 + j;
  }
}

/** The on-disk format of fs.h: bitmap bits and inode records inside blocks. */
module FsLayout {
  import opened Blocks

  const NDIRECT := 12
  const NINDIRECT := 128
  const MAXFILE := 140
  const IPB := 8               // inodes per block
  const BPB := 4096            // bitmap bits per block

  // ------------------------------------------------------------------ bits of a byte

  function Pow2(n: nat): (p: nat)
    ensures p >= 1
  {
    if n == 0 then 1 else 2 * Pow2(n - 1)
  }

  /** x & (1 << k) is not 0. */
  predicate TestBit(x: nat, k: nat) {
    if k == 0 then x % 2 == 1 else TestBit(x / 2, k - 1)
  }

  /** x | (1 << k), or x & ~(1 << k), for an n-bit x. */
  function PutBit(x: nat, k: nat, v: bool, n: nat): (r: nat)
    requires k < n && x < Pow2(n)
    ensures r < Pow2(n)
  {
    if k == 0 then 2 * (x / 2) + (if v then 1 else 0) else 2 * PutBit(x / 2, k - 1, v, n - 1) + x % 2
  }

  lemma {:induction false} TestOfPutBit(x: nat, k: nat, v: bool, n: nat, j: nat)
    requires k < n && x < Pow2(n)
    ensures TestBit(PutBit(x, k, v, n), j) == if j == k then v else TestBit(x, j)
  {
    if k > 0 && j > 0 {
      TestOfPutBit(x / 2, k - 1, v, n - 1, j - 1);
      assert PutBit(x, k, v, n) / 2 == PutBit(x / 2, k - 1, v, n - 1);
    }
  }

  // ------------------------------------------------------------------ bits of a bitmap block

  predicate BitAt(b: Block, i: nat)
    requires i < BPB
  {
    TestBit(b.bytes[i / 8], i % 8)
  }

  function PutBitAt(b: Block, i: nat, v: bool): Block
    requires i < BPB
  {
    assert Pow2(8) == 256;
    Sector(b.bytes[i / 8 := PutBit(b.bytes[i / 8], i % 8, v, 8)])
  }

  /** Writing a bit changes that bit only. */
  lemma {:induction false} BitAtPutBitAt(b: Block, i: nat, v: bool, j: nat)
    requires i < BPB && j < BPB
    ensures BitAt(PutBitAt(b, i, v), j) == if j == i then v else BitAt(b, j)
  {
    assert Pow2(8) == 256;
    TestOfPutBit(b.bytes[i / 8], i % 8, v, 8, j % 8);
  }

  // ------------------------------------------------------------------ inode records

  datatype Inode = Inode(kind: nat, major: nat, minor: nat, nlink: nat, size: nat, addrs: seq<nat>)

  /** The fields have the widths of struct dinode. */
  predicate Fits(ip: Inode) {
    && ip.kind < 0x1_0000 && ip.major < 0x1_0000 && ip.minor < 0x1_0000 && ip.nlink < 0x1_0000
    && ip.size < 0x1_0000_0000 && |ip.addrs| == NDIRECT + 1
    && forall k :: 0 <= k <= NDIRECT ==> ip.addrs[k] < 0x1_0000_0000
  }

  /** The 16 words of struct dinode. */
  function InodeWords(ip: Inode): (ws: seq<word>)
    requires Fits(ip)
    ensures |ws| == 16
  {
    assert forall x :: x in ip.addrs ==> 0 <= x < 0x1_0000_0000;
    [ip.kind + 0x1_0000 * ip.major, ip.minor + 0x1_0000 * ip.nlink, ip.size] + ip.addrs
  }

  function InodeOf(ws: seq<word>): Inode
    requires |ws| == 16
  {
    Inode(ws[0] % 0x1_0000, ws[0] / 0x1_0000, ws[1] % 0x1_0000, ws[1] / 0x1_0000, ws[2], ws[3..])
  }

  /** The inode record at index s of an inode block. */
  function InodeAt(b: Block, s: nat): Inode
    requires s < IPB
  {
    InodeOf(Words(b, 16 * s, 16))
  }

  function PutInode(b: Block, s: nat, ip: Inode): Block
    requires s < IPB && Fits(ip)
  {
    PutWords(b, 16 * s, InodeWords(ip))
  }

  /** A stored inode reads back, and the other inodes of the block stay. */
  lemma {:induction false} InodeAtPutInode(b: Block, s: nat, ip: Inode, t: nat)
    requires s < IPB && t < IPB && Fits(ip)
    ensures InodeAt(PutInode(b, s, ip), t) == if t == s then ip else InodeAt(b, t)
  {
    var r, ws := PutInode(b, s, ip), InodeWords(ip);
    if t == s {
      WordsOfPutWords(b, 16 * s, ws);
      InodeRoundTrip(ip);
    } else {
      forall i | 0 <= i < 16
        ensures Words(r, 16 * t, 16)[i] == Words(b, 16 * t, 16)[i]
      {
        WordsAt(r, 16 * t, 16, i);
        WordsAt(b, 16 * t, 16, i);
        WordOfPutWords(b, 16 * s, ws, 16 * t + i);
      }
      assert Words(r, 16 * t, 16) == Words(b, 16 * t, 16);
    }
  }

  lemma {:induction false} InodeRoundTrip(ip: Inode)
    requires Fits(ip)
    ensures InodeOf(InodeWords(ip)) == ip
  {
    var ws := InodeWords(ip);
    assert ws[3..] == ip.addrs;
  }
}

/** Disk blocks: BSIZE bytes, which the kernel also reads and writes as little-endian 32-bit words. */
module Blocks {

  const BSIZE := 512
  const NWORDS := 128

  type byte = x: int | 0 <= x < 256
  type word = x: int | 0 <= x < 0x1_0000_0000

  datatype Sector = Sector(bytes: seq<byte>)
  type Block = b: Sector | |b.bytes| == BSIZE witness Sector(seq(BSIZE, _ => 0))

  function Zeros(n: nat): (z: seq<byte>)
    ensures |z| == n && forall i :: 0 <= i < n ==> z[i] == 0
  {
    if n == 0 then [] else Zeros(n - 1) + [0]
  }

  function ZeroBlock(): Block {
    Sector(Zeros(BSIZE))
  }

  function Word(b: Block, i: nat): word
    requires i < NWORDS
  {
    b.bytes[4*i] as int + 0x100 * b.bytes[4*i+1] as int + 0x1_0000 * b.bytes[4*i+2] as int
        + 0x100_0000 * b.bytes[4*i+3] as int
  }

  /** Store a word. */
  function PutWord(b: Block, i: nat, w: word): Block
    requires i < NWORDS
  {
    Sector(b.bytes[..4*i] + [w % 0x100, w / 0x100 % 0x100, w / 0x1_0000 % 0x100, w / 0x100_0000] + b.bytes[4*i+4..])
  }

  /** A stored word reads back, and every other word keeps its value. */
  lemma {:induction false} WordOfPutWord(b: Block, i: nat, w: word, j: nat)
    requires i < NWORDS && j < NWORDS
    ensures Word(PutWord(b, i, w), j) == if j == i then w else Word(b, j)
  {
    var r := PutWord(b, i, w).bytes;
    if j == i {
      assert r[4*i] == w % 0x100 && r[4*i+1] == w / 0x100 % 0x100;
      assert r[4*i+2] == w / 0x1_0000 % 0x100 && r[4*i+3] == w / 0x100_0000;
      SplitWord(w);
    } else {
      assert forall k :: 4*j <= k < 4*j + 4 ==> r[k] == b.bytes[k];
    }
  }

  lemma {:induction false} SplitWord(w: word)
    ensures w == w % 0x100 + 0x100 * (w / 0x100 % 0x100) + 0x1_0000 * (w / 0x1_0000 % 0x100)
              + 0x100_0000 * (w / 0x100_0000)
  {
    assert w / 0x1_0000 == w / 0x100 / 0x100;
    assert w / 0x100_0000 == w / 0x1_0000 / 0x100;
  }

  /** Store consecutive words from index `at` on. */
  function PutWords(b: Block, at: nat, ws: seq<word>): Block
    requires at + |ws| <= NWORDS
  {
    if ws == [] then b
    else
      var n := |ws| - 1;
      PutWord(PutWords(b, at, ws[..n]), at + n, ws[n])
  }

  lemma {:induction false} WordOfPutWords(b: Block, at: nat, ws: seq<word>, j: nat)
    requires at + |ws| <= NWORDS && j < NWORDS
    ensures Word(PutWords(b, at, ws), j) == if at <= j < at + |ws| then ws[j - at] else Word(b, j)
  {
    if ws != [] {
      var n := |ws| - 1;
      WordOfPutWords(b, at, ws[..n], j);
      WordOfPutWord(PutWords(b, at, ws[..n]), at + n, ws[n], j);
    }
  }

  /** The words of a block from index `at` on. */
  function Words(b: Block, at: nat, n: nat): (ws: seq<word>)
    requires at + n <= NWORDS
    ensures |ws| == n
  {
    if n == 0 then [] else Words(b, at, n - 1) + [Word(b, at + n - 1)]
  }

  lemma {:induction false} WordsAt(b: Block, at: nat, n: nat, i: nat)
    requires i < n && at + n <= NWORDS
    ensures Words(b, at, n)[i] == Word(b, at + i)
  {
    if i < n - 1 {
      WordsAt(b, at, n - 1, i);
    }
  }

  lemma {:induction false} WordsOfPutWords(b: Block, at: nat, ws: seq<word>)
    requires at + |ws| <= NWORDS
    ensures Words(PutWords(b, at, ws), at, |ws|) == ws
  {
    var r := PutWords(b, at, ws);
    forall i | 0 <= i < |ws|
      ensures Words(r, at, |ws|)[i] == ws[i]
    {
      WordsAt(r, at, |ws|, i);
      WordOfPutWords(b, at, ws, at + i);
    }
  }
}

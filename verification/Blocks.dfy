/** Disk blocks as byte sequences, with the little-endian integers that the
    kernel reads and writes inside them (fs.h, log.c, x86 byte order). */
module Blocks {

  const BSIZE := 512
  const NBUF := 30                   // buffers in the cache

  type Byte = x: int | 0 <= x < 0x100
  type Word = x: int | 0 <= x < 0x1_0000_0000
  type Block = b: seq<Byte> | |b| == BSIZE witness seq(BSIZE, _ => 0)

  /** A whole disk: one block per block number. */
  type Image = seq<Block>

  function Zeroes(n: nat): (s: seq<Byte>)
    ensures |s| == n && forall i :: 0 <= i < n ==> s[i] == 0
  {
    if n == 0 then [] else Zeroes(n - 1) + [0]
  }

  const ZeroBlock: Block := Zeroes(BSIZE)

  /** The 32-bit integer stored at byte offset o. */
  function GetWord(b: Block, o: nat): Word
    requires o + 4 <= BSIZE
  {
    var b0: int, b1: int, b2: int, b3: int := b[o], b[o + 1], b[o + 2], b[o + 3];
    b0 + 0x100 * b1 + 0x1_0000 * b2 + 0x100_0000 * b3
  }

  /** Block b after storing w at byte offset o. */
  function PutWord(b: Block, o: nat, w: Word): Block
    requires o + 4 <= BSIZE
  {
    var q1: int := w / 0x100;
    var q2: int := q1 / 0x100;
    var q3: int := q2 / 0x100;
    b[o := w % 0x100][o + 1 := q1 % 0x100][o + 2 := q2 % 0x100][o + 3 := q3]
  }

  lemma GetPutWord(b: Block, o: nat, w: Word)
    requires o + 4 <= BSIZE
    ensures GetWord(PutWord(b, o, w), o) == w
  {
    var q1: int := w / 0x100;
    var q2: int := q1 / 0x100;
    assert w == w % 0x100 + 0x100 * q1 && q1 == q1 % 0x100 + 0x100 * q2;
  }

  lemma GetPutWordOther(b: Block, o: nat, w: Word, p: nat)
    requires o + 4 <= BSIZE && p + 4 <= BSIZE
    requires p + 4 <= o || o + 4 <= p
    ensures GetWord(PutWord(b, o, w), p) == GetWord(b, p)
  {
  }

  /** A block of zero bytes reads as zero everywhere. */
  lemma GetWordZero(o: nat)
    requires o + 4 <= BSIZE
    ensures GetWord(ZeroBlock, o) == 0
  {
  }
}

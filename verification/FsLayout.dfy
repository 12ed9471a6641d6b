/** The on-disk file system format: superblock geometry, inodes packed in inode blocks
    and the free bitmap (fs.h, fs.c). */
module FsLayout {
  import opened Blocks

  const NDIRECT := 12
  const NINDIRECT := BSIZE / 4
  const MAXFILE := NDIRECT + NINDIRECT
  const INODESIZE := 64
  const IPB := BSIZE / INODESIZE     // inodes per block
  const BPB := BSIZE * 8             // bitmap bits per block

  type Half = x: int | 0 <= x < 0x1_0000

  /** struct superblock, without the log fields that only log.c reads; datastart is the
      first block after the bitmap, which mkfs computes from the others. */
  datatype Superblock = Superblock(size: nat, ninodes: nat, inodestart: nat, bmapstart: nat, datastart: nat)

  datatype Inode = Inode(typ: Half, major: Half, minor: Half, nlink: Half, size: Word, addrs: seq<Word>)

  function IBlock(sb: Superblock, inum: nat): nat { inum / IPB + sb.inodestart }

  function BBlock(sb: Superblock, b: nat): nat { b / BPB + sb.bmapstart }

  /** The regions follow each other on the disk, as mkfs lays them out. */
  predicate LaidOut(sb: Superblock, d: Image) {
    sb.size == |d| < 0x8000_0000 && 1 <= sb.inodestart < sb.bmapstart < sb.datastart && LaidOutRegions(sb)
  }

  predicate LaidOutRegions(sb: Superblock) {
    sb.inodestart + sb.ninodes / IPB + 1 <= sb.bmapstart &&
    sb.datastart == sb.bmapstart + sb.size / BPB + 1 && sb.datastart <= sb.size
  }

  /** The disk mkfs makes: boot block, superblock, log, inodes, bitmap, data. */
  function Mkfs(size: nat, nlog: nat, ninodes: nat): Superblock {
    var inodeblocks, bitmap := ninodes / IPB + 1, size / (BSIZE * 8) + 1;
    Superblock(size, ninodes, 2 + nlog, 2 + nlog + inodeblocks, 2 + nlog + inodeblocks + bitmap)
  }

  /** It is laid out exactly if there is room; every inode and every block's bit has its place. */
  lemma MkfsLaidOut(size: nat, nlog: nat, ninodes: nat, d: Image)
    requires size == |d| < 0x8000_0000
    ensures var sb := Mkfs(size, nlog, ninodes);
            (LaidOut(sb, d) <==> 2 + nlog + (ninodes / IPB + 1) + (size / (BSIZE * 8) + 1) <= size) &&
            (forall i: nat :: i < ninodes ==> 2 + nlog <= IBlock(sb, i) < sb.bmapstart) &&
            forall b: nat :: b < size ==> sb.bmapstart <= BBlock(sb, b) < sb.datastart
  {
  }

  // ---- 16-bit fields ----

  function GetHalf(b: Block, o: nat): Half
    requires o + 2 <= BSIZE
  {
    var b0: int, b1: int := b[o], b[o + 1];
    b0 + 0x100 * b1
  }

  function PutHalf(b: Block, o: nat, h: Half): Block
    requires o + 2 <= BSIZE
  {
    var q: int := h / 0x100;
    b[o := h % 0x100][o + 1 := q]
  }

  /** Bytes of b and c agree outside [o, o + n). */
  ghost predicate SameOutside(b: Block, c: Block, o: nat, n: nat) {
    forall i :: 0 <= i < BSIZE && !(o <= i < o + n) ==> b[i] == c[i]
  }

  // ---- Inodes ----

  /** b after storing the first k of ws from offset o on. */
  function PutWords(b: Block, o: nat, ws: seq<Word>, k: nat): Block
    requires k <= |ws| && o + 4 * |ws| <= BSIZE
  {
    if k == 0 then b else PutWord(PutWords(b, o, ws, k - 1), o + 4 * (k - 1), ws[k - 1])
  }

  function ReadWords(b: Block, o: nat, n: nat): (ws: seq<Word>)
    requires o + 4 * n <= BSIZE
    ensures |ws| == n
  {
    if n == 0 then [] else ReadWords(b, o, n - 1) + [GetWord(b, o + 4 * (n - 1))]
  }

  lemma {:induction false} PutWordsOutside(b: Block, o: nat, ws: seq<Word>, k: nat)
    requires k <= |ws| && o + 4 * |ws| <= BSIZE
    ensures SameOutside(b, PutWords(b, o, ws, k), o, 4 * |ws|)
  {
    if k > 0 { PutWordsOutside(b, o, ws, k - 1); }
  }

  lemma {:induction false} ReadPutWords(b: Block, o: nat, ws: seq<Word>, k: nat)
    requires k <= |ws| && o + 4 * |ws| <= BSIZE
    ensures ReadWords(PutWords(b, o, ws, k), o, k) == ws[..k]
  {
    if k > 0 {
      var c := PutWords(b, o, ws, k - 1);
      ReadPutWords(b, o, ws, k - 1);
      GetPutWord(c, o + 4 * (k - 1), ws[k - 1]);
      ReadWordsBelow(c, o, k - 1, ws[k - 1]);
      assert ws[..k] == ws[..k - 1] + [ws[k - 1]];
    }
  }

  lemma {:induction false} ReadWordsBelow(b: Block, o: nat, n: nat, w: Word)
    requires o + 4 * n + 4 <= BSIZE
    ensures ReadWords(PutWord(b, o + 4 * n, w), o, n) == ReadWords(b, o, n)
  {
    var c := PutWord(b, o + 4 * n, w);
    ReadWordsSame(b, c, o, n);
  }

  /** Words in a range the two blocks agree on. */
  lemma {:induction false} ReadWordsSame(b: Block, c: Block, o: nat, n: nat)
    requires o + 4 * n <= BSIZE && forall i :: o <= i < o + 4 * n ==> b[i] == c[i]
    ensures ReadWords(b, o, n) == ReadWords(c, o, n)
  {
    if n > 0 { ReadWordsSame(b, c, o, n - 1); }
  }

  function DecodeInode(b: Block, o: nat): (ino: Inode)
    requires o + INODESIZE <= BSIZE
    ensures |ino.addrs| == NDIRECT + 1
  {
    Inode(GetHalf(b, o), GetHalf(b, o + 2), GetHalf(b, o + 4), GetHalf(b, o + 6), GetWord(b, o + 8),
          ReadWords(b, o + 12, NDIRECT + 1))
  }

  /** iupdate's field assignments, in order. */
  function EncodeInode(b: Block, o: nat, ino: Inode): Block
    requires o + INODESIZE <= BSIZE && |ino.addrs| == NDIRECT + 1
  {
    PutWords(PutHeader(b, o, ino), o + 12, ino.addrs, NDIRECT + 1)
  }

  lemma GetPutHalf(b: Block, o: nat, h: Half)
    requires o + 2 <= BSIZE
    ensures GetHalf(PutHalf(b, o, h), o) == h
  {
  }

  /** The header fields: four halves and the size. */
  function PutHeader(b: Block, o: nat, ino: Inode): Block
    requires o + INODESIZE <= BSIZE
  {
    var b1 := PutHalf(b, o, ino.typ);
    var b2 := PutHalf(b1, o + 2, ino.major);
    var b3 := PutHalf(b2, o + 4, ino.minor);
    var b4 := PutHalf(b3, o + 6, ino.nlink);
    PutWord(b4, o + 8, ino.size)
  }

  lemma HeaderReads(b: Block, o: nat, ino: Inode, c: Block)
    requires o + INODESIZE <= BSIZE && c == PutHeader(b, o, ino)
    ensures GetHalf(c, o) == ino.typ && GetHalf(c, o + 2) == ino.major
    ensures GetHalf(c, o + 4) == ino.minor && GetHalf(c, o + 6) == ino.nlink && GetWord(c, o + 8) == ino.size
    ensures SameOutside(b, c, o, 12)
  {
    var b1 := PutHalf(b, o, ino.typ);
    var b2 := PutHalf(b1, o + 2, ino.major);
    var b3 := PutHalf(b2, o + 4, ino.minor);
    var b4 := PutHalf(b3, o + 6, ino.nlink);
    GetPutHalf(b, o, ino.typ);
    GetPutHalf(b1, o + 2, ino.major);
    GetPutHalf(b2, o + 4, ino.minor);
    GetPutHalf(b3, o + 6, ino.nlink);
    GetPutWord(b4, o + 8, ino.size);
  }

  /** Storing an inode and reading it back. */
  lemma DecodeEncode(b: Block, o: nat, ino: Inode)
    requires o + INODESIZE <= BSIZE && |ino.addrs| == NDIRECT + 1
    ensures DecodeInode(EncodeInode(b, o, ino), o) == ino
    ensures SameOutside(b, EncodeInode(b, o, ino), o, INODESIZE)
  {
    var h := PutHeader(b, o, ino);
    HeaderReads(b, o, ino, h);
    var c := PutWords(h, o + 12, ino.addrs, NDIRECT + 1);
    PutWordsOutside(h, o + 12, ino.addrs, NDIRECT + 1);
    ReadPutWords(h, o + 12, ino.addrs, NDIRECT + 1);
    assert ino.addrs[..NDIRECT + 1] == ino.addrs;
    SameFields(h, c, o);
    Outside(b, h, c, o);
  }

  lemma SameFields(h: Block, c: Block, o: nat)
    requires o + INODESIZE <= BSIZE && SameOutside(h, c, o + 12, 52)
    ensures GetHalf(c, o) == GetHalf(h, o) && GetHalf(c, o + 2) == GetHalf(h, o + 2)
    ensures GetHalf(c, o + 4) == GetHalf(h, o + 4) && GetHalf(c, o + 6) == GetHalf(h, o + 6)
    ensures GetWord(c, o + 8) == GetWord(h, o + 8)
  {
  }

  lemma Outside(b: Block, h: Block, c: Block, o: nat)
    requires o + INODESIZE <= BSIZE && SameOutside(b, h, o, 12) && SameOutside(h, c, o + 12, 52)
    ensures SameOutside(b, c, o, INODESIZE)
  {
  }

  /** Another inode in the same block is untouched. */
  lemma DecodeOther(b: Block, c: Block, o: nat, p: nat)
    requires o + INODESIZE <= BSIZE && p + INODESIZE <= BSIZE
    requires SameOutside(b, c, o, INODESIZE) && (p + INODESIZE <= o || o + INODESIZE <= p)
    ensures DecodeInode(c, p) == DecodeInode(b, p)
  {
    ReadWordsSame(b, c, p + 12, NDIRECT + 1);
  }

  // ---- Bitmap bits ----

  function Pow2(k: nat): nat {
    if k == 0 then 1 else 2 * Pow2(k - 1)
  }

  /** x & 1 << k. */
  predicate BitSet(x: nat, k: nat) {
    if k == 0 then x % 2 == 1 else BitSet(x / 2, k - 1)
  }

  /** x | 1 << k. */
  function OrBit(x: nat, k: nat): nat {
    if k == 0 then (if x % 2 == 1 then x else x + 1) else 2 * OrBit(x / 2, k - 1) + x % 2
  }

  /** x & ~(1 << k). */
  function AndNotBit(x: nat, k: nat): nat {
    if k == 0 then (if x % 2 == 1 then x - 1 else x) else 2 * AndNotBit(x / 2, k - 1) + x % 2
  }

  lemma {:induction false} OrBitSets(x: nat, k: nat, j: nat)
    ensures BitSet(OrBit(x, k), j) <==> j == k || BitSet(x, j)
  {
    if k > 0 && j > 0 { OrBitSets(x / 2, k - 1, j - 1); }
  }

  lemma {:induction false} AndNotBitClears(x: nat, k: nat, j: nat)
    ensures BitSet(AndNotBit(x, k), j) <==> j != k && BitSet(x, j)
  {
    if k > 0 && j > 0 { AndNotBitClears(x / 2, k - 1, j - 1); }
  }

  /** Both stay within n bits. */
  lemma {:induction false} BitsFit(x: nat, k: nat, n: nat)
    requires k < n && x < Pow2(n)
    ensures OrBit(x, k) < Pow2(n) && AndNotBit(x, k) < Pow2(n)
  {
    var p := Pow2(n - 1);
    Halves(x, p);
    if k > 0 { BitsFit(x / 2, k - 1, n - 1); }
  }

  lemma Halves(x: nat, p: nat)
    requires x < 2 * p
    ensures x / 2 < p && (x % 2 == 0 ==> x + 1 < 2 * p)
    ensures forall y: nat :: y < p ==> 2 * y + x % 2 < 2 * p
  {
  }

  lemma ByteFits(x: Byte, k: nat)
    requires k < 8
    ensures OrBit(x, k) < 0x100 && AndNotBit(x, k) < 0x100
  {
    assert Pow2(4) == 16 && Pow2(8) == 16 * 16;
    BitsFit(x, k, 8);
  }
}

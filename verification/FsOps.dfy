/** fs.c's block allocator and inode content routines, run on the disk as the buffer
    cache and log present it: every bread reads the current block and every log_write
    replaces it (fs.c). */
module FsOps {
  import opened Blocks
  import opened FsLayout
  import opened FsSpec
  import opened FsFile
  import opened FsWrite
  import opened FsTrunc
  import opened FsInodes
  import opened Writes
  import opened FsLog

  const T_DEV: Half := 3

  datatype ReadResult = ReadBytes(data: seq<Byte>) | ReadFails | ReadDevice
  datatype WriteResult = Written(n: nat) | WriteFails | WriteDevice | OutOfBlocks

  /** The bit address of block b + bi, with b the first block of a bitmap block. */
  lemma BitInBlock(k: nat, b: nat, bi: nat)
    requires b == k * BPB && bi < BPB
    ensures (b + bi) / BPB == b / BPB && (b + bi) % BPB == bi
  {
  }

  /** Every block of the disk from lo up to hi is in use. */
  ghost predicate AllUsed(f: Fs, lo: nat, hi: nat)
    requires LaidOut(f.sb, f.disk)
  {
    forall c :: lo <= c < hi && c < f.sb.size ==> InUse(f.sb, f.disk, c)
  }

  lemma AllUsedJoin(f: Fs, lo: nat, mid: nat, hi: nat)
    requires LaidOut(f.sb, f.disk) && AllUsed(f, lo, mid) && AllUsed(f, mid, hi)
    ensures AllUsed(f, lo, hi)
  {
  }

  /** A scan that stopped at the end of a bitmap block or of the disk saw all of it. */
  lemma AllUsedBlock(f: Fs, b: nat, bi: nat)
    requires LaidOut(f.sb, f.disk) && AllUsed(f, b, b + bi) && (bi >= BPB || b + bi >= f.sb.size)
    ensures AllUsed(f, b, b + BPB)
  {
  }

  lemma AllUsedEnd(f: Fs, b: nat)
    requires LaidOut(f.sb, f.disk) && AllUsed(f, 0, b) && b >= f.sb.size
    ensures AllUsed(f, 0, f.sb.size)
  {
  }

  /** y is f, with an indirect block ind allocated to inode i if it had none. */
  ghost predicate WithIndirect(f: Fs, own: map<nat, Owner>, i: nat, ind: nat, y: Fs, o: map<nat, Owner>)
    requires TabOk(f) && i < |f.tab|
  {
    0 < ind < |y.disk| && |f.disk| == |y.disk| && Conserved(y, o) && y.sb == f.sb &&
    if f.tab[i].addrs[IND] != 0 then y == f && o == own && ind == f.tab[i].addrs[IND]
    else Spare(f, own, ind) && y == WithAddr(Claimed(f, ind), i, IND, ind) && o == own[ind := (i, IND)]
  }

  /** The entry read from the indirect block is the block's address; a fresh one is empty. */
  lemma EntryRead(f: Fs, own: map<nat, Owner>, i: nat, ind: nat, y: Fs, o: map<nat, Owner>, bn: nat)
    requires Conserved(f, own) && i < |f.tab| && NDIRECT <= bn < MAXFILE && WithIndirect(f, own, i, ind, y, o)
    ensures GetWord(y.disk[ind], 4 * (bn - NDIRECT)) == Addr(y, i, bn) == Addr(f, i, bn)
    ensures Addr(f, i, bn) != 0 ==> Mapped(f, own, y, o, i, bn)
  {
    if f.tab[i].addrs[IND] == 0 {
      FreshEntry(f, i, ind, y, bn);
    } else if Addr(f, i, bn) != 0 {
      MappedAlready(f, own, i, bn);
    }
  }

  /** A fresh indirect block maps nothing. */
  lemma FreshEntry(f: Fs, i: nat, ind: nat, y: Fs, bn: nat)
    requires TabOk(f) && TabOk(y) && i < |f.tab| == |y.tab| && NDIRECT <= bn < MAXFILE && f.tab[i].addrs[IND] == 0
    requires 0 < ind < |y.disk| && y.tab[i].addrs[IND] == ind && y.disk[ind] == ZeroBlock
    ensures GetWord(y.disk[ind], 4 * (bn - NDIRECT)) == Addr(y, i, bn) == Addr(f, i, bn) == 0
  {
    GetWordZero(4 * (bn - NDIRECT));
  }

  /** A new entry maps the block, whether or not the indirect block is new too. */
  lemma EntryMade(f: Fs, own: map<nat, Owner>, i: nat, ind: nat, y: Fs, o: map<nat, Owner>, bn: nat, b: nat, z: Fs)
    requires Conserved(f, own) && i < |f.tab| && NDIRECT <= bn < MAXFILE && WithIndirect(f, own, i, ind, y, o)
    requires y.tab[i].addrs[IND] == ind && Addr(y, i, bn) == Addr(f, i, bn) == 0
    requires Spare(y, o, b) && z == WithEntry(Claimed(y, b), i, bn - NDIRECT, b)
    ensures Mapped(f, own, z, o[b := (i, bn + 1)], i, bn) && Addr(z, i, bn) == b
  {
    if f.tab[i].addrs[IND] == 0 {
      MappedBoth(f, own, i, bn, ind, y, b, z);
    } else {
      MappedEntry(f, own, i, bn, b, z);
    }
    EntryAddr(y, i, bn, b, z);
  }

  lemma EntryAddr(y: Fs, i: nat, bn: nat, b: nat, z: Fs)
    requires TabOk(y) && i < |y.tab| && NDIRECT <= bn < MAXFILE && 0 < y.tab[i].addrs[IND] < |y.disk| && b < y.sb.size
    requires z == WithEntry(Claimed(y, b), i, bn - NDIRECT, b) && TabOk(z)
    ensures Addr(z, i, bn) == b
  {
    GetPutWord(Claimed(y, b).disk[y.tab[i].addrs[IND]], 4 * (bn - NDIRECT), b);
  }

  /** uint addition. */
  function WrapAdd(a: Word, b: Word): Word {
    (a + b) % 0x1_0000_0000
  }

  predicate CanWrite(size: nat, off: nat, n: nat) {
    off <= size && off + n <= MAXFILE * BSIZE
  }

  /** Part of one block of the disk is part of the file. */
  lemma ReadPiece(f: Fs, own: map<nat, Owner>, i: nat, bn: nat, o: nat, m: nat)
    requires Conserved(f, own) && i < |f.tab| && HoleFree(f, i)
    requires bn * BSIZE + o + m <= f.tab[i].size && 0 < m <= BSIZE - o
    ensures bn < MAXFILE && 0 < Addr(f, i, bn) < |f.disk|
    ensures f.disk[Addr(f, i, bn)][o..o + m] == Bytes(f, i)[bn * BSIZE + o..bn * BSIZE + o + m]
  {
    assert Addr(f, i, bn) != 0;
    AddrOwned(f, own, i, bn);
    forall q | bn * BSIZE + o <= q < bn * BSIZE + o + m
      ensures Bytes(f, i)[q] == f.disk[Addr(f, i, bn)][q - bn * BSIZE]
    {
      assert q / BSIZE == bn && q % BSIZE == q - bn * BSIZE;
    }
  }

  lemma SlicesJoin(s: seq<Byte>, off: nat, a: seq<Byte>, b: seq<Byte>, c: seq<Byte>)
    requires off + |a| + |b| <= |s| && c == a + b
    requires a == s[off..off + |a|] && b == s[off + |a|..off + |a| + |b|]
    ensures c == s[off..off + |c|]
  {
  }

  function PatchedAtBlock(y: Fs, i: nat, bn: nat, o: nat, s: seq<Byte>): Fs
    requires TabOk(y) && i < |y.tab| && bn < MAXFILE && o + |s| <= BSIZE && Addr(y, i, bn) < |y.disk|
  {
    Stored(y, Addr(y, i, bn), Patched(y.disk[Addr(y, i, bn)], o, s))
  }

  lemma WritingStart(f: Fs, own: map<nat, Owner>, i: nat, off: nat, src: seq<Byte>)
    requires Conserved(f, own) && i < |f.tab| && off + |src| <= MAXFILE * BSIZE
    ensures Writing(f, f, own, i, off, src, 0)
  {
    TabStepsSame(f, f, i);
  }

  /** itrunc after n entries of the indirect block. */
  ghost predicate FreeingEntries(f0: Fs, own0: map<nat, Owner>, f: Fs, own: map<nat, Owner>, i: nat, n: nat)
    requires TabOk(f0) && i < |f0.tab| && n <= NINDIRECT
  {
    Truncating(f0, f, i, IND) && Dropped(own0, own, i, IND, n) &&
    f.sb.datastart <= f.tab[i].addrs[IND] < |f.disk| && Conserved(Shadow(f, i, n), own)
  }

  /** WriteRound with the block number and offset named. */
  lemma WriteRoundAt(f0: Fs, f: Fs, own: map<nat, Owner>, y: Fs, own1: map<nat, Owner>, i: nat, off: nat,
                     src: seq<Byte>, tot: nat, bn: nat, o: nat, m: nat, z: Fs)
    requires TabOk(f0) && i < |f0.tab| && HoleFree(f0, i) && off + |src| <= MAXFILE * BSIZE
    requires 0 < m && tot + m <= |src| && off + tot == bn * BSIZE + o && o + m <= BSIZE
    requires Writing(f0, f, own, i, off, src, tot) && Mapped(f, own, y, own1, i, bn)
    requires z == PatchedAtBlock(y, i, bn, o, src[tot..tot + m])
    ensures Writing(f0, z, own1, i, off, src, tot + m)
  {
    assert bn == (off + tot) / BSIZE && o == (off + tot) % BSIZE;
    WriteRound(f0, f, own, y, own1, i, off, src, tot, m, z);
  }

  /** The file block, offset and length of one piece of a transfer at position p. */
  method Piece(p: nat, rest: nat) returns (bn: nat, o: nat, m: nat)
    ensures p == bn * BSIZE + o && o < BSIZE && m == Min(rest, BSIZE - o)
  {
    bn, o := p / BSIZE, p % BSIZE;
    m := Min(rest, BSIZE - o);
  }

  class FileSystem {
    var cur: Fs                    // disk blocks and in-memory inodes
    ghost var own: map<nat, Owner>

    constructor (f: Fs, ghost o: map<nat, Owner>)
      requires Conserved(f, o)
      ensures cur == f && own == o
    {
      cur := f;
      own := o;
    }

    /** The inner loop of balloc: the first clear bit of the bitmap block for b. */
    method ScanBits(ghost k: nat, b: nat) returns (bi: nat)
      requires LaidOut(cur.sb, cur.disk) && b < cur.sb.size && b == k * BPB
      ensures bi <= BPB && b + bi <= cur.sb.size
      ensures bi < BPB && b + bi < cur.sb.size ==> !InUse(cur.sb, cur.disk, b + bi)
      ensures AllUsed(cur, b, b + bi)
    {
      var blk := cur.disk[BBlock(cur.sb, b)];
      bi := 0;
      while bi < BPB && b + bi < cur.sb.size
        invariant 0 <= bi <= BPB && b + bi <= cur.sb.size
        invariant forall c :: b <= c < b + bi ==> InUse(cur.sb, cur.disk, c)
      {
        BitInBlock(k, b, bi);
        if !BitSet(blk[bi / 8], bi % 8) { return; }
        bi := bi + 1;
      }
    }

    /** balloc's search for a clear bit, bitmap block by bitmap block. */
    method FindFree() returns (ok: bool, a: nat)
      requires LaidOut(cur.sb, cur.disk)
      ensures ok ==> a < cur.sb.size && !InUse(cur.sb, cur.disk, a)
      ensures AllUsed(cur, 0, if ok then a else cur.sb.size)
    {
      var b := 0;
      ghost var k := 0;
      while b < cur.sb.size
        invariant b == k * BPB
        invariant AllUsed(cur, 0, b)
        decreases cur.sb.size - b
      {
        var bi := ScanBits(k, b);
        if bi < BPB && b + bi < cur.sb.size {
          AllUsedJoin(cur, 0, b, b + bi);
          return true, b + bi;
        }
        AllUsedBlock(cur, b, bi);
        AllUsedJoin(cur, 0, b, b + BPB);
        b, k := b + BPB, k + 1;
      }
      AllUsedEnd(cur, b);
      return false, 0;
    }

    /** balloc: the first free block, marked and zeroed; false is the "out of blocks" panic. */
    method Balloc() returns (ok: bool, a: nat, ghost log: seq<Put>)
      requires Conserved(cur, own)
      modifies this`cur
      ensures ok ==> Spare(old(cur), own, a) && cur == Claimed(old(cur), a) && AllUsed(old(cur), 0, a)
      ensures !ok ==> cur == old(cur) && log == [] && AllUsed(cur, 0, cur.sb.size)
      ensures HomeLog(old(cur), cur, log) && |log| <= 2 && Targets(log) <= Bitmap(old(cur).sb) + {a}
    {
      log := [];
      ok, a := FindFree();
      if ok {
        log := ClaimLog(cur, a);
        cur := Claimed(cur, a);
        ClaimReplays(old(cur), a, cur);
      }
    }

    /** bfree: false is the "freeing free block" panic. */
    method Bfree(b: nat) returns (ok: bool, ghost log: seq<Put>)
      requires LaidOut(cur.sb, cur.disk) && b < cur.sb.size
      modifies this`cur
      ensures ok <==> InUse(old(cur).sb, old(cur).disk, b)
      ensures cur == if ok then Freed(old(cur), b) else old(cur)
      ensures FreeLog(old(cur), cur, log, 1)
    {
      var blk := cur.disk[BBlock(cur.sb, b)];
      var bi := b % BPB;
      if !BitSet(blk[bi / 8], bi % 8) { return false, []; }
      cur := Freed(cur, b);
      ok, log := true, [Put(BBlock(cur.sb, b), cur.disk[BBlock(cur.sb, b)])];
      FreedReplays(old(cur), b, cur);
    }

    /** bmap: the address of file block bn, allocating what is missing. False is a panic. */
    method Bmap(i: nat, bn: nat) returns (ok: bool, a: nat, ghost log: seq<Put>)
      requires Conserved(cur, own) && i < |cur.tab|
      modifies this
      ensures HomeLog(old(cur), cur, log) && (ok ==> BlockLog(old(cur), cur, i, a, log, 3))
      ensures bn < MAXFILE && Addr(old(cur), i, bn) != 0 ==> log == []
      ensures ok ==> bn < MAXFILE && Mapped(old(cur), old(own), cur, own, i, bn) && a == Addr(cur, i, bn)
      ensures bn < MAXFILE && Addr(old(cur), i, bn) != 0 ==> ok
      ensures bn >= MAXFILE ==> !ok
      ensures bn < MAXFILE && Addr(old(cur), i, bn) != 0 ==> cur == old(cur) && own == old(own)
      ensures bn < MAXFILE && !ok ==> Conserved(cur, own) && AllUsed(cur, 0, cur.sb.size)
    {
      log := [];
      if bn < NDIRECT {
        if cur.tab[i].addrs[bn] != 0 {
          MappedAlready(cur, own, i, bn);
          return true, cur.tab[i].addrs[bn], [];
        }
        ok, a, log := BmapDirect(i, bn);
        return;
      }
      if bn >= MAXFILE { return false, 0, []; }
      ok, a, log := BmapIndirect(i, bn);
    }

    /** The part of bmap that fills a direct slot. */
    method BmapDirect(i: nat, bn: nat) returns (ok: bool, a: nat, ghost log: seq<Put>)
      requires Conserved(cur, own) && i < |cur.tab| && bn < NDIRECT && cur.tab[i].addrs[bn] == 0
      modifies this
      ensures HomeLog(old(cur), cur, log) && (ok ==> BlockLog(old(cur), cur, i, a, log, 2))
      ensures ok ==> Mapped(old(cur), old(own), cur, own, i, bn) && a == Addr(cur, i, bn)
      ensures !ok ==> Conserved(cur, own) && AllUsed(cur, 0, cur.sb.size)
    {
      ok, a, log := Balloc();
      if !ok { return; }
      cur := WithAddr(cur, i, bn, a);
      MappedDirect(old(cur), own, i, bn, a, cur);
      own := own[a := (i, bn)];
    }

    /** The part of bmap that makes sure inode i has an indirect block. */
    method IndirectBlock(i: nat) returns (ok: bool, ind: nat, ghost log: seq<Put>)
      requires Conserved(cur, own) && i < |cur.tab|
      modifies this
      ensures HomeLog(old(cur), cur, log) && (ok ==> BlockLog(old(cur), cur, i, ind, log, 0))
      ensures ok ==> cur.tab[i].addrs[IND] == ind
      ensures old(cur).tab[i].addrs[IND] != 0 ==> log == []
      ensures ok ==> WithIndirect(old(cur), old(own), i, ind, cur, own)
      ensures old(cur).tab[i].addrs[IND] != 0 ==> ok
      ensures !ok ==> Conserved(cur, own) && AllUsed(cur, 0, cur.sb.size)
    {
      ind := cur.tab[i].addrs[IND];
      if ind != 0 {
        IndirectOwned(cur, own, i);
        return true, ind, [];
      }
      ok, ind, log := Balloc();
      if !ok { return; }
      cur := WithAddr(cur, i, IND, ind);
      LinkDirect(old(cur), own, i, IND, ind, cur);
      own := own[ind := (i, IND)];
    }

    /** bmap past the direct blocks. */
    method BmapIndirect(i: nat, bn: nat) returns (ok: bool, a: nat, ghost log: seq<Put>)
      requires Conserved(cur, own) && i < |cur.tab| && NDIRECT <= bn < MAXFILE
      modifies this
      ensures HomeLog(old(cur), cur, log) && (ok ==> BlockLog(old(cur), cur, i, a, log, 3))
      ensures Addr(old(cur), i, bn) != 0 ==> log == []
      ensures ok ==> Mapped(old(cur), old(own), cur, own, i, bn) && a == Addr(cur, i, bn)
      ensures Addr(old(cur), i, bn) != 0 ==> ok && cur == old(cur) && own == old(own)
      ensures !ok ==> Conserved(cur, own) && AllUsed(cur, 0, cur.sb.size)
    {
      var ind;
      ok, ind, log := IndirectBlock(i);
      if !ok { return false, 0, log; }
      ok, a, log := BmapEntry(old(cur), old(own), i, bn, ind, log);
    }

    /** bmap once inode i has an indirect block. */
    method BmapEntry(ghost f: Fs, ghost own0: map<nat, Owner>, i: nat, bn: nat, ind: nat, ghost log0: seq<Put>)
      returns (ok: bool, a: nat, ghost log: seq<Put>)
      requires Conserved(f, own0) && i < |f.tab| && NDIRECT <= bn < MAXFILE && WithIndirect(f, own0, i, ind, cur, own)
      requires cur.tab[i].addrs[IND] == ind && BlockLog(f, cur, i, ind, log0, 0)
      modifies this
      ensures HomeLog(f, cur, log) && (ok ==> BlockLog(f, cur, i, a, log, 3))
      ensures ok ==> Mapped(f, own0, cur, own, i, bn) && a == Addr(cur, i, bn)
      ensures Addr(f, i, bn) != 0 ==> ok && cur == old(cur) && own == old(own) && log == log0
      ensures !ok ==> Conserved(cur, own) && AllUsed(cur, 0, cur.sb.size)
    {
      ghost var y, o := cur, own;
      a := GetWord(cur.disk[ind], 4 * (bn - NDIRECT));
      EntryRead(f, own0, i, ind, y, o, bn);
      if a != 0 {
        BlockLogThere(f, cur, i, a, log0);
        return true, a, log0;
      }
      ok, a, log := NewEntry(i, bn, ind);
      if ok {
        EntryMade(f, own0, i, ind, y, o, bn, a, cur);
        BlockLogJoin(f, y, cur, i, ind, a, log0, 0, log, 3);
        log := log0 + log;
      } else {
        log := log0;
      }
    }

    /** The part of bmap that fills entry bn of indirect block ind. */
    method NewEntry(i: nat, bn: nat, ind: nat) returns (ok: bool, a: nat, ghost log: seq<Put>)
      requires Conserved(cur, own) && i < |cur.tab| && NDIRECT <= bn < MAXFILE && cur.tab[i].addrs[IND] == ind
      requires 0 < ind < |cur.disk|
      modifies this
      ensures ok ==> Spare(old(cur), old(own), a) && cur == WithEntry(Claimed(old(cur), a), i, bn - NDIRECT, a)
      ensures ok ==> own == old(own)[a := (i, bn + 1)]
      ensures ok ==> BlockLog(old(cur), cur, i, a, log, 3)
      ensures !ok ==> cur == old(cur) && own == old(own) && log == [] && AllUsed(cur, 0, cur.sb.size)
    {
      ok, a, log := Balloc();
      if !ok { return; }
      ghost var y, log0 := cur, log;
      cur := WithEntry(cur, i, bn - NDIRECT, a);
      log := log0 + [Put(ind, cur.disk[ind])];
      EntryLog(old(cur), own, y, cur, i, ind, a, log0);
      own := own[a := (i, bn + 1)];
    }

    /** bmap of a block that is mapped. */
    method BmapMapped(i: nat, bn: nat) returns (a: nat)
      requires Conserved(cur, own) && i < |cur.tab| && bn < MAXFILE && Addr(cur, i, bn) != 0
      modifies this
      ensures cur == old(cur) && own == old(own) && a == Addr(cur, i, bn)
    {
      var ok;
      ghost var log;
      ok, a, log := Bmap(i, bn);
    }

    /** One round of readi's loop: more of the n bytes at off. */
    method ReadBlock(i: nat, off: nat, n: nat, data: seq<Byte>, ghost s: seq<Byte>) returns (more: seq<Byte>)
      requires Conserved(cur, own) && i < |cur.tab| && HoleFree(cur, i) && s == Bytes(cur, i)
      requires |data| < n && off + n <= |s| && data == s[off..off + |data|]
      modifies this
      ensures cur == old(cur) && own == old(own)
      ensures |data| < |more| <= n && more == s[off..off + |more|]
    {
      var bn, o, m := Piece(off + |data|, n - |data|);
      ReadPiece(cur, own, i, bn, o, m);
      var a := BmapMapped(i, bn);
      more := data + cur.disk[a][o..o + m];
      SlicesJoin(s, off, data, cur.disk[a][o..o + m], more);
    }

    /** readi's loop. */
    method ReadBlocks(i: nat, off: nat, n: nat) returns (data: seq<Byte>)
      requires Conserved(cur, own) && i < |cur.tab| && HoleFree(cur, i) && off + n <= cur.tab[i].size
      modifies this
      ensures cur == old(cur) && own == old(own) && data == Bytes(cur, i)[off..off + n]
    {
      data := [];
      ghost var s := Bytes(cur, i);
      while |data| < n
        invariant cur == old(cur) && own == old(own) && |data| <= n && data == s[off..off + |data|]
        decreases n - |data|
      {
        data := ReadBlock(i, off, n, data, s);
      }
    }

    /** readi: the bytes at off, as many as there are; a hole-free file is only read. */
    method Readi(i: nat, off: Word, n: Word) returns (r: ReadResult)
      requires Conserved(cur, own) && i < |cur.tab| && HoleFree(cur, i)
      modifies this
      ensures cur == old(cur) && own == old(own)
      ensures r.ReadDevice? <==> cur.tab[i].typ == T_DEV
      ensures r.ReadFails? <==> cur.tab[i].typ != T_DEV && (off > cur.tab[i].size || off + n > 0xFFFF_FFFF)
      ensures r.ReadBytes? ==> off + |r.data| <= cur.tab[i].size && r.data == Bytes(cur, i)[off..off + |r.data|]
      ensures r.ReadBytes? ==> |r.data| == n || (|r.data| < n && off + |r.data| == cur.tab[i].size)
    {
      if cur.tab[i].typ == T_DEV { return ReadDevice; }
      if off > cur.tab[i].size || WrapAdd(off, n) < off { return ReadFails; }
      var len := n;
      if WrapAdd(off, n) > cur.tab[i].size { len := cur.tab[i].size - off; }
      var data := ReadBlocks(i, off, len);
      return ReadBytes(data);
    }

    /** iupdate. */
    method Iupdate(i: nat) returns (ghost log: seq<Put>)
      requires Conserved(cur, own) && i < |cur.tab|
      modifies this`cur
      ensures Conserved(cur, own) && IBlock(old(cur).sb, i) < |old(cur).disk| && cur == Updated(old(cur), i)
      ensures forall j :: 0 <= j < |cur.tab| ==> OnDisk(cur, j) == if j == i then cur.tab[i] else OnDisk(old(cur), j)
      ensures Replays(old(cur).disk, cur.disk, log) && |log| == 1 && Targets(log) == {IBlock(old(cur).sb, i)}
    {
      InodeBlock(cur.sb, i);
      ghost var f := cur;
      cur := Updated(cur, i);
      log := [Put(IBlock(f.sb, i), cur.disk[IBlock(f.sb, i)])];
      ReplaysOne(f.disk, IBlock(f.sb, i), cur.disk[IBlock(f.sb, i)], cur.disk);
      UpdatedKeeps(f, own, i, cur);
      forall j | 0 <= j < |cur.tab|
        ensures OnDisk(cur, j) == if j == i then cur.tab[i] else OnDisk(f, j)
      {
        UpdatedOnDisk(f, i, cur, j);
      }
    }

    /** One round of writei's loop. */
    method WriteBlock(ghost f0: Fs, i: nat, off: nat, src: seq<Byte>, tot: nat, ghost log0: seq<Put>)
      returns (ok: bool, m: nat, ghost log: seq<Put>)
      requires TabOk(f0) && i < |f0.tab| && HoleFree(f0, i) && off + |src| <= MAXFILE * BSIZE && tot < |src|
      requires Writing(f0, cur, own, i, off, src, tot) && Boundary(off, tot, |src|)
      requires FileLog(f0, cur, i, log0, Touched(off, tot))
      modifies this
      ensures ok ==> 0 < m <= |src| - tot && Writing(f0, cur, own, i, off, src, tot + m)
      ensures ok ==> Boundary(off, tot + m, |src|) && FileLog(f0, cur, i, log, Touched(off, tot + m))
      ensures !ok ==> Conserved(cur, own) && AllUsed(cur, 0, cur.sb.size) && HomeLog(f0, cur, log)
    {
      var bn, o;
      ghost var y;
      bn, o, m := Piece(off + tot, |src| - tot);
      TouchedNext(off, tot, |src|, bn, o, m);
      ghost var more, a;
      ok, y, more, a := MapAndStore(i, bn, o, src[tot..tot + m]);
      log := log0 + more;
      if ok {
        WriteRoundAt(f0, old(cur), old(own), y, own, i, off, src, tot, bn, o, m, cur);
        FileLogNext(f0, old(cur), cur, i, log0, Touched(off, tot), a, more, Touched(off, tot + m));
      } else {
        HomeLogJoin(f0, old(cur), cur, log0, more);
      }
    }

    method MapAndStore(i: nat, bn: nat, o: nat, s: seq<Byte>)
      returns (ok: bool, ghost y: Fs, ghost log: seq<Put>, ghost at: nat)
      requires Conserved(cur, own) && i < |cur.tab| && bn < MAXFILE && o + |s| <= BSIZE
      modifies this
      ensures ok ==> Mapped(old(cur), old(own), y, own, i, bn) && cur == PatchedAtBlock(y, i, bn, o, s)
      ensures ok ==> BlockLog(old(cur), cur, i, at, log, 4)
      ensures !ok ==> Conserved(cur, own) && AllUsed(cur, 0, cur.sb.size) && HomeLog(old(cur), cur, log)
    {
      var a;
      ok, a, log := Bmap(i, bn);
      y, at := cur, a;
      if ok {
        cur := Stored(cur, a, Patched(cur.disk[a], o, s));
        BlockLogOne(y, cur, i, a, a, cur.disk[a]);
        BlockLogJoin(old(cur), y, cur, i, a, a, log, 3, [Put(a, cur.disk[a])], 1);
        log := log + [Put(a, cur.disk[a])];
      }
    }

    /** writei's loop; false is the "out of blocks" panic. */
    method WriteBlocks(i: nat, off: nat, src: seq<Byte>) returns (ok: bool, ghost log: seq<Put>)
      requires Conserved(cur, own) && i < |cur.tab| && HoleFree(cur, i) && off + |src| <= MAXFILE * BSIZE
      modifies this
      ensures ok ==> Writing(old(cur), cur, own, i, off, src, |src|)
      ensures ok ==> FileLog(old(cur), cur, i, log, Touched(off, |src|))
      ensures !ok ==> Conserved(cur, own) && AllUsed(cur, 0, cur.sb.size) && HomeLog(old(cur), cur, log)
    {
      ghost var f0 := cur;
      log := [];
      WritingStart(cur, own, i, off, src);
      FileLogStart(cur, i);
      var tot := 0;
      while tot < |src|
        invariant 0 <= tot <= |src| && Writing(f0, cur, own, i, off, src, tot)
        invariant Boundary(off, tot, |src|) && FileLog(f0, cur, i, log, Touched(off, tot))
      {
        var m;
        ok, m, log := WriteBlock(f0, i, off, src, tot, log);
        if !ok { return; }
        tot := tot + m;
      }
      ok := true;
    }

    /** writei. log is its log_write calls: they make the disk it leaves of the one it found,
        and go to a block for each one touched, the indirect block, the inode's and the
        bitmap's. */
    method Writei(i: nat, off: Word, src: seq<Byte>) returns (r: WriteResult, ghost log: seq<Put>)
      requires Conserved(cur, own) && i < |cur.tab| && HoleFree(cur, i) && Synced(cur, i) && |src| <= 0xFFFF_FFFF
      modifies this
      ensures r.WriteDevice? <==> old(cur).tab[i].typ == T_DEV
      ensures r.WriteFails? <==> old(cur).tab[i].typ != T_DEV && !CanWrite(old(cur).tab[i].size, off, |src|)
      ensures r.WriteDevice? || r.WriteFails? ==> cur == old(cur) && own == old(own) && log == []
      ensures r.Written? ==> r.n == |src| && Wrote(old(cur), cur, own, i, off, src) && OthersRead(old(cur), cur, i)
      ensures r.OutOfBlocks? ==> Conserved(cur, own) && AllUsed(cur, 0, cur.sb.size) && HomeLog(old(cur), cur, log)
      ensures r.Written? ==> WriteLog(old(cur), cur, log, Touched(off, |src|))
    {
      if cur.tab[i].typ == T_DEV { return WriteDevice, []; }
      if off > cur.tab[i].size || WrapAdd(off, |src|) < off { return WriteFails, []; }
      if WrapAdd(off, |src|) > MAXFILE * BSIZE { return WriteFails, []; }
      ghost var f0 := cur;
      var ok;
      ok, log := WriteBlocks(i, off, src);
      if !ok { return OutOfBlocks, log; }
      ghost var y, more := cur, [];
      FileLogEnd(f0, y, i, log, Touched(off, |src|));
      more := GrowSize(f0, i, off, src);
      InodeBlock(f0.sb, i);
      WriteLogEnd(f0, y, cur, log, Touched(off, |src|), more, IBlock(f0.sb, i));
      return Written(|src|), log + more;
    }

    /** The end of writei: a file that grew gets its size and its inode written. */
    method GrowSize(ghost f0: Fs, i: nat, off: Word, src: seq<Byte>) returns (ghost log: seq<Put>)
      requires TabOk(f0) && i < |f0.tab| && HoleFree(f0, i) && Synced(f0, i) && CanWrite(f0.tab[i].size, off, |src|)
      requires Writing(f0, cur, own, i, off, src, |src|)
      modifies this`cur
      ensures Wrote(f0, cur, own, i, off, src) && OthersRead(f0, cur, i)
      ensures Replays(old(cur).disk, cur.disk, log) && |log| <= 1 && Targets(log) <= {IBlock(f0.sb, i)}
    {
      ghost var f := cur;
      log := [];
      if |src| > 0 && off + |src| > cur.tab[i].size {
        cur := Resized(cur, i, off + |src|);
        ghost var g := cur;
        ResizedConserved(f, own, i, off + |src|, g);
        InodeBlock(f0.sb, i);
        log := Iupdate(i);
        WriteEndsPast(f0, f, own, i, off, src, g, cur);
      } else {
        WriteEndsInside(f0, f, own, i, off, src);
      }
      OthersKeptRead(f0, cur, i);
    }

    /** itrunc's loop over the direct blocks. */
    method FreeDirects(i: nat) returns (ok: bool, ghost log: seq<Put>)
      requires Conserved(cur, own) && i < |cur.tab|
      modifies this
      ensures ok && Conserved(cur, own) && Truncating(old(cur), cur, i, IND) && Dropped(old(own), own, i, IND, 0)
      ensures FreeLog(old(cur), cur, log, NDIRECT)
    {
      var k := 0;
      log := [];
      while k < NDIRECT
        invariant 0 <= k <= NDIRECT && Conserved(cur, own)
        invariant Truncating(old(cur), cur, i, k) && Dropped(old(own), own, i, k, 0)
        invariant FreeLog(old(cur), cur, log, k)
      {
        ok, log := FreeSlot(old(cur), old(own), i, k, log);
        k := k + 1;
      }
      ok := true;
    }

    /** One round of it. */
    method FreeSlot(ghost f0: Fs, ghost own0: map<nat, Owner>, i: nat, k: nat, ghost log0: seq<Put>)
      returns (ok: bool, ghost log: seq<Put>)
      requires TabOk(f0) && i < |f0.tab| && k < NDIRECT && Conserved(cur, own)
      requires Truncating(f0, cur, i, k) && Dropped(own0, own, i, k, 0) && FreeLog(f0, cur, log0, k)
      modifies this
      ensures ok && Conserved(cur, own) && Truncating(f0, cur, i, k + 1) && Dropped(own0, own, i, k + 1, 0)
      ensures FreeLog(f0, cur, log, k + 1)
    {
      ghost var f, o := cur, own;
      var b := cur.tab[i].addrs[k];
      if b == 0 {
        DroppedDirect(f, own0, o, i, k, b, own);
        return true, log0;
      }
      assert Slot(cur.disk, cur.tab[i], k) == b;
      OwnedInUse(cur, own, b);
      ok, log := Bfree(b);
      FreeLogNext(f0, f, cur, log0, k, log);
      log := log0 + log;
      cur := WithAddr(cur, i, k, 0);
      FreeDirect(f, o, i, k, b, cur);
      own := own - {b};
      TruncatingStep(f0, f, i, k, b, cur);
      DroppedDirect(f, own0, o, i, k, b, own);
    }

    /** itrunc's loop over the entries of the indirect block. */
    method FreeEntries(ghost f0: Fs, ghost own0: map<nat, Owner>, i: nat, ghost log0: seq<Put>)
      returns (ok: bool, ghost log: seq<Put>)
      requires TabOk(f0) && i < |f0.tab| && FreeingEntries(f0, own0, cur, own, i, 0)
      requires FreeLog(f0, cur, log0, NDIRECT)
      modifies this
      ensures ok && FreeingEntries(f0, own0, cur, own, i, NINDIRECT)
      ensures FreeLog(f0, cur, log, NDIRECT + NINDIRECT)
    {
      var n := 0;
      log := log0;
      while n < NINDIRECT
        invariant 0 <= n <= NINDIRECT && FreeingEntries(f0, own0, cur, own, i, n)
        invariant FreeLog(f0, cur, log, NDIRECT + n)
      {
        ok, log := FreeIndirectEntry(f0, own0, i, n, log);
        n := n + 1;
      }
      ok := true;
    }

    /** One round of it. */
    method FreeIndirectEntry(ghost f0: Fs, ghost own0: map<nat, Owner>, i: nat, n: nat, ghost log0: seq<Put>)
      returns (ok: bool, ghost log: seq<Put>)
      requires TabOk(f0) && i < |f0.tab| && n < NINDIRECT && FreeingEntries(f0, own0, cur, own, i, n)
      requires FreeLog(f0, cur, log0, NDIRECT + n)
      modifies this
      ensures ok && FreeingEntries(f0, own0, cur, own, i, n + 1)
      ensures FreeLog(f0, cur, log, NDIRECT + n + 1)
    {
      ghost var f, o, s := cur, own, Shadow(cur, i, n);
      var b := GetWord(cur.disk[cur.tab[i].addrs[IND]], 4 * n);
      EntryInUse(f, o, i, n, b);
      if b == 0 {
        SkipEntry(f, o, i, n);
        DroppedEntry(s, own0, o, i, n, b, own);
        return true, log0;
      }
      ok, log := Bfree(b);
      FreeLogNext(f0, f, cur, log0, NDIRECT + n, log);
      log := log0 + log;
      FreeEntry(f, o, i, n, b, cur);
      own := own - {b};
      TruncatingFree(f0, f, i, IND, b, cur);
      DroppedEntry(s, own0, o, i, n, b, own);
    }

    /** itrunc's indirect part. */
    method FreeIndirects(ghost f0: Fs, ghost own0: map<nat, Owner>, i: nat, ghost log0: seq<Put>)
      returns (ok: bool, ghost log: seq<Put>)
      requires TabOk(f0) && i < |f0.tab| && Conserved(cur, own) && FreeLog(f0, cur, log0, NDIRECT)
      requires Truncating(f0, cur, i, IND) && Dropped(own0, own, i, IND, 0)
      modifies this
      ensures ok && Conserved(cur, own) && Truncating(f0, cur, i, IND + 1) && Dropped(own0, own, i, IND + 1, NINDIRECT)
      ensures FreeLog(f0, cur, log, NDIRECT + NINDIRECT + 1)
    {
      if cur.tab[i].addrs[IND] == 0 {
        DroppedNoIndirect(cur, own0, own, i);
        return true, log0;
      }
      IndirectOwned(cur, own, i);
      ShadowStart(cur, i);
      ok, log := FreeEntries(f0, own0, i, log0);
      ok, log := FreeLast(f0, own0, i, log);
    }

    /** The indirect block itself. */
    method FreeLast(ghost f0: Fs, ghost own0: map<nat, Owner>, i: nat, ghost log0: seq<Put>)
      returns (ok: bool, ghost log: seq<Put>)
      requires TabOk(f0) && i < |f0.tab| && FreeingEntries(f0, own0, cur, own, i, NINDIRECT)
      requires FreeLog(f0, cur, log0, NDIRECT + NINDIRECT)
      modifies this
      ensures ok && Conserved(cur, own) && Truncating(f0, cur, i, IND + 1) && Dropped(own0, own, i, IND + 1, NINDIRECT)
      ensures FreeLog(f0, cur, log, NDIRECT + NINDIRECT + 1)
    {
      ghost var f, o, s := cur, own, Shadow(cur, i, NINDIRECT);
      var b := cur.tab[i].addrs[IND];
      IndirectOwned(s, o, i);
      OwnedInUse(s, o, b);
      ShadowBits(f, i, NINDIRECT);
      ok, log := Bfree(b);
      FreeLogNext(f0, f, cur, log0, NDIRECT + NINDIRECT, log);
      log := log0 + log;
      cur := WithAddr(cur, i, IND, 0);
      FreeIndirect(f, o, i, b, cur);
      own := own - {b};
      TruncatingStep(f0, f, i, IND, b, cur);
      DroppedIndirect(s, own0, o, i, b, own);
    }

    /** itrunc: no bfree it makes panics. log is its log_write calls, which go to the bitmap
        and the inode. */
    method Itrunc(i: nat) returns (ok: bool, ghost log: seq<Put>)
      requires Conserved(cur, own) && i < |cur.tab|
      modifies this
      ensures ok && Truncated(old(cur), old(own), cur, own, i) && OthersRead(old(cur), cur, i)
      ensures TruncLog(old(cur), cur, i, log)
    {
      ghost var f0, own0 := cur, own;
      ok, log := FreeDirects(i);
      ok, log := FreeIndirects(f0, own0, i, log);
      ghost var f := cur;
      cur := Resized(cur, i, 0);
      ghost var g, more := cur, [];
      ResizedConserved(f, own, i, 0, g);
      more := Iupdate(i);
      TruncLogEnd(f0, f, cur, i, log, more);
      log := log + more;
      TruncEnds(f0, own0, f, own, i, g, cur);
      OthersKeptRead(f0, cur, i);
    }

    /** Inode i gets new fields, content kept, and is written back. */
    method Describe(i: nat, ino: Inode) returns (ghost log: seq<Put>)
      requires Conserved(cur, own) && i < |cur.tab| && ino.size == cur.tab[i].size && ino.addrs == cur.tab[i].addrs
      modifies this`cur
      ensures Described(old(cur), cur, own, i, ino) && OthersRead(old(cur), cur, i)
      ensures HomeLog(old(cur), cur, log) && |log| == 1 && Targets(log) == {IBlock(old(cur).sb, i)}
    {
      InodeBlock(cur.sb, i);
      ghost var f := cur;
      cur := WithInode(cur, i, ino);
      ghost var y := cur;
      WithInodeConserved(f, own, i, ino, y);
      log := Iupdate(i);
      DescribedByUpdate(f, own, i, ino, y, cur);
      OthersKeptRead(f, cur, i);
    }

    /** ialloc: the first free inode after inode 0; false is the "no inodes" panic. */
    method Ialloc(typ: Half) returns (ok: bool, i: nat, ghost log: seq<Put>)
      requires Conserved(cur, own) && FreeBare(cur) && forall j :: 0 <= j < |cur.tab| ==> Synced(cur, j)
      modifies this`cur
      ensures ok ==> 0 < i < |old(cur).tab| && old(cur).tab[i].typ == 0
      ensures ok ==> forall j :: 0 < j < i ==> old(cur).tab[j].typ != 0
      ensures ok ==> Described(old(cur), cur, own, i, Blank(typ)) && OthersRead(old(cur), cur, i)
      ensures ok ==> cur.tab[i].typ == typ && cur.tab[i].nlink == 0 && Bare(cur.tab[i])
      ensures ok ==> |log| == 1 && Targets(log) == {IBlock(old(cur).sb, i)}
      ensures !ok ==> cur == old(cur) && log == [] && forall j :: 0 < j < |cur.tab| ==> cur.tab[j].typ != 0
      ensures HomeLog(old(cur), cur, log)
    {
      i, log := 1, [];
      while i < cur.sb.ninodes
        invariant 1 <= i && cur == old(cur) && (forall j :: 0 < j < i && j < |cur.tab| ==> cur.tab[j].typ != 0)
      {
        InodeBlock(cur.sb, i);
        assert Synced(cur, i);
        if DecodeInode(cur.disk[IBlock(cur.sb, i)], INODESIZE * (i % IPB)).typ == 0 {
          BlankIsBare(cur.tab[i], typ);
          log := Describe(i, Blank(typ));
          return true, i, log;
        }
        i := i + 1;
      }
      ok := false;
    }

    /** iput, as far as the disk goes: the last reference to an inode without links frees it. */
    method Iput(i: nat, last: bool) returns (freed: bool, ghost log: seq<Put>)
      requires Conserved(cur, own) && i < |cur.tab|
      modifies this
      ensures freed <==> last && old(cur).tab[i].nlink == 0
      ensures freed ==> InodeFreed(old(cur), old(own), cur, own, i) && OthersRead(old(cur), cur, i)
      ensures !freed ==> cur == old(cur) && own == old(own) && log == []
      ensures HomeLog(old(cur), cur, log)
      ensures Targets(log) <= Bitmap(old(cur).sb) + {IBlock(old(cur).sb, i)}
    {
      freed, log := last && cur.tab[i].nlink == 0, [];
      if freed {
        ghost var f0, own0 := cur, own;
        var ok;
        ok, log := Itrunc(i);
        ghost var y := cur;
        var ino := cur.tab[i].(typ := 0);
        ghost var more := Describe(i, ino);
        ReplaysJoin(f0.disk, y.disk, cur.disk, log, more);
        log := log + more;
        FreedAfter(f0, own0, y, own, cur, i, ino);
        OthersKeptRead(f0, cur, i);
      }
    }
  }
}

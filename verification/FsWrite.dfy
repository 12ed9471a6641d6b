/** One round of writei's loop: map a block, store part of the source in it, and what
    that does to the file's bytes and to everyone else's (fs.c). */
module FsWrite {
  import opened Blocks
  import opened FsLayout
  import opened FsSpec
  import opened FsFile

  /** s with src laid over it from offset off on, growing at the end if need be. */
  function Spliced(s: seq<Byte>, off: nat, src: seq<Byte>): (r: seq<Byte>)
    requires off <= |s|
    ensures |r| == if off + |src| < |s| then |s| else off + |src|
    ensures forall p :: 0 <= p < |r| ==> r[p] == if off <= p < off + |src| then src[p - off] else s[p]
  {
    s[..off] + src + if off + |src| < |s| then s[off + |src|..] else []
  }

  /** The bytes already written are in place. */
  ghost predicate Copied(f: Fs, i: nat, off: nat, src: seq<Byte>, tot: nat)
    requires TabOk(f) && i < |f.tab| && tot <= |src| && off + |src| <= MAXFILE * BSIZE
  {
    forall p :: off <= p < off + tot ==> Addr(f, i, p / BSIZE) != 0 && ByteAt(f, i, p) == src[p - off]
  }

  /** Every byte that was mapped before and not written since is as it was. */
  ghost predicate Kept(f0: Fs, f: Fs, i: nat, off: nat, tot: nat)
    requires TabOk(f0) && TabOk(f) && f.sb == f0.sb && i < |f0.tab|
  {
    forall p :: 0 <= p < MAXFILE * BSIZE && Addr(f0, i, p / BSIZE) != 0 ==>
      Addr(f, i, p / BSIZE) != 0 && (!(off <= p < off + tot) ==> ByteAt(f, i, p) == ByteAt(f0, i, p))
  }

  /** writei's loop invariant after tot bytes. */
  ghost predicate Writing(f0: Fs, f: Fs, own: map<nat, Owner>, i: nat, off: nat, src: seq<Byte>, tot: nat)
    requires TabOk(f0) && i < |f0.tab| && tot <= |src| && off + |src| <= MAXFILE * BSIZE
  {
    Conserved(f, own) && f.sb == f0.sb && TabSteps(f0, f, i) && KeepsMeta(f0, f) &&
    Copied(f, i, off, src, tot) && Kept(f0, f, i, off, tot) &&
    (forall j :: 0 <= j < |f0.tab| && j != i ==> SameFile(f0, f, j)) &&
    (f.tab == f0.tab || off + tot > f0.tab[i].size)
  }

  /** The block after memmove of src[tot..tot + m] to its offset o. */
  function Patched(blk: Block, o: nat, s: seq<Byte>): Block
    requires o + |s| <= BSIZE
  {
    blk[..o] + s + blk[o + |s|..]
  }

  lemma PatchedAt(blk: Block, o: nat, s: seq<Byte>, q: nat)
    requires o + |s| <= BSIZE && q < BSIZE
    ensures Patched(blk, o, s)[q] == if o <= q < o + |s| then s[q - o] else blk[q]
  {
  }

  /** Offsets in the file block that holds position q. */
  lemma SameBlock(q: nat, p: nat)
    ensures p / BSIZE == q / BSIZE ==> p - q == p % BSIZE - q % BSIZE
    ensures q <= p < q + (BSIZE - q % BSIZE) ==> p / BSIZE == q / BSIZE
  {
  }

  /** The bytes of inode i once its block bn has been patched. */
  lemma PatchedBytes(y: Fs, own: map<nat, Owner>, i: nat, q: nat, s: seq<Byte>, z: Fs, p: nat)
    requires Conserved(y, own) && i < |y.tab| && q < MAXFILE * BSIZE && q % BSIZE + |s| <= BSIZE
    requires Addr(y, i, q / BSIZE) != 0 && Addr(y, i, q / BSIZE) < |y.disk| && p < MAXFILE * BSIZE
    requires z == Stored(y, Addr(y, i, q / BSIZE), Patched(y.disk[Addr(y, i, q / BSIZE)], q % BSIZE, s))
    ensures TabOk(z) && Addr(z, i, p / BSIZE) == Addr(y, i, p / BSIZE)
    ensures ByteAt(z, i, p) == if q <= p < q + |s| then s[p - q] else ByteAt(y, i, p)
  {
    var a := Addr(y, i, q / BSIZE);
    var blk := Patched(y.disk[a], q % BSIZE, s);
    StoredBytes(y, own, i, q / BSIZE, blk, z, p);
    PatchedAt(y.disk[a], q % BSIZE, s, p % BSIZE);
    SameBlock(q, p);
  }

  lemma WroteCopied(f: Fs, y: Fs, own1: map<nat, Owner>, i: nat, off: nat, src: seq<Byte>, tot: nat, m: nat, z: Fs)
    requires Conserved(y, own1) && i < |y.tab| && TabOk(f) && f.sb == y.sb
    requires tot + m <= |src| && off + |src| <= MAXFILE * BSIZE && 0 < m && (off + tot) % BSIZE + m <= BSIZE
    requires Copied(f, i, off, src, tot)
    requires forall p :: 0 <= p < MAXFILE * BSIZE && Addr(f, i, p / BSIZE) != 0 ==>
               Addr(y, i, p / BSIZE) != 0 && ByteAt(y, i, p) == ByteAt(f, i, p)
    requires Addr(y, i, (off + tot) / BSIZE) != 0 && Addr(y, i, (off + tot) / BSIZE) < |y.disk|
    requires z == Stored(y, Addr(y, i, (off + tot) / BSIZE),
                         Patched(y.disk[Addr(y, i, (off + tot) / BSIZE)], (off + tot) % BSIZE, src[tot..tot + m]))
    ensures TabOk(z) && Copied(z, i, off, src, tot + m)
  {
    var q, s := off + tot, src[tot..tot + m];
    PatchedBytes(y, own1, i, q, s, z, q);
    forall p | off <= p < off + tot + m
      ensures Addr(z, i, p / BSIZE) != 0 && ByteAt(z, i, p) == src[p - off]
    {
      PatchedBytes(y, own1, i, q, s, z, p);
      SameBlock(q, p);
      if p < off + tot { assert Addr(f, i, p / BSIZE) != 0; }
    }
  }

  lemma WroteKept(f0: Fs, f: Fs, y: Fs, own1: map<nat, Owner>, i: nat, off: nat, tot: nat, s: seq<Byte>, z: Fs)
    requires Conserved(y, own1) && i < |y.tab| && TabOk(f0) && TabOk(f) && f0.sb == f.sb == y.sb
    requires off + tot + |s| <= MAXFILE * BSIZE && 0 < |s| && (off + tot) % BSIZE + |s| <= BSIZE
    requires Kept(f0, f, i, off, tot)
    requires forall p :: 0 <= p < MAXFILE * BSIZE && Addr(f, i, p / BSIZE) != 0 ==>
               Addr(y, i, p / BSIZE) != 0 && ByteAt(y, i, p) == ByteAt(f, i, p)
    requires Addr(y, i, (off + tot) / BSIZE) != 0 && Addr(y, i, (off + tot) / BSIZE) < |y.disk|
    requires z == Stored(y, Addr(y, i, (off + tot) / BSIZE),
                         Patched(y.disk[Addr(y, i, (off + tot) / BSIZE)], (off + tot) % BSIZE, s))
    ensures TabOk(z) && Kept(f0, z, i, off, tot + |s|)
  {
    var q := off + tot;
    PatchedBytes(y, own1, i, q, s, z, q);
    forall p | 0 <= p < MAXFILE * BSIZE && Addr(f0, i, p / BSIZE) != 0
      ensures Addr(z, i, p / BSIZE) != 0
      ensures !(off <= p < off + tot + |s|) ==> ByteAt(z, i, p) == ByteAt(f0, i, p)
    {
      PatchedBytes(y, own1, i, q, s, z, p);
    }
  }

  /** Growing the block map means growing the file: a hole-free file has its unmapped
      blocks at or past its size. */
  lemma GrowsPastSize(f0: Fs, f: Fs, i: nat, off: nat, tot: nat, bn: nat)
    requires TabOk(f0) && TabOk(f) && f.sb == f0.sb && i < |f0.tab| && HoleFree(f0, i)
    requires Kept(f0, f, i, off, tot) && bn < MAXFILE && bn == (off + tot) / BSIZE && Addr(f, i, bn) == 0
    ensures f0.tab[i].size <= off + tot
  {
    var p := bn * BSIZE;
    assert p / BSIZE == bn;
    assert Addr(f0, i, p / BSIZE) == 0;
    assert bn * BSIZE >= f0.tab[i].size;
  }

  /** One round of writei's loop. */
  lemma WriteRound(f0: Fs, f: Fs, own: map<nat, Owner>, y: Fs, own1: map<nat, Owner>, i: nat, off: nat,
                   src: seq<Byte>, tot: nat, m: nat, z: Fs)
    requires TabOk(f0) && i < |f0.tab| && HoleFree(f0, i) && off + |src| <= MAXFILE * BSIZE
    requires tot + m <= |src| && 0 < m && (off + tot) % BSIZE + m <= BSIZE
    requires Writing(f0, f, own, i, off, src, tot) && Mapped(f, own, y, own1, i, (off + tot) / BSIZE)
    requires z == Stored(y, Addr(y, i, (off + tot) / BSIZE),
                         Patched(y.disk[Addr(y, i, (off + tot) / BSIZE)], (off + tot) % BSIZE, src[tot..tot + m]))
    ensures Writing(f0, z, own1, i, off, src, tot + m)
  {
    var bn := (off + tot) / BSIZE;
    var blk := Patched(y.disk[Addr(y, i, bn)], (off + tot) % BSIZE, src[tot..tot + m]);
    forall p | 0 <= p < MAXFILE * BSIZE && Addr(f, i, p / BSIZE) != 0
      ensures Addr(y, i, p / BSIZE) != 0 && ByteAt(y, i, p) == ByteAt(f, i, p)
    {
      MappedBytes(f, own, y, own1, i, bn, p);
    }
    WroteCopied(f, y, own1, i, off, src, tot, m, z);
    WroteKept(f0, f, y, own1, i, off, tot, src[tot..tot + m], z);
    StoredConserved(y, own1, i, bn, blk, z);
    WroteOthers(f0, f, own, y, own1, i, bn, blk, z);
    WroteTab(f0, f, y, z, i);
    if Addr(f, i, bn) == 0 { GrowsPastSize(f0, f, i, off, tot, bn); }
  }

  lemma WroteTab(f0: Fs, f: Fs, y: Fs, z: Fs, i: nat)
    requires i < |f0.tab| && TabSteps(f0, f, i) && TabSteps(f, y, i) && z.tab == y.tab
    requires f0.sb == f.sb == y.sb == z.sb && |f0.disk| == |f.disk| == |y.disk| == |z.disk|
    requires KeepsMeta(f0, f) && KeepsMeta(f, y) && KeepsMeta(y, z)
    ensures TabSteps(f0, z, i) && KeepsMeta(f0, z)
  {
  }

  lemma WroteOthers(f0: Fs, f: Fs, own: map<nat, Owner>, y: Fs, own1: map<nat, Owner>, i: nat, bn: nat, blk: Block,
        z: Fs)
    requires TabOk(f0) && i < |f0.tab| && Conserved(f, own) && f.sb == f0.sb && bn < MAXFILE
    requires forall j :: 0 <= j < |f0.tab| && j != i ==> SameFile(f0, f, j)
    requires Mapped(f, own, y, own1, i, bn) && z == Stored(y, Addr(y, i, bn), blk)
    ensures TabOk(z) && forall j :: 0 <= j < |f0.tab| && j != i ==> SameFile(f0, z, j)
  {
    StoredConserved(y, own1, i, bn, blk, z);
    forall j | 0 <= j < |f0.tab| && j != i
      ensures SameFile(f0, z, j)
    {
      MappedOthers(f, own, y, own1, i, bn, j);
      StoredOthers(y, own1, i, bn, blk, z, j);
      SameFileTrans(f0, f, y, j);
      SameFileTrans(f0, y, z, j);
    }
  }

  /** Everything but file i is as it was: the other files, and all the other inodes on disk. */
  ghost predicate OthersKept(f0: Fs, z: Fs, i: nat)
    requires TabOk(f0) && TabOk(z) && z.sb == f0.sb && i < |f0.tab|
  {
    forall j :: 0 <= j < |f0.tab| && j != i ==> SameFile(f0, z, j) && OnDisk(z, j) == OnDisk(f0, j)
  }

  /** Every other hole-free file reads as before. */
  ghost predicate OthersRead(f0: Fs, z: Fs, i: nat)
    requires TabOk(f0) && TabOk(z) && z.sb == f0.sb && i < |f0.tab|
  {
    forall j :: 0 <= j < |f0.tab| && j != i ==> ReadsSame(f0, z, j)
  }

  ghost predicate ReadsSame(f0: Fs, z: Fs, j: nat)
    requires TabOk(f0) && TabOk(z) && z.sb == f0.sb && j < |f0.tab|
  {
    HoleFree(f0, j) ==> HoleFree(z, j) && Bytes(z, j) == Bytes(f0, j)
  }

  lemma OthersKeptRead(f0: Fs, z: Fs, i: nat)
    requires TabOk(f0) && TabOk(z) && z.sb == f0.sb && i < |f0.tab| && OthersKept(f0, z, i)
    ensures OthersRead(f0, z, i)
  {
    forall j | 0 <= j < |f0.tab| && j != i
      ensures ReadsSame(f0, z, j)
    {
      if HoleFree(f0, j) { SameFileBytes(f0, z, j); }
    }
  }

  /** All but the size and the block addresses. */
  predicate SameKind(a: Inode, b: Inode) {
    a.typ == b.typ && a.major == b.major && a.minor == b.minor && a.nlink == b.nlink
  }

  /** What writei promises of file i. */
  ghost predicate Wrote(f0: Fs, z: Fs, own: map<nat, Owner>, i: nat, off: nat, src: seq<Byte>)
    requires TabOk(f0) && i < |f0.tab| && HoleFree(f0, i) && off <= f0.tab[i].size
  {
    Conserved(z, own) && z.sb == f0.sb && HoleFree(z, i) && Synced(z, i) && OthersKept(f0, z, i) &&
    SameKind(f0.tab[i], z.tab[i]) && Bytes(z, i) == Spliced(Bytes(f0, i), off, src)
  }

  lemma MetaOnDisk(f0: Fs, f: Fs, j: nat)
    requires TabOk(f0) && TabOk(f) && f.sb == f0.sb && KeepsMeta(f0, f) && j < |f0.tab|
    ensures OnDisk(f, j) == OnDisk(f0, j)
  {
    InodeBlock(f0.sb, j);
  }

  /** The file below its new size, once the loop is done. */
  lemma WrittenBytes(f0: Fs, f: Fs, i: nat, off: nat, src: seq<Byte>, z: Fs)
    requires TabOk(f0) && i < |f0.tab| && HoleFree(f0, i) && off <= f0.tab[i].size && off + |src| <= MAXFILE * BSIZE
    requires TabOk(f) && f.sb == f0.sb && Copied(f, i, off, src, |src|) && Kept(f0, f, i, off, |src|)
    requires TabOk(z) && z.sb == f0.sb
    requires z.tab[i].size == if off + |src| > f0.tab[i].size then off + |src| else f0.tab[i].size
    requires forall bn :: 0 <= bn < MAXFILE ==> Addr(z, i, bn) == Addr(f, i, bn)
    requires forall p :: 0 <= p < MAXFILE * BSIZE && Addr(f, i, p / BSIZE) != 0 ==> ByteAt(z, i, p) == ByteAt(f, i, p)
    ensures HoleFree(z, i) && Bytes(z, i) == Spliced(Bytes(f0, i), off, src)
  {
    var s := Spliced(Bytes(f0, i), off, src);
    forall p | 0 <= p < z.tab[i].size
      ensures Addr(f, i, p / BSIZE) != 0 && ByteAt(f, i, p) == s[p]
    {
      WrittenByte(f0, f, i, off, src, p);
    }
    forall bn | 0 <= bn < MAXFILE && bn * BSIZE < z.tab[i].size
      ensures Addr(z, i, bn) != 0
    {
      assert Addr(f, i, bn * BSIZE / BSIZE) != 0;
    }
  }

  lemma WrittenByte(f0: Fs, f: Fs, i: nat, off: nat, src: seq<Byte>, p: nat)
    requires TabOk(f0) && TabOk(f) && f.sb == f0.sb && i < |f0.tab|
    requires HoleFree(f0, i) && off <= f0.tab[i].size && off + |src| <= MAXFILE * BSIZE
    requires Copied(f, i, off, src, |src|) && Kept(f0, f, i, off, |src|) && (p < off + |src| || p < f0.tab[i].size)
    ensures Addr(f, i, p / BSIZE) != 0 && ByteAt(f, i, p) == Spliced(Bytes(f0, i), off, src)[p]
  {
    SplicedAt(Bytes(f0, i), off, src, p);
    if p < f0.tab[i].size {
      assert p / BSIZE * BSIZE < f0.tab[i].size;
      assert Addr(f0, i, p / BSIZE) != 0;
    }
  }

  lemma SplicedAt(s: seq<Byte>, off: nat, src: seq<Byte>, p: nat)
    requires off <= |s| && (p < off + |src| || p < |s|)
    ensures p < |Spliced(s, off, src)|
    ensures Spliced(s, off, src)[p] == if off <= p < off + |src| then src[p - off] else s[p]
  {
  }

  /** writei that does not grow the file needs no iupdate: the inode did not change. */
  lemma WriteEndsInside(f0: Fs, f: Fs, own: map<nat, Owner>, i: nat, off: nat, src: seq<Byte>)
    requires TabOk(f0) && i < |f0.tab| && HoleFree(f0, i) && Synced(f0, i) && off + |src| <= f0.tab[i].size
    requires Writing(f0, f, own, i, off, src, |src|)
    ensures Wrote(f0, f, own, i, off, src)
  {
    forall j | 0 <= j < |f0.tab|
      ensures OnDisk(f, j) == OnDisk(f0, j)
    {
      MetaOnDisk(f0, f, j);
    }
    WrittenBytes(f0, f, i, off, src, f);
  }

  /** writei that grows the file sets the size and updates the inode on disk. */
  lemma WriteEndsPast(f0: Fs, f: Fs, own: map<nat, Owner>, i: nat, off: nat, src: seq<Byte>, r: Fs, z: Fs)
    requires TabOk(f0) && i < |f0.tab| && HoleFree(f0, i) && off <= f0.tab[i].size
    requires f0.tab[i].size < off + |src| <= MAXFILE * BSIZE && Writing(f0, f, own, i, off, src, |src|)
    requires r == Resized(f, i, off + |src|) && IBlock(f0.sb, i) < |f0.disk| && z == Updated(r, i)
    ensures Wrote(f0, z, own, i, off, src)
  {
    ResizedConserved(f, own, i, off + |src|, r);
    UpdatedKeeps(r, own, i, z);
    assert SameFile(r, z, i);
    forall bn | 0 <= bn < MAXFILE
      ensures Addr(z, i, bn) == Addr(f, i, bn)
    {
      assert Addr(r, i, bn) == Addr(f, i, bn);
    }
    forall p | 0 <= p < MAXFILE * BSIZE && Addr(f, i, p / BSIZE) != 0
      ensures ByteAt(z, i, p) == ByteAt(f, i, p)
    {
      AddrOwned(r, own, i, p / BSIZE);
      assert ByteAt(r, i, p) == ByteAt(f, i, p);
    }
    WrittenBytes(f0, f, i, off, src, z);
    EndsPastOthers(f0, f, r, own, i, z);
    UpdatedOnDisk(r, i, z, i);
  }

  lemma EndsPastOthers(f0: Fs, f: Fs, r: Fs, own: map<nat, Owner>, i: nat, z: Fs)
    requires TabOk(f0) && TabOk(f) && Conserved(r, own) && TabOk(z) && f0.sb == f.sb == r.sb == z.sb && i < |f0.tab|
    requires KeepsMeta(f0, f) && r.disk == f.disk && IBlock(f0.sb, i) < |f0.disk| && z == Updated(r, i)
    requires forall j :: 0 <= j < |f0.tab| && j != i ==> SameFile(f0, f, j)
    requires forall j :: 0 <= j < |f0.tab| && j != i ==> SameFile(f, r, j)
    requires forall j :: 0 <= j < |f0.tab| ==> SameFile(r, z, j)
    ensures OthersKept(f0, z, i)
  {
    forall j | 0 <= j < |f0.tab| && j != i
      ensures SameFile(f0, z, j) && OnDisk(z, j) == OnDisk(f0, j)
    {
      SameFileTrans(f0, f, r, j);
      SameFileTrans(f0, r, z, j);
      UpdatedOnDisk(r, i, z, j);
      MetaOnDisk(f0, f, j);
    }
  }
}

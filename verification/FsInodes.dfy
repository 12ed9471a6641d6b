/** Inodes as they come and go: the fields ialloc, create, link, unlink and iput set before
    they write the inode back (fs.c, sysfile.c). */
module FsInodes {
  import opened Blocks
  import opened FsLayout
  import opened FsSpec
  import opened FsFile
  import opened FsWrite
  import opened FsTrunc

  /** An inode without content. */
  predicate Bare(ino: Inode) {
    ino.size == 0 && forall k :: 0 <= k < |ino.addrs| ==> ino.addrs[k] == 0
  }

  /** A free inode, of type 0, has none. */
  ghost predicate FreeBare(f: Fs) {
    forall j :: 0 <= j < |f.tab| && f.tab[j].typ == 0 ==> Bare(f.tab[j])
  }

  /** What ialloc's memset and type assignment make of an inode. */
  function Blank(typ: Half): Inode {
    Inode(typ, 0, 0, 0, 0, seq(NDIRECT + 1, _ => 0))
  }

  lemma BlankIsBare(ino: Inode, typ: Half)
    requires |ino.addrs| == NDIRECT + 1 && Bare(ino)
    ensures Blank(typ).size == ino.size && Blank(typ).addrs == ino.addrs && Bare(Blank(typ))
  {
  }

  function WithInode(f: Fs, i: nat, ino: Inode): Fs
    requires i < |f.tab|
  {
    Fs(f.sb, f.disk, f.tab[i := ino])
  }

  /** Inode i is now ino, in memory and on disk, with its content as it was; nothing else
      changed. */
  ghost predicate Described(f: Fs, z: Fs, own: map<nat, Owner>, i: nat, ino: Inode)
    requires TabOk(f) && i < |f.tab|
  {
    Conserved(z, own) && z.sb == f.sb && z.tab[i] == ino && Synced(z, i) && OthersKept(f, z, i) &&
    (HoleFree(f, i) ==> HoleFree(z, i) && Bytes(z, i) == Bytes(f, i))
  }

  lemma WithInodeConserved(f: Fs, own: map<nat, Owner>, i: nat, ino: Inode, z: Fs)
    requires Conserved(f, own) && i < |f.tab| && ino.size == f.tab[i].size && ino.addrs == f.tab[i].addrs
    requires z == WithInode(f, i, ino)
    ensures Conserved(z, own) && forall j :: 0 <= j < |f.tab| && j != i ==> SameFile(f, z, j)
    ensures forall p :: 0 <= p < MAXFILE * BSIZE ==> ByteAt(z, i, p) == ByteAt(f, i, p)
    ensures forall bn :: 0 <= bn < MAXFILE ==> Addr(z, i, bn) == Addr(f, i, bn)
  {
    forall j, l | 0 <= j < |f.tab| && 0 <= l < NSLOT
      ensures Slot(z.disk, z.tab[j], l) == Slot(f.disk, f.tab[j], l)
    {
    }
    SlotsKeepConserved(f, own, z);
  }

  lemma WithInodeContent(f: Fs, own: map<nat, Owner>, i: nat, ino: Inode, z: Fs)
    requires Conserved(f, own) && i < |f.tab| && ino.size == f.tab[i].size && ino.addrs == f.tab[i].addrs
    requires z == WithInode(f, i, ino) && HoleFree(f, i)
    ensures TabOk(z) && HoleFree(z, i) && Bytes(z, i) == Bytes(f, i)
  {
    WithInodeConserved(f, own, i, ino, z);
  }

  /** iupdate of an inode whose fields were set. */
  lemma DescribedByUpdate(f: Fs, own: map<nat, Owner>, i: nat, ino: Inode, y: Fs, z: Fs)
    requires Conserved(f, own) && i < |f.tab| && ino.size == f.tab[i].size && ino.addrs == f.tab[i].addrs
    requires y == WithInode(f, i, ino) && TabOk(y) && IBlock(f.sb, i) < |f.disk| && z == Updated(y, i)
    ensures Described(f, z, own, i, ino)
  {
    WithInodeConserved(f, own, i, ino, y);
    UpdatedKeeps(y, own, i, z);
    forall j | 0 <= j < |f.tab| && j != i
      ensures SameFile(f, z, j) && OnDisk(z, j) == OnDisk(f, j)
    {
      SameFileTrans(f, y, z, j);
      UpdatedOnDisk(y, i, z, j);
    }
    UpdatedOnDisk(y, i, z, i);
    if HoleFree(f, i) {
      WithInodeContent(f, own, i, ino, y);
      SameFileBytes(y, z, i);
    }
  }

  lemma OthersKeptTrans(f0: Fs, f1: Fs, f2: Fs, i: nat)
    requires TabOk(f0) && TabOk(f1) && TabOk(f2) && f0.sb == f1.sb == f2.sb && i < |f0.tab|
    requires OthersKept(f0, f1, i) && OthersKept(f1, f2, i)
    ensures OthersKept(f0, f2, i)
  {
    forall j | 0 <= j < |f0.tab| && j != i
      ensures SameFile(f0, f2, j)
    {
      SameFileTrans(f0, f1, f2, j);
    }
  }

  /** What iput's freeing of inode i promises: the inode is free, in memory and on disk, so
      are exactly its blocks, and every other file is as it was. */
  ghost predicate InodeFreed(f: Fs, own: map<nat, Owner>, z: Fs, own1: map<nat, Owner>, i: nat)
    requires TabOk(f) && i < |f.tab|
  {
    Conserved(z, own1) && z.sb == f.sb && z.tab[i].typ == 0 && Bare(z.tab[i]) && Synced(z, i) && OthersKept(f, z, i) &&
    (forall b :: b in own1 <==> b in own && own[b].0 != i) && forall b :: b in own1 ==> own1[b] == own[b]
  }

  lemma TruncatedBare(f: Fs, own: map<nat, Owner>, z: Fs, own1: map<nat, Owner>, i: nat)
    requires TabOk(f) && i < |f.tab| && Truncated(f, own, z, own1, i)
    ensures Bare(z.tab[i]) && HoleFree(z, i)
  {
    forall k | 0 <= k < |z.tab[i].addrs|
      ensures z.tab[i].addrs[k] == 0
    {
      assert Slot(z.disk, z.tab[i], k) == 0;
    }
  }

  lemma FreedAfter(f: Fs, own: map<nat, Owner>, y: Fs, own1: map<nat, Owner>, z: Fs, i: nat, ino: Inode)
    requires TabOk(f) && i < |f.tab| && Truncated(f, own, y, own1, i) && Described(y, z, own1, i, ino)
    requires ino.typ == 0 && ino.size == y.tab[i].size && ino.addrs == y.tab[i].addrs
    ensures InodeFreed(f, own, z, own1, i)
  {
    TruncatedBare(f, own, y, own1, i);
    OthersKeptTrans(f, y, z, i);
  }
}

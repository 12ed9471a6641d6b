/** A file's bytes, as readi and writei see them through direct and indirect blocks,
    and what mapping a block or storing data does to them (fs.c). */
module FsFile {
  import opened Blocks
  import opened FsLayout
  import opened FsSpec

  /** The slot that holds file block bn. */
  function SlotOf(bn: nat): nat {
    if bn < NDIRECT then bn else bn + 1
  }

  function Addr(f: Fs, i: nat, bn: nat): Word
    requires TabOk(f) && i < |f.tab| && bn < MAXFILE
  {
    Slot(f.disk, f.tab[i], SlotOf(bn))
  }

  /** The byte of file i at offset p. */
  function ByteAt(f: Fs, i: nat, p: nat): Byte
    requires TabOk(f) && i < |f.tab| && p < MAXFILE * BSIZE
  {
    var a := Addr(f, i, p / BSIZE);
    if a < |f.disk| then f.disk[a][p % BSIZE] else 0
  }

  /** Every block below the size is mapped. */
  ghost predicate HoleFree(f: Fs, i: nat)
    requires TabOk(f) && i < |f.tab|
  {
    f.tab[i].size <= MAXFILE * BSIZE &&
    forall bn :: 0 <= bn < MAXFILE && bn * BSIZE < f.tab[i].size ==> Addr(f, i, bn) != 0
  }

  /** s is the file's bytes, in order. */
  ghost predicate AreBytes(f: Fs, i: nat, s: seq<Byte>)
    requires TabOk(f) && i < |f.tab| && f.tab[i].size <= MAXFILE * BSIZE
  {
    |s| == f.tab[i].size && forall p :: 0 <= p < |s| ==> s[p] == ByteAt(f, i, p)
  }

  lemma SomeBytes(f: Fs, i: nat)
    requires TabOk(f) && i < |f.tab| && f.tab[i].size <= MAXFILE * BSIZE
    ensures exists s: seq<Byte> :: AreBytes(f, i, s)
  {
    assert AreBytes(f, i, seq(f.tab[i].size, p requires 0 <= p < f.tab[i].size => ByteAt(f, i, p)));
  }

  /** The file as a byte string. */
  ghost function Bytes(f: Fs, i: nat): (s: seq<Byte>)
    requires TabOk(f) && i < |f.tab| && f.tab[i].size <= MAXFILE * BSIZE
    ensures AreBytes(f, i, s)
  {
    SomeBytes(f, i);
    var s: seq<Byte> :| AreBytes(f, i, s);
    s
  }

  /** The inode as it stands on the disk. */
  function OnDisk(f: Fs, i: nat): Inode
    requires LaidOut(f.sb, f.disk) && i < f.sb.ninodes
  {
    DecodeInode(f.disk[IBlock(f.sb, i)], INODESIZE * (i % IPB))
  }

  ghost predicate Synced(f: Fs, i: nat)
    requires TabOk(f) && i < |f.tab|
  {
    OnDisk(f, i) == f.tab[i]
  }

  /** Inode j and every block it reaches are the same in f and z. */
  ghost predicate SameFile(f: Fs, z: Fs, j: nat)
    requires TabOk(f) && TabOk(z) && z.sb == f.sb && j < |f.tab|
  {
    z.tab[j] == f.tab[j] &&
    forall l :: 0 <= l < NSLOT ==>
      Slot(z.disk, z.tab[j], l) == Slot(f.disk, f.tab[j], l) &&
      (0 < Slot(f.disk, f.tab[j], l) < |f.disk| && l != IND ==>
         z.disk[Slot(f.disk, f.tab[j], l)] == f.disk[Slot(f.disk, f.tab[j], l)])
  }

  /** A file that is the same has the same bytes. */
  lemma SameFileBytes(f: Fs, z: Fs, j: nat)
    requires TabOk(f) && TabOk(z) && z.sb == f.sb && j < |f.tab| && SameFile(f, z, j) && HoleFree(f, j)
    ensures HoleFree(z, j) && Bytes(z, j) == Bytes(f, j)
  {
    forall bn | 0 <= bn < MAXFILE
      ensures Addr(z, j, bn) == Addr(f, j, bn)
    {
    }
    forall p | 0 <= p < f.tab[j].size
      ensures ByteAt(z, j, p) == ByteAt(f, j, p)
    {
      assert (p / BSIZE) * BSIZE < f.tab[j].size;
      assert Addr(f, j, p / BSIZE) != 0;
    }
  }

  lemma SameFileTrans(f: Fs, y: Fs, z: Fs, j: nat)
    requires TabOk(f) && TabOk(y) && TabOk(z) && f.sb == y.sb == z.sb && j < |f.tab|
    requires SameFile(f, y, j) && SameFile(y, z, j)
    ensures SameFile(f, z, j)
  {
  }

  // ---- Mapping a block ----

  function SetAddrs(ino: Inode, a: seq<Word>): Inode {
    Inode(ino.typ, ino.major, ino.minor, ino.nlink, ino.size, a)
  }

  /** Only inode i changed, and only its addresses. */
  ghost predicate TabSteps(f: Fs, z: Fs, i: nat)
    requires i < |f.tab|
  {
    |z.tab| == |f.tab| && z.tab == f.tab[i := SetAddrs(f.tab[i], z.tab[i].addrs)]
  }

  /** File block bn of i is mapped in z: as it was, or to a block of zeros. */
  ghost predicate MapsTo(f: Fs, z: Fs, i: nat, bn: nat)
    requires TabOk(f) && TabOk(z) && z.sb == f.sb && i < |f.tab| && bn < MAXFILE
  {
    0 < Addr(z, i, bn) < |z.disk| &&
    (Addr(f, i, bn) != 0 ==> z == f) &&
    (Addr(f, i, bn) == 0 ==> z.disk[Addr(z, i, bn)] == ZeroBlock) &&
    forall c :: 0 <= c < MAXFILE && c != bn ==> Addr(z, i, c) == Addr(f, i, c)
  }

  /** Owned blocks keep their owner and data blocks their contents; new owners belong to i. */
  ghost predicate KeepsOwned(f: Fs, own: map<nat, Owner>, z: Fs, own1: map<nat, Owner>, i: nat) {
    (forall x :: x in own ==> x in own1 && own1[x] == own[x]) &&
    (forall x :: x in own && (own[x].1 != IND || own[x].0 != i) && x < |f.disk| && x < |z.disk| ==>
      z.disk[x] == f.disk[x]) &&
    (forall x :: x in own1 && x !in own ==> own1[x].0 == i)
  }

  /** The blocks before the bitmap are untouched. */
  ghost predicate KeepsMeta(f: Fs, z: Fs) {
    forall x :: 0 <= x < f.sb.bmapstart && x < |f.disk| && x < |z.disk| ==> z.disk[x] == f.disk[x]
  }

  /** What bmap promises for file block bn of inode i. */
  ghost predicate Mapped(f: Fs, own: map<nat, Owner>, z: Fs, own1: map<nat, Owner>, i: nat, bn: nat)
    requires TabOk(f) && i < |f.tab| && bn < MAXFILE
  {
    z.sb == f.sb && Conserved(z, own1) && TabSteps(f, z, i) && MapsTo(f, z, i, bn) &&
    KeepsOwned(f, own, z, own1, i) && KeepsMeta(f, z)
  }

  lemma MappedAlready(f: Fs, own: map<nat, Owner>, i: nat, bn: nat)
    requires Conserved(f, own) && i < |f.tab| && bn < MAXFILE && Addr(f, i, bn) != 0
    ensures Mapped(f, own, f, own, i, bn)
  {
    assert Addr(f, i, bn) in own;
  }

  /** The direct case. */
  lemma MappedDirect(f: Fs, own: map<nat, Owner>, i: nat, bn: nat, b: nat, z: Fs)
    requires Conserved(f, own) && i < |f.tab| && bn < NDIRECT && f.tab[i].addrs[bn] == 0 && Spare(f, own, b)
    requires z == WithAddr(Claimed(f, b), i, bn, b)
    ensures Mapped(f, own, z, own[b := (i, bn)], i, bn)
  {
    LinkDirect(f, own, i, bn, b, z);
    ClaimedFrame(f, b, z.disk);
    ClaimKeeps(f, own, b, (i, bn), z);
    MapsNew(f, z, i, bn, bn, b);
  }

  lemma ClaimKeeps(f: Fs, own: map<nat, Owner>, b: nat, o: Owner, z: Fs)
    requires OwnedInRange(f, own) && Spare(f, own, b) && |z.disk| == |f.disk| == f.sb.size
    requires forall x :: f.sb.datastart <= x < |z.disk| && x != b ==> z.disk[x] == f.disk[x]
    ensures KeepsOwned(f, own, z, own[b := o], o.0)
  {
  }

  ghost predicate OwnedInRange(f: Fs, own: map<nat, Owner>) {
    forall b :: b in own ==> f.sb.datastart <= b < f.sb.size
  }

  lemma MapsNew(f: Fs, z: Fs, i: nat, bn: nat, k: nat, b: nat)
    requires TabOk(f) && TabOk(z) && z.sb == f.sb && i < |f.tab| && bn < MAXFILE && 0 < b < |z.disk|
    requires k == SlotOf(bn) && SlotsExcept(f, z, i, k) && Slot(f.disk, f.tab[i], k) == 0
    requires Slot(z.disk, z.tab[i], k) == b && z.disk[b] == ZeroBlock
    ensures MapsTo(f, z, i, bn)
  {
  }

  /** The indirect case when the indirect block exists. */
  lemma MappedEntry(f: Fs, own: map<nat, Owner>, i: nat, bn: nat, b: nat, z: Fs)
    requires Conserved(f, own) && i < |f.tab| && NDIRECT <= bn < MAXFILE && 0 < f.tab[i].addrs[IND] < |f.disk|
    requires Addr(f, i, bn) == 0 && Spare(f, own, b) && z == WithEntry(Claimed(f, b), i, bn - NDIRECT, b)
    ensures Mapped(f, own, z, own[b := (i, bn + 1)], i, bn)
  {
    var k := bn + 1;
    LinkEntry(f, own, i, k, b, z);
    IndirectOwned(f, own, i);
    ClaimedFrame(f, b, Claimed(f, b).disk);
    EntryKeeps(f, own, i, b, k, z);
    TabStepsSame(f, z, i);
    MapsNew(f, z, i, bn, k, b);
  }

  lemma TabStepsSame(f: Fs, z: Fs, i: nat)
    requires i < |f.tab| && z.tab == f.tab
    ensures TabSteps(f, z, i)
  {
  }

  lemma EntryKeeps(f: Fs, own: map<nat, Owner>, i: nat, b: nat, k: nat, z: Fs)
    requires OwnedInRange(f, own) && Spare(f, own, b) && |z.disk| == |f.disk| == f.sb.size
    requires i < |f.tab| && |f.tab[i].addrs| == NDIRECT + 1
    requires f.tab[i].addrs[IND] in own && own[f.tab[i].addrs[IND]] == (i, IND)
    requires forall x :: f.sb.datastart <= x < |z.disk| && x != b && x != f.tab[i].addrs[IND] ==> z.disk[x] == f.disk[x]
    ensures KeepsOwned(f, own, z, own[b := (i, k)], i)
  {
  }

  /** The indirect case when the indirect block has to be allocated first. */
  lemma MappedBoth(f: Fs, own: map<nat, Owner>, i: nat, bn: nat, a: nat, y: Fs, b: nat, z: Fs)
    requires Conserved(f, own) && i < |f.tab| && NDIRECT <= bn < MAXFILE && f.tab[i].addrs[IND] == 0
    requires Spare(f, own, a) && y == WithAddr(Claimed(f, a), i, IND, a)
    requires Conserved(y, own[a := (i, IND)]) && Spare(y, own[a := (i, IND)], b)
    requires 0 < y.tab[i].addrs[IND] < |y.disk| && z == WithEntry(Claimed(y, b), i, bn - NDIRECT, b)
    ensures Mapped(f, own, z, own[a := (i, IND)][b := (i, bn + 1)], i, bn)
  {
    var own1 := own[a := (i, IND)];
    LinkDirect(f, own, i, IND, a, y);
    ClaimedFrame(f, a, y.disk);
    ClaimKeeps(f, own, a, (i, IND), y);
    MappedEntry(y, own1, i, bn, b, z);
    MapsVia(f, y, z, i, bn);
    KeepsVia(f, own, y, own1, z, own1[b := (i, bn + 1)], i);
  }

  lemma KeepsVia(f: Fs, own: map<nat, Owner>, y: Fs, own1: map<nat, Owner>, z: Fs, own2: map<nat, Owner>, i: nat)
    requires |f.disk| == |y.disk| == |z.disk|
    requires KeepsOwned(f, own, y, own1, i) && KeepsOwned(y, own1, z, own2, i)
    ensures KeepsOwned(f, own, z, own2, i)
  {
  }

  lemma MapsVia(f: Fs, y: Fs, z: Fs, i: nat, bn: nat)
    requires TabOk(f) && TabOk(y) && TabOk(z) && z.sb == y.sb == f.sb && i < |f.tab| && NDIRECT <= bn < MAXFILE
    requires SlotsExcept(f, y, i, IND) && f.tab[i].addrs[IND] == 0 && MapsTo(y, z, i, bn)
    ensures MapsTo(f, z, i, bn)
  {
    assert Addr(f, i, bn) == 0 && Addr(y, i, bn) == 0;
    forall c | 0 <= c < MAXFILE && c != bn
      ensures Addr(z, i, c) == Addr(f, i, c)
    {
      assert Addr(z, i, c) == Addr(y, i, c);
    }
  }

  /** A mapped file block is owned by its slot. */
  lemma AddrOwned(f: Fs, own: map<nat, Owner>, i: nat, bn: nat)
    requires Conserved(f, own) && i < |f.tab| && bn < MAXFILE && Addr(f, i, bn) != 0
    ensures Addr(f, i, bn) in own && own[Addr(f, i, bn)] == (i, SlotOf(bn)) &&
            f.sb.datastart <= Addr(f, i, bn) < f.sb.size
    ensures SlotOf(bn) != IND
  {
  }

  /** bmap leaves every other file alone. */
  lemma MappedOthers(f: Fs, own: map<nat, Owner>, z: Fs, own1: map<nat, Owner>, i: nat, bn: nat, j: nat)
    requires Conserved(f, own) && i < |f.tab| && bn < MAXFILE && Mapped(f, own, z, own1, i, bn)
    requires j < |f.tab| && j != i
    ensures SameFile(f, z, j)
  {
    OwnedKept(f, own, z, own1, i, j);
  }

  lemma OwnedKept(f: Fs, own: map<nat, Owner>, z: Fs, own1: map<nat, Owner>, i: nat, j: nat)
    requires Conserved(f, own) && TabOk(z) && z.sb == f.sb && KeepsOwned(f, own, z, own1, i)
    requires j < |f.tab| && j != i && z.tab[j] == f.tab[j]
    ensures SameFile(f, z, j)
  {
    if f.tab[j].addrs[IND] != 0 { IndirectOwned(f, own, j); }
    forall l | 0 <= l < NSLOT
      ensures Slot(z.disk, z.tab[j], l) == Slot(f.disk, f.tab[j], l)
      ensures var a := Slot(f.disk, f.tab[j], l); 0 < a < |f.disk| && l != IND ==> z.disk[a] == f.disk[a]
    {
      SlotSame(f.disk, z.disk, f.tab[j], l);
      var a := Slot(f.disk, f.tab[j], l);
      if a != 0 { assert a in own && own[a] == (j, l); }
    }
  }

  /** bmap changes no byte that was mapped before. */
  lemma MappedBytes(f: Fs, own: map<nat, Owner>, z: Fs, own1: map<nat, Owner>, i: nat, bn: nat, p: nat)
    requires Conserved(f, own) && i < |f.tab| && bn < MAXFILE && Mapped(f, own, z, own1, i, bn)
    requires p < MAXFILE * BSIZE && Addr(f, i, p / BSIZE) != 0
    ensures Addr(z, i, p / BSIZE) == Addr(f, i, p / BSIZE) && ByteAt(z, i, p) == ByteAt(f, i, p)
  {
    AddrOwned(f, own, i, p / BSIZE);
  }

  // ---- Storing data ----

  /** writei's memmove and log_write on file block bn. */
  function Stored(f: Fs, a: nat, blk: Block): Fs
    requires a < |f.disk|
  {
    Fs(f.sb, f.disk[a := blk], f.tab)
  }

  lemma StoredConserved(f: Fs, own: map<nat, Owner>, i: nat, bn: nat, blk: Block, z: Fs)
    requires Conserved(f, own) && i < |f.tab| && bn < MAXFILE && Addr(f, i, bn) != 0
    requires Addr(f, i, bn) < |f.disk| && z == Stored(f, Addr(f, i, bn), blk)
    ensures Conserved(z, own) && KeepsMeta(f, z)
    ensures forall j, l :: 0 <= j < |f.tab| && 0 <= l < NSLOT ==> Slot(z.disk, z.tab[j], l) == Slot(f.disk, f.tab[j], l)
  {
    AddrOwned(f, own, i, bn);
    BitmapSame(f.sb, f.disk, z.disk);
    forall j, l | 0 <= j < |f.tab| && 0 <= l < NSLOT
      ensures Slot(z.disk, z.tab[j], l) == Slot(f.disk, f.tab[j], l)
    {
      if f.tab[j].addrs[IND] != 0 { IndirectOwned(f, own, j); }
      SlotSame(f.disk, z.disk, f.tab[j], l);
    }
    SlotsKeepConserved(f, own, z);
  }

  /** Same slots and same bits: same ownership. */
  lemma SlotsKeepConserved(f: Fs, own: map<nat, Owner>, z: Fs)
    requires Conserved(f, own) && TabOk(z) && z.sb == f.sb
    requires forall j, l :: 0 <= j < |f.tab| && 0 <= l < NSLOT ==>
             Slot(z.disk, z.tab[j], l) == Slot(f.disk, f.tab[j], l)
    requires forall b :: 0 <= b < f.sb.size ==> (InUse(z.sb, z.disk, b) <==> InUse(f.sb, f.disk, b))
    ensures Conserved(z, own)
  {
  }

  /** Storing into one file leaves the others alone. */
  lemma StoredOthers(f: Fs, own: map<nat, Owner>, i: nat, bn: nat, blk: Block, z: Fs, j: nat)
    requires Conserved(f, own) && i < |f.tab| && bn < MAXFILE && Addr(f, i, bn) != 0
    requires Addr(f, i, bn) < |f.disk| && z == Stored(f, Addr(f, i, bn), blk) && j < |f.tab| && j != i
    ensures SameFile(f, z, j)
  {
    AddrOwned(f, own, i, bn);
    StoredConserved(f, own, i, bn, blk, z);
    forall l | 0 <= l < NSLOT && l != IND && 0 < Slot(f.disk, f.tab[j], l) < |f.disk|
      ensures z.disk[Slot(f.disk, f.tab[j], l)] == f.disk[Slot(f.disk, f.tab[j], l)]
    {
      assert own[Slot(f.disk, f.tab[j], l)] == (j, l);
    }
  }

  /** Storing changes exactly the bytes of that file block. */
  lemma StoredBytes(f: Fs, own: map<nat, Owner>, i: nat, bn: nat, blk: Block, z: Fs, p: nat)
    requires Conserved(f, own) && i < |f.tab| && bn < MAXFILE && Addr(f, i, bn) != 0
    requires Addr(f, i, bn) < |f.disk| && z == Stored(f, Addr(f, i, bn), blk) && p < MAXFILE * BSIZE
    ensures TabOk(z) && Addr(z, i, p / BSIZE) == Addr(f, i, p / BSIZE)
    ensures ByteAt(z, i, p) == if p / BSIZE == bn then blk[p % BSIZE] else ByteAt(f, i, p)
  {
    AddrOwned(f, own, i, bn);
    StoredConserved(f, own, i, bn, blk, z);
    if p / BSIZE != bn && Addr(f, i, p / BSIZE) == Addr(f, i, bn) {
      AddrOwned(f, own, i, p / BSIZE);
    }
  }

  // ---- Updating the inode ----

  function SetSize(ino: Inode, n: Word): Inode {
    Inode(ino.typ, ino.major, ino.minor, ino.nlink, n, ino.addrs)
  }

  function Resized(f: Fs, i: nat, n: Word): Fs
    requires i < |f.tab|
  {
    Fs(f.sb, f.disk, f.tab[i := SetSize(f.tab[i], n)])
  }

  lemma ResizedConserved(f: Fs, own: map<nat, Owner>, i: nat, n: Word, z: Fs)
    requires Conserved(f, own) && i < |f.tab| && z == Resized(f, i, n)
    ensures Conserved(z, own) && forall j :: 0 <= j < |f.tab| && j != i ==> SameFile(f, z, j)
    ensures forall p :: 0 <= p < MAXFILE * BSIZE ==> ByteAt(z, i, p) == ByteAt(f, i, p)
    ensures forall bn :: 0 <= bn < MAXFILE ==> Addr(z, i, bn) == Addr(f, i, bn)
  {
    forall j, l | 0 <= j < |f.tab| && 0 <= l < NSLOT
      ensures Slot(z.disk, z.tab[j], l) == Slot(f.disk, f.tab[j], l)
    {
    }
    SlotsKeepConserved(f, own, z);
  }

  /** iupdate. */
  function Updated(f: Fs, i: nat): Fs
    requires TabOk(f) && i < |f.tab| && IBlock(f.sb, i) < |f.disk|
  {
    Fs(f.sb, f.disk[IBlock(f.sb, i) := EncodeInode(f.disk[IBlock(f.sb, i)], INODESIZE * (i % IPB), f.tab[i])], f.tab)
  }

  lemma InodeBlock(sb: Superblock, i: nat)
    requires LaidOutRegions(sb) && i < sb.ninodes
    ensures sb.inodestart <= IBlock(sb, i) < sb.bmapstart && INODESIZE * (i % IPB) + INODESIZE <= BSIZE
  {
  }

  /** iupdate touches no data, no bit and no other inode. */
  lemma UpdatedKeeps(f: Fs, own: map<nat, Owner>, i: nat, z: Fs)
    requires Conserved(f, own) && i < |f.tab| && IBlock(f.sb, i) < |f.disk| && z == Updated(f, i)
    ensures Conserved(z, own) && forall j :: 0 <= j < |f.tab| ==> SameFile(f, z, j)
  {
    InodeBlock(f.sb, i);
    BitmapSame(f.sb, f.disk, z.disk);
    forall j | 0 <= j < |f.tab|
      ensures SameFile(f, z, j)
    {
      UpdatedFile(f, own, i, z, j);
    }
    forall j, l | 0 <= j < |f.tab| && 0 <= l < NSLOT
      ensures Slot(z.disk, z.tab[j], l) == Slot(f.disk, f.tab[j], l)
    {
      assert SameFile(f, z, j);
    }
    SlotsKeepConserved(f, own, z);
  }

  lemma UpdatedFile(f: Fs, own: map<nat, Owner>, i: nat, z: Fs, j: nat)
    requires Conserved(f, own) && i < |f.tab| && IBlock(f.sb, i) < |f.disk| && z == Updated(f, i) && TabOk(z)
    requires j < |f.tab|
    ensures SameFile(f, z, j)
  {
    InodeBlock(f.sb, i);
    if f.tab[j].addrs[IND] != 0 { IndirectOwned(f, own, j); }
    forall l | 0 <= l < NSLOT
      ensures Slot(z.disk, z.tab[j], l) == Slot(f.disk, f.tab[j], l)
      ensures var a := Slot(f.disk, f.tab[j], l); 0 < a < |f.disk| && l != IND ==> z.disk[a] == f.disk[a]
    {
      SlotSame(f.disk, z.disk, f.tab[j], l);
      var a := Slot(f.disk, f.tab[j], l);
      if a != 0 { assert a in own; }
    }
  }

  /** iupdate puts the in-memory inode on the disk. */
  lemma UpdatedOnDisk(f: Fs, i: nat, z: Fs, j: nat)
    requires TabOk(f) && i < |f.tab| && IBlock(f.sb, i) < |f.disk| && z == Updated(f, i) && j < |f.tab|
    ensures LaidOut(z.sb, z.disk) && OnDisk(z, j) == if j == i then f.tab[i] else OnDisk(f, j)
  {
    InodeBlock(f.sb, i);
    InodeBlock(f.sb, j);
    var b := f.disk[IBlock(f.sb, i)];
    DecodeEncode(b, INODESIZE * (i % IPB), f.tab[i]);
    if j != i && IBlock(f.sb, j) == IBlock(f.sb, i) {
      assert j % IPB != i % IPB;
      DecodeOther(b, z.disk[IBlock(f.sb, i)], INODESIZE * (i % IPB), INODESIZE * (j % IPB));
    }
  }
}

/** Who owns which disk block, and what a file's bytes are: the invariants the file
    system keeps over the free bitmap, the inodes and their indirect blocks (fs.c). */
module FsSpec {
  import opened Blocks
  import opened FsLayout

  /** Slots 0..11 hold direct block addresses, slot 12 the indirect block's, and slots
      13.. the addresses stored in the indirect block. */
  const IND := NDIRECT
  const NSLOT := NDIRECT + 1 + NINDIRECT

  type Owner = (nat, nat)     // inode number and slot

  datatype Fs = Fs(sb: Superblock, disk: Image, tab: seq<Inode>)

  function Slot(d: Image, ino: Inode, k: nat): Word
    requires |ino.addrs| == NDIRECT + 1 && k < NSLOT
  {
    if k <= IND then ino.addrs[k]
    else if ino.addrs[IND] == 0 || ino.addrs[IND] >= |d| then 0
    else GetWord(d[ino.addrs[IND]], 4 * (k - IND - 1))
  }

  // ---- The bitmap ----

  predicate InUse(sb: Superblock, d: Image, b: nat)
    requires LaidOut(sb, d) && b < sb.size
  {
    BitSet(d[BBlock(sb, b)][b % BPB / 8], b % BPB % 8)
  }

  function Flipped(sb: Superblock, d: Image, b: nat, x: Byte): (e: Image)
    requires LaidOut(sb, d) && b < sb.size
    ensures LaidOut(sb, e) && |e| == |d|
  {
    d[BBlock(sb, b) := d[BBlock(sb, b)][b % BPB / 8 := x]]
  }

  function MarkUsed(sb: Superblock, d: Image, b: nat): (e: Image)
    requires LaidOut(sb, d) && b < sb.size
    ensures LaidOut(sb, e) && |e| == |d|
  {
    var x := d[BBlock(sb, b)][b % BPB / 8];
    ByteFits(x, b % BPB % 8);
    Flipped(sb, d, b, OrBit(x, b % BPB % 8))
  }

  function MarkFree(sb: Superblock, d: Image, b: nat): (e: Image)
    requires LaidOut(sb, d) && b < sb.size
    ensures LaidOut(sb, e) && |e| == |d|
  {
    var x := d[BBlock(sb, b)][b % BPB / 8];
    ByteFits(x, b % BPB % 8);
    Flipped(sb, d, b, AndNotBit(x, b % BPB % 8))
  }

  /** The bit address of a block is its own. */
  lemma BitAddress(b: nat, c: nat)
    ensures b / BPB == c / BPB && b % BPB / 8 == c % BPB / 8 && b % BPB % 8 == c % BPB % 8 ==> b == c
  {
  }

  lemma MarkUsedBits(sb: Superblock, d: Image, b: nat, c: nat)
    requires LaidOut(sb, d) && b < sb.size && c < sb.size
    ensures InUse(sb, MarkUsed(sb, d, b), c) <==> c == b || InUse(sb, d, c)
  {
    BitAddress(b, c);
    OrBitSets(d[BBlock(sb, b)][b % BPB / 8], b % BPB % 8, c % BPB % 8);
  }

  lemma MarkFreeBits(sb: Superblock, d: Image, b: nat, c: nat)
    requires LaidOut(sb, d) && b < sb.size && c < sb.size
    ensures InUse(sb, MarkFree(sb, d, b), c) <==> c != b && InUse(sb, d, c)
  {
    BitAddress(b, c);
    AndNotBitClears(d[BBlock(sb, b)][b % BPB / 8], b % BPB % 8, c % BPB % 8);
  }

  /** Changing blocks outside the bitmap leaves it alone. */
  lemma BitmapSame(sb: Superblock, d: Image, e: Image)
    requires LaidOut(sb, d) && |e| == |d|
    requires forall x :: sb.bmapstart <= x < sb.datastart ==> e[x] == d[x]
    ensures LaidOut(sb, e) && forall b :: 0 <= b < sb.size ==> (InUse(sb, e, b) <==> InUse(sb, d, b))
  {
  }

  // ---- Ownership ----

  ghost predicate TabOk(f: Fs) {
    LaidOut(f.sb, f.disk) && |f.tab| == f.sb.ninodes && forall i :: 0 <= i < |f.tab| ==> |f.tab[i].addrs| == NDIRECT + 1
  }

  /** Every address in use is recorded under its own inode and slot. */
  ghost predicate SlotsOwned(f: Fs, own: map<nat, Owner>)
    requires TabOk(f)
  {
    forall i, k :: 0 <= i < |f.tab| && 0 <= k < NSLOT && Slot(f.disk, f.tab[i], k) != 0 ==>
      Slot(f.disk, f.tab[i], k) in own && own[Slot(f.disk, f.tab[i], k)] == (i, k)
  }

  /** Every recorded owner does hold the block, which is a data block. */
  ghost predicate OwnersHold(f: Fs, own: map<nat, Owner>)
    requires TabOk(f)
  {
    forall b :: b in own ==>
      f.sb.datastart <= b < f.sb.size && own[b].0 < |f.tab| && own[b].1 < NSLOT &&
      Slot(f.disk, f.tab[own[b].0], own[b].1) == b
  }

  /** The set bits are the metadata blocks and the owned ones. */
  ghost predicate BitmapExact(f: Fs, own: map<nat, Owner>)
    requires TabOk(f)
  {
    forall b :: 0 <= b < f.sb.size ==> (InUse(f.sb, f.disk, b) <==> b < f.sb.datastart || b in own)
  }

  /** Block conservation: each block in use is metadata or belongs to one slot of one
      inode, and the bitmap says exactly that. */
  ghost predicate Conserved(f: Fs, own: map<nat, Owner>) {
    TabOk(f) && SlotsOwned(f, own) && OwnersHold(f, own) && BitmapExact(f, own)
  }

  /** No block has two owners. */
  lemma OneOwner(f: Fs, own: map<nat, Owner>, i: nat, k: nat, j: nat, l: nat)
    requires Conserved(f, own) && i < |f.tab| && j < |f.tab| && k < NSLOT && l < NSLOT
    requires Slot(f.disk, f.tab[i], k) == Slot(f.disk, f.tab[j], l) != 0
    ensures i == j && k == l
  {
    assert own[Slot(f.disk, f.tab[i], k)] == (i, k);
    assert own[Slot(f.disk, f.tab[j], l)] == (j, l);
  }

  /** The indirect block of an inode that has one. */
  lemma IndirectOwned(f: Fs, own: map<nat, Owner>, i: nat)
    requires Conserved(f, own) && i < |f.tab| && f.tab[i].addrs[IND] != 0
    ensures f.tab[i].addrs[IND] in own && own[f.tab[i].addrs[IND]] == (i, IND)
    ensures f.sb.datastart <= f.tab[i].addrs[IND] < f.sb.size
  {
    assert Slot(f.disk, f.tab[i], IND) == f.tab[i].addrs[IND];
  }

  /** Slots read nothing but the inode and its indirect block. */
  lemma SlotSame(d: Image, e: Image, ino: Inode, k: nat)
    requires |ino.addrs| == NDIRECT + 1 && k < NSLOT && |d| == |e|
    requires 0 < ino.addrs[IND] < |d| ==> d[ino.addrs[IND]] == e[ino.addrs[IND]]
    ensures Slot(e, ino, k) == Slot(d, ino, k)
  {
  }

  // ---- Allocation ----

  /** A data block nobody owns. */
  predicate Spare(f: Fs, own: map<nat, Owner>, b: nat) {
    f.sb.datastart <= b < f.sb.size && b !in own
  }

  /** Slot (i, k) is the only one that differs between f and z. */
  ghost predicate SlotsExcept(f: Fs, z: Fs, i: nat, k: nat)
    requires TabOk(f) && TabOk(z) && f.sb == z.sb
  {
    forall j, l :: 0 <= j < |f.tab| && 0 <= l < NSLOT && !(j == i && l == k) ==>
      Slot(z.disk, z.tab[j], l) == Slot(f.disk, f.tab[j], l)
  }

  /** Filling an empty slot with a spare block and setting that block's bit. */
  lemma ConservedGain(f: Fs, own: map<nat, Owner>, i: nat, k: nat, b: nat, z: Fs)
    requires Conserved(f, own) && i < |f.tab| && k < NSLOT && Spare(f, own, b)
    requires TabOk(z) && z.sb == f.sb && SlotsExcept(f, z, i, k)
    requires Slot(f.disk, f.tab[i], k) == 0 && Slot(z.disk, z.tab[i], k) == b
    requires forall c :: 0 <= c < f.sb.size ==> (InUse(z.sb, z.disk, c) <==> c == b || InUse(f.sb, f.disk, c))
    ensures Conserved(z, own[b := (i, k)])
  {
    GainSlots(f, own, i, k, b, z);
    GainOwners(f, own, i, k, b, z);
  }

  lemma GainSlots(f: Fs, own: map<nat, Owner>, i: nat, k: nat, b: nat, z: Fs)
    requires TabOk(f) && SlotsOwned(f, own) && i < |f.tab| && k < NSLOT && Spare(f, own, b)
    requires TabOk(z) && z.sb == f.sb && SlotsExcept(f, z, i, k) && Slot(z.disk, z.tab[i], k) == b
    ensures SlotsOwned(z, own[b := (i, k)])
  {
    var own1 := own[b := (i, k)];
    forall j, l | 0 <= j < |z.tab| && 0 <= l < NSLOT && Slot(z.disk, z.tab[j], l) != 0
      ensures Slot(z.disk, z.tab[j], l) in own1 && own1[Slot(z.disk, z.tab[j], l)] == (j, l)
    {
      if !(j == i && l == k) {
        assert Slot(z.disk, z.tab[j], l) == Slot(f.disk, f.tab[j], l);
      }
    }
  }

  lemma GainOwners(f: Fs, own: map<nat, Owner>, i: nat, k: nat, b: nat, z: Fs)
    requires TabOk(f) && OwnersHold(f, own) && i < |f.tab| && k < NSLOT && Spare(f, own, b)
    requires TabOk(z) && z.sb == f.sb && SlotsExcept(f, z, i, k)
    requires Slot(f.disk, f.tab[i], k) == 0 && Slot(z.disk, z.tab[i], k) == b
    ensures OwnersHold(z, own[b := (i, k)])
  {
    var own1 := own[b := (i, k)];
    forall c | c in own1
      ensures z.sb.datastart <= c < z.sb.size && own1[c].0 < |z.tab| && own1[c].1 < NSLOT
      ensures Slot(z.disk, z.tab[own1[c].0], own1[c].1) == c
    {
      if c != b {
        var (j, l) := own[c];
        assert Slot(f.disk, f.tab[j], l) == c;
        assert !(j == i && l == k);
      }
    }
  }

  /** balloc's effect: set the bit, zero the block. */
  function Claimed(f: Fs, b: nat): (z: Fs)
    requires LaidOut(f.sb, f.disk) && b < f.sb.size
    ensures z.sb == f.sb && |z.disk| == |f.disk| && z.tab == f.tab
  {
    Fs(f.sb, MarkUsed(f.sb, f.disk, b)[b := ZeroBlock], f.tab)
  }

  lemma BitmapBlock(sb: Superblock, d: Image, b: nat)
    requires LaidOut(sb, d) && b < sb.size
    ensures sb.bmapstart <= BBlock(sb, b) < sb.datastart
  {
  }

  lemma MarkedFrame(sb: Superblock, d: Image, b: nat, e: Image)
    requires LaidOut(sb, d) && b < sb.size && e == MarkUsed(sb, d, b)
    ensures forall x :: 0 <= x < |d| && x != BBlock(sb, b) ==> e[x] == d[x]
  {
  }

  lemma ClaimedFrame(f: Fs, b: nat, e: Image)
    requires LaidOut(f.sb, f.disk) && f.sb.datastart <= b < f.sb.size && e == Claimed(f, b).disk
    ensures forall x :: f.sb.datastart <= x < |e| && x != b ==> e[x] == f.disk[x]
    ensures forall x :: 0 <= x < f.sb.bmapstart ==> e[x] == f.disk[x]
    ensures e[b] == ZeroBlock
  {
    BitmapBlock(f.sb, f.disk, b);
    MarkedFrame(f.sb, f.disk, b, MarkUsed(f.sb, f.disk, b));
  }

  lemma ClaimedBits(f: Fs, b: nat, e: Image)
    requires LaidOut(f.sb, f.disk) && f.sb.datastart <= b < f.sb.size && e == Claimed(f, b).disk
    ensures LaidOut(f.sb, e)
    ensures forall c :: 0 <= c < f.sb.size ==> (InUse(f.sb, e, c) <==> c == b || InUse(f.sb, f.disk, c))
  {
    var d := MarkUsed(f.sb, f.disk, b);
    BitmapSame(f.sb, d, e);
    forall c | 0 <= c < f.sb.size
      ensures InUse(f.sb, e, c) <==> c == b || InUse(f.sb, f.disk, c)
    {
      MarkUsedBits(f.sb, f.disk, b, c);
      assert InUse(f.sb, e, c) <==> InUse(f.sb, d, c);
    }
  }

  /** Claiming a spare block changes no slot. */
  lemma ClaimedSlots(f: Fs, own: map<nat, Owner>, b: nat, j: nat, l: nat)
    requires Conserved(f, own) && Spare(f, own, b) && j < |f.tab| && l < NSLOT
    ensures Slot(Claimed(f, b).disk, f.tab[j], l) == Slot(f.disk, f.tab[j], l)
  {
    ClaimedFrame(f, b, Claimed(f, b).disk);
    if f.tab[j].addrs[IND] != 0 { IndirectOwned(f, own, j); }
    SlotSame(f.disk, Claimed(f, b).disk, f.tab[j], l);
  }

  function SetAddr(ino: Inode, k: nat, a: Word): Inode
    requires k < |ino.addrs|
  {
    Inode(ino.typ, ino.major, ino.minor, ino.nlink, ino.size, ino.addrs[k := a])
  }

  function WithAddr(f: Fs, i: nat, k: nat, a: Word): Fs
    requires i < |f.tab| && k < |f.tab[i].addrs|
  {
    Fs(f.sb, f.disk, f.tab[i := SetAddr(f.tab[i], k, a)])
  }

  /** bmap's direct case, and its allocation of an indirect block. */
  lemma LinkDirect(f: Fs, own: map<nat, Owner>, i: nat, k: nat, b: nat, z: Fs)
    requires Conserved(f, own) && i < |f.tab| && k <= IND && f.tab[i].addrs[k] == 0 && Spare(f, own, b)
    requires z == WithAddr(Claimed(f, b), i, k, b)
    ensures Conserved(z, own[b := (i, k)])
    ensures SlotsExcept(f, z, i, k) && Slot(z.disk, z.tab[i], k) == b
  {
    ClaimedBits(f, b, z.disk);
    ClaimedFrame(f, b, z.disk);
    forall j, l | 0 <= j < |f.tab| && 0 <= l < NSLOT && !(j == i && l == k)
      ensures Slot(z.disk, z.tab[j], l) == Slot(f.disk, f.tab[j], l)
    {
      ClaimedSlots(f, own, b, j, l);
      if j == i && k == IND && l > IND { GetWordZero(4 * (l - IND - 1)); }
    }
    ConservedGain(f, own, i, k, b, z);
  }

  /** Storing w as entry e of inode i's indirect block. */
  function WithEntry(f: Fs, i: nat, e: nat, w: Word): Fs
    requires i < |f.tab| && |f.tab[i].addrs| == NDIRECT + 1 && f.tab[i].addrs[IND] < |f.disk| && e < NINDIRECT
  {
    Fs(f.sb, f.disk[f.tab[i].addrs[IND] := PutWord(f.disk[f.tab[i].addrs[IND]], 4 * e, w)], f.tab)
  }

  /** bmap's indirect case, once the indirect block exists. */
  lemma LinkEntry(f: Fs, own: map<nat, Owner>, i: nat, k: nat, b: nat, z: Fs)
    requires Conserved(f, own) && i < |f.tab| && IND < k < NSLOT && f.tab[i].addrs[IND] != 0 && Spare(f, own, b)
    requires Slot(f.disk, f.tab[i], k) == 0
    requires f.tab[i].addrs[IND] < |f.disk| && z == WithEntry(Claimed(f, b), i, k - IND - 1, b)
    ensures Conserved(z, own[b := (i, k)])
    ensures SlotsExcept(f, z, i, k) && Slot(z.disk, z.tab[i], k) == b
  {
    var ind := f.tab[i].addrs[IND];
    var y := Claimed(f, b);
    ClaimedBits(f, b, y.disk);
    ClaimedFrame(f, b, y.disk);
    IndirectOwned(f, own, i);
    BitmapSame(f.sb, y.disk, z.disk);
    forall j, l | 0 <= j < |f.tab| && 0 <= l < NSLOT && !(j == i && l == k)
      ensures Slot(z.disk, z.tab[j], l) == Slot(f.disk, f.tab[j], l)
    {
      ClaimedSlots(f, own, b, j, l);
      EntrySlots(f, own, y, i, k - IND - 1, b, j, l, z);
    }
    GetPutWord(y.disk[ind], 4 * (k - IND - 1), b);
    ConservedGain(f, own, i, k, b, z);
  }

  lemma EntrySlots(f: Fs, own: map<nat, Owner>, y: Fs, i: nat, e: nat, b: nat, j: nat, l: nat, z: Fs)
    requires Conserved(f, own) && i < |f.tab| && e < NINDIRECT && f.tab[i].addrs[IND] != 0
    requires y.sb == f.sb && y.tab == f.tab && |y.disk| == |f.disk| && f.tab[i].addrs[IND] < |f.disk|
    requires b < 0x1_0000_0000 && z == WithEntry(y, i, e, b) && j < |f.tab| && l < NSLOT &&
             !(j == i && l == IND + 1 + e)
    ensures Slot(z.disk, z.tab[j], l) == Slot(y.disk, y.tab[j], l)
  {
    var ind := f.tab[i].addrs[IND];
    if j == i {
      if l > IND { GetPutWordOther(y.disk[ind], 4 * e, b, 4 * (l - IND - 1)); }
    } else {
      IndirectOwned(f, own, i);
      if f.tab[j].addrs[IND] != 0 { IndirectOwned(f, own, j); }
      SlotSame(y.disk, z.disk, y.tab[j], l);
    }
  }

  // ---- Release ----

  /** Emptying a slot and clearing its block's bit. */
  lemma ConservedLoss(f: Fs, own: map<nat, Owner>, i: nat, k: nat, b: nat, z: Fs)
    requires Conserved(f, own) && i < |f.tab| && k < NSLOT && b in own && own[b] == (i, k)
    requires TabOk(z) && z.sb == f.sb && SlotsExcept(f, z, i, k) && Slot(z.disk, z.tab[i], k) == 0
    requires forall c :: 0 <= c < f.sb.size ==> (InUse(z.sb, z.disk, c) <==> c != b && InUse(f.sb, f.disk, c))
    ensures Conserved(z, own - {b})
  {
    LossSlots(f, own, i, k, b, z);
    LossOwners(f, own, i, k, b, z);
  }

  lemma LossSlots(f: Fs, own: map<nat, Owner>, i: nat, k: nat, b: nat, z: Fs)
    requires TabOk(f) && SlotsOwned(f, own) && i < |f.tab| && k < NSLOT && b in own && own[b] == (i, k)
    requires TabOk(z) && z.sb == f.sb && SlotsExcept(f, z, i, k) && Slot(z.disk, z.tab[i], k) == 0
    ensures SlotsOwned(z, own - {b})
  {
    forall j, l | 0 <= j < |z.tab| && 0 <= l < NSLOT && Slot(z.disk, z.tab[j], l) != 0
      ensures Slot(z.disk, z.tab[j], l) in own - {b} && own[Slot(z.disk, z.tab[j], l)] == (j, l)
    {
      assert Slot(z.disk, z.tab[j], l) == Slot(f.disk, f.tab[j], l);
    }
  }

  lemma LossOwners(f: Fs, own: map<nat, Owner>, i: nat, k: nat, b: nat, z: Fs)
    requires TabOk(f) && OwnersHold(f, own) && i < |f.tab| && k < NSLOT && b in own && own[b] == (i, k)
    requires TabOk(z) && z.sb == f.sb && SlotsExcept(f, z, i, k)
    ensures OwnersHold(z, own - {b})
  {
    forall c | c in own - {b}
      ensures z.sb.datastart <= c < z.sb.size && own[c].0 < |z.tab| && own[c].1 < NSLOT
      ensures Slot(z.disk, z.tab[own[c].0], own[c].1) == c
    {
      var (j, l) := own[c];
      assert Slot(f.disk, f.tab[j], l) == c && Slot(f.disk, f.tab[i], k) == b;
      assert !(j == i && l == k);
    }
  }
}

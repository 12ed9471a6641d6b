/** Releasing a file's blocks: what each bfree of itrunc does to the ownership of blocks,
    although the indirect block keeps naming the blocks already freed (fs.c). */
module FsTrunc {
  import opened Blocks
  import opened FsLayout
  import opened FsSpec
  import opened FsFile
  import opened FsWrite

  /** bfree's effect. */
  function Freed(f: Fs, b: nat): (z: Fs)
    requires LaidOut(f.sb, f.disk) && b < f.sb.size
    ensures z.sb == f.sb && z.tab == f.tab && |z.disk| == |f.disk|
  {
    Fs(f.sb, MarkFree(f.sb, f.disk, b), f.tab)
  }

  lemma FreedBits(f: Fs, b: nat, e: Image)
    requires LaidOut(f.sb, f.disk) && b < f.sb.size && e == Freed(f, b).disk
    ensures LaidOut(f.sb, e)
    ensures forall c :: 0 <= c < f.sb.size ==> (InUse(f.sb, e, c) <==> c != b && InUse(f.sb, f.disk, c))
    ensures forall x :: 0 <= x < |e| && !(f.sb.bmapstart <= x < f.sb.datastart) ==> e[x] == f.disk[x]
  {
    assert f.sb.bmapstart <= BBlock(f.sb, b) < f.sb.datastart;
    forall c | 0 <= c < f.sb.size
      ensures InUse(f.sb, e, c) <==> c != b && InUse(f.sb, f.disk, c)
    {
      MarkFreeBits(f.sb, f.disk, b, c);
    }
  }

  /** Slots do not look at the bitmap or the inode blocks. */
  lemma DataSlots(f: Fs, own: map<nat, Owner>, e: Image, j: nat, l: nat)
    requires Conserved(f, own) && j < |f.tab| && l < NSLOT && |e| == |f.disk|
    requires forall x :: f.sb.datastart <= x < |e| ==> e[x] == f.disk[x]
    ensures Slot(e, f.tab[j], l) == Slot(f.disk, f.tab[j], l)
  {
    if f.tab[j].addrs[IND] != 0 { IndirectOwned(f, own, j); }
    SlotSame(f.disk, e, f.tab[j], l);
  }

  /** An owned block is marked in use, so bfree does not panic. */
  lemma OwnedInUse(f: Fs, own: map<nat, Owner>, b: nat)
    requires Conserved(f, own) && b in own
    ensures b < f.sb.size && InUse(f.sb, f.disk, b)
  {
  }

  /** Freeing a direct block. */
  lemma FreeDirect(f: Fs, own: map<nat, Owner>, i: nat, k: nat, b: nat, z: Fs)
    requires Conserved(f, own) && i < |f.tab| && k < IND && f.tab[i].addrs[k] == b != 0 && b < f.sb.size
    requires z == WithAddr(Freed(f, b), i, k, 0)
    ensures b in own && own[b] == (i, k) && Conserved(z, own - {b})
  {
    assert Slot(f.disk, f.tab[i], k) == b;
    FreedBits(f, b, z.disk);
    forall j, l | 0 <= j < |f.tab| && 0 <= l < NSLOT && !(j == i && l == k)
      ensures Slot(z.disk, z.tab[j], l) == Slot(f.disk, f.tab[j], l)
    {
      DataSlots(f, own, z.disk, j, l);
    }
    ConservedLoss(f, own, i, k, b, z);
  }

  // ---- The indirect block ----

  /** b with its first n entries zeroed. */
  function Cleared(b: Block, n: nat): Block
    requires n <= NINDIRECT
  {
    if n == 0 then b else PutWord(Cleared(b, n - 1), 4 * (n - 1), 0)
  }

  lemma {:induction false} ClearedAt(b: Block, n: nat, e: nat)
    requires n <= NINDIRECT && e < NINDIRECT
    ensures GetWord(Cleared(b, n), 4 * e) == if e < n then 0 else GetWord(b, 4 * e)
  {
    if n > 0 {
      ClearedAt(b, n - 1, e);
      if e == n - 1 {
        GetPutWord(Cleared(b, n - 1), 4 * (n - 1), 0);
      } else {
        GetPutWordOther(Cleared(b, n - 1), 4 * (n - 1), 0, 4 * e);
      }
    }
  }

  /** f as it would be if the first n entries of i's indirect block were erased; itrunc
      frees their blocks without erasing them. */
  function Shadow(f: Fs, i: nat, n: nat): (z: Fs)
    requires TabOk(f) && i < |f.tab| && f.tab[i].addrs[IND] < |f.disk| && n <= NINDIRECT
    ensures z.sb == f.sb && z.tab == f.tab && |z.disk| == |f.disk|
  {
    Fs(f.sb, f.disk[f.tab[i].addrs[IND] := Cleared(f.disk[f.tab[i].addrs[IND]], n)], f.tab)
  }

  lemma ShadowSlot(f: Fs, i: nat, n: nat, l: nat)
    requires TabOk(f) && i < |f.tab| && 0 < f.tab[i].addrs[IND] < |f.disk| && n <= NINDIRECT && l < NSLOT
    ensures Slot(Shadow(f, i, n).disk, f.tab[i], l) ==
            if IND < l <= IND + n then 0 else Slot(f.disk, f.tab[i], l)
  {
    if l > IND { ClearedAt(f.disk[f.tab[i].addrs[IND]], n, l - IND - 1); }
  }

  /** With nothing erased the shadow is the file system itself. */
  lemma ShadowStart(f: Fs, i: nat)
    requires TabOk(f) && i < |f.tab| && f.tab[i].addrs[IND] < |f.disk|
    ensures Shadow(f, i, 0) == f
  {
  }

  /** The slots of other inodes in two shadows. */
  lemma ShadowOther(f: Fs, own: map<nat, Owner>, i: nat, n: nat, e: Image, m: nat, j: nat, l: nat)
    requires TabOk(f) && i < |f.tab| && 0 < f.tab[i].addrs[IND] < |f.disk| && n <= NINDIRECT && m <= NINDIRECT
    requires Conserved(Shadow(f, i, n), own) && j < |f.tab| && j != i && l < NSLOT && |e| == |f.disk|
    requires forall x :: f.sb.datastart <= x < |e| ==> e[x] == f.disk[x]
    ensures var z := Shadow(Fs(f.sb, e, f.tab), i, m);
            Slot(z.disk, f.tab[j], l) == Slot(Shadow(f, i, n).disk, f.tab[j], l)
  {
    var s := Shadow(f, i, n);
    IndirectOwned(s, own, i);
    if f.tab[j].addrs[IND] != 0 { IndirectOwned(s, own, j); }
    SlotSame(s.disk, Shadow(Fs(f.sb, e, f.tab), i, m).disk, f.tab[j], l);
  }

  lemma ShadowBits(f: Fs, i: nat, n: nat)
    requires TabOk(f) && i < |f.tab| && f.sb.datastart <= f.tab[i].addrs[IND] < |f.disk| && n <= NINDIRECT
    ensures LaidOut(f.sb, Shadow(f, i, n).disk)
    ensures forall b :: 0 <= b < f.sb.size ==> (InUse(f.sb, Shadow(f, i, n).disk, b) <==> InUse(f.sb, f.disk, b))
  {
    BitmapSame(f.sb, f.disk, Shadow(f, i, n).disk);
  }

  /** An empty entry costs nothing. */
  lemma SkipEntry(f: Fs, own: map<nat, Owner>, i: nat, n: nat)
    requires TabOk(f) && i < |f.tab| && f.sb.datastart <= f.tab[i].addrs[IND] < |f.disk| && n < NINDIRECT
    requires Conserved(Shadow(f, i, n), own) && GetWord(f.disk[f.tab[i].addrs[IND]], 4 * n) == 0
    ensures Conserved(Shadow(f, i, n + 1), own)
  {
    var s, z := Shadow(f, i, n), Shadow(f, i, n + 1);
    ShadowBits(f, i, n);
    ShadowBits(f, i, n + 1);
    FreedSlots(f, own, i, n, f, s, z);
    ShadowSlot(f, i, n, IND + 1 + n);
    ShadowSlot(f, i, n + 1, IND + 1 + n);
    SlotsKeepConserved(s, own, z);
  }

  /** A block named by an entry not yet freed is in use. */
  lemma EntryInUse(f: Fs, own: map<nat, Owner>, i: nat, n: nat, b: nat)
    requires TabOk(f) && i < |f.tab| && f.sb.datastart <= f.tab[i].addrs[IND] < |f.disk| && n < NINDIRECT
    requires Conserved(Shadow(f, i, n), own) && GetWord(f.disk[f.tab[i].addrs[IND]], 4 * n) == b
    ensures b == Slot(Shadow(f, i, n).disk, f.tab[i], IND + 1 + n)
    ensures b != 0 ==> b in own && own[b] == (i, IND + 1 + n) && b < f.sb.size && InUse(f.sb, f.disk, b)
  {
    var s := Shadow(f, i, n);
    ShadowSlot(f, i, n, IND + 1 + n);
    if b != 0 {
      assert Slot(s.disk, s.tab[i], IND + 1 + n) == b;
      OwnedInUse(s, own, b);
      ShadowBits(f, i, n);
    }
  }

  /** Freeing the block of entry n. */
  lemma FreeEntry(f: Fs, own: map<nat, Owner>, i: nat, n: nat, b: nat, y: Fs)
    requires TabOk(f) && i < |f.tab| && f.sb.datastart <= f.tab[i].addrs[IND] < |f.disk| && n < NINDIRECT
    requires Conserved(Shadow(f, i, n), own) && GetWord(f.disk[f.tab[i].addrs[IND]], 4 * n) == b != 0
    requires b < f.sb.size && y == Freed(f, b)
    ensures b in own && own[b] == (i, IND + 1 + n) && LaidOut(y.sb, y.disk) && Conserved(Shadow(y, i, n + 1), own - {b})
  {
    var k := IND + 1 + n;
    var s, z := Shadow(f, i, n), Shadow(y, i, n + 1);
    ShadowSlot(f, i, n, k);
    assert Slot(s.disk, s.tab[i], k) == b;
    FreedBits(f, b, y.disk);
    ShadowBits(f, i, n);
    ShadowBits(y, i, n + 1);
    FreedSlots(f, own, i, n, y, s, z);
    ShadowSlot(y, i, n + 1, k);
    ConservedLoss(s, own, i, k, b, z);
  }

  lemma FreedSlots(f: Fs, own: map<nat, Owner>, i: nat, n: nat, y: Fs, s: Fs, z: Fs)
    requires TabOk(f) && i < |f.tab| && 0 < f.tab[i].addrs[IND] < |f.disk| && n < NINDIRECT
    requires y.sb == f.sb && y.tab == f.tab && |y.disk| == |f.disk| && f.sb.datastart <= f.tab[i].addrs[IND]
    requires forall x :: f.sb.datastart <= x < |y.disk| ==> y.disk[x] == f.disk[x]
    requires s == Shadow(f, i, n) && Conserved(s, own) && z == Shadow(y, i, n + 1) && TabOk(z)
    ensures SlotsExcept(s, z, i, IND + 1 + n)
  {
    forall j, l | 0 <= j < |f.tab| && 0 <= l < NSLOT && !(j == i && l == IND + 1 + n)
      ensures Slot(z.disk, z.tab[j], l) == Slot(s.disk, s.tab[j], l)
    {
      if j == i {
        ShadowSlot(f, i, n, l);
        ShadowSlot(y, i, n + 1, l);
      } else {
        ShadowOther(f, own, i, n, y.disk, n + 1, j, l);
      }
    }
  }

  /** Freeing the indirect block itself, once all its entries are done. */
  lemma FreeIndirect(f: Fs, own: map<nat, Owner>, i: nat, b: nat, z: Fs)
    requires TabOk(f) && i < |f.tab| && f.tab[i].addrs[IND] == b && f.sb.datastart <= b < |f.disk|
    requires Conserved(Shadow(f, i, NINDIRECT), own) && z == WithAddr(Freed(f, b), i, IND, 0)
    ensures b in own && own[b] == (i, IND) && Conserved(z, own - {b})
  {
    var s := Shadow(f, i, NINDIRECT);
    IndirectOwned(s, own, i);
    FreedBits(f, b, z.disk);
    ShadowBits(f, i, NINDIRECT);
    forall j, l | 0 <= j < |f.tab| && 0 <= l < NSLOT && !(j == i && l == IND)
      ensures Slot(z.disk, z.tab[j], l) == Slot(s.disk, s.tab[j], l)
    {
      if j == i {
        ShadowSlot(f, i, NINDIRECT, l);
      } else {
        if f.tab[j].addrs[IND] != 0 { IndirectOwned(s, own, j); }
        SlotSame(s.disk, z.disk, f.tab[j], l);
      }
    }
    ConservedLoss(s, own, i, IND, b, z);
  }

  // ---- Progress of itrunc ----

  /** Slot l is below k or among the first n indirect entries. */
  predicate Gone(l: nat, k: nat, n: nat) {
    l < k || IND < l <= IND + n
  }

  /** own is own0 without inode i's slots below k and its first n indirect entries. */
  ghost predicate Dropped(own0: map<nat, Owner>, own: map<nat, Owner>, i: nat, k: nat, n: nat) {
    (forall b :: b in own0 && !(own0[b].0 == i && Gone(own0[b].1, k, n)) ==> b in own) &&
    forall b :: b in own ==> b in own0 && own[b] == own0[b] && !(own[b].0 == i && Gone(own[b].1, k, n))
  }

  /** A slot's block is the only one recorded under it; an empty slot has none. */
  lemma SlotOwner(f: Fs, own: map<nat, Owner>, i: nat, k: nat)
    requires Conserved(f, own) && i < |f.tab| && k < NSLOT
    ensures forall c :: c in own && own[c] == (i, k) ==> c == Slot(f.disk, f.tab[i], k) != 0
  {
  }

  /** Dropping the one block recorded under slot l. */
  lemma DropOne(own0: map<nat, Owner>, own: map<nat, Owner>, i: nat, k: nat, n: nat, k1: nat, n1: nat, l: nat, b: nat,
                own1: map<nat, Owner>)
    requires Dropped(own0, own, i, k, n) && own1 == (if b == 0 then own else own - {b})
    requires forall c :: c in own && own[c] == (i, l) ==> c == b != 0
    requires b != 0 ==> b in own && own[b] == (i, l)
    requires forall m: nat :: Gone(m, k1, n1) <==> Gone(m, k, n) || m == l
    ensures Dropped(own0, own1, i, k1, n1)
  {
    forall c | c in own0 && !(own0[c].0 == i && Gone(own0[c].1, k1, n1))
      ensures c in own1
    {
      assert c in own && own[c].0 == own0[c].0;
    }
    forall c | c in own1
      ensures c in own0 && own1[c] == own0[c] && !(own1[c].0 == i && Gone(own1[c].1, k1, n1))
    {
      assert c in own;
      assert own[c] == (own[c].0, own[c].1);
    }
  }

  lemma DroppedDirect(f: Fs, own0: map<nat, Owner>, own: map<nat, Owner>, i: nat, k: nat, b: nat, own1: map<nat, Owner>)
    requires Conserved(f, own) && i < |f.tab| && k <= IND && b == f.tab[i].addrs[k]
    requires Dropped(own0, own, i, k, 0) && own1 == (if b == 0 then own else own - {b})
    requires b != 0 ==> b in own && own[b] == (i, k)
    ensures Dropped(own0, own1, i, k + 1, 0)
  {
    SlotOwner(f, own, i, k);
    DropOne(own0, own, i, k, 0, k + 1, 0, k, b, own1);
  }

  lemma DroppedEntry(s: Fs, own0: map<nat, Owner>, own: map<nat, Owner>, i: nat, n: nat, b: nat, own1: map<nat, Owner>)
    requires Conserved(s, own) && i < |s.tab| && n < NINDIRECT && b == Slot(s.disk, s.tab[i], IND + 1 + n)
    requires Dropped(own0, own, i, IND, n) && own1 == (if b == 0 then own else own - {b})
    requires b != 0 ==> b in own && own[b] == (i, IND + 1 + n)
    ensures Dropped(own0, own1, i, IND, n + 1)
  {
    SlotOwner(s, own, i, IND + 1 + n);
    DropOne(own0, own, i, IND, n, IND, n + 1, IND + 1 + n, b, own1);
  }

  lemma DroppedIndirect(s: Fs, own0: map<nat, Owner>, own: map<nat, Owner>, i: nat, b: nat, own1: map<nat, Owner>)
    requires Conserved(s, own) && i < |s.tab| && b == s.tab[i].addrs[IND]
    requires Dropped(own0, own, i, IND, NINDIRECT) && b != 0 && b in own && own[b] == (i, IND) && own1 == own - {b}
    ensures Dropped(own0, own1, i, IND + 1, NINDIRECT)
  {
    SlotOwner(s, own, i, IND);
    DropOne(own0, own, i, IND, NINDIRECT, IND + 1, NINDIRECT, IND, b, own1);
  }

  /** With no indirect block there are no entries to drop. */
  lemma DroppedNoIndirect(f: Fs, own0: map<nat, Owner>, own: map<nat, Owner>, i: nat)
    requires Conserved(f, own) && i < |f.tab| && f.tab[i].addrs[IND] == 0 && Dropped(own0, own, i, IND, 0)
    ensures Dropped(own0, own, i, IND + 1, NINDIRECT)
  {
    forall b | b in own
      ensures own[b].0 != i || own[b].1 < IND
    {
      assert Slot(f.disk, f.tab[own[b].0], own[b].1) == b;
    }
  }

  /** Only the bitmap and inode i's addresses have changed; those below k are erased. */
  ghost predicate Truncating(f0: Fs, f: Fs, i: nat, k: nat)
    requires TabOk(f0) && i < |f0.tab|
  {
    f.sb == f0.sb && TabOk(f) && TabSteps(f0, f, i) &&
    (forall x :: 0 <= x < |f.disk| && !(f.sb.bmapstart <= x < f.sb.datastart) ==> f.disk[x] == f0.disk[x]) &&
    forall l :: 0 <= l <= IND ==> f.tab[i].addrs[l] == if l < k then 0 else f0.tab[i].addrs[l]
  }

  lemma TruncatingStep(f0: Fs, f: Fs, i: nat, k: nat, b: nat, z: Fs)
    requires TabOk(f0) && i < |f0.tab| && Truncating(f0, f, i, k) && k <= IND && b < f.sb.size
    requires z == WithAddr(Freed(f, b), i, k, 0)
    ensures Truncating(f0, z, i, k + 1)
  {
    FreedBits(f, b, z.disk);
  }

  lemma TruncatingFree(f0: Fs, f: Fs, i: nat, k: nat, b: nat, z: Fs)
    requires TabOk(f0) && i < |f0.tab| && Truncating(f0, f, i, k) && b < f.sb.size && z == Freed(f, b)
    ensures Truncating(f0, z, i, k)
  {
    FreedBits(f, b, z.disk);
  }

  /** What itrunc promises: the file is empty, its inode is on disk, exactly its blocks are
      free again and every other file is as it was. */
  ghost predicate Truncated(f0: Fs, own0: map<nat, Owner>, z: Fs, own: map<nat, Owner>, i: nat)
    requires TabOk(f0) && i < |f0.tab|
  {
    z.sb == f0.sb && Conserved(z, own) && Synced(z, i) && z.tab[i].size == 0 && SameKind(f0.tab[i], z.tab[i]) &&
      OthersKept(f0, z, i) &&
    (forall l :: 0 <= l < NSLOT ==> Slot(z.disk, z.tab[i], l) == 0) &&
    (forall b :: b in own <==> b in own0 && own0[b].0 != i) &&
    forall b :: b in own ==> own[b] == own0[b]
  }

  lemma TruncatedOwners(f0: Fs, own0: map<nat, Owner>, own: map<nat, Owner>, i: nat, b: nat)
    requires Conserved(f0, own0) && i < |f0.tab| && Dropped(own0, own, i, IND + 1, NINDIRECT)
    ensures b in own <==> b in own0 && own0[b].0 != i
    ensures b in own ==> own[b] == own0[b]
  {
  }

  lemma TruncatingOther(f0: Fs, own0: map<nat, Owner>, f: Fs, i: nat, j: nat)
    requires Conserved(f0, own0) && i < |f0.tab| && j < |f0.tab| && j != i && Truncating(f0, f, i, IND + 1)
    ensures SameFile(f0, f, j) && OnDisk(f, j) == OnDisk(f0, j)
  {
    InodeBlock(f0.sb, j);
    if f0.tab[j].addrs[IND] != 0 { IndirectOwned(f0, own0, j); }
    forall l | 0 <= l < NSLOT
      ensures Slot(f.disk, f.tab[j], l) == Slot(f0.disk, f0.tab[j], l)
      ensures var a := Slot(f0.disk, f0.tab[j], l); 0 < a < |f0.disk| && l != IND ==> f.disk[a] == f0.disk[a]
    {
      SlotSame(f0.disk, f.disk, f0.tab[j], l);
      var a := Slot(f0.disk, f0.tab[j], l);
      if a != 0 { assert a in own0; }
    }
  }

  /** The last steps: size zero, inode written back. */
  lemma TruncEnds(f0: Fs, own0: map<nat, Owner>, f: Fs, own: map<nat, Owner>, i: nat, r: Fs, z: Fs)
    requires Conserved(f0, own0) && i < |f0.tab| && Truncating(f0, f, i, IND + 1) && Conserved(f, own)
    requires Dropped(own0, own, i, IND + 1, NINDIRECT)
    requires r == Resized(f, i, 0) && IBlock(f.sb, i) < |f.disk| && z == Updated(r, i)
    ensures Truncated(f0, own0, z, own, i)
  {
    ResizedConserved(f, own, i, 0, r);
    UpdatedKeeps(r, own, i, z);
    UpdatedOnDisk(r, i, z, i);
    TruncEndsOthers(f0, own0, f, own, i, r, z);
    forall b
      ensures b in own <==> b in own0 && own0[b].0 != i
      ensures b in own ==> own[b] == own0[b]
    {
      if b in own || b in own0 { TruncatedOwners(f0, own0, own, i, b); }
    }
    assert z.tab[i].addrs[IND] == 0;
  }

  lemma TruncEndsOthers(f0: Fs, own0: map<nat, Owner>, f: Fs, own: map<nat, Owner>, i: nat, r: Fs, z: Fs)
    requires Conserved(f0, own0) && i < |f0.tab| && Truncating(f0, f, i, IND + 1) && TabOk(f)
    requires Conserved(r, own) && r.disk == f.disk && r.sb == f.sb && TabOk(z)
    requires forall j :: 0 <= j < |f.tab| && j != i ==> SameFile(f, r, j)
    requires IBlock(f.sb, i) < |f.disk| && z == Updated(r, i)
    requires forall j :: 0 <= j < |r.tab| ==> SameFile(r, z, j)
    ensures OthersKept(f0, z, i)
  {
    forall j | 0 <= j < |f0.tab| && j != i
      ensures SameFile(f0, z, j) && OnDisk(z, j) == OnDisk(f0, j)
    {
      TruncatingOther(f0, own0, f, i, j);
      SameFileTrans(f0, f, r, j);
      SameFileTrans(f0, r, z, j);
      UpdatedOnDisk(r, i, z, j);
    }
  }
}

/** The page allocator and the operations on address spaces: building, copying and freeing
    them (kalloc.c, vm.c). */
module Vm {
  import opened Lists
  import opened VmSpec

  datatype MapResult = Mapped | NoMemory | Remap                    // "remap" is a panic
  datatype CopyResult = Copied(d: nat) | CopyFails | CopyPanic | CopyRemap      // "copyuvm: page not present", "remap"

  /** A run of kernel pages: from virtual page v on, n of them, from frame f on. */
  datatype Range = Range(v: nat, n: nat, f: nat, perm: nat)

  predicate KernelRange(k: Range) {
    0 < k.n && USERDIRS * NENT <= k.v && k.v + k.n <= NENT * NENT
  }

  /** No two of the first n runs share a virtual page. */
  predicate FirstApart(kmap: seq<Range>, n: nat)
    requires n <= |kmap|
  {
    forall a, b :: 0 <= a < b < n ==> kmap[a].v + kmap[a].n <= kmap[b].v || kmap[b].v + kmap[b].n <= kmap[a].v
  }

  predicate RangesApart(kmap: seq<Range>) {
    FirstApart(kmap, |kmap|)
  }

  /** A kernel page of r that is mapped in z was mapped in m or is one of k's first n. */
  ghost predicate MapsWithin(m: Mem, z: Mem, r: nat, k: Range, n: nat) {
    forall v: nat {:trigger LeafV(z, r, v)} ::
      USERDIRS * NENT <= v < NENT * NENT && LeafV(z, r, v).Map? ==> LeafV(m, r, v).Map? || k.v <= v < k.v + n
  }

  /** The first n pages of run k are mapped, each to its own frame. */
  ghost predicate RangeMapped(m: Mem, r: nat, k: Range, n: nat) {
    forall v: nat {:trigger LeafV(m, r, v)} ::
      k.v <= v < k.v + n ==> LeafV(m, r, v) == Map(k.f + (v - k.v), k.perm)
  }

  ghost predicate RangeClear(m: Mem, r: nat, k: Range, n: nat) {
    forall v: nat {:trigger LeafV(m, r, v)} :: k.v <= v < k.v + n ==> LeafV(m, r, v).Absent?
  }

  /** What r maps in m it maps in z. */
  ghost predicate Preserves(m: Mem, z: Mem, r: nat) {
    forall v: nat {:trigger LeafV(z, r, v)} ::
      v < NENT * NENT && LeafV(m, r, v).Map? ==> LeafV(z, r, v) == LeafV(m, r, v)
  }

  /** z is m with the first n pages of run k mapped, which were not before, and no others. */
  ghost predicate Ranged(m: Mem, z: Mem, r: nat, k: Range, n: nat) {
    MapsWithin(m, z, r, k, n) && RangeMapped(z, r, k, n) && RangeClear(m, r, k, n) && Preserves(m, z, r)
  }

  lemma RangedNext(m: Mem, own: map<nat, Use>, y: Mem, z: Mem, r: nat, k: Range, j: nat)
    requires KernelRange(k) && j < k.n && IsDir(own, r) && Ranged(m, y, r, k, j) && LeafV(y, r, k.v + j).Absent?
    requires OnlyLeaf(y, own, z, r, (k.v + j) / NENT, (k.v + j) % NENT, Map(k.f + j, k.perm))
    ensures Ranged(m, z, r, k, j + 1)
  {
    forall v: nat | v < NENT * NENT
      ensures LeafV(z, r, v) == if v == k.v + j then Map(k.f + j, k.perm) else LeafV(y, r, v)
    {
      assert v / NENT < NENT;
    }
    assert LeafV(m, r, k.v + j).Absent?;
  }

  predicate CoveredBy(kmap: seq<Range>, n: nat, v: nat) {
    exists c :: 0 <= c < n && c < |kmap| && kmap[c].v <= v < kmap[c].v + kmap[c].n
  }

  /** The kernel pages of r that are mapped are those of the first n runs. */
  ghost predicate MapsCovered(m: Mem, r: nat, kmap: seq<Range>, n: nat) {
    forall v: nat {:trigger LeafV(m, r, v)} ::
      USERDIRS * NENT <= v < NENT * NENT && LeafV(m, r, v).Map? ==> CoveredBy(kmap, n, v)
  }

  /** r maps every page of the first n runs as they say, and no other kernel page. */
  ghost predicate KernelMapped(m: Mem, r: nat, kmap: seq<Range>, n: nat)
    requires n <= |kmap|
  {
    MapsCovered(m, r, kmap, n) && FirstApart(kmap, n) &&
    forall c :: 0 <= c < n ==> RangeMapped(m, r, kmap[c], kmap[c].n)
  }

  lemma KernelNext(m: Mem, z: Mem, r: nat, kmap: seq<Range>, n: nat)
    requires n < |kmap| && (forall c :: 0 <= c <= n ==> KernelRange(kmap[c])) && KernelMapped(m, r, kmap, n)
    requires Ranged(m, z, r, kmap[n], kmap[n].n)
    ensures KernelMapped(z, r, kmap, n + 1)
  {
    forall v: nat | USERDIRS * NENT <= v < NENT * NENT && LeafV(z, r, v).Map?
      ensures CoveredBy(kmap, n + 1, v)
    {
      if LeafV(m, r, v).Map? { assert CoveredBy(kmap, n, v); }
    }
    forall c | 0 <= c < n
      ensures RangeMapped(z, r, kmap[c], kmap[c].n)
      ensures kmap[c].v + kmap[c].n <= kmap[n].v || kmap[n].v + kmap[n].n <= kmap[c].v
    {
      RunKept(m, z, r, kmap[c], kmap[n]);
    }
  }

  /** Another run leaves a mapped one alone and shares no page with it. */
  lemma RunKept(m: Mem, z: Mem, r: nat, c: Range, k: Range)
    requires KernelRange(c) && KernelRange(k) && RangeMapped(m, r, c, c.n) && Preserves(m, z, r)
    requires RangeClear(m, r, k, k.n)
    ensures RangeMapped(z, r, c, c.n) && (c.v + c.n <= k.v || k.v + k.n <= c.v)
  {
    var v := if c.v < k.v then k.v else c.v;
    assert LeafV(m, r, v).Map? || LeafV(m, r, v).Absent?;
    forall v: nat | c.v <= v < c.v + c.n
      ensures LeafV(z, r, v) == Map(c.f + (v - c.v), c.perm)
    {
      assert LeafV(m, r, v).Map?;
    }
  }

  /** A run that meets a mapped page overlaps an earlier run. */
  lemma CoveredApart(m: Mem, r: nat, kmap: seq<Range>, n: nat, v: nat)
    requires n < |kmap| && KernelRange(kmap[n]) && MapsCovered(m, r, kmap, n)
    requires kmap[n].v <= v < kmap[n].v + kmap[n].n && LeafV(m, r, v).Map?
    ensures !RangesApart(kmap)
  {
    assert CoveredBy(kmap, n, v);
  }

  lemma OverlapFound(m: Mem, r: nat, kmap: seq<Range>, n: nat)
    requires n < |kmap| && KernelRange(kmap[n]) && MapsCovered(m, r, kmap, n)
    requires exists v: nat :: kmap[n].v <= v < kmap[n].v + kmap[n].n && LeafV(m, r, v).Map?
    ensures !RangesApart(kmap)
  {
    var v: nat :| kmap[n].v <= v < kmap[n].v + kmap[n].n && LeafV(m, r, v).Map?;
    CoveredApart(m, r, kmap, n, v);
  }

  /** A user page more leaves the kernel's mappings alone. */
  lemma KernelKept(m: Mem, own: map<nat, Use>, z: Mem, r: nat, v: nat, p: Pte, kmap: seq<Range>)
    requires IsDir(own, r) && v < USERDIRS * NENT && OnlyLeaf(m, own, z, r, v / NENT, v % NENT, p)
    requires (forall c :: 0 <= c < |kmap| ==> KernelRange(kmap[c])) && KernelMapped(m, r, kmap, |kmap|)
    ensures KernelMapped(z, r, kmap, |kmap|)
  {
    forall u: nat | USERDIRS * NENT <= u < NENT * NENT
      ensures LeafV(z, r, u) == LeafV(m, r, u)
    {
      assert u / NENT < NENT;
    }
    forall c | 0 <= c < |kmap|
      ensures RangeMapped(z, r, kmap[c], kmap[c].n)
    {
      assert RangeMapped(m, r, kmap[c], kmap[c].n);
    }
  }

  /** The directory entries of r that have a page table. */
  ghost function Tables(m: Mem, r: nat): (s: set<nat>)
    ensures forall d: nat :: d in s <==> d < NENT && Entry(m, r, d).Map?
  {
    set d: nat | d < NENT && Entry(m, r, d).Map?
  }

  /** From m to z, k frames and one for each new page table of r have left the free list. */
  ghost predicate Spent(m: Mem, z: Mem, r: nat, k: nat) {
    |m.free| + |Tables(m, r)| == |z.free| + |Tables(z, r)| + k
  }

  lemma TablesBound(m: Mem, r: nat)
    ensures |Tables(m, r)| <= NENT
  {
    Fewer(Tables(m, r), UpTo(NENT));
  }

  lemma TablesKept(m: Mem, own: map<nat, Use>, z: Mem, r: nat)
    requires IsDir(own, r) && TablesSame(m, own, z)
    ensures Tables(z, r) == Tables(m, r)
  {
  }

  lemma UserLeafTables(m: Mem, own: map<nat, Use>, r: nat, d: nat, i: nat, t: nat, g: nat, flags: nat, z: Mem)
    requires Good(m, own) && IsDir(own, r) && d < NENT && i < NENT && Entry(m, r, d).Map? && Entry(m, r, d).frame == t
    requires HasTable(m, t) && z.tables == WithLeaf(m, t, i, Map(g, flags)).tables
    ensures Tables(z, r) == Tables(m, r)
  {
    var x := WithLeaf(m, t, i, Map(g, flags));
    LeafSetOnly(m, own, r, d, i, t, Map(g, flags), x);
    TablesKept(m, own, x, r);
    assert forall e: nat :: Entry(z, r, e) == Entry(x, r, e);
  }

  lemma TableMade(m: Mem, own: map<nat, Use>, r: nat, d: nat, t: nat, z: Mem)
    requires Good(m, own) && InHand(m, own, t) && IsDir(own, r) && d < NENT && HasTable(m, r) && Entry(m, r, d).Absent?
    requires z == WithTable(m, r, d, t)
    ensures |Tables(z, r)| == |Tables(m, r)| + 1
  {
    forall e: nat | e < NENT
      ensures Entry(z, r, e) == if e == d then Map(t, 7) else Entry(m, r, e)
    {
      NewTableSame(m, own, r, d, t, z, r, e, 0);
    }
    assert Tables(z, r) == Tables(m, r) + {d};
  }

  /** r has more frames, and nothing else changed. */
  ghost predicate Grown(m: Mem, own: map<nat, Use>, z: Mem, own1: map<nat, Use>, r: nat) {
    Keeps(own, own1) && OthersSame(m, own, z, own1, r) && SameFrames(m, own, z, own1)
  }

  lemma GrownRefl(m: Mem, own: map<nat, Use>, r: nat)
    ensures Grown(m, own, m, own, r)
  {
  }

  lemma GrownTrans(m: Mem, own: map<nat, Use>, y: Mem, own1: map<nat, Use>, z: Mem, own2: map<nat, Use>, r: nat)
    requires Grown(m, own, y, own1, r) && Grown(y, own1, z, own2, r)
    ensures Grown(m, own, z, own2, r)
  {
    OthersSameTrans(m, own, y, own1, z, own2, r);
  }

  /** Frames in use or free lie in memory. */
  ghost predicate InRam(m: Mem, own: map<nat, Use>, lo: nat, hi: nat) {
    forall f :: f in m.free || f in own ==> lo <= f < hi
  }

  /** No frame comes from nowhere. */
  ghost predicate NoneNew(m: Mem, own: map<nat, Use>, z: Mem, own1: map<nat, Use>) {
    forall f :: f in z.free || f in own1 ==> f in m.free || f in own
  }

  class Machine {
    var mem: Mem
    ghost var own: map<nat, Use>
    const lo: nat                  // the first frame above the kernel
    const hi: nat                  // PHYSTOP

    ghost predicate Valid()
      reads this
    {
      Good(mem, own) && InRam(mem, own, lo, hi)
    }

    /** Memory as freerange leaves it: the given frames free, nothing in use. */
    constructor (frames: seq<nat>, lo: nat, hi: nat)
      requires FreeOk(frames, map[]) && forall k :: 0 <= k < |frames| ==> lo <= frames[k] < hi
      ensures Valid() && mem.free == frames && own == map[] && this.lo == lo && this.hi == hi
    {
      mem := Mem(frames, map[], map[]);
      own := map[];
      this.lo, this.hi := lo, hi;
    }

    /** kfree: false is its panic, for a frame outside memory. */
    method Kfree(f: nat) returns (ok: bool)
      modifies this`mem
      ensures ok <==> lo <= f < hi
      ensures mem == if ok then Freed(old(mem), f) else old(mem)
    {
      if f < lo || f >= hi { return false; }
      mem := Freed(mem, f);
      ok := true;
    }

    /** kalloc: the head of the free list. */
    method Kalloc() returns (ok: bool, f: nat)
      requires Valid()
      modifies this`mem
      ensures Valid() && (ok <==> old(mem).free != [])
      ensures !ok ==> mem == old(mem)
      ensures ok ==> f == old(mem).free[0] && mem == old(mem).(free := old(mem).free[1..]) && InHand(mem, own, f)
    {
      if mem.free == [] { return false, 0; }
      TakenGood(mem, own, mem.(free := mem.free[1..]));
      f := mem.free[0];
      mem := mem.(free := mem.free[1..]);
      ok := true;
    }

    /** walkpgdir with alloc: the table for directory entry d of r, made if need be. */
    method WalkAlloc(r: nat, d: nat) returns (ok: bool, t: nat)
      requires Valid() && IsDir(own, r) && d < NENT
      modifies this
      ensures Valid() && Keeps(old(own), own) && OthersSame(old(mem), old(own), mem, own, r)
      ensures SameFrames(old(mem), old(own), mem, own) && LeavesSame(old(mem), old(own), mem)
      ensures forall f :: f in mem.free ==> f in old(mem).free
      ensures forall f :: f in own && f !in old(own) ==> f in old(mem).free
      ensures mem.pages == old(mem).pages
      ensures ok ==> Entry(mem, r, d).Map? && Entry(mem, r, d).frame == t && HasTable(mem, t)
      ensures ok <==> Entry(old(mem), r, d).Map? || old(mem).free != []
      ensures Entry(old(mem), r, d).Map? || !ok ==> mem == old(mem) && own == old(own)
      ensures ok && Entry(old(mem), r, d).Absent? ==>
                Entry(mem, r, d) == Map(old(mem).free[0], 7) && mem.free == old(mem).free[1..]
      ensures Spent(old(mem), mem, r, 0)
    {
      ghost var m, o := mem, own;
      assert UseOk(m, o, r) && EntryOk(m, o, r, d);
      var e := Entry(mem, r, d);
      if e.Map? {
        assert UseOk(m, o, e.frame);
        return true, e.frame;
      }
      ok, t := Kalloc();
      if !ok { return; }
      ghost var y := mem;
      assert UseOk(y, o, r);
      mem := WithTable(mem, r, d, t);
      own := own[t := Table(r, d)];
      NewTableGood(y, o, r, d, t, mem, own);
      TableMade(y, o, r, d, t, mem);
      assert Tables(y, r) == Tables(m, r);
      TableFrames(m, o, r, d, t, mem, own);
    }

    /** mappages of one kernel page. */
    method MapKernelPage(r: nat, d: nat, i: nat, f: nat, perm: nat) returns (o: MapResult)
      requires Valid() && IsDir(own, r) && USERDIRS <= d < NENT && i < NENT
      modifies this
      ensures Valid() && Keeps(old(own), own) && OthersSame(old(mem), old(own), mem, own, r)
      ensures SameFrames(old(mem), old(own), mem, own) && UserLeavesSame(old(mem), old(own), mem)
      ensures o.Remap? <==> Leaf(old(mem), r, d, i).Map?
      ensures o.Mapped? ==> OnlyLeaf(old(mem), old(own), mem, r, d, i, Map(f, perm))
      ensures (o.NoMemory? ==> mem.free == []) && Spent(old(mem), mem, r, 0)
    {
      ghost var m, w := mem, own;
      var ok, t := WalkAlloc(r, d);
      if !ok { return NoMemory; }
      assert Leaf(mem, r, d, i) == Entry(mem, t, i);
      if Entry(mem, t, i).Map? { return Remap; }
      ghost var y, v := mem, own;
      mem := WithLeaf(mem, t, i, Map(f, perm));
      LeafSetOnly(y, v, r, d, i, t, Map(f, perm), mem);
      TablesKept(y, v, mem, r);
      KernelLeafGood(y, v, r, d, i, t, Map(f, perm), mem);
      LeafOthers(y, v, r, d, t, mem);
      OthersSameTrans(m, w, y, v, mem, own, r);
      LeafAfterTable(m, w, y, v, mem, r, d, i, Map(f, perm));
      return Mapped;
    }

    /** mappages of a run of kernel pages: "remap" only where a page was mapped before. */
    method MapRange(r: nat, k: Range) returns (o: MapResult)
      requires Valid() && IsDir(own, r) && KernelRange(k)
      modifies this
      ensures Valid() && Grown(old(mem), old(own), mem, own, r) && UserLeavesSame(old(mem), old(own), mem)
      ensures o.Mapped? ==> Ranged(old(mem), mem, r, k, k.n)
      ensures o.Remap? ==> exists v: nat :: k.v <= v < k.v + k.n && LeafV(old(mem), r, v).Map?
      ensures (o.NoMemory? ==> mem.free == []) && Spent(old(mem), mem, r, 0)
    {
      ghost var m, w := mem, own;
      GrownRefl(m, w, r);
      var j := 0;
      while j < k.n
        invariant 0 <= j <= k.n && Valid() && Grown(m, w, mem, own, r) && UserLeavesSame(m, w, mem)
        invariant Ranged(m, mem, r, k, j) && Spent(m, mem, r, 0)
      {
        ghost var y, v := mem, own;
        KernelEntry(k, j);
        o := MapKernelPage(r, (k.v + j) / NENT, (k.v + j) % NENT, k.f + j, k.perm);
        GrownTrans(m, w, y, v, mem, own, r);
        if o.Remap? { assert LeafV(y, r, k.v + j).Map? && LeafV(m, r, k.v + j).Map?; }
        if !o.Mapped? { return; }
        RangedNext(m, v, y, mem, r, k, j);
        j := j + 1;
      }
      o := Mapped;
    }

    /** setupkvm: a directory with exactly the kernel's mappings and no user page. */
    method SetupKvm(kmap: seq<Range>) returns (o: MapResult, r: nat)
      requires Valid() && forall k :: 0 <= k < |kmap| ==> KernelRange(kmap[k])
      modifies this
      ensures Valid() && Keeps(old(own), own)
      ensures o.Mapped? ==> 0 < r && r !in old(own) && IsDir(own, r) && OthersSame(old(mem), old(own), mem, own, r)
      ensures o.Mapped? ==> SameFrames(old(mem), old(own), mem, own) && NoUserPages(mem, r)
      ensures NoneNew(old(mem), old(own), mem, own)
      ensures o.Mapped? ==> KernelMapped(mem, r, kmap, |kmap|)
      ensures o.Remap? ==> !RangesApart(kmap)
      ensures o.NoMemory? ==> mem.free == [] && |old(mem).free| <= 1 + NENT
      ensures o.Mapped? ==> |old(mem).free| == |mem.free| + 1 + |Tables(mem, r)|
    {
      ghost var m, w := mem, own;
      r := NewDir();
      if r == 0 { return NoMemory, 0; }
      ghost var x, v := mem, own;
      o := MapKernel(r, kmap);
      TablesBound(mem, r);
      OthersSameTrans(m, w, x, v, mem, own, r);
    }

    /** setupkvm's loop over kmap. */
    method MapKernel(r: nat, kmap: seq<Range>) returns (o: MapResult)
      requires Valid() && IsDir(own, r) && NoUserPages(mem, r) && MapsCovered(mem, r, [], 0)
      requires forall k :: 0 <= k < |kmap| ==> KernelRange(kmap[k])
      modifies this
      ensures Valid() && Grown(old(mem), old(own), mem, own, r)
      ensures o.Mapped? ==> NoUserPages(mem, r) && KernelMapped(mem, r, kmap, |kmap|)
      ensures o.Remap? ==> !RangesApart(kmap)
      ensures (o.NoMemory? ==> mem.free == []) && Spent(old(mem), mem, r, 0)
    {
      ghost var m, w := mem, own;
      GrownRefl(m, w, r);
      var j := 0;
      while j < |kmap|
        invariant 0 <= j <= |kmap| && Valid() && Grown(m, w, mem, own, r) && NoUserPages(mem, r)
        invariant KernelMapped(mem, r, kmap, j) && Spent(m, mem, r, 0)
      {
        ghost var x, v := mem, own;
        o := MapRange(r, kmap[j]);
        GrownTrans(m, w, x, v, mem, own, r);
        if o.Remap? { OverlapFound(x, r, kmap, j); }
        if !o.Mapped? { return; }
        KernelNext(x, mem, r, kmap, j);
        j := j + 1;
      }
      o := Mapped;
    }

    /** A cleared page directory; 0 when there is no memory. */
    method NewDir() returns (r: nat)
      requires Valid()
      modifies this
      ensures Valid() && Keeps(old(own), own) && SameFrames(old(mem), old(own), mem, own)
      ensures r == 0 ==> mem == old(mem) && own == old(own) && mem.free == []
      ensures r != 0 ==> |old(mem).free| == |mem.free| + 1 && Tables(mem, r) == {}
      ensures r != 0 ==>
                r !in old(own) && IsDir(own, r) && OthersSame(old(mem), old(own), mem, own, r) &&
                NoUserPages(mem, r) && MapsCovered(mem, r, [], 0)
    {
      ghost var m, w := mem, own;
      var ok;
      ok, r := Kalloc();
      if !ok { return 0; }
      ghost var y := mem;
      mem := WithDir(mem, r);
      own := own[r := Dir];
      NewDirGood(y, w, r, mem, own);
      DirFrames(m, w, r, mem, own);
    }

    /** mappages of one user page, its frame g in hand. */
    method MapUserPage(r: nat, d: nat, i: nat, g: nat, flags: nat, c: Contents) returns (o: MapResult)
      requires Valid() && IsDir(own, r) && d < USERDIRS && i < NENT && InHand(mem, own, g)
      modifies this
      ensures Good(mem, own) && Keeps(old(own), own) && OthersSame(old(mem), old(own), mem, own, r)
      ensures forall f :: f in mem.free || f in own ==> f in old(mem).free || f in old(own) || f == g
      ensures o.Remap? <==> Leaf(old(mem), r, d, i).Map?
      ensures (o.NoMemory? ==> mem.free == []) && Spent(old(mem), mem, r, 0)
      ensures o.Mapped? ==>
                mem.pages == old(mem).pages[g := c] && OnlyLeaf(old(mem), old(own), mem, r, d, i, Map(g, flags)) &&
                FramesAnd(old(mem), old(own), mem, own, g) && g in own
    {
      ghost var m, w := mem, own;
      var ok, t := WalkAlloc(r, d);
      if !ok { return NoMemory; }
      assert Leaf(mem, r, d, i) == Entry(mem, t, i);
      if Entry(mem, t, i).Map? { return Remap; }
      ghost var y, v := mem, own;
      mem := mem.(pages := mem.pages[g := c]);
      mem := WithLeaf(mem, t, i, Map(g, flags));
      own := own[g := Page(r, d, i)];
      UserLeafGood(y, v, r, d, i, t, g, flags, c, y.(pages := y.pages[g := c]), mem, own);
      UserLeafOthers(y, v, r, d, i, t, g, mem, own);
      UserLeafTables(y, v, r, d, i, t, g, flags, mem);
      OthersSameTrans(m, w, y, v, mem, own, r);
      LeafAfterTable(m, w, y, v, mem, r, d, i, Map(g, flags));
      return Mapped;
    }

    /** A page of contents c at virtual page v of r, in a frame from the free list. */
    method AddPage(r: nat, v: nat, flags: nat, c: Contents) returns (o: MapResult, ghost g: nat)
      requires Valid() && IsDir(own, r) && v < USERDIRS * NENT
      modifies this
      ensures Valid() && Keeps(old(own), own) && OthersSame(old(mem), old(own), mem, own, r)
      ensures NoneNew(old(mem), old(own), mem, own)
      ensures o.Remap? <==> old(mem).free != [] && LeafV(old(mem), r, v).Map?
      ensures (o.NoMemory? ==> mem.free == []) && (o.Mapped? ==> Spent(old(mem), mem, r, 1))
      ensures |old(mem).free| + |Tables(old(mem), r)| <= |mem.free| + |Tables(mem, r)| + 1
      ensures o.Mapped? ==>
                g in old(mem).free && mem.pages == old(mem).pages[g := c] && SameFrames(old(mem), old(own), mem, own) &&
                OnlyLeaf(old(mem), old(own), mem, r, v / NENT, v % NENT, Map(g, flags))
    {
      ghost var m, w := mem, own;
      OthersSameRefl(m, w, r);
      var ok, f := Kalloc();
      g := f;
      if !ok { return NoMemory, g; }
      ghost var y := mem;
      TakenSame(m, w, y, r);
      assert Tables(y, r) == Tables(m, r);
      o := MapUserPage(r, v / NENT, v % NENT, f, flags, c);
      OthersSameTrans(m, w, y, w, mem, own, r);
      if o.Mapped? { TakenFrames(m, w, y, mem, own); }
    }

    /** copyuvm of the first n pages of r. */
    method CopyUvm(r: nat, n: nat, kmap: seq<Range>) returns (o: CopyResult)
      requires Valid() && IsDir(own, r) && n <= USERDIRS * NENT && forall k :: 0 <= k < |kmap| ==> KernelRange(kmap[k])
      modifies this
      ensures Valid()
      ensures o.CopyPanic? ==> exists v: nat :: v < n && LeafV(old(mem), r, v).Absent?
      ensures o.CopyRemap? ==> !RangesApart(kmap)
      ensures o.Copied? ==>
                o.d !in old(own) && IsDir(own, o.d) && OthersSame(old(mem), old(own), mem, own, o.d) &&
                SameFrames(old(mem), old(own), mem, own) && CopiedTo(old(mem), old(own), mem, r, o.d, n) &&
                KernelMapped(mem, o.d, kmap, |kmap|)
      ensures o.Copied? ==> |old(mem).free| == |mem.free| + 1 + |Tables(mem, o.d)| + n
      ensures o.CopyFails? ==> |old(mem).free| <= 1 + NENT + n
    {
      ghost var m, w := mem, own;
      var s, d := SetupKvm(kmap);
      if s.Remap? { return CopyRemap; }
      if s.NoMemory? { return CopyFails; }
      FreshIsInNoUse(m, w, d);
      var v := 0;
      while v < n
        invariant 0 <= v <= n && Valid() && Copying(m, w, mem, own, r, d, v, kmap)
      {
        var present, ok := CopyPage(m, w, r, d, v, kmap);
        if !present { return CopyPanic; }
        if !ok {
          ok := FreeVm(d);
          return CopyFails;
        }
        v := v + 1;
      }
      return Copied(d);
    }

    /** One round of its loop: whether page v is present, and whether there was memory. */
    method CopyPage(ghost m: Mem, ghost w: map<nat, Use>, r: nat, d: nat, v: nat, kmap: seq<Range>)
      returns (present: bool, ok: bool)
      requires Valid() && Good(m, w) && IsDir(w, r) && d !in w && v < USERDIRS * NENT
      requires (forall k :: 0 <= k < |kmap| ==> KernelRange(kmap[k])) && Copying(m, w, mem, own, r, d, v, kmap)
      modifies this
      ensures Valid() && IsDir(own, d) && (present <==> LeafV(m, r, v).Map?)
      ensures present && ok ==> Copying(m, w, mem, own, r, d, v + 1, kmap)
      ensures present && !ok ==> |m.free| <= 2 + NENT + v
    {
      SourceSame(m, w, mem, own, r, d, v);
      var e := LeafV(mem, r, v);
      if e.Absent? { return false, false; }
      SourcePage(m, w, mem, own, r, d, v);
      ghost var y, x := mem, own;
      var a;
      ghost var g;
      a, g := AddPage(d, v, e.flags, mem.pages[e.frame]);
      TablesBound(mem, d);
      OthersSameTrans(m, w, y, x, mem, own, d);
      assert LeafV(y, d, v).Absent?;
      if a.NoMemory? { return true, false; }
      CopiedStep(m, w, y, x, mem, own, r, d, v, g);
      KernelKept(y, x, mem, d, v, Map(g, e.flags), kmap);
      return true, true;
    }

    /** deallocuvm's treatment of a page that has a page table. */
    method FreePage(r: nat, d: nat, i: nat) returns (ok: bool)
      requires Valid() && IsDir(own, r) && d < USERDIRS && i < NENT && Entry(mem, r, d).Map?
      modifies this
      ensures ok && Valid() && Shrunk(old(mem), old(own), mem, own, r) &&
              OnlyLeaf(old(mem), old(own), mem, r, d, i, Absent)
    {
      ghost var m, w := mem, own;
      var t := Entry(mem, r, d).frame;
      assert EntryOk(m, w, r, d) && UseOk(m, w, t);
      var e := Entry(mem, t, i);
      assert e == Leaf(mem, r, d, i);
      ok := true;
      if e.Absent? { return; }
      assert LeafOk(m, w, r, d, i) && UseOk(m, w, e.frame);
      if e.frame == 0 { return false; }
      ok := Kfree(e.frame);
      ghost var y := mem;
      mem := WithLeaf(mem, t, i, Absent);
      own := own - {e.frame};
      ClearedGood(m, w, r, d, i, t, e.frame, y, mem, own);
      ClearedShrunk(m, w, r, d, i, t, e.frame, mem, own);
    }

    /** deallocuvm from virtual page s up to e; false is the panic "kfree". */
    method DeallocUvm(r: nat, s: nat, e: nat) returns (ok: bool)
      requires Valid() && IsDir(own, r) && e <= USERDIRS * NENT
      modifies this
      ensures ok && Valid() && Shrunk(old(mem), old(own), mem, own, r)
      ensures forall v: nat ::
                LeafV(mem, r, v) == if s <= v < e && Visits(old(mem), r, s, v) then Absent else LeafV(old(mem), r, v)
    {
      ghost var m, w := mem, own;
      ShrunkRefl(m, w, r);
      var v := s;
      while v < e
        invariant s <= v && Valid() && IsDir(own, r) && Shrunk(m, w, mem, own, r) && Walked(m, mem, r, s, v, e)
        decreases e - v
      {
        assert v / NENT < USERDIRS;
        assert Entry(mem, r, v / NENT) == Entry(m, r, v / NENT);
        ghost var y, x := mem, own;
        if Entry(mem, r, v / NENT).Absent? {
          WalkedLeap(m, mem, r, s, v, e);
          v := v + (NENT - 1);
        } else {
          ok := FreePage(r, v / NENT, v % NENT);
          ShrunkTrans(m, w, y, x, mem, own, r);
          FarIsAbsent(y, x, mem, own, r);
          WalkedStep(m, y, x, mem, r, s, v, e);
        }
        v := v + 1;
      }
      ok := true;
    }

    /** freevm: every frame of r is free again, and nothing else changes; no kfree panics. */
    method FreeVm(r: nat) returns (ok: bool)
      requires Valid() && IsDir(own, r)
      modifies this
      ensures ok && Valid() && own == Without(old(own), r) && OthersSame(old(mem), old(own), mem, own, r)
      ensures SameFrames(old(mem), old(own), mem, own)
    {
      ghost var m, w := mem, own;
      ok := DeallocUvm(r, 0, USERDIRS * NENT);
      ghost var y, x := mem, own;
      AllFreed(m, w, y, x, r);
      Detach(y, x, r);
      own := Without(own, r);
      FreeingStart(y, x, r);
      ok := FreeTables(y, x, r);
      FreeingEnds(m, w, y, x, mem, own, r);
      ok := Kfree(r);
    }

    /** freevm's loop over the directory. */
    method FreeTables(ghost y: Mem, ghost x: map<nat, Use>, r: nat) returns (ok: bool)
      requires Freeing(y, x, mem, own, r, 0) && InRam(y, x, lo, hi)
      modifies this`mem
      ensures ok && Freeing(y, x, mem, own, r, NENT)
    {
      var i := 0;
      while i < NENT
        invariant 0 <= i <= NENT && Freeing(y, x, mem, own, r, i)
      {
        var e := Entry(mem, r, i);
        if e.Map? {
          FreeingTable(y, x, mem, own, r, i);
          ok := Kfree(e.frame);
          if !ok { return; }
        } else {
          FreeingNone(y, x, mem, own, r, i);
        }
        i := i + 1;
      }
      ok := true;
    }

    /** An address space copied and freed again: the same frames are free as before. */
    method CopyThenFree(r: nat, n: nat, kmap: seq<Range>) returns (o: CopyResult)
      requires Valid() && IsDir(own, r) && n <= USERDIRS * NENT && forall k :: 0 <= k < |kmap| ==> KernelRange(kmap[k])
      modifies this
      ensures Valid()
      ensures o.Copied? ==> own == old(own) && forall f :: f in mem.free <==> f in old(mem).free
    {
      ghost var m, w := mem, own;
      o := CopyUvm(r, n, kmap);
      if !o.Copied? { return; }
      ghost var y, x := mem, own;
      FreshIsInNoUse(m, w, o.d);
      var ok := FreeVm(o.d);
      BuiltThenTorn(m, w, y, x, mem, own, o.d);
    }
  }

  /** The first n user pages of d are copies of r's, and it has no others. */
  ghost predicate CopiedTo(m: Mem, own: map<nat, Use>, z: Mem, r: nat, d: nat, n: nat) {
    (forall v: nat {:trigger LeafV(z, d, v)} :: v < n ==> CopiedAt(m, own, z, r, d, v)) &&
    forall v: nat {:trigger LeafV(z, d, v)} :: n <= v < USERDIRS * NENT ==> LeafV(z, d, v).Absent?
  }

  /** copyuvm once v pages of r are in d: the frames it has taken are d, its tables and the
      pages. */
  ghost predicate Copying(m: Mem, own: map<nat, Use>, z: Mem, own1: map<nat, Use>, r: nat, d: nat, v: nat,
                          kmap: seq<Range>)
  {
    IsDir(own1, r) && IsDir(own1, d) && OthersSame(m, own, z, own1, d) && SameFrames(m, own, z, own1) &&
    CopiedTo(m, own, z, r, d, v) && KernelMapped(z, d, kmap, |kmap|) &&
    |m.free| == |z.free| + 1 + |Tables(z, d)| + v
  }

  /** Page v: same flags, same contents, a frame of its own that was not in use. */
  ghost predicate CopiedAt(m: Mem, own: map<nat, Use>, z: Mem, r: nat, d: nat, v: nat) {
    LeafV(m, r, v).Map? && LeafV(z, d, v).Map? && LeafV(z, d, v).flags == LeafV(m, r, v).flags &&
    LeafV(z, d, v).frame !in own && LeafV(m, r, v).frame in m.pages && LeafV(z, d, v).frame in z.pages &&
    z.pages[LeafV(z, d, v).frame] == m.pages[LeafV(m, r, v).frame]
  }

  /** Only pages of r have gone. */
  ghost predicate Shrunk(m: Mem, own: map<nat, Use>, z: Mem, own1: map<nat, Use>, r: nat) {
    Keeps(own1, own) && (forall f :: f in own && f !in own1 ==> own[f].Page? && own[f].r == r) &&
    OthersSame(m, own, z, own1, r) && TablesSame(m, own, z) && SameFrames(m, own, z, own1)
  }

  lemma ShrunkRefl(m: Mem, own: map<nat, Use>, r: nat)
    ensures Shrunk(m, own, m, own, r)
  {
  }

  lemma ShrunkTrans(m: Mem, own: map<nat, Use>, y: Mem, own1: map<nat, Use>, z: Mem, own2: map<nat, Use>, r: nat)
    requires Shrunk(m, own, y, own1, r) && Shrunk(y, own1, z, own2, r)
    ensures Shrunk(m, own, z, own2, r)
  {
    OthersSameTrans(m, own, y, own1, z, own2, r);
    forall s: nat, d: nat | IsDir(own, s) && d < NENT
      ensures Entry(z, s, d) == Entry(m, s, d)
    {
      assert IsDir(own1, s);
      assert Entry(y, s, d) == Entry(m, s, d);
    }
  }

  /** deallocuvm at page v: the visited pages so far are gone, the rest are as they were. */
  ghost predicate Walked(m: Mem, z: Mem, r: nat, s: nat, v: nat, e: nat) {
    (forall u: nat {:trigger LeafV(z, r, u)} ::
       LeafV(z, r, u) == if s <= u < v && u < e && Visits(m, r, s, u) then Absent else LeafV(m, r, u)) &&
    forall u: nat {:trigger Visits(m, r, s, u)} :: v <= u ==> (Visits(m, r, s, u) <==> Visits(m, r, v, u))
  }

  lemma WalkedLeap(m: Mem, z: Mem, r: nat, s: nat, v: nat, e: nat)
    requires s <= v < e && Walked(m, z, r, s, v, e) && Entry(m, r, v / NENT).Absent?
    ensures Walked(m, z, r, s, v + NENT, e)
  {
    forall u: nat
      ensures v < u < v + NENT ==> !Visits(m, r, v, u)
      ensures v + NENT <= u ==> (Visits(m, r, s, u) <==> Visits(m, r, v + NENT, u))
    {
      if v < u { assert Visits(m, r, v, u) <==> Visits(m, r, v + NENT, u); }
    }
    forall u: nat
      ensures LeafV(z, r, u) == if s <= u < v + NENT && u < e && Visits(m, r, s, u) then Absent else LeafV(m, r, u)
    {
      assert v <= u ==> (Visits(m, r, s, u) <==> Visits(m, r, v, u));
    }
  }

  lemma WalkedStep(m: Mem, y: Mem, own: map<nat, Use>, z: Mem, r: nat, s: nat, v: nat, e: nat)
    requires s <= v < e && Walked(m, y, r, s, v, e) && Entry(m, r, v / NENT).Map? && IsDir(own, r) &&
             e <= USERDIRS * NENT
    requires OnlyLeaf(y, own, z, r, v / NENT, v % NENT, Absent) && FarSame(y, z, r)
    ensures Walked(m, z, r, s, v + 1, e)
  {
    forall u: nat
      ensures v < u ==> (Visits(m, r, s, u) <==> Visits(m, r, v + 1, u))
    {
      if v < u { assert Visits(m, r, v, u) <==> Visits(m, r, v + 1, u); }
    }
    assert Visits(m, r, v, v) && Visits(m, r, s, v);
    forall u: nat
      ensures LeafV(z, r, u) == if s <= u < v + 1 && u < e && Visits(m, r, s, u) then Absent else LeafV(m, r, u)
    {
      assert LeafV(y, r, u) == if s <= u < v && u < e && Visits(m, r, s, u) then Absent else LeafV(m, r, u);
      if u / NENT < NENT {
        assert u == v <==> u / NENT == v / NENT && u % NENT == v % NENT;
      }
    }
  }

  /** Beyond the last directory entry nothing is mapped. */
  ghost predicate FarSame(y: Mem, z: Mem, r: nat) {
    forall d: nat {:trigger Entry(z, r, d)} :: NENT <= d ==> Entry(y, r, d).Absent? && Entry(z, r, d).Absent?
  }

  lemma FarIsAbsent(y: Mem, own: map<nat, Use>, z: Mem, own1: map<nat, Use>, r: nat)
    requires Good(y, own) && Good(z, own1) && IsDir(own, r) && IsDir(own1, r)
    ensures FarSame(y, z, r)
  {
    assert UseOk(y, own, r) && UseOk(z, own1, r);
    forall d: nat | NENT <= d
      ensures Entry(y, r, d).Absent? && Entry(z, r, d).Absent?
    {
    }
  }

  // ---- The end of freevm ----

  /** After deallocuvm of the whole user part no page of r is left. */
  lemma AllFreed(m: Mem, own: map<nat, Use>, z: Mem, own1: map<nat, Use>, r: nat)
    requires Good(m, own) && Good(z, own1) && IsDir(own, r) && Shrunk(m, own, z, own1, r)
    requires forall v: nat ::
               LeafV(z, r, v) == if 0 <= v < USERDIRS * NENT && Visits(m, r, 0, v) then Absent else LeafV(m, r, v)
    ensures NoPages(own1, r)
  {
    forall d: nat, i: nat | d < USERDIRS && i < NENT
      ensures Leaf(z, r, d, i).Absent?
    {
      var v := d * NENT + i;
      assert v / NENT == d && v % NENT == i;
      assert Entry(z, r, d) == Entry(m, r, d);
      if Entry(m, r, d).Map? { FromTableStart(m, r, 0, v); }
      assert LeafV(z, r, v).Absent?;
    }
    forall f | f in own1
      ensures !(own1[f].Page? && own1[f].r == r)
    {
      assert UseOk(z, own1, f);
    }
  }

  ghost predicate NoPages(own: map<nat, Use>, r: nat) {
    forall f :: f in own ==> !(own[f].Page? && own[f].r == r)
  }

  lemma Detach(m: Mem, own: map<nat, Use>, r: nat)
    requires Good(m, own) && IsDir(own, r)
    ensures Good(m, Without(own, r))
  {
    var o := Without(own, r);
    forall f | f in o
      ensures UseOk(m, o, f)
    {
      assert UseOk(m, own, f);
    }
    forall s: nat, d: nat | IsDir(o, s) && d < NENT
      ensures EntryOk(m, o, s, d)
    {
      assert EntryOk(m, own, s, d) && IsDir(own, s);
    }
    forall s: nat, d: nat, i: nat | IsDir(o, s) && d < USERDIRS && i < NENT
      ensures LeafOk(m, o, s, d, i)
    {
      assert LeafOk(m, own, s, d, i) && IsDir(own, s);
    }
  }

  lemma FreedGood(m: Mem, own: map<nat, Use>, f: nat, z: Mem)
    requires Good(m, own) && 0 < f && f !in m.free && f !in own && z == Freed(m, f)
    ensures Good(z, own) && forall g :: g in own ==> SameContents(m, z, g)
  {
    forall s: nat, d: nat | IsDir(own, s) && d < NENT
      ensures Entry(z, s, d) == Entry(m, s, d) && EntryOk(z, own, s, d)
    {
      assert EntryOk(m, own, s, d);
    }
    forall s: nat, d: nat, i: nat | IsDir(own, s) && d < USERDIRS && i < NENT
      ensures Leaf(z, s, d, i) == Leaf(m, s, d, i) && LeafOk(z, own, s, d, i)
    {
      assert EntryOk(m, own, s, d) && LeafOk(m, own, s, d, i);
    }
    forall g | g in own
      ensures UseOk(z, own, g)
    {
      assert UseOk(m, own, g);
    }
  }

  /** freevm's loop over the page tables, at directory entry i: own was x when it began. */
  ghost predicate Freeing(y: Mem, x: map<nat, Use>, z: Mem, own: map<nat, Use>, r: nat, i: nat) {
    Good(y, x) && IsDir(x, r) && Good(z, own) && own == Without(x, r) && r in y.tables && r in z.tables &&
      z.tables[r] == y.tables[r] &&
    (forall f :: f in z.free <==> f in y.free || (f in x && x[f].Table? && x[f].r == r && x[f].d < i)) &&
    forall f :: f in own ==> SameContents(y, z, f)
  }

  lemma FreeingStart(y: Mem, x: map<nat, Use>, r: nat)
    requires Good(y, x) && IsDir(x, r) && Good(y, Without(x, r))
    ensures Freeing(y, x, y, Without(x, r), r, 0)
  {
    assert UseOk(y, x, r);
  }

  lemma FreeingTable(y: Mem, x: map<nat, Use>, z: Mem, own: map<nat, Use>, r: nat, i: nat)
    requires Freeing(y, x, z, own, r, i) && i < NENT && Entry(z, r, i).Map?
    ensures Entry(z, r, i).frame in x && Freeing(y, x, Freed(z, Entry(z, r, i).frame), own, r, i + 1)
  {
    var f := Entry(z, r, i).frame;
    assert Entry(y, r, i) == Entry(z, r, i);
    assert EntryOk(y, x, r, i) && UseOk(y, x, f);
    assert f !in y.free;
    FreedGood(z, own, f, Freed(z, f));
    forall g | g in x && x[g].Table? && x[g].r == r && x[g].d == i
      ensures g == f
    {
      assert UseOk(y, x, g);
    }
  }

  lemma FreeingNone(y: Mem, x: map<nat, Use>, z: Mem, own: map<nat, Use>, r: nat, i: nat)
    requires Freeing(y, x, z, own, r, i) && i < NENT && Entry(z, r, i).Absent?
    ensures Freeing(y, x, z, own, r, i + 1)
  {
    forall g | g in x && x[g].Table? && x[g].r == r
      ensures x[g].d != i
    {
      assert UseOk(y, x, g);
      assert Entry(y, r, i) == Entry(z, r, i);
    }
  }

  lemma FreeingEnds(m: Mem, w: map<nat, Use>, y: Mem, x: map<nat, Use>, z: Mem, own: map<nat, Use>, r: nat)
    requires Freeing(y, x, z, own, r, NENT) && NoPages(x, r) && Good(m, w) && Shrunk(m, w, y, x, r) && IsDir(w, r)
    ensures var q := Freed(z, r);
            Good(q, own) && own == Without(w, r) && OthersSame(m, w, q, own, r) && SameFrames(m, w, q, own)
  {
    var q := Freed(z, r);
    assert UseOk(y, x, r);
    assert r !in y.free && r !in own;
    FreedGood(z, own, r, q);
    EndsFrames(y, x, z, own, r, q);
    assert own == Without(w, r);
    forall f | f in w && !OfDir(w[f], f, r)
      ensures f in own && own[f] == w[f] && SameContents(m, q, f)
    {
      assert f in x && x[f] == w[f] && SameContents(m, y, f) && SameContents(y, z, f) && SameContents(z, q, f);
    }
  }

  lemma EndsFrames(y: Mem, x: map<nat, Use>, z: Mem, own: map<nat, Use>, r: nat, q: Mem)
    requires Freeing(y, x, z, own, r, NENT) && NoPages(x, r) && q == Freed(z, r)
    ensures SameFrames(y, x, q, own)
  {
    forall f
      ensures (f in y.free || f in x) <==> (f in q.free || f in own)
    {
      if f in x { assert UseOk(y, x, f); }
    }
  }

  lemma TakenSame(m: Mem, own: map<nat, Use>, z: Mem, r: nat)
    requires z.pages == m.pages && z.tables == m.tables
    ensures OthersSame(m, own, z, own, r)
  {
  }

  lemma TakenFrames(m: Mem, own: map<nat, Use>, y: Mem, z: Mem, own1: map<nat, Use>)
    requires m.free != [] && y.free == m.free[1..] && y.pages == m.pages && y.tables == m.tables &&
             FramesAnd(y, own, z, own1, m.free[0])
    ensures SameFrames(m, own, z, own1)
  {
    assert m.free == [m.free[0]] + y.free;
  }

  /** While d is being built, r maps what it did. */
  lemma SourceSame(m: Mem, own: map<nat, Use>, z: Mem, own1: map<nat, Use>, r: nat, d: nat, v: nat)
    requires Good(m, own) && IsDir(own, r) && d !in own && OthersSame(m, own, z, own1, d) && v < USERDIRS * NENT
    ensures LeafV(z, r, v) == LeafV(m, r, v) && IsDir(own1, r)
  {
    var e := v / NENT;
    assert UseOk(m, own, r) && EntryOk(m, own, r, e);
    assert SameContents(m, z, r);
    if Entry(m, r, e).Map? { assert SameContents(m, z, Entry(m, r, e).frame); }
  }

  lemma SourcePage(m: Mem, own: map<nat, Use>, z: Mem, own1: map<nat, Use>, r: nat, d: nat, v: nat)
    requires Good(m, own) && IsDir(own, r) && d !in own && OthersSame(m, own, z, own1, d) && v < USERDIRS * NENT
    requires LeafV(m, r, v).Map?
    ensures LeafV(m, r, v).frame in m.pages && LeafV(m, r, v).frame in z.pages
    ensures z.pages[LeafV(m, r, v).frame] == m.pages[LeafV(m, r, v).frame]
  {
    var f := LeafV(m, r, v).frame;
    assert LeafOk(m, own, r, v / NENT, v % NENT) && UseOk(m, own, f);
    assert SameContents(m, z, f);
  }

  lemma CopiedStep(m: Mem, own: map<nat, Use>, y: Mem, own1: map<nat, Use>, z: Mem, own2: map<nat, Use>, r: nat,
        d: nat, n: nat, g: nat)
    requires Good(m, own) && Good(y, own1) && IsDir(own, r) && IsDir(own1, d) && d !in own && n < USERDIRS * NENT
    requires CopiedTo(m, own, y, r, d, n) && OthersSame(m, own, y, own1, d) && SameFrames(m, own, y, own1)
    requires LeafV(m, r, n).Map? && LeafV(m, r, n).frame in m.pages && g in y.free
    requires z.pages == y.pages[g := m.pages[LeafV(m, r, n).frame]]
    requires OnlyLeaf(y, own1, z, d, n / NENT, n % NENT, Map(g, LeafV(m, r, n).flags))
    ensures CopiedTo(m, own, z, r, d, n + 1)
  {
    FreshIsInNoUse(m, own, d);
    assert g !in own;
    forall v: nat | v < USERDIRS * NENT
      ensures v != n ==> LeafV(z, d, v) == LeafV(y, d, v)
      ensures v <= n ==> CopiedAt(m, own, z, r, d, v)
    {
      assert v / NENT < NENT;
      if v < n {
        assert LeafV(y, d, v) == LeafV(y, d, v);
        assert CopiedAt(m, own, y, r, d, v);
        assert LeafOk(y, own1, d, v / NENT, v % NENT);
      }
    }
  }

  lemma ClearedShrunk(m: Mem, own: map<nat, Use>, r: nat, d: nat, i: nat, t: nat, f: nat, z: Mem, own1: map<nat, Use>)
    requires Good(m, own) && f in own && own[f] == Page(r, d, i) && f !in m.free && own1 == own - {f} &&
             TablesSame(m, own, z)
    requires z.free == [f] + m.free && z.pages == m.pages - {f} && t in own && own[t] == Table(r, d)
    requires forall g :: g in z.tables <==> g in m.tables && g != f
    requires forall g :: g in z.tables && g != t ==> z.tables[g] == m.tables[g]
    ensures Shrunk(m, own, z, own1, r)
  {
  }

  /** The user part of every address space maps what it did. */
  ghost predicate UserLeavesSame(m: Mem, own: map<nat, Use>, z: Mem) {
    forall r: nat, d: nat, i: nat {:trigger Leaf(z, r, d, i)} ::
      IsDir(own, r) && d < USERDIRS ==> Leaf(z, r, d, i) == Leaf(m, r, d, i)
  }

  ghost predicate NoUserPages(m: Mem, r: nat) {
    forall d: nat, i: nat {:trigger Leaf(m, r, d, i)} :: d < USERDIRS && i < NENT ==> Leaf(m, r, d, i).Absent?
  }

  /** As SameFrames, but g was in hand before. */
  ghost predicate FramesAnd(m: Mem, own: map<nat, Use>, z: Mem, own1: map<nat, Use>, g: nat) {
    forall f :: (f in m.free || f in own || f == g) <==> (f in z.free || f in own1)
  }

  lemma KernelEntry(k: Range, j: nat)
    requires KernelRange(k) && j < k.n
    ensures USERDIRS <= (k.v + j) / NENT < NENT && (k.v + j) % NENT < NENT
  {
  }

  lemma OthersSameRefl(m: Mem, own: map<nat, Use>, r: nat)
    ensures OthersSame(m, own, m, own, r)
  {
  }

  /** Writing an entry of one of r's tables touches nobody else's frames. */
  lemma LeafOthers(m: Mem, own: map<nat, Use>, r: nat, d: nat, t: nat, z: Mem)
    requires Good(m, own) && IsDir(own, r) && d < NENT && Entry(m, r, d).Map? && Entry(m, r, d).frame == t
    requires z.pages == m.pages && (forall f :: f in z.tables <==> f in m.tables)
    requires forall f :: f in m.tables && f != t ==> z.tables[f] == m.tables[f]
    ensures OthersSame(m, own, z, own, r)
  {
    assert EntryOk(m, own, r, d);
  }

  lemma UserLeafOthers(m: Mem, own: map<nat, Use>, r: nat, d: nat, i: nat, t: nat, g: nat, z: Mem, own1: map<nat, Use>)
    requires Good(m, own) && IsDir(own, r) && d < NENT && Entry(m, r, d).Map? && Entry(m, r, d).frame == t &&
             InHand(m, own, g)
    requires g in z.pages && z.pages == m.pages[g := z.pages[g]] && (forall f :: f in z.tables <==> f in m.tables)
    requires forall f :: f in m.tables && f != t ==> z.tables[f] == m.tables[f]
    requires own1 == own[g := Page(r, d, i)]
    ensures OthersSame(m, own, z, own1, r)
  {
    assert EntryOk(m, own, r, d);
  }

  lemma LeafAfterTable(m: Mem, own: map<nat, Use>, y: Mem, own1: map<nat, Use>, z: Mem, r: nat, d: nat, i: nat, p: Pte)
    requires LeavesSame(m, own, y) && Keeps(own, own1) && OnlyLeaf(y, own1, z, r, d, i, p)
    ensures OnlyLeaf(m, own, z, r, d, i, p)
  {
    forall s: nat, e: nat, j: nat | IsDir(own, s) && e < NENT
      ensures Leaf(z, s, e, j) == if s == r && e == d && j == i then p else Leaf(m, s, e, j)
    {
      assert IsDir(own1, s);
      assert Leaf(y, s, e, j) == Leaf(m, s, e, j);
    }
  }

  lemma DirFrames(m: Mem, own: map<nat, Use>, r: nat, z: Mem, own1: map<nat, Use>)
    requires Good(m, own) && m.free != [] && r == m.free[0]
    requires z == WithDir(m.(free := m.free[1..]), r) && own1 == own[r := Dir]
    ensures SameFrames(m, own, z, own1) && OthersSame(m, own, z, own1, r) && Keeps(own, own1) && NoUserPages(z, r)
  {
    assert m.free == [r] + z.free;
    FreshIsInNoUse(m, own, r);
  }

  lemma TableFrames(m: Mem, own: map<nat, Use>, r: nat, d: nat, t: nat, z: Mem, own1: map<nat, Use>)
    requires Good(m, own) && m.free != [] && t == m.free[0] && IsDir(own, r) && d < NENT && HasTable(m, r)
    requires z == WithTable(m.(free := m.free[1..]), r, d, t) && own1 == own[t := Table(r, d)]
    ensures SameFrames(m, own, z, own1) && OthersSame(m, own, z, own1, r) && Keeps(own, own1)
    ensures forall f :: f in z.free ==> f in m.free
    ensures t in m.free
  {
    assert m.free == [t] + z.free;
  }
}

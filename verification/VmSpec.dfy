/** Page tables and the frames they own: two levels of 1024 entries, user space in the
    first 512 directory entries (vm.c, kalloc.c; 32-bit paging, section 4.3 of the Intel
    SDM volume 3A). Addresses count pages. */
module VmSpec {
  const NENT := 1024
  const USERDIRS := 512          // KERNBASE / (PGSIZE * NPTENTRIES)

  type Contents = seq<bv8>       // the bytes of a page

  datatype Pte = Absent | Map(frame: nat, flags: nat)

  /** What a frame in use is for: a page directory, the table of entry d of directory r, or
      the user page at entry i of that table. */
  datatype Use = Dir | Table(r: nat, d: nat) | Page(r: nat, d: nat, i: nat)

  datatype Mem = Mem(free: seq<nat>, pages: map<nat, Contents>, tables: map<nat, seq<Pte>>)

  function Entry(m: Mem, t: nat, i: nat): Pte {
    if t in m.tables && i < |m.tables[t]| then m.tables[t][i] else Absent
  }

  /** The page table entry for entry i of table d. */
  function Leaf(m: Mem, r: nat, d: nat, i: nat): Pte {
    var e := Entry(m, r, d);
    if e.Absent? then Absent else Entry(m, e.frame, i)
  }

  predicate IsDir(own: map<nat, Use>, r: nat) {
    r in own && own[r] == Dir
  }

  predicate HasTable(m: Mem, f: nat) {
    f in m.tables && |m.tables[f]| == NENT
  }

  /** A frame in use is used as recorded. */
  predicate UseOk(m: Mem, own: map<nat, Use>, f: nat)
    requires f in own
  {
    0 < f &&
    match own[f]
    case Dir => HasTable(m, f)
    case Table(r, d) =>
      IsDir(own, r) && d < NENT && HasTable(m, f) && Entry(m, r, d).Map? && Entry(m, r, d).frame == f
    case Page(r, d, i) =>
      IsDir(own, r) && d < USERDIRS && i < NENT && f in m.pages && Leaf(m, r, d, i).Map? && Leaf(m, r, d, i).frame == f
  }

  /** Directory entry d of r refers to a table of its own. */
  predicate EntryOk(m: Mem, own: map<nat, Use>, r: nat, d: nat) {
    Entry(m, r, d).Map? ==> Entry(m, r, d).frame in own && own[Entry(m, r, d).frame] == Table(r, d)
  }

  /** User entry (d, i) of r refers to a page of its own. */
  predicate LeafOk(m: Mem, own: map<nat, Use>, r: nat, d: nat, i: nat) {
    Leaf(m, r, d, i).Map? ==> Leaf(m, r, d, i).frame in own && own[Leaf(m, r, d, i).frame] == Page(r, d, i)
  }

  ghost predicate FreeOk(free: seq<nat>, own: map<nat, Use>) {
    (forall k :: 0 <= k < |free| ==> 0 < free[k] && free[k] !in own) &&
    forall j, k :: 0 <= j < k < |free| ==> free[j] != free[k]
  }

  ghost predicate Good(m: Mem, own: map<nat, Use>) {
    FreeOk(m.free, own) &&
    (forall f {:trigger UseOk(m, own, f)} :: f in own ==> UseOk(m, own, f)) &&
    (forall r: nat, d: nat {:trigger EntryOk(m, own, r, d)} :: IsDir(own, r) && d < NENT ==> EntryOk(m, own, r, d)) &&
    forall r: nat, d: nat, i: nat {:trigger LeafOk(m, own, r, d, i)} ::
      IsDir(own, r) && d < USERDIRS && i < NENT ==> LeafOk(m, own, r, d, i)
  }

  /** No frame is mapped twice, in one address space or two. */
  lemma NotShared(m: Mem, own: map<nat, Use>, r: nat, d: nat, i: nat, s: nat, e: nat, j: nat)
    requires Good(m, own) && IsDir(own, r) && IsDir(own, s) && d < USERDIRS && e < USERDIRS && i < NENT && j < NENT
    requires Leaf(m, r, d, i).Map? && Leaf(m, s, e, j).Map? && Leaf(m, r, d, i).frame == Leaf(m, s, e, j).frame
    ensures r == s && d == e && i == j
  {
    assert LeafOk(m, own, r, d, i) && LeafOk(m, own, s, e, j);
  }

  function Blank(n: nat): (t: seq<Pte>)
    ensures |t| == n && forall i :: 0 <= i < n ==> t[i] == Absent
  {
    if n == 0 then [] else Blank(n - 1) + [Absent]
  }

  /** Frame f is neither free nor in use: kalloc has just handed it out. */
  predicate InHand(m: Mem, own: map<nat, Use>, f: nat) {
    0 < f && f !in m.free && f !in own
  }

  lemma TakenGood(m: Mem, own: map<nat, Use>, z: Mem)
    requires Good(m, own) && m.free != [] && z == m.(free := m.free[1..])
    ensures Good(z, own) && InHand(z, own, m.free[0])
  {
    forall f | f in own
      ensures UseOk(z, own, f)
    {
      assert UseOk(m, own, f);
    }
    SameTables(m, z, own);
  }

  /** Entries depend on the tables only. */
  lemma SameTables(m: Mem, z: Mem, own: map<nat, Use>)
    requires Good(m, own) && z.tables == m.tables
    ensures forall r: nat, d: nat {:trigger EntryOk(z, own, r, d)} :: IsDir(own, r) && d < NENT ==>
            EntryOk(z, own, r, d)
    ensures forall r: nat, d: nat, i: nat {:trigger LeafOk(z, own, r, d, i)} ::
              IsDir(own, r) && d < USERDIRS && i < NENT ==> LeafOk(z, own, r, d, i)
  {
    forall r: nat, d: nat | IsDir(own, r) && d < NENT
      ensures EntryOk(z, own, r, d)
    {
      assert EntryOk(m, own, r, d);
    }
    forall r: nat, d: nat, i: nat | IsDir(own, r) && d < USERDIRS && i < NENT
      ensures LeafOk(z, own, r, d, i)
    {
      assert LeafOk(m, own, r, d, i);
    }
  }

  // ---- A new directory ----

  function WithDir(m: Mem, r: nat): Mem {
    Mem(m.free, m.pages, m.tables[r := Blank(NENT)])
  }

  lemma NewDirGood(m: Mem, own: map<nat, Use>, r: nat, z: Mem, own1: map<nat, Use>)
    requires Good(m, own) && InHand(m, own, r) && z == WithDir(m, r) && own1 == own[r := Dir]
    ensures Good(z, own1) && LeavesSame(m, own, z) && TablesSame(m, own, z)
  {
    forall s: nat, d: nat, i: nat | IsDir(own, s) && d < NENT
      ensures Entry(z, s, d) == Entry(m, s, d) && Leaf(z, s, d, i) == Leaf(m, s, d, i)
    {
      assert EntryOk(m, own, s, d);
    }
    forall f | f in own1
      ensures UseOk(z, own1, f)
    {
      if f != r { assert UseOk(m, own, f); }
    }
    forall s: nat, d: nat | IsDir(own1, s) && d < NENT
      ensures EntryOk(z, own1, s, d)
    {
      if s != r { assert EntryOk(m, own, s, d) && IsDir(own, s); }
    }
    forall s: nat, d: nat, i: nat | IsDir(own1, s) && d < USERDIRS && i < NENT
      ensures LeafOk(z, own1, s, d, i)
    {
      if s != r { assert LeafOk(m, own, s, d, i) && IsDir(own, s); }
    }
  }

  /** Every address space maps what it did. */
  ghost predicate LeavesSame(m: Mem, own: map<nat, Use>, z: Mem) {
    forall r: nat, d: nat, i: nat {:trigger Leaf(z, r, d, i)} ::
      IsDir(own, r) && d < NENT ==> Leaf(z, r, d, i) == Leaf(m, r, d, i)
  }

  /** Every directory has the tables it had. */
  ghost predicate TablesSame(m: Mem, own: map<nat, Use>, z: Mem) {
    forall r: nat, d: nat {:trigger Entry(z, r, d)} :: IsDir(own, r) && d < NENT ==> Entry(z, r, d) == Entry(m, r, d)
  }

  // ---- A new table ----

  function WithTable(m: Mem, r: nat, d: nat, t: nat): Mem
    requires HasTable(m, r) && d < NENT
  {
    Mem(m.free, m.pages, m.tables[t := Blank(NENT)][r := m.tables[r][d := Map(t, 7)]])
  }

  lemma NewTableSame(m: Mem, own: map<nat, Use>, r: nat, d: nat, t: nat, z: Mem, s: nat, e: nat, i: nat)
    requires Good(m, own) && InHand(m, own, t) && IsDir(own, r) && d < NENT && HasTable(m, r) && Entry(m, r, d).Absent?
    requires z == WithTable(m, r, d, t) && IsDir(own, s) && e < NENT
    ensures Entry(z, s, e) == (if s == r && e == d then Map(t, 7) else Entry(m, s, e))
    ensures Leaf(z, s, e, i) == Leaf(m, s, e, i)
  {
    assert UseOk(m, own, s) && EntryOk(m, own, s, e);
  }

  lemma NewTableGood(m: Mem, own: map<nat, Use>, r: nat, d: nat, t: nat, z: Mem, own1: map<nat, Use>)
    requires Good(m, own) && InHand(m, own, t) && IsDir(own, r) && d < NENT && HasTable(m, r) && Entry(m, r, d).Absent?
    requires z == WithTable(m, r, d, t) && own1 == own[t := Table(r, d)]
    ensures Good(z, own1) && LeavesSame(m, own, z)
  {
    forall s: nat, e: nat, i: nat | IsDir(own, s) && e < NENT
      ensures Entry(z, s, e) == (if s == r && e == d then Map(t, 7) else Entry(m, s, e))
      ensures Leaf(z, s, e, i) == Leaf(m, s, e, i)
    {
      NewTableSame(m, own, r, d, t, z, s, e, i);
    }
    forall f | f in own1
      ensures UseOk(z, own1, f)
    {
      if f != t { assert UseOk(m, own, f); }
    }
    forall s: nat, e: nat | IsDir(own1, s) && e < NENT
      ensures EntryOk(z, own1, s, e)
    {
      assert EntryOk(m, own, s, e) && IsDir(own, s);
    }
    forall s: nat, e: nat, i: nat | IsDir(own1, s) && e < USERDIRS && i < NENT
      ensures LeafOk(z, own1, s, e, i)
    {
      assert LeafOk(m, own, s, e, i) && IsDir(own, s);
    }
  }

  // ---- Setting and clearing entries ----

  function WithLeaf(m: Mem, t: nat, i: nat, p: Pte): Mem
    requires HasTable(m, t) && i < NENT
  {
    Mem(m.free, m.pages, m.tables[t := m.tables[t][i := p]])
  }

  /** Exactly one entry changes. */
  lemma LeafSet(m: Mem, own: map<nat, Use>, r: nat, d: nat, i: nat, t: nat, p: Pte, z: Mem, s: nat, e: nat, j: nat)
    requires Good(m, own) && IsDir(own, r) && d < NENT && i < NENT && Entry(m, r, d).Map? && Entry(m, r, d).frame == t
    requires HasTable(m, t) && z == WithLeaf(m, t, i, p) && IsDir(own, s) && e < NENT
    ensures Entry(z, s, e) == Entry(m, s, e)
    ensures Leaf(z, s, e, j) == if s == r && e == d && j == i then p else Leaf(m, s, e, j)
  {
    assert EntryOk(m, own, r, d) && EntryOk(m, own, s, e);
  }

  /** All entries but (r, d, i) are as they were. */
  ghost predicate OnlyLeaf(m: Mem, own: map<nat, Use>, z: Mem, r: nat, d: nat, i: nat, p: Pte) {
    forall s: nat, e: nat, j: nat {:trigger Leaf(z, s, e, j)} ::
      IsDir(own, s) && e < NENT ==> Leaf(z, s, e, j) == if s == r && e == d && j == i then p else Leaf(m, s, e, j)
  }

  lemma LeafSetOnly(m: Mem, own: map<nat, Use>, r: nat, d: nat, i: nat, t: nat, p: Pte, z: Mem)
    requires Good(m, own) && IsDir(own, r) && d < NENT && i < NENT && Entry(m, r, d).Map? && Entry(m, r, d).frame == t
    requires HasTable(m, t) && z == WithLeaf(m, t, i, p)
    ensures OnlyLeaf(m, own, z, r, d, i, p) && TablesSame(m, own, z)
  {
    forall s: nat, e: nat | IsDir(own, s) && e < NENT
      ensures Entry(z, s, e) == Entry(m, s, e)
    {
      LeafSet(m, own, r, d, i, t, p, z, s, e, 0);
    }
    forall s: nat, e: nat, j: nat | IsDir(own, s) && e < NENT
      ensures Leaf(z, s, e, j) == if s == r && e == d && j == i then p else Leaf(m, s, e, j)
    {
      LeafSet(m, own, r, d, i, t, p, z, s, e, j);
    }
  }

  /** Kernel entries refer to frames nobody owns. */
  lemma KernelLeafGood(m: Mem, own: map<nat, Use>, r: nat, d: nat, i: nat, t: nat, p: Pte, z: Mem)
    requires Good(m, own) && IsDir(own, r) && USERDIRS <= d < NENT && i < NENT && Entry(m, r, d).Map? &&
             Entry(m, r, d).frame == t
    requires HasTable(m, t) && z == WithLeaf(m, t, i, p)
    ensures Good(z, own) && OnlyLeaf(m, own, z, r, d, i, p)
  {
    LeafSetOnly(m, own, r, d, i, t, p, z);
    forall f | f in own
      ensures UseOk(z, own, f)
    {
      assert UseOk(m, own, f);
    }
    forall s: nat, e: nat | IsDir(own, s) && e < NENT
      ensures EntryOk(z, own, s, e)
    {
      assert EntryOk(m, own, s, e);
    }
    forall s: nat, e: nat, j: nat | IsDir(own, s) && e < USERDIRS && j < NENT
      ensures LeafOk(z, own, s, e, j)
    {
      assert LeafOk(m, own, s, e, j);
    }
  }

  /** A new user page at (d, i). */
  lemma UserLeafGood(m: Mem, own: map<nat, Use>, r: nat, d: nat, i: nat, t: nat, f: nat, flags: nat, c: Contents,
        y: Mem, z: Mem, own1: map<nat, Use>)
    requires Good(m, own) && IsDir(own, r) && d < USERDIRS && i < NENT && Entry(m, r, d).Map? &&
             Entry(m, r, d).frame == t
    requires HasTable(m, t) && Leaf(m, r, d, i).Absent? && InHand(m, own, f)
    requires y == m.(pages := m.pages[f := c]) && z == WithLeaf(y, t, i, Map(f, flags)) &&
             own1 == own[f := Page(r, d, i)]
    ensures Good(z, own1) && OnlyLeaf(m, own, z, r, d, i, Map(f, flags))
  {
    var x := WithLeaf(m, t, i, Map(f, flags));
    LeafSetOnly(m, own, r, d, i, t, Map(f, flags), x);
    assert z.tables == x.tables;
    forall s: nat, e: nat | IsDir(own, s) && e < NENT
      ensures Entry(z, s, e) == Entry(m, s, e)
    {
      assert Entry(z, s, e) == Entry(x, s, e);
    }
    forall s: nat, e: nat, j: nat | IsDir(own, s) && e < NENT
      ensures Leaf(z, s, e, j) == if s == r && e == d && j == i then Map(f, flags) else Leaf(m, s, e, j)
    {
      assert Leaf(z, s, e, j) == Leaf(x, s, e, j);
    }
    forall g | g in own1
      ensures UseOk(z, own1, g)
    {
      if g != f { assert UseOk(m, own, g); }
    }
    forall s: nat, e: nat | IsDir(own1, s) && e < NENT
      ensures EntryOk(z, own1, s, e)
    {
      assert EntryOk(m, own, s, e) && IsDir(own, s);
    }
    forall s: nat, e: nat, j: nat | IsDir(own1, s) && e < USERDIRS && j < NENT
      ensures LeafOk(z, own1, s, e, j)
    {
      assert LeafOk(m, own, s, e, j) && IsDir(own, s);
    }
  }

  /** The user page at (d, i) goes back to the free list. */
  lemma ClearedGood(m: Mem, own: map<nat, Use>, r: nat, d: nat, i: nat, t: nat, f: nat, y: Mem, z: Mem, own1: map<nat,
        Use>)
    requires Good(m, own) && IsDir(own, r) && d < USERDIRS && i < NENT && Entry(m, r, d).Map? &&
             Entry(m, r, d).frame == t
    requires HasTable(m, t) && Leaf(m, r, d, i).Map? && Leaf(m, r, d, i).frame == f
    requires y == Freed(m, f) && HasTable(y, t) && z == WithLeaf(y, t, i, Absent) && own1 == own - {f}
    ensures f in own && f !in m.free && Good(z, own1) && OnlyLeaf(m, own, z, r, d, i, Absent) && TablesSame(m, own, z)
  {
    assert LeafOk(m, own, r, d, i) && UseOk(m, own, f);
    var x := WithLeaf(m, t, i, Absent);
    LeafSetOnly(m, own, r, d, i, t, Absent, x);
    forall s: nat, e: nat | IsDir(own, s) && e < NENT
      ensures Entry(z, s, e) == Entry(m, s, e)
    {
      assert EntryOk(m, own, s, e) && UseOk(m, own, s);
      assert Entry(z, s, e) == Entry(x, s, e);
    }
    forall s: nat, e: nat, j: nat | IsDir(own, s) && e < NENT
      ensures Leaf(z, s, e, j) == if s == r && e == d && j == i then Absent else Leaf(m, s, e, j)
    {
      assert EntryOk(m, own, s, e) && UseOk(m, own, s);
      assert Leaf(z, s, e, j) == Leaf(x, s, e, j);
    }
    forall g | g in own1
      ensures UseOk(z, own1, g)
    {
      assert UseOk(m, own, g);
    }
    forall s: nat, e: nat | IsDir(own1, s) && e < NENT
      ensures EntryOk(z, own1, s, e)
    {
      assert EntryOk(m, own, s, e) && IsDir(own, s);
    }
    forall s: nat, e: nat, j: nat | IsDir(own1, s) && e < USERDIRS && j < NENT
      ensures LeafOk(z, own1, s, e, j)
    {
      assert LeafOk(m, own, s, e, j) && IsDir(own, s);
    }
  }

  /** kfree: the frame's contents are lost and it heads the free list. */
  function Freed(m: Mem, f: nat): Mem {
    Mem([f] + m.free, m.pages - {f}, m.tables - {f})
  }

  // ---- What a change to one address space leaves alone ----

  /** Frame f, used as u, belongs to the address space of r. */
  predicate OfDir(u: Use, f: nat, r: nat) {
    match u
    case Dir => f == r
    case Table(s, _) => s == r
    case Page(s, _, _) => s == r
  }

  predicate SameContents(m: Mem, z: Mem, f: nat) {
    (f in m.tables <==> f in z.tables) && (f in m.tables ==> z.tables[f] == m.tables[f]) &&
    (f in m.pages <==> f in z.pages) && (f in m.pages ==> z.pages[f] == m.pages[f])
  }

  /** The frames of every other address space are used for the same and hold the same. */
  ghost predicate OthersSame(m: Mem, own: map<nat, Use>, z: Mem, own1: map<nat, Use>, r: nat) {
    (forall f :: f in own && !OfDir(own[f], f, r) ==> f in own1 && own1[f] == own[f] && SameContents(m, z, f)) &&
    forall f :: f in own1 && !OfDir(own1[f], f, r) ==> f in own && own[f] == own1[f]
  }

  /** No frame is lost or made up. */
  ghost predicate SameFrames(m: Mem, own: map<nat, Use>, z: Mem, own1: map<nat, Use>) {
    forall f :: (f in m.free || f in own) <==> (f in z.free || f in own1)
  }

  lemma OthersSameTrans(m: Mem, own: map<nat, Use>, y: Mem, own1: map<nat, Use>, z: Mem, own2: map<nat, Use>, r: nat)
    requires OthersSame(m, own, y, own1, r) && OthersSame(y, own1, z, own2, r)
    ensures OthersSame(m, own, z, own2, r)
  {
  }

  /** r's frames in own are still r's in own1. */
  ghost predicate Keeps(own: map<nat, Use>, own1: map<nat, Use>) {
    forall f :: f in own ==> f in own1 && own1[f] == own[f]
  }

  /** The uses of the other address spaces. */
  function Without(own: map<nat, Use>, r: nat): map<nat, Use> {
    map f | f in own && !OfDir(own[f], f, r) :: own[f]
  }

  /** Building an address space from nothing and tearing it down again gives back exactly
      the free frames there were. */
  lemma BuiltThenTorn(m: Mem, own: map<nat, Use>, y: Mem, own1: map<nat, Use>, z: Mem, own2: map<nat, Use>, r: nat)
    requires Good(m, own) && Good(z, own2) && InNoUse(own, r)
    requires OthersSame(m, own, y, own1, r) && own2 == Without(own1, r)
    requires SameFrames(m, own, y, own1) && SameFrames(y, own1, z, own2)
    ensures own2 == own && forall f :: f in z.free <==> f in m.free
  {
    assert forall f :: f in own ==> !OfDir(own[f], f, r);
    assert own2 == own;
    forall f
      ensures f in z.free <==> f in m.free
    {
      if f in z.free || f in m.free { assert f in z.free || f in own2 <==> f in m.free || f in own; }
    }
  }

  /** Nothing belongs to r. */
  ghost predicate InNoUse(own: map<nat, Use>, r: nat) {
    forall f :: f in own ==> !OfDir(own[f], f, r)
  }

  lemma FreshIsInNoUse(m: Mem, own: map<nat, Use>, r: nat)
    requires Good(m, own) && r !in own
    ensures InNoUse(own, r)
  {
    forall f | f in own
      ensures !OfDir(own[f], f, r)
    {
      assert UseOk(m, own, f);
    }
  }

  // ---- deallocuvm's walk ----

  function LeafV(m: Mem, r: nat, v: nat): Pte {
    Leaf(m, r, v / NENT, v % NENT)
  }

  /** deallocuvm's next page: it leaps 1024 pages where there is no page table. */
  function Leap(m: Mem, r: nat, v: nat): nat {
    if Entry(m, r, v / NENT).Absent? then v + NENT else v + 1
  }

  /** A walk from s comes by v. */
  predicate Visits(m: Mem, r: nat, s: nat, v: nat)
    decreases v - s
  {
    s <= v && (s == v || Visits(m, r, Leap(m, r, s), v))
  }

  /** The page tables from directory entry d up to e are all absent. */
  predicate NoTables(m: Mem, r: nat, d: nat, e: nat) {
    forall k: nat :: d <= k < e ==> Entry(m, r, k).Absent?
  }

  /** Exactly which pages under a page table the walk misses: those lower in their table
      than the start is in its own, when no table was met before theirs. */
  lemma {:induction false} VisitsExactly(m: Mem, r: nat, s: nat, v: nat)
    requires s <= v && Entry(m, r, v / NENT).Map?
    ensures Visits(m, r, s, v) <==> !(v % NENT < s % NENT && NoTables(m, r, s / NENT, v / NENT))
    decreases v - s
  {
    if s < v {
      if Entry(m, r, s / NENT).Absent? {
        LeapSplit(m, r, s, v);
        if s + NENT <= v { VisitsExactly(m, r, s + NENT, v); }
      } else {
        VisitsExactly(m, r, s + 1, v);
        StepSplit(m, r, s, v);
      }
    }
  }

  lemma LeapSplit(m: Mem, r: nat, s: nat, v: nat)
    requires s < v && Entry(m, r, s / NENT).Absent? && Entry(m, r, v / NENT).Map?
    ensures (s + NENT) / NENT == s / NENT + 1 && (s + NENT) % NENT == s % NENT
    ensures NoTables(m, r, s / NENT, v / NENT) <==> NoTables(m, r, s / NENT + 1, v / NENT)
    ensures v < s + NENT ==> v / NENT == s / NENT + 1 && v % NENT < s % NENT
  {
    assert s / NENT < v / NENT;
  }

  lemma StepSplit(m: Mem, r: nat, s: nat, v: nat)
    requires s < v && Entry(m, r, s / NENT).Map?
    ensures v % NENT < s % NENT ==> !NoTables(m, r, s / NENT, v / NENT)
    ensures v % NENT < (s + 1) % NENT && NoTables(m, r, (s + 1) / NENT, v / NENT) ==> false
  {
    assert s / NENT <= v / NENT;
    if s / NENT < v / NENT { assert !NoTables(m, r, s / NENT, v / NENT); }
  }

  /** Starting where a page table would start, it misses nothing. */
  lemma FromTableStart(m: Mem, r: nat, s: nat, v: nat)
    requires s <= v && s % NENT == 0 && Entry(m, r, v / NENT).Map?
    ensures Visits(m, r, s, v)
  {
    VisitsExactly(m, r, s, v);
  }

  /** An unaligned start in front of an absent table can miss a mapped page. */
  lemma LeapMisses(m: Mem, r: nat)
    requires Entry(m, r, 0).Absent? && Entry(m, r, 1).Map?
    ensures !Visits(m, r, 1, NENT)
  {
    VisitsExactly(m, r, 1, NENT);
  }
}

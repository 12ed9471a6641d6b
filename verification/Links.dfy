/** Link counts and directory entries over create, link and unlink (sysfile.c, fs.c).

    A directory is its sequence of entries; inode number 0 marks an unused one. */
module Links {
  datatype Kind = Free | Dir | File | Device

  datatype Entry = Entry(inum: nat, name: string)

  datatype Inode = Inode(kind: Kind, nlink: nat, ents: seq<Entry>)

  /** A directory that can still be reached. */
  predicate LiveDir(n: Inode) {
    n.kind == Dir && n.nlink > 0
  }

  // ---- Counting references ----

  /** An entry that counts towards inode i: not ".". */
  function Ref(e: Entry, i: nat): nat {
    if e.inum == i != 0 && e.name != "." then 1 else 0
  }

  function Refs(es: seq<Entry>, i: nat, n: nat): nat
    requires n <= |es|
  {
    if n == 0 then 0 else Ref(es[n - 1], i) + Refs(es, i, n - 1)
  }

  function Given(n: Inode, i: nat): nat {
    if LiveDir(n) then Refs(n.ents, i, |n.ents|) else 0
  }

  /** The entries naming i in live directories, not counting ".". */
  function Total(ns: seq<Inode>, i: nat, n: nat): nat
    requires n <= |ns|
  {
    if n == 0 then 0 else Given(ns[n - 1], i) + Total(ns, i, n - 1)
  }

  lemma {:induction false} RefsSame(es: seq<Entry>, fs: seq<Entry>, i: nat, n: nat)
    requires n <= |es| && n <= |fs| && forall k :: 0 <= k < n ==> Ref(es[k], i) == Ref(fs[k], i)
    ensures Refs(es, i, n) == Refs(fs, i, n)
  {
    if n > 0 { RefsSame(es, fs, i, n - 1); }
  }

  lemma {:induction false} RefsSet(es: seq<Entry>, k: nat, e: Entry, i: nat, n: nat)
    requires k < n <= |es|
    ensures Refs(es[k := e], i, n) + Ref(es[k], i) == Refs(es, i, n) + Ref(e, i)
  {
    if k == n - 1 {
      RefsSame(es[k := e], es, i, n - 1);
    } else {
      RefsSet(es, k, e, i, n - 1);
    }
  }

  lemma RefsPush(es: seq<Entry>, e: Entry, i: nat)
    ensures Refs(es + [e], i, |es| + 1) == Refs(es, i, |es|) + Ref(e, i)
  {
    RefsSame(es + [e], es, i, |es|);
  }

  lemma {:induction false} TotalSame(ns: seq<Inode>, ms: seq<Inode>, i: nat, n: nat)
    requires n <= |ns| && n <= |ms| && forall d :: 0 <= d < n ==> Given(ns[d], i) == Given(ms[d], i)
    ensures Total(ns, i, n) == Total(ms, i, n)
  {
    if n > 0 { TotalSame(ns, ms, i, n - 1); }
  }

  lemma {:induction false} TotalSet(ns: seq<Inode>, d: nat, x: Inode, i: nat, n: nat)
    requires d < n <= |ns|
    ensures Total(ns[d := x], i, n) + Given(ns[d], i) == Total(ns, i, n) + Given(x, i)
  {
    if d == n - 1 {
      TotalSame(ns[d := x], ns, i, n - 1);
    } else {
      TotalSet(ns, d, x, i, n - 1);
    }
  }

  /** One directory gives all the references there are. */
  lemma {:induction false} TotalOne(ns: seq<Inode>, d: nat, i: nat, n: nat)
    requires n <= |ns| && forall c :: 0 <= c < n && c != d ==> Given(ns[c], i) == 0
    ensures Total(ns, i, n) == if d < n then Given(ns[d], i) else 0
  {
    if n > 0 { TotalOne(ns, d, i, n - 1); }
  }

  lemma {:induction false} TotalAtLeast(ns: seq<Inode>, d: nat, i: nat, n: nat)
    requires d < n <= |ns|
    ensures Total(ns, i, n) >= Given(ns[d], i)
  {
    if d < n - 1 { TotalAtLeast(ns, d, i, n - 1); }
  }

  lemma {:induction false} RefsAtLeast(es: seq<Entry>, k: nat, i: nat, n: nat)
    requires k < n <= |es|
    ensures Refs(es, i, n) >= Ref(es[k], i)
  {
    if k < n - 1 { RefsAtLeast(es, k, i, n - 1); }
  }

  lemma {:induction false} RefsOne(es: seq<Entry>, k: nat, i: nat, n: nat)
    requires n <= |es| && forall j :: 0 <= j < n && j != k ==> Ref(es[j], i) == 0
    ensures Refs(es, i, n) == if k < n then Ref(es[k], i) else 0
  {
    if n > 0 { RefsOne(es, k, i, n - 1); }
  }

  // ---- What holds between transactions ----

  type Place = (nat, nat)      // directory and entry number

  predicate Used(e: Entry) {
    e.inum != 0
  }

  predicate Dots(name: string) {
    name == "." || name == ".."
  }

  /** The two first entries of a live directory are its dots, and no others are. */
  predicate DotsOk(ns: seq<Inode>, root: nat, up: map<nat, Place>, d: nat)
    requires d < |ns|
  {
    |ns[d].ents| >= 2 && ns[d].ents[0] == Entry(d, ".") &&
    (d == root || d in up) && ns[d].ents[1] == Entry(if d == root then d else up[d].0, "..")
  }

  predicate NamesOk(es: seq<Entry>) {
    (forall k :: 2 <= k < |es| && Used(es[k]) ==> !Dots(es[k].name)) &&
    forall j, k :: 0 <= j < |es| && 0 <= k < |es| && Used(es[j]) && Used(es[k]) && es[j].name == es[k].name ==> j == k
  }

  /** Entry k of live directory d: if it names a directory, that is its place in the tree. */
  predicate EntryOk(ns: seq<Inode>, root: nat, up: map<nat, Place>, d: nat, k: nat)
    requires d < |ns| && k < |ns[d].ents|
  {
    Used(ns[d].ents[k]) ==>
      ns[d].ents[k].inum < |ns| &&
      (ns[ns[d].ents[k].inum].kind == Dir ==>
         ns[d].ents[k].inum != root && ns[d].ents[k].inum in up && up[ns[d].ents[k].inum] == (d, k))
  }

  /** A live directory other than the root has its place in a live directory. */
  predicate PlaceOk(ns: seq<Inode>, root: nat, up: map<nat, Place>, c: nat)
    requires c < |ns|
  {
    c != root ==>
      c in up && up[c].0 < |ns| && LiveDir(ns[up[c].0]) && 2 <= up[c].1 < |ns[up[c].0].ents| &&
      ns[up[c].0].ents[up[c].1].inum == c
  }

  ghost predicate DirOk(ns: seq<Inode>, root: nat, up: map<nat, Place>, d: nat)
    requires d < |ns|
  {
    LiveDir(ns[d]) ==>
      DotsOk(ns, root, up, d) && NamesOk(ns[d].ents) && PlaceOk(ns, root, up, d) &&
      forall k {:trigger EntryOk(ns, root, up, d, k)} :: 2 <= k < |ns[d].ents| ==> EntryOk(ns, root, up, d, k)
  }

  /** The link count is the number of entries naming the inode. */
  predicate CountOk(ns: seq<Inode>, i: nat)
    requires i < |ns|
  {
    ns[i].nlink == Total(ns, i, |ns|) && (ns[i].kind == Free ==> ns[i].nlink == 0 && ns[i].ents == [])
  }

  /** Every link count is right. */
  ghost predicate Counted(ns: seq<Inode>) {
    forall i {:trigger CountOk(ns, i)} :: 0 <= i < |ns| ==> CountOk(ns, i)
  }

  /** A directory already unlinked, kept by a process that has it open or stands in it, still
      holds its dots and nothing else; its ".." may by now name any inode. */
  predicate DeadOk(n: Inode, d: nat, size: nat) {
    n.kind == Dir && n.nlink == 0 ==>
      |n.ents| >= 2 && n.ents[0] == Entry(d, ".") && n.ents[1].name == ".." &&
      0 < n.ents[1].inum < size && n.ents[1].inum != d && Bare(n)
  }

  ghost predicate Inv(ns: seq<Inode>, root: nat, up: map<nat, Place>) {
    0 < root < |ns| && LiveDir(ns[root]) && ns[0].kind == Free && Counted(ns) &&
    (forall d {:trigger DirOk(ns, root, up, d)} :: 0 <= d < |ns| ==> DirOk(ns, root, up, d)) &&
    (forall d {:trigger DeadOk(ns[d], d, |ns|)} :: 0 <= d < |ns| ==> DeadOk(ns[d], d, |ns|))
  }

  /** An entry other than the dots of a live directory names an inode with links left. */
  lemma NamedIsLinked(ns: seq<Inode>, root: nat, up: map<nat, Place>, d: nat, k: nat)
    requires Inv(ns, root, up) && d < |ns| && LiveDir(ns[d]) && 2 <= k < |ns[d].ents| && Used(ns[d].ents[k])
    ensures ns[d].ents[k].inum < |ns| && ns[ns[d].ents[k].inum].nlink >= 1
  {
    assert DirOk(ns, root, up, d);
    assert EntryOk(ns, root, up, d, k);
    var i := ns[d].ents[k].inum;
    RefsAtLeast(ns[d].ents, k, i, |ns[d].ents|);
    TotalAtLeast(ns, d, i, |ns|);
    assert CountOk(ns, i);
  }

  /** All entries but the dots are unused. */
  predicate Bare(n: Inode) {
    forall k :: 2 <= k < |n.ents| ==> !Used(n.ents[k])
  }

  /** Another directory gives an empty one no reference: neither a name nor a "..". */
  lemma NoOtherRefs(ns: seq<Inode>, root: nat, up: map<nat, Place>, ip: nat, d: nat)
    requires Inv(ns, root, up) && ip < |ns| && LiveDir(ns[ip]) && Bare(ns[ip]) && ip != root && ip in up && d < |ns| &&
             d != up[ip].0
    ensures Given(ns[d], ip) == 0
  {
    if LiveDir(ns[d]) {
      assert DirOk(ns, root, up, d) && DirOk(ns, root, up, ip);
      forall j | 0 <= j < |ns[d].ents|
        ensures Ref(ns[d].ents[j], ip) == 0
      {
        if j >= 2 { assert EntryOk(ns, root, up, d, j); }
      }
      RefsOne(ns[d].ents, |ns[d].ents|, ip, |ns[d].ents|);
    }
  }

  /** An empty directory other than the root has exactly one link. */
  lemma EmptyHasOneLink(ns: seq<Inode>, root: nat, up: map<nat, Place>, ip: nat)
    requires Inv(ns, root, up) && ip < |ns| && LiveDir(ns[ip]) && Bare(ns[ip]) && ip != root
    ensures ns[ip].nlink == 1
  {
    assert DirOk(ns, root, up, ip);
    var dp := up[ip].0;
    forall c | 0 <= c < |ns| && c != dp
      ensures Given(ns[c], ip) == 0
    {
      NoOtherRefs(ns, root, up, ip, c);
    }
    TotalOne(ns, dp, ip, |ns|);
    assert DirOk(ns, root, up, dp);
    forall j | 0 <= j < |ns[dp].ents| && j != up[ip].1
      ensures Ref(ns[dp].ents[j], ip) == 0
    {
      if j >= 2 { assert EntryOk(ns, root, up, dp, j); }
    }
    assert EntryOk(ns, root, up, dp, up[ip].1);
    RefsOne(ns[dp].ents, up[ip].1, ip, |ns[dp].ents|);
    assert CountOk(ns, ip);
  }

  // ---- New names ----

  /** dirlink's write: over an unused entry, or at the end. */
  function PutEntry(es: seq<Entry>, k: nat, e: Entry): (r: seq<Entry>)
    requires k <= |es|
    ensures |r| >= |es| && k < |r| && r[k] == e && forall j :: 0 <= j < |r| && j != k ==> j < |es| && r[j] == es[j]
  {
    if k < |es| then es[k := e] else es + [e]
  }

  predicate Slot(es: seq<Entry>, k: nat) {
    2 <= k <= |es| && (k < |es| ==> !Used(es[k]))
  }

  predicate NewName(es: seq<Entry>, name: string) {
    !Dots(name) && forall k :: 0 <= k < |es| && Used(es[k]) ==> es[k].name != name
  }

  lemma PutRefs(es: seq<Entry>, k: nat, e: Entry, j: nat)
    requires Slot(es, k)
    ensures Refs(PutEntry(es, k, e), j, |PutEntry(es, k, e)|) == Refs(es, j, |es|) + Ref(e, j)
  {
    if k < |es| {
      RefsSet(es, k, e, j, |es|);
    } else {
      RefsPush(es, e, j);
    }
  }

  lemma PutNames(es: seq<Entry>, k: nat, e: Entry)
    requires NamesOk(es) && Slot(es, k) && NewName(es, e.name) && Used(e)
    ensures NamesOk(PutEntry(es, k, e))
  {
  }

  function WithEnts(n: Inode, es: seq<Entry>): Inode {
    Inode(n.kind, n.nlink, es)
  }

  /** Inode i, no directory, becomes x with one link more, named by entry k of d. */
  lemma AddNameInv(ns: seq<Inode>, root: nat, up: map<nat, Place>, i: nat, x: Inode, d: nat, k: nat, name: string,
        z: seq<Inode>)
    requires Inv(ns, root, up) && 0 < i < |ns| && ns[i].kind != Dir && (x.kind == File || x.kind == Device) &&
             x.nlink == ns[i].nlink + 1
    requires d < |ns| && LiveDir(ns[d]) && Slot(ns[d].ents, k) && NewName(ns[d].ents, name)
    requires z == ns[i := x][d := WithEnts(ns[d], PutEntry(ns[d].ents, k, Entry(i, name)))]
    ensures Inv(z, root, up)
  {
    forall j | 0 <= j < |z|
      ensures CountOk(z, j)
    {
      AddNameCount(ns, root, up, i, x, d, k, name, z, j);
    }
    forall c | 0 <= c < |z|
      ensures DirOk(z, root, up, c)
    {
      AddNameDir(ns, root, up, i, x, d, k, name, z, c);
    }
    DeadSame(ns, z, i, d);
  }

  /** Only i and d changed, and neither is a dead directory now. */
  lemma DeadSame(ns: seq<Inode>, z: seq<Inode>, i: nat, d: nat)
    requires |z| == |ns| && forall c :: 0 <= c < |ns| ==> DeadOk(ns[c], c, |ns|)
    requires forall c :: 0 <= c < |ns| && c != i && c != d ==> z[c] == ns[c]
    requires i < |ns| ==> DeadOk(z[i], i, |ns|)
    requires d < |ns| ==> DeadOk(z[d], d, |ns|)
    ensures forall c :: 0 <= c < |z| ==> DeadOk(z[c], c, |z|)
  {
    forall c | 0 <= c < |z|
      ensures DeadOk(z[c], c, |z|)
    {
      assert DeadOk(ns[c], c, |ns|);
    }
  }

  lemma AddNameCount(ns: seq<Inode>, root: nat, up: map<nat, Place>, i: nat, x: Inode, d: nat, k: nat, name: string,
        z: seq<Inode>, j: nat)
    requires Inv(ns, root, up) && 0 < i < |ns| && ns[i].kind != Dir && (x.kind == File || x.kind == Device) &&
             x.nlink == ns[i].nlink + 1
    requires d < |ns| && LiveDir(ns[d]) && Slot(ns[d].ents, k) && NewName(ns[d].ents, name) && j < |ns|
    requires z == ns[i := x][d := WithEnts(ns[d], PutEntry(ns[d].ents, k, Entry(i, name)))]
    ensures CountOk(z, j)
  {
    assert CountOk(ns, j);
    var y := ns[i := x];
    TotalSet(ns, i, x, j, |ns|);
    TotalSet(y, d, z[d], j, |ns|);
    PutRefs(ns[d].ents, k, Entry(i, name), j);
  }

  lemma AddNameDir(ns: seq<Inode>, root: nat, up: map<nat, Place>, i: nat, x: Inode, d: nat, k: nat, name: string,
        z: seq<Inode>, c: nat)
    requires Inv(ns, root, up) && 0 < i < |ns| && ns[i].kind != Dir && (x.kind == File || x.kind == Device)
    requires d < |ns| && LiveDir(ns[d]) && Slot(ns[d].ents, k) && NewName(ns[d].ents, name) && c < |ns|
    requires z == ns[i := x][d := WithEnts(ns[d], PutEntry(ns[d].ents, k, Entry(i, name)))]
    ensures DirOk(z, root, up, c)
  {
    assert DirOk(ns, root, up, c) && DirOk(ns, root, up, d);
    if LiveDir(z[c]) {
      if c == d { PutNames(ns[d].ents, k, Entry(i, name)); }
      forall j | 2 <= j < |z[c].ents|
        ensures EntryOk(z, root, up, c, j)
      {
        if !(c == d && j == k) { assert EntryOk(ns, root, up, c, j); }
      }
    }
  }

  /** In a directory already unlinked a new name does not count, and inode i is left with
      one link too many. */
  lemma DeadNameBreaks(ns: seq<Inode>, i: nat, x: Inode, d: nat, k: nat, name: string, z: seq<Inode>)
    requires Counted(ns) && 0 < i < |ns| && ns[i].kind != Dir && x.kind != Dir && x.nlink == ns[i].nlink + 1
    requires d < |ns| && ns[d].kind == Dir && !LiveDir(ns[d]) && k <= |ns[d].ents|
    requires z == ns[i := x][d := WithEnts(ns[d], PutEntry(ns[d].ents, k, Entry(i, name)))]
    ensures z[i].nlink == Total(z, i, |z|) + 1 && !Counted(z)
  {
    assert CountOk(ns, i);
    TotalSet(ns, i, x, i, |ns|);
    TotalSet(ns[i := x], d, z[d], i, |ns|);
    assert !CountOk(z, i);
  }

  /** A new directory in one already unlinked brings that one back to life: the count of the
      inode its ".." names is then too small. */
  lemma DeadDirBreaks(ns: seq<Inode>, i: nat, d: nat, k: nat, name: string, z: seq<Inode>)
    requires Counted(ns) && 0 < i < |ns| && ns[i].kind == Free && d < |ns| && ns[d].kind == Dir && !LiveDir(ns[d])
    requires DeadOk(ns[d], d, |ns|) && Slot(ns[d].ents, k) && NewName(ns[d].ents, name)
    requires z == ns[i := Inode(Dir, 1, [Entry(i, "."), Entry(d, "..")])]
                  [d := Inode(Dir, ns[d].nlink + 1, PutEntry(ns[d].ents, k, Entry(i, name)))]
    ensures LiveDir(z[d]) && z[ns[d].ents[1].inum].nlink < Total(z, ns[d].ents[1].inum, |z|) && !Counted(z)
  {
    var y := ns[d].ents[1].inum;
    var x := Inode(Dir, 1, [Entry(i, "."), Entry(d, "..")]);
    assert CountOk(ns, y);
    TotalSet(ns, i, x, y, |ns|);
    TotalSet(ns[i := x], d, z[d], y, |ns|);
    DotRefs(i, d, y);
    PutRefs(ns[d].ents, k, Entry(i, name), y);
    BareRefs(ns[d], d, y, y);
    assert !CountOk(z, y);
  }

  /** A new directory i, named by entry k of d: d gains the link its ".." gives. */
  lemma AddDirInv(ns: seq<Inode>, root: nat, up: map<nat, Place>, i: nat, d: nat, k: nat, name: string, z: seq<Inode>,
        up1: map<nat, Place>)
    requires Inv(ns, root, up) && 0 < i < |ns| && ns[i].kind == Free && d < |ns| && LiveDir(ns[d])
    requires Slot(ns[d].ents, k) && NewName(ns[d].ents, name) && up1 == up[i := (d, k)]
    requires z == ns[i := Inode(Dir, 1, [Entry(i, "."), Entry(d, "..")])]
                  [d := Inode(Dir, ns[d].nlink + 1, PutEntry(ns[d].ents, k, Entry(i, name)))]
    ensures Inv(z, root, up1)
  {
    forall j | 0 <= j < |z|
      ensures CountOk(z, j)
    {
      AddDirCount(ns, root, up, i, d, k, name, z, j);
    }
    forall c | 0 <= c < |z|
      ensures DirOk(z, root, up1, c)
    {
      AddDirDir(ns, root, up, i, d, k, name, z, up1, c);
    }
    DeadSame(ns, z, i, d);
  }

  lemma AddDirCount(ns: seq<Inode>, root: nat, up: map<nat, Place>, i: nat, d: nat, k: nat, name: string,
        z: seq<Inode>, j: nat)
    requires Inv(ns, root, up) && 0 < i < |ns| && ns[i].kind == Free && d < |ns| && LiveDir(ns[d])
    requires Slot(ns[d].ents, k) && NewName(ns[d].ents, name) && j < |ns|
    requires z == ns[i := Inode(Dir, 1, [Entry(i, "."), Entry(d, "..")])]
                  [d := Inode(Dir, ns[d].nlink + 1, PutEntry(ns[d].ents, k, Entry(i, name)))]
    ensures CountOk(z, j)
  {
    assert CountOk(ns, j) && CountOk(ns, i);
    var x := Inode(Dir, 1, [Entry(i, "."), Entry(d, "..")]);
    var y := ns[i := x];
    TotalSet(ns, i, x, j, |ns|);
    TotalSet(y, d, z[d], j, |ns|);
    PutRefs(ns[d].ents, k, Entry(i, name), j);
    DotRefs(i, d, j);
  }

  lemma DotRefs(i: nat, d: nat, j: nat)
    ensures Refs([Entry(i, "."), Entry(d, "..")], j, 2) == if j == d != 0 then 1 else 0
  {
    var es := [Entry(i, "."), Entry(d, "..")];
    assert Refs(es, j, 1) == Ref(es[0], j) + Refs(es, j, 0);
    assert Refs(es, j, 2) == Ref(es[1], j) + Refs(es, j, 1);
  }

  lemma AddDirDir(ns: seq<Inode>, root: nat, up: map<nat, Place>, i: nat, d: nat, k: nat, name: string, z: seq<Inode>,
                  up1: map<nat, Place>, c: nat)
    requires Inv(ns, root, up) && 0 < i < |ns| && ns[i].kind == Free && d < |ns| && LiveDir(ns[d])
    requires Slot(ns[d].ents, k) && NewName(ns[d].ents, name) && up1 == up[i := (d, k)] && c < |ns|
    requires z == ns[i := Inode(Dir, 1, [Entry(i, "."), Entry(d, "..")])]
                  [d := Inode(Dir, ns[d].nlink + 1, PutEntry(ns[d].ents, k, Entry(i, name)))]
    ensures DirOk(z, root, up1, c)
  {
    assert DirOk(ns, root, up, c) && DirOk(ns, root, up, d);
    if LiveDir(z[c]) && c != i {
      if c == d { PutNames(ns[d].ents, k, Entry(i, name)); }
      forall j | 2 <= j < |z[c].ents|
        ensures EntryOk(z, root, up1, c, j)
      {
        if !(c == d && j == k) {
          NotNamed(ns, root, up, i, c, j);
          AddDirEntry(ns, root, up, i, d, k, z, up1, c, j);
        }
      }
    }
  }

  /** No entry of a live directory names a free inode. */
  lemma NotNamed(ns: seq<Inode>, root: nat, up: map<nat, Place>, i: nat, c: nat, j: nat)
    requires Inv(ns, root, up) && 0 < i < |ns| && ns[i].kind == Free
    requires c < |ns| && LiveDir(ns[c]) && 2 <= j < |ns[c].ents|
    ensures EntryOk(ns, root, up, c, j) && ns[c].ents[j].inum != i
  {
    assert DirOk(ns, root, up, c);
    assert EntryOk(ns, root, up, c, j);
    if Used(ns[c].ents[j]) {
      NamedIsLinked(ns, root, up, c, j);
      assert CountOk(ns, i);
    }
  }

  lemma AddDirEntry(ns: seq<Inode>, root: nat, up: map<nat, Place>, i: nat, d: nat, k: nat, z: seq<Inode>,
                    up1: map<nat, Place>, c: nat, j: nat)
    requires 0 < i < |ns| && d < |ns| && up1 == up[i := (d, k)] && |z| == |ns| && ns[d].kind == Dir
    requires forall e :: 0 <= e < |ns| && e != i ==> z[e].kind == ns[e].kind
    requires c < |ns| && j < |ns[c].ents| && j < |z[c].ents| && z[c].ents[j] == ns[c].ents[j]
    requires EntryOk(ns, root, up, c, j) && ns[c].ents[j].inum != i
    ensures EntryOk(z, root, up1, c, j)
  {
  }

  // ---- Names removed ----

  const UNUSED := Entry(0, "")

  lemma DropRefs(es: seq<Entry>, k: nat, j: nat)
    requires k < |es|
    ensures Refs(es[k := UNUSED], j, |es|) + Ref(es[k], j) == Refs(es, j, |es|)
  {
    RefsSet(es, k, UNUSED, j, |es|);
  }

  lemma DropNames(es: seq<Entry>, k: nat)
    requires NamesOk(es) && k < |es|
    ensures NamesOk(es[k := UNUSED])
  {
  }

  /** z is ns without entry k of d, which named i; i may have stopped being a live directory. */
  ghost predicate Pruned(ns: seq<Inode>, z: seq<Inode>, d: nat, k: nat, i: nat) {
    |z| == |ns| && d < |ns| && LiveDir(ns[d]) && LiveDir(z[d]) && 2 <= k < |ns[d].ents| && ns[d].ents[k].inum == i &&
    z[d].ents == ns[d].ents[k := UNUSED] &&
    (forall e :: 0 <= e < |ns| && e != d ==> z[e].ents == ns[e].ents) &&
    (forall e :: 0 <= e < |ns| ==> z[e].kind == ns[e].kind) &&
    (forall e :: 0 <= e < |ns| && e != i ==> (LiveDir(z[e]) <==> LiveDir(ns[e])))
  }

  /** The directories stay in order when i is no directory, or an empty one now dead. */
  lemma PrunedDir(ns: seq<Inode>, root: nat, up: map<nat, Place>, d: nat, k: nat, i: nat, z: seq<Inode>, c: nat)
    requires Inv(ns, root, up) && Pruned(ns, z, d, k, i) && 0 < i < |ns| && c < |ns|
    requires ns[i].kind == Dir ==> LiveDir(ns[i]) && Bare(ns[i]) && !LiveDir(z[i])
    ensures DirOk(z, root, up, c)
  {
    if LiveDir(z[c]) {
      assert c != i;
      assert DirOk(ns, root, up, c);
      if c == d { DropNames(ns[d].ents, k); }
      PrunedPlace(ns, root, up, d, k, i, z, c);
      forall j | 2 <= j < |z[c].ents|
        ensures EntryOk(z, root, up, c, j)
      {
        assert EntryOk(ns, root, up, c, j);
      }
    }
  }

  lemma PrunedPlace(ns: seq<Inode>, root: nat, up: map<nat, Place>, d: nat, k: nat, i: nat, z: seq<Inode>, c: nat)
    requires Pruned(ns, z, d, k, i) && 0 < i < |ns| && 0 < c < |ns| && c != i && PlaceOk(ns, root, up, c)
    requires ns[i].kind == Dir ==> Bare(ns[i])
    ensures PlaceOk(z, root, up, c)
  {
  }

  /** Entry k of d, naming inode i that is no directory, goes, and with it one link. */
  lemma DropNameInv(ns: seq<Inode>, root: nat, up: map<nat, Place>, i: nat, d: nat, k: nat, z: seq<Inode>)
    requires Inv(ns, root, up) && d < |ns| && LiveDir(ns[d]) && 2 <= k < |ns[d].ents| && ns[d].ents[k].inum == i != 0
    requires i < |ns| && ns[i].kind != Dir && ns[i].nlink >= 1
    requires z == ns[d := WithEnts(ns[d], ns[d].ents[k := UNUSED])][i := Inode(ns[i].kind, ns[i].nlink - 1, ns[i].ents)]
    ensures Inv(z, root, up)
  {
    forall j | 0 <= j < |z|
      ensures CountOk(z, j)
    {
      DropNameCount(ns, root, up, i, d, k, z, j);
    }
    assert Pruned(ns, z, d, k, i);
    forall c | 0 <= c < |z|
      ensures DirOk(z, root, up, c)
    {
      PrunedDir(ns, root, up, d, k, i, z, c);
    }
    DeadSame(ns, z, i, d);
  }

  lemma DropNameCount(ns: seq<Inode>, root: nat, up: map<nat, Place>, i: nat, d: nat, k: nat, z: seq<Inode>, j: nat)
    requires Inv(ns, root, up) && d < |ns| && LiveDir(ns[d]) && 2 <= k < |ns[d].ents| && ns[d].ents[k].inum == i != 0
    requires i < |ns| && ns[i].kind != Dir && ns[i].nlink >= 1 && j < |ns|
    requires z == ns[d := WithEnts(ns[d], ns[d].ents[k := UNUSED])][i := Inode(ns[i].kind, ns[i].nlink - 1, ns[i].ents)]
    ensures CountOk(z, j)
  {
    assert CountOk(ns, j) && DirOk(ns, root, up, d);
    var y := ns[d := WithEnts(ns[d], ns[d].ents[k := UNUSED])];
    TotalSet(ns, d, y[d], j, |ns|);
    TotalSet(y, i, z[i], j, |ns|);
    DropRefs(ns[d].ents, k, j);
  }

  lemma {:induction false} TotalAtLeastTwo(ns: seq<Inode>, a: nat, b: nat, i: nat, n: nat)
    requires a < n <= |ns| && b < n && a != b
    ensures Total(ns, i, n) >= Given(ns[a], i) + Given(ns[b], i)
  {
    if a == n - 1 {
      TotalAtLeast(ns, b, i, n - 1);
    } else if b == n - 1 {
      TotalAtLeast(ns, a, i, n - 1);
    } else {
      TotalAtLeastTwo(ns, a, b, i, n - 1);
    }
  }

  /** A directory that holds another one has a link from it and one from above. */
  lemma HolderHasTwo(ns: seq<Inode>, root: nat, up: map<nat, Place>, d: nat, k: nat, i: nat)
    requires Inv(ns, root, up) && d < |ns| && LiveDir(ns[d]) && 2 <= k < |ns[d].ents| && ns[d].ents[k].inum == i
    requires 0 < i < |ns| && LiveDir(ns[i]) && Bare(ns[i])
    ensures ns[d].nlink >= 2 && i != root && i != d && i in up && up[i] == (d, k) && ns[i].nlink == 1
  {
    assert DirOk(ns, root, up, d) && DirOk(ns, root, up, i);
    assert EntryOk(ns, root, up, d, k);
    EmptyHasOneLink(ns, root, up, i);
    RefsAtLeast(ns[i].ents, 1, d, |ns[i].ents|);
    var a := if d == root then d else up[d].0;
    var t := if d == root then 1 else up[d].1;
    assert DirOk(ns, root, up, a);
    if d != root { assert !Dots(ns[a].ents[t].name); }
    RefsAtLeast(ns[a].ents, t, d, |ns[a].ents|);
    TotalAtLeastTwo(ns, i, a, d, |ns|);
    assert CountOk(ns, d);
  }

  /** Entry k of d, naming the empty directory i, goes; i loses its one link, and d the one
      that i's ".." gave it. */
  lemma DropDirInv(ns: seq<Inode>, root: nat, up: map<nat, Place>, i: nat, d: nat, k: nat, z: seq<Inode>)
    requires Inv(ns, root, up) && d < |ns| && LiveDir(ns[d]) && 2 <= k < |ns[d].ents| && ns[d].ents[k].inum == i
    requires 0 < i < |ns| && LiveDir(ns[i]) && Bare(ns[i]) && ns[i].nlink >= 1 && ns[d].nlink >= 1
    requires z == ns[d := Inode(Dir, ns[d].nlink - 1, ns[d].ents[k := UNUSED])][i := Inode(Dir, ns[i].nlink - 1,
             ns[i].ents)]
    ensures Inv(z, root, up)
  {
    HolderHasTwo(ns, root, up, d, k, i);
    assert DirOk(ns, root, up, i);
    forall j | 0 <= j < |z|
      ensures CountOk(z, j)
    {
      DropDirCount(ns, root, up, i, d, k, z, j);
    }
    assert Pruned(ns, z, d, k, i);
    forall c | 0 <= c < |z|
      ensures DirOk(z, root, up, c)
    {
      PrunedDir(ns, root, up, d, k, i, z, c);
    }
    DeadSame(ns, z, i, d);
  }

  lemma DropDirCount(ns: seq<Inode>, root: nat, up: map<nat, Place>, i: nat, d: nat, k: nat, z: seq<Inode>, j: nat)
    requires Inv(ns, root, up) && d < |ns| && LiveDir(ns[d]) && 2 <= k < |ns[d].ents| && ns[d].ents[k].inum == i &&
             j < |ns|
    requires 0 < i < |ns| && LiveDir(ns[i]) && Bare(ns[i]) && ns[i].nlink == 1 && ns[d].nlink >= 2 && i != d &&
             i in up && up[i] == (d, k) && i != root
    requires z == ns[d := Inode(Dir, ns[d].nlink - 1, ns[d].ents[k := UNUSED])][i := Inode(Dir, ns[i].nlink - 1,
             ns[i].ents)]
    ensures CountOk(z, j)
  {
    assert CountOk(ns, j) && DirOk(ns, root, up, d) && DirOk(ns, root, up, i);
    var y := ns[d := Inode(Dir, ns[d].nlink - 1, ns[d].ents[k := UNUSED])];
    TotalSet(ns, d, y[d], j, |ns|);
    TotalSet(y, i, z[i], j, |ns|);
    DropRefs(ns[d].ents, k, j);
    BareRefs(ns[i], i, d, j);
  }

  /** An empty directory's only reference is its "..". */
  lemma BareRefs(n: Inode, i: nat, d: nat, j: nat)
    requires |n.ents| >= 2 && n.ents[0] == Entry(i, ".") && n.ents[1] == Entry(d, "..") && Bare(n)
    ensures Refs(n.ents, j, |n.ents|) == if j == d != 0 then 1 else 0
  {
    forall l | 0 <= l < |n.ents| && l != 1
      ensures Ref(n.ents[l], j) == 0
    {
    }
    RefsOne(n.ents, 1, j, |n.ents|);
  }

  // ---- Inodes freed ----

  /** iput of the last reference to an inode without links. */
  lemma ReclaimInv(ns: seq<Inode>, root: nat, up: map<nat, Place>, i: nat, z: seq<Inode>)
    requires Inv(ns, root, up) && i < |ns| && ns[i].nlink == 0 && z == ns[i := Inode(Free, 0, [])]
    ensures Inv(z, root, up)
  {
    forall j | 0 <= j < |z|
      ensures CountOk(z, j)
    {
      assert CountOk(ns, j);
      TotalSet(ns, i, z[i], j, |ns|);
    }
    forall c | 0 <= c < |z|
      ensures DirOk(z, root, up, c)
    {
      assert DirOk(ns, root, up, c);
      if LiveDir(z[c]) {
        forall j | 2 <= j < |z[c].ents|
          ensures EntryOk(z, root, up, c, j)
        {
          assert EntryOk(ns, root, up, c, j);
        }
      }
    }
    DeadSame(ns, z, i, i);
  }

  // ---- The operations ----

  datatype UnlinkResult = Unlinked(i: nat) | UnlinkFails | NlinkPanic      // "unlink: nlink < 1"
  datatype CreateResult = Created(i: nat) | Existing(i: nat) | CreateFails | NoInodes | DotsPanic | LinkPanic

  ghost predicate HasName(es: seq<Entry>, name: string) {
    exists k :: 0 <= k < |es| && Used(es[k]) && es[k].name == name
  }

  ghost predicate FirstUnused(es: seq<Entry>, k: nat) {
    Slot(es, k) && forall j :: 0 <= j < k ==> Used(es[j])
  }

  /** Entry k is the first with that name. */
  ghost predicate FirstNamed(es: seq<Entry>, k: nat, name: string) {
    k < |es| && Used(es[k]) && es[k].name == name && forall j :: 0 <= j < k && Used(es[j]) ==> es[j].name != name
  }

  /** fs is es with one new name for i, in the first unused entry. */
  ghost predicate Added(es: seq<Entry>, fs: seq<Entry>, i: nat, name: string) {
    exists k :: FirstUnused(es, k) && fs == PutEntry(es, k, Entry(i, name))
  }

  /** fs is es without its name for i. */
  ghost predicate Removed(es: seq<Entry>, fs: seq<Entry>, i: nat, name: string) {
    exists k :: 2 <= k < |es| && es[k] == Entry(i, name) && fs == es[k := UNUSED]
  }

  /** name is that of a directory with entries of its own. */
  ghost predicate NamesFullDir(ns: seq<Inode>, es: seq<Entry>, name: string) {
    exists k: nat :: FirstNamed(es, k, name) && es[k].inum < |ns| && ns[es[k].inum].kind == Dir && !Bare(ns[es[k].inum])
  }

  /** name is that of a file. */
  ghost predicate NamesFile(ns: seq<Inode>, es: seq<Entry>, name: string) {
    exists k: nat :: FirstNamed(es, k, name) && es[k].inum < |ns| && ns[es[k].inum].kind == File
  }

  lemma OneFirst(es: seq<Entry>, k: nat, name: string)
    requires FirstNamed(es, k, name)
    ensures forall l: nat :: FirstNamed(es, l, name) ==> l == k
  {
  }

  lemma SlotsAfterDots(ns: seq<Inode>, root: nat, up: map<nat, Place>, d: nat)
    requires Inv(ns, root, up) && d < |ns| && ns[d].kind == Dir
    ensures |ns[d].ents| >= 2 && Used(ns[d].ents[0]) && Used(ns[d].ents[1])
    ensures ns[d].ents[0].name == "." && ns[d].ents[1].name == ".." && DeadOk(ns[d], d, |ns|)
  {
    assert DirOk(ns, root, up, d) && DeadOk(ns[d], d, |ns|);
  }

  class Tree {
    var inodes: seq<Inode>
    const root: nat
    ghost var up: map<nat, Place>

    ghost predicate Valid()
      reads this
    {
      Inv(inodes, root, up)
    }

    /** A file system with nothing in it but the root directory. */
    constructor (n: nat)
      requires 1 < n
      ensures Valid() && root == 1 && |inodes| == n
      ensures inodes[1] == Inode(Dir, 1, [Entry(1, "."), Entry(1, "..")])
      ensures forall i :: 0 <= i < n && i != 1 ==> inodes[i] == Inode(Free, 0, [])
    {
      var r := Inode(Dir, 1, [Entry(1, "."), Entry(1, "..")]);
      var ns := seq(n, i => if i == 1 then r else Inode(Free, 0, []));
      inodes, root, up := ns, 1, map[];
      forall i | 0 <= i < n
        ensures CountOk(ns, i) && DirOk(ns, 1, map[], i)
      {
        TotalOne(ns, 1, i, n);
        DotRefs(1, 1, i);
      }
    }

    /** dirlookup: the first entry with that name. */
    method DirLookup(dp: nat, name: string) returns (found: bool, k: nat)
      requires dp < |inodes| && inodes[dp].kind == Dir
      ensures found ==> FirstNamed(inodes[dp].ents, k, name)
      ensures found <==> HasName(inodes[dp].ents, name)
    {
      k := 0;
      while k < |inodes[dp].ents|
        invariant 0 <= k <= |inodes[dp].ents|
        invariant forall j :: 0 <= j < k && Used(inodes[dp].ents[j]) ==> inodes[dp].ents[j].name != name
      {
        if inodes[dp].ents[k].inum != 0 && inodes[dp].ents[k].name == name { return true, k; }
        k := k + 1;
      }
      return false, k;
    }

    /** dirlink: false when the name is taken; otherwise the first unused entry is filled. */
    method DirLink(dp: nat, name: string, i: nat) returns (ok: bool, ghost k: nat)
      requires dp < |inodes| && inodes[dp].kind == Dir
      modifies this`inodes
      ensures ok <==> !HasName(old(inodes)[dp].ents, name)
      ensures !ok ==> inodes == old(inodes)
      ensures ok ==>
                k <= |old(inodes)[dp].ents| && (k < |old(inodes)[dp].ents| ==> !Used(old(inodes)[dp].ents[k])) &&
                (forall j :: 0 <= j < k ==> Used(old(inodes)[dp].ents[j])) &&
                inodes == old(inodes)[dp := WithEnts(old(inodes)[dp],
                  PutEntry(old(inodes)[dp].ents, k, Entry(i, name)))]
    {
      var found, at := DirLookup(dp, name);
      if found { return false, 0; }
      var es := inodes[dp].ents;
      var off := 0;
      while off < |es|
        invariant 0 <= off <= |es| && forall j :: 0 <= j < off ==> Used(es[j])
      {
        if es[off].inum == 0 { break; }
        off := off + 1;
      }
      inodes := inodes[dp := WithEnts(inodes[dp], PutEntry(es, off, Entry(i, name)))];
      return true, off;
    }

    /** isdirempty. */
    method IsDirEmpty(dp: nat) returns (empty: bool)
      requires dp < |inodes|
      ensures empty <==> Bare(inodes[dp])
    {
      var off := 2;
      while off < |inodes[dp].ents|
        invariant 2 <= off && forall k :: 2 <= k < off && k < |inodes[dp].ents| ==> !Used(inodes[dp].ents[k])
        decreases |inodes[dp].ents| - off
      {
        if inodes[dp].ents[off].inum != 0 { return false; }
        off := off + 1;
      }
      return true;
    }

    method SetNlink(i: nat, n: nat)
      requires i < |inodes|
      modifies this`inodes
      ensures inodes == old(inodes)[i := Inode(old(inodes)[i].kind, n, old(inodes)[i].ents)]
    {
      inodes := inodes[i := Inode(inodes[i].kind, n, inodes[i].ents)];
    }

    /** sys_link of inode ip as name in directory dp; parent tells whether the path to dp
        was found. Failure undoes the count. A link made in a directory already unlinked
        breaks the counts, and nothing else does. */
    method Link(ip: nat, parent: bool, dp: nat, name: string) returns (ok: bool)
      requires Valid() && 0 < ip < |inodes| && inodes[ip].kind != Free
      requires parent ==> dp < |inodes| && inodes[dp].kind == Dir
      modifies this
      ensures ok <==> old(inodes)[ip].kind != Dir && parent && !HasName(old(inodes)[dp].ents, name)
      ensures |inodes| == |old(inodes)| && (!ok || LiveDir(old(inodes)[dp]) ==> Valid())
      ensures Counted(inodes) <==> !ok || LiveDir(old(inodes)[dp])
      ensures !ok ==> inodes == old(inodes)
      ensures ok ==>
                Added(old(inodes)[dp].ents, inodes[dp].ents, ip, name) &&
                inodes[ip] == Inode(old(inodes)[ip].kind, old(inodes)[ip].nlink + 1, old(inodes)[ip].ents) &&
                inodes[dp].kind == Dir && inodes[dp].nlink == old(inodes)[dp].nlink
      ensures ok ==> forall j :: 0 <= j < |inodes| && j != ip && j != dp ==> inodes[j] == old(inodes)[j]
    {
      if inodes[ip].kind == Dir { return false; }
      ghost var ns := inodes;
      var n := inodes[ip].nlink;
      SetNlink(ip, n + 1);
      if !parent {
        SetNlink(ip, n);
        assert inodes == ns;
        return false;
      }
      ghost var k;
      ok, k := DirLink(dp, name, ip);
      if !ok {
        SetNlink(ip, n);
        assert inodes == ns;
        return false;
      }
      SlotsAfterDots(ns, root, up, dp);
      ghost var x := Inode(ns[ip].kind, n + 1, ns[ip].ents);
      if LiveDir(ns[dp]) {
        AddNameInv(ns, root, up, ip, x, dp, k, name, inodes);
      } else {
        DeadNameBreaks(ns, ip, x, dp, k, name, inodes);
      }
      assert FirstUnused(ns[dp].ents, k) && inodes[dp].ents == PutEntry(ns[dp].ents, k, Entry(ip, name));
    }

    /** sys_unlink of name in directory dp: the panic is out of reach, and nothing but an
        empty directory or a file goes. */
    method Unlink(dp: nat, name: string) returns (r: UnlinkResult)
      requires Valid() && dp < |inodes| && inodes[dp].kind == Dir
      modifies this
      ensures Valid() && |inodes| == |old(inodes)| && !r.NlinkPanic?
      ensures !LiveDir(old(inodes)[dp]) ==> r.UnlinkFails?
      ensures r.UnlinkFails? ==> inodes == old(inodes)
      ensures r.Unlinked? ==>
                0 < r.i < |inodes| && Removed(old(inodes)[dp].ents, inodes[dp].ents, r.i, name) &&
                !HasName(inodes[dp].ents, name) && inodes[r.i].nlink == old(inodes)[r.i].nlink - 1 &&
                inodes[r.i].kind == old(inodes)[r.i].kind && inodes[r.i].ents == old(inodes)[r.i].ents &&
                inodes[dp].kind == Dir &&
                inodes[dp].nlink == old(inodes)[dp].nlink - (if old(inodes)[r.i].kind == Dir then 1 else 0) &&
                (old(inodes)[r.i].kind == Dir ==> Bare(old(inodes)[r.i]) && inodes[r.i].nlink == 0) &&
                forall j :: 0 <= j < |inodes| && j != r.i && j != dp ==> inodes[j] == old(inodes)[j]
      ensures r.UnlinkFails? <==>
              Dots(name) || !HasName(old(inodes)[dp].ents, name) ||
              NamesFullDir(old(inodes), old(inodes)[dp].ents, name)
    {
      if name == "." || name == ".." { return UnlinkFails; }
      ghost var ns := inodes;
      var found, k := DirLookup(dp, name);
      if !found { return UnlinkFails; }
      OneFirst(ns[dp].ents, k, name);
      SlotsAfterDots(ns, root, up, dp);
      assert LiveDir(ns[dp]);
      var ip := inodes[dp].ents[k].inum;
      NamedIsLinked(ns, root, up, dp, k);
      if inodes[ip].nlink < 1 { return NlinkPanic; }
      if inodes[ip].kind == Dir {
        var empty := IsDirEmpty(ip);
        if !empty { return UnlinkFails; }
      }
      DropEntry(dp, k, name);
      return Unlinked(ip);
    }

    /** The writes of sys_unlink, for entry k of dp. */
    method DropEntry(dp: nat, k: nat, name: string)
      requires Valid() && dp < |inodes| && LiveDir(inodes[dp]) && 2 <= k < |inodes[dp].ents|
      requires 0 < inodes[dp].ents[k].inum < |inodes| && inodes[dp].ents[k].name == name
      requires inodes[inodes[dp].ents[k].inum].nlink >= 1
      requires inodes[inodes[dp].ents[k].inum].kind == Dir ==> Bare(inodes[inodes[dp].ents[k].inum])
      modifies this`inodes
      ensures Valid() && |inodes| == |old(inodes)|
      ensures var i := old(inodes)[dp].ents[k].inum;
              Removed(old(inodes)[dp].ents, inodes[dp].ents, i, name) && !HasName(inodes[dp].ents, name) &&
              inodes[i].nlink == old(inodes)[i].nlink - 1 && inodes[i].kind == old(inodes)[i].kind &&
              inodes[i].ents == old(inodes)[i].ents && inodes[dp].kind == Dir &&
              inodes[dp].nlink == old(inodes)[dp].nlink - (if old(inodes)[i].kind == Dir then 1 else 0) &&
              (old(inodes)[i].kind == Dir ==> inodes[i].nlink == 0) &&
              forall j :: 0 <= j < |inodes| && j != i && j != dp ==> inodes[j] == old(inodes)[j]
    {
      ghost var ns := inodes;
      var ip := inodes[dp].ents[k].inum;
      DropGone(ns, root, up, dp, k, name);
      inodes := inodes[dp := WithEnts(inodes[dp], inodes[dp].ents[k := UNUSED])];
      if inodes[ip].kind == Dir {
        HolderHasTwo(ns, root, up, dp, k, ip);
        SetNlink(dp, inodes[dp].nlink - 1);
        SetNlink(ip, inodes[ip].nlink - 1);
        DropDirInv(ns, root, up, ip, dp, k, inodes);
      } else {
        SetNlink(ip, inodes[ip].nlink - 1);
        DropNameInv(ns, root, up, ip, dp, k, inodes);
      }
      assert ns[dp].ents[k] == Entry(ip, name) && inodes[dp].ents == ns[dp].ents[k := UNUSED];
    }

    /** ialloc: the first free inode. */
    method Ialloc() returns (ok: bool, i: nat)
      ensures ok ==> 0 < i < |inodes| && inodes[i].kind == Free && forall j :: 1 <= j < i ==> inodes[j].kind != Free
      ensures !ok ==> forall j :: 1 <= j < |inodes| ==> inodes[j].kind != Free
    {
      i := 1;
      while i < |inodes|
        invariant 1 <= i && forall j :: 1 <= j < i && j < |inodes| ==> inodes[j].kind != Free
      {
        if inodes[i].kind == Free { return true, i; }
        i := i + 1;
      }
      return false, 0;
    }

    /** create of name in directory dp. What is created in a directory already unlinked
        breaks the counts, and nothing else does. */
    method Create(dp: nat, name: string, kind: Kind) returns (r: CreateResult)
      requires Valid() && dp < |inodes| && inodes[dp].kind == Dir && kind != Free
      modifies this
      ensures !r.Created? || LiveDir(old(inodes)[dp]) ==> Valid()
      ensures Counted(inodes) <==> !r.Created? || LiveDir(old(inodes)[dp])
      ensures |inodes| == |old(inodes)| && !r.DotsPanic? && !r.LinkPanic?
      ensures !r.Created? ==> inodes == old(inodes)
      ensures r.Existing? || r.CreateFails? <==> HasName(old(inodes)[dp].ents, name)
      ensures r.Existing? <==> kind == File && NamesFile(old(inodes), old(inodes)[dp].ents, name)
      ensures r.Existing? ==>
                r.i < |inodes| &&
                exists k: nat :: FirstNamed(inodes[dp].ents, k, name) && inodes[dp].ents[k].inum == r.i
      ensures r.Existing? && LiveDir(inodes[dp]) ==> inodes[r.i].nlink >= 1
      ensures r.Created? ==>
                0 < r.i < |inodes| && old(inodes)[r.i].kind == Free &&
                (forall j :: 1 <= j < r.i ==> old(inodes)[j].kind != Free) &&
                inodes[r.i] == Inode(kind, 1, if kind == Dir then [Entry(r.i, "."), Entry(dp, "..")] else []) &&
                Added(old(inodes)[dp].ents, inodes[dp].ents, r.i, name) && inodes[dp].kind == Dir &&
                inodes[dp].nlink == old(inodes)[dp].nlink + (if kind == Dir then 1 else 0) &&
                forall j :: 0 <= j < |inodes| && j != r.i && j != dp ==> inodes[j] == old(inodes)[j]
      ensures r.NoInodes? <==>
              !HasName(old(inodes)[dp].ents, name) && forall j :: 1 <= j < |old(inodes)| ==> old(inodes)[j].kind != Free
    {
      ghost var ns := inodes;
      var found, k := DirLookup(dp, name);
      if found {
        r := CheckExisting(dp, k, name, kind);
        return;
      }
      var ok, i := Ialloc();
      if !ok { return NoInodes; }
      r := CreateNew(dp, name, kind, i);
    }

    /** create from ialloc on, with inode i. */
    method CreateNew(dp: nat, name: string, kind: Kind, i: nat) returns (r: CreateResult)
      requires Valid() && dp < |inodes| && inodes[dp].kind == Dir && kind != Free
      requires 0 < i < |inodes| && inodes[i].kind == Free && !HasName(inodes[dp].ents, name)
      modifies this
      ensures LiveDir(old(inodes)[dp]) ==> Valid()
      ensures Counted(inodes) <==> LiveDir(old(inodes)[dp])
      ensures |inodes| == |old(inodes)| && r == Created(i)
      ensures inodes[i] == Inode(kind, 1, if kind == Dir then [Entry(i, "."), Entry(dp, "..")] else [])
      ensures Added(old(inodes)[dp].ents, inodes[dp].ents, i, name) && inodes[dp].kind == Dir
      ensures inodes[dp].nlink == old(inodes)[dp].nlink + (if kind == Dir then 1 else 0)
      ensures forall j :: 0 <= j < |inodes| && j != i && j != dp ==> inodes[j] == old(inodes)[j]
    {
      ghost var ns := inodes;
      var ok;
      assert CountOk(ns, i);
      inodes := inodes[i := Inode(kind, 1, [])];
      ghost var at;
      if kind == Dir {
        SetNlink(dp, inodes[dp].nlink + 1);
        ok := MakeDots(i, dp);
        if !ok { return DotsPanic; }
      }
      SlotsAfterDots(ns, root, up, dp);
      ok, at := DirLink(dp, name, i);
      if !ok { return LinkPanic; }
      assert FirstUnused(ns[dp].ents, at) && inodes[dp].ents == PutEntry(ns[dp].ents, at, Entry(i, name));
      if kind == Dir {
        ghost var up1 := up[i := (dp, at)];
        assert inodes == ns[i := Inode(Dir, 1, [Entry(i, "."), Entry(dp, "..")])]
                           [dp := Inode(Dir, ns[dp].nlink + 1, PutEntry(ns[dp].ents, at, Entry(i, name)))];
        if LiveDir(ns[dp]) {
          AddDirInv(ns, root, up, i, dp, at, name, inodes, up1);
          up := up1;
        } else {
          DeadDirBreaks(ns, i, dp, at, name, inodes);
        }
      } else if LiveDir(ns[dp]) {
        AddNameInv(ns, root, up, i, Inode(kind, 1, []), dp, at, name, inodes);
      } else {
        DeadNameBreaks(ns, i, Inode(kind, 1, []), dp, at, name, inodes);
      }
      return Created(i);
    }

    /** create's "." and ".." for a new directory; false is the panic "create dots". */
    method MakeDots(i: nat, dp: nat) returns (ok: bool)
      requires 0 < i < |inodes| && inodes[i].kind == Dir && inodes[i].ents == []
      modifies this`inodes
      ensures ok && inodes == old(inodes)[i := WithEnts(old(inodes)[i], [Entry(i, "."), Entry(dp, "..")])]
    {
      ghost var k;
      ok, k := DirLink(i, ".", i);
      assert inodes[i].ents == [Entry(i, ".")];
      ok, k := DirLink(i, "..", dp);
      assert inodes[i].ents == [Entry(i, "."), Entry(dp, "..")];
    }

    /** create when the name is there already. */
    method CheckExisting(dp: nat, k: nat, name: string, kind: Kind) returns (r: CreateResult)
      requires Valid() && dp < |inodes| && inodes[dp].kind == Dir && FirstNamed(inodes[dp].ents, k, name)
      ensures r.Existing? || r.CreateFails?
      ensures r.Existing? <==> kind == File && NamesFile(inodes, inodes[dp].ents, name)
      ensures r.Existing? ==> r.i < |inodes| && r.i == inodes[dp].ents[k].inum
      ensures r.Existing? && LiveDir(inodes[dp]) ==> inodes[r.i].nlink >= 1
    {
      DotsNameDirs(inodes, root, up, dp, k);
      OneFirst(inodes[dp].ents, k, name);
      var i := inodes[dp].ents[k].inum;
      if kind == File && inodes[i].kind == File { return Existing(i); }
      return CreateFails;
    }

    /** iput when the last reference to an inode without links goes. */
    method Reclaim(i: nat)
      requires Valid() && i < |inodes| && inodes[i].nlink == 0
      modifies this`inodes
      ensures Valid() && inodes == old(inodes)[i := Inode(Free, 0, [])]
    {
      ghost var ns := inodes;
      inodes := inodes[i := Inode(Free, 0, [])];
      ReclaimInv(ns, root, up, i, inodes);
    }
  }

  /** mkdir and rmdir, with the directory still held by a process: inode i is unlinked. */
  method MakeDeadDir() returns (t: Tree, i: nat)
    ensures fresh(t) && t.Valid() && 0 < i < |t.inodes| && t.inodes[i].kind == Dir && t.inodes[i].nlink == 0
    ensures exists j :: 1 <= j < |t.inodes| && t.inodes[j].kind == Free
  {
    t := new Tree(4);
    assert t.inodes[2].kind == Free;
    var r := t.Create(1, "d", Dir);
    assert !HasName([Entry(1, "."), Entry(1, "..")], "d");
    i := r.i;
    ghost var ns := t.inodes;
    assert ns[1].ents == [Entry(1, "."), Entry(1, ".."), Entry(i, "d")];
    assert FirstNamed(ns[1].ents, 2, "d") && Bare(ns[i]);
    OneFirst(ns[1].ents, 2, "d");
    var u := t.Unlink(1, "d");
    assert t.inodes[if i == 2 then 3 else 2].kind == Free;
  }

  /** And then a new name in the directory that is gone: for every kind of inode the run
      ends with a link count that is wrong. */
  method CreateInDeadDir(kind: Kind) returns (t: Tree)
    requires kind != Free
    ensures !Counted(t.inodes)
  {
    var i;
    t, i := MakeDeadDir();
    SlotsAfterDots(t.inodes, t.root, t.up, i);
    var r := t.Create(i, "f", kind);
  }

  /** Every used entry of a directory names an inode, and in a live one that inode, if it is
      no directory, has a link. */
  lemma DotsNameDirs(ns: seq<Inode>, root: nat, up: map<nat, Place>, d: nat, k: nat)
    requires Inv(ns, root, up) && d < |ns| && ns[d].kind == Dir && k < |ns[d].ents| && Used(ns[d].ents[k])
    ensures ns[d].ents[k].inum < |ns|
    ensures LiveDir(ns[d]) && ns[ns[d].ents[k].inum].kind != Dir ==> ns[ns[d].ents[k].inum].nlink >= 1
  {
    assert DirOk(ns, root, up, d) && DeadOk(ns[d], d, |ns|);
    if LiveDir(ns[d]) && k >= 2 { NamedIsLinked(ns, root, up, d, k); }
  }

  /** Names are unique, so a removed name is gone. */
  lemma DropGone(ns: seq<Inode>, root: nat, up: map<nat, Place>, d: nat, k: nat, name: string)
    requires Inv(ns, root, up) && d < |ns| && LiveDir(ns[d]) && k < |ns[d].ents| && Used(ns[d].ents[k]) &&
             ns[d].ents[k].name == name
    ensures !HasName(ns[d].ents[k := UNUSED], name)
  {
    assert DirOk(ns, root, up, d);
  }
}

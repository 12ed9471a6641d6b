/** The block-level effects of log.c's routines on the storage below them, as functions
    on Store values, and their agreement with the images of LogSpec (log.c). */
module Storage {
  import opened Blocks
  import opened Lists
  import opened LogSpec
  import Bcache
  import opened CacheStore

  /** Copy block src, as the cache shows it, over block dst. */
  ghost function Copied(st: Store, src: nat, dst: nat): (z: Store)
    requires src < |st.view| && dst < |st.disk| == |st.view|
    ensures |z.disk| == |st.disk| == |z.view|
  {
    Written(st, dst, st.view[src])
  }

  /** write_head. */
  ghost function HeadWritten(lay: Layout, bl: seq<nat>, st: Store): (z: Store)
    requires Fits(lay, st.disk) && |st.view| == |st.disk|
    requires |bl| <= LOGSIZE && forall i :: 0 <= i < |bl| ==> bl[i] < 0x8000_0000
    ensures |z.disk| == |st.disk| == |z.view|
  {
    Written(st, lay.start, PutBlocks(st.view[lay.start], bl, |bl|))
  }

  /** The first k copies of write_log. */
  ghost function LogCopied(lay: Layout, bl: seq<nat>, st: Store, k: nat): (z: Store)
    requires Loggable(lay, st.disk, bl) && |st.view| == |st.disk| && k <= |bl|
    ensures |z.disk| == |st.disk| == |z.view|
  {
    if k == 0 then st else Copied(LogCopied(lay, bl, st, k - 1), bl[k - 1], lay.start + k)
  }

  /** The first k copies of install_trans. */
  ghost function Installs(lay: Layout, bl: seq<nat>, st: Store, k: nat): (z: Store)
    requires Loggable(lay, st.disk, bl) && |st.view| == |st.disk| && k <= |bl|
    ensures |z.disk| == |st.disk| == |z.view|
  {
    if k == 0 then st else Copied(Installs(lay, bl, st, k - 1), lay.start + k, bl[k - 1])
  }

  /** The pinned blocks are the logged ones. */
  ghost predicate PinsAre(pinned: set<nat>, bl: seq<nat>) {
    |pinned| == |bl| && forall i :: 0 <= i < |bl| ==> bl[i] in pinned
  }

  ghost predicate HomePins(lay: Layout, pinned: set<nat>) {
    forall bn :: bn in pinned ==> !InLog(lay, bn)
  }

  lemma PinsOnly(pinned: set<nat>, bl: seq<nat>, bn: nat)
    requires PinsAre(pinned, bl) && Distinct(bl) && bn in pinned
    ensures bn in bl
  {
    if bn !in bl { Pigeon(bl, pinned - {bn}); }
  }

  lemma PinsHome(lay: Layout, d: Image, pinned: set<nat>, bl: seq<nat>)
    requires Loggable(lay, d, bl) && PinsAre(pinned, bl)
    ensures HomePins(lay, pinned)
  {
    forall bn | bn in pinned
      ensures !InLog(lay, bn)
    {
      PinsOnly(pinned, bl, bn);
    }
  }

  /** The contents of the logged blocks in an image. */
  ghost function Logged(bl: seq<nat>, v: Image): (data: seq<Block>)
    requires forall i :: 0 <= i < |bl| ==> bl[i] < |v|
    ensures |data| == |bl| && forall i :: 0 <= i < |bl| ==> data[i] == v[bl[i]]
  {
    seq(|bl|, i requires 0 <= i < |bl| => v[bl[i]])
  }

  /** One copy of write_log is one step of the commit images. */
  lemma LogCopyStep(lay: Layout, d: Image, bl: seq<nat>, data: seq<Block>, k: nat, t0: seq<Image>, e: Image, f: Image)
    requires Loggable(lay, d, bl) && |bl| == |data| && k < |bl| && e == CommitImage(lay, d, bl, data, k)
    requires f == e[lay.start + k + 1 := data[k]]
    ensures f == CommitImage(lay, d, bl, data, k + 1)
    ensures t0 + CommitTrace(lay, d, bl, data, k) + [f] == t0 + CommitTrace(lay, d, bl, data, k + 1)
  {
  }

  /** One copy of install_trans. */
  lemma InstallStep(lay: Layout, d: Image, bl: seq<nat>, k: nat, t0: seq<Image>, e: Image, f: Image)
    requires Loggable(lay, d, bl) && k < |bl| && e == InstallSteps(lay, d, bl, k)
    requires f == e[bl[k] := e[lay.start + k + 1]]
    ensures f == InstallSteps(lay, d, bl, k + 1)
    ensures t0 + InstallTrace(lay, d, bl, k) + [f] == t0 + InstallTrace(lay, d, bl, k + 1)
  {
  }

  /** Where the storage stands after k copies of write_log. */
  ghost predicate AfterCopies(lay: Layout, bl: seq<nat>, st: Store, data: seq<Block>, k: nat, z: Store)
    requires Loggable(lay, st.disk, bl) && |data| == |bl| && k <= |bl|
  {
    Sane(z) && |z.disk| == |st.disk| && z.pinned == st.pinned &&
    z.disk == CommitImage(lay, st.disk, bl, data, k) &&
    z.trace == st.trace + CommitTrace(lay, st.disk, bl, data, k) &&
    forall i :: 0 <= i < |bl| ==> z.view[bl[i]] == data[i]
  }

  lemma AfterCopy(lay: Layout, bl: seq<nat>, st: Store, data: seq<Block>, k: nat, y: Store, z: Store)
    requires Loggable(lay, st.disk, bl) && |data| == |bl| && k < |bl| && AfterCopies(lay, bl, st, data, k, y)
    requires HomePins(lay, st.pinned)
    requires z == Copied(y, bl[k], lay.start + k + 1)
    ensures AfterCopies(lay, bl, st, data, k + 1, z)
  {
    SaneWritten(y, lay.start + k + 1, y.view[bl[k]]);
    LogCopyStep(lay, st.disk, bl, data, k, st.trace, y.disk, z.disk);
    assert InLog(lay, lay.start + k + 1);
    assert z.pinned == y.pinned;
  }

  /** write_log writes the commit images one by one and keeps the pins. */
  lemma {:induction false} LogCopiedImages(lay: Layout, bl: seq<nat>, st: Store, data: seq<Block>, k: nat)
    requires Sane(st) && Loggable(lay, st.disk, bl) && k <= |bl|
    requires HomePins(lay, st.pinned)
    requires data == Logged(bl, st.view)
    ensures AfterCopies(lay, bl, st, data, k, LogCopied(lay, bl, st, k))
  {
    if k > 0 {
      LogCopiedImages(lay, bl, st, data, k - 1);
      AfterCopy(lay, bl, st, data, k - 1, LogCopied(lay, bl, st, k - 1), LogCopied(lay, bl, st, k));
    }
  }

  /** Where the storage stands after k copies of install_trans. */
  ghost predicate AfterInstalls(lay: Layout, bl: seq<nat>, st: Store, k: nat, z: Store)
    requires Loggable(lay, st.disk, bl) && k <= |bl|
  {
    Sane(z) && |z.disk| == |st.disk| &&
    z.pinned <= st.pinned && (forall i :: 0 <= i < k ==> bl[i] !in z.pinned) &&
    z.disk == InstallSteps(lay, st.disk, bl, k) &&
    z.trace == st.trace + InstallTrace(lay, st.disk, bl, k)
  }

  lemma AfterInstall(lay: Layout, bl: seq<nat>, st: Store, k: nat, y: Store, z: Store)
    requires Loggable(lay, st.disk, bl) && k < |bl| && AfterInstalls(lay, bl, st, k, y)
    requires HomePins(lay, st.pinned)
    requires z == Copied(y, lay.start + k + 1, bl[k])
    ensures AfterInstalls(lay, bl, st, k + 1, z)
  {
    SaneWritten(y, bl[k], y.view[lay.start + k + 1]);
    assert InLog(lay, lay.start + k + 1);
    InstallStep(lay, st.disk, bl, k, st.trace, y.disk, z.disk);
  }

  /** install_trans's images, and the pins it releases. */
  lemma {:induction false} InstallsImages(lay: Layout, bl: seq<nat>, st: Store, k: nat)
    requires Sane(st) && Loggable(lay, st.disk, bl) && k <= |bl|
    requires HomePins(lay, st.pinned)
    ensures AfterInstalls(lay, bl, st, k, Installs(lay, bl, st, k))
  {
    if k > 0 {
      InstallsImages(lay, bl, st, k - 1);
      AfterInstall(lay, bl, st, k - 1, Installs(lay, bl, st, k - 1), Installs(lay, bl, st, k));
    }
  }

  // ---- commit and recover_from_log ----

  ghost function CommitStore(lay: Layout, bl: seq<nat>, st: Store): (z: Store)
    requires Loggable(lay, st.disk, bl) && |st.view| == |st.disk|
    ensures |z.disk| == |st.disk| == |z.view|
  {
    var a := LogCopied(lay, bl, st, |bl|);
    RecoverStore(lay, bl, HeadWritten(lay, bl, a))
  }

  /** Writing the header writes one more commit image. */
  lemma AfterHead(lay: Layout, bl: seq<nat>, st: Store, data: seq<Block>, a: Store, b: Store)
    requires Loggable(lay, st.disk, bl) && |data| == |bl| && AfterCopies(lay, bl, st, data, |bl|, a)
    requires lay.start !in st.pinned && b == HeadWritten(lay, bl, a)
    ensures Sane(b) && |b.disk| == |st.disk| && b.pinned == st.pinned
    ensures b.disk == CommitImage(lay, st.disk, bl, data, |bl| + 1)
    ensures b.trace == st.trace + CommitTrace(lay, st.disk, bl, data, |bl| + 1)
  {
    SaneWritten(a, lay.start, PutBlocks(a.view[lay.start], bl, |bl|));
    HeadStep(lay, st.disk, bl, data, a.disk, b.disk);
    TraceJoin(st.trace, CommitTrace(lay, st.disk, bl, data, |bl|), [b.disk],
      CommitTrace(lay, st.disk, bl, data, |bl| + 1), b.trace);
  }

  lemma HeadStep(lay: Layout, d: Image, bl: seq<nat>, data: seq<Block>, e: Image, f: Image)
    requires Loggable(lay, d, bl) && |data| == |bl| && e == CommitImage(lay, d, bl, data, |bl|)
    requires f == e[lay.start := PutBlocks(e[lay.start], bl, |bl|)]
    ensures f == CommitImage(lay, d, bl, data, |bl| + 1)
    ensures CommitTrace(lay, d, bl, data, |bl| + 1) == CommitTrace(lay, d, bl, data, |bl|) + [f]
  {
  }

  /** After the installs only the last header write is missing. */
  lemma InstalledTrace(lay: Layout, d: Image, bl: seq<nat>, data: seq<Block>, t0: seq<Image>, d1: Image, d2: Image,
        t: seq<Image>)
    requires Loggable(lay, d, bl) && |data| == |bl| && d1 == CommitImage(lay, d, bl, data, |bl| + 1)
    requires d2 == InstallSteps(lay, d1, bl, |bl|)
    requires t == t0 + CommitTrace(lay, d, bl, data, |bl| + 1) + InstallTrace(lay, d1, bl, |bl|)
    ensures d2 == CommitImage(lay, d, bl, data, 2 * |bl| + 1)
    ensures t == t0 + CommitTrace(lay, d, bl, data, 2 * |bl| + 1)
  {
    var n := |bl|;
    assert n + 1 + n == 2 * n + 1;
    CommitInstalls(lay, d, bl, data, n);
    InstalledJoin(lay, d, bl, data, n, d1, t0, t);
  }

  lemma InstalledJoin(lay: Layout, d: Image, bl: seq<nat>, data: seq<Block>, n: nat, d1: Image, t0: seq<Image>,
        t: seq<Image>)
    requires Loggable(lay, d, bl) && |data| == |bl| == n && d1 == CommitImage(lay, d, bl, data, n + 1)
    requires t == t0 + CommitTrace(lay, d, bl, data, n + 1) + InstallTrace(lay, d1, bl, n)
    ensures t == t0 + CommitTrace(lay, d, bl, data, n + 1 + n)
  {
    CommitTraceInstalls(lay, d, bl, data, d1, n);
    TraceJoin(t0, CommitTrace(lay, d, bl, data, n + 1), InstallTrace(lay, d1, bl, n),
      CommitTrace(lay, d, bl, data, n + 1 + n), t);
  }

  lemma TraceJoin(a: seq<Image>, b: seq<Image>, c: seq<Image>, bc: seq<Image>, t: seq<Image>)
    requires bc == b + c && t == a + b + c
    ensures t == a + bc
  {
  }

  lemma ClearedTrace(lay: Layout, d: Image, bl: seq<nat>, data: seq<Block>, t0: seq<Image>, t: seq<Image>, e: Image,
        f: Image)
    requires Loggable(lay, d, bl) && |data| == |bl| && e == CommitImage(lay, d, bl, data, 2 * |bl| + 1)
    requires f == e[lay.start := PutBlocks(e[lay.start], [], 0)] &&
             t == t0 + CommitTrace(lay, d, bl, data, 2 * |bl| + 1)
    ensures f == CommitImage(lay, d, bl, data, 2 * |bl| + 2)
    ensures t + [f] == t0 + CommitTrace(lay, d, bl, data, 2 * |bl| + 2)
  {
  }

  /** The installs unpin everything, so the cache shows the disk. */
  lemma InstalledUnpins(lay: Layout, bl: seq<nat>, b: Store, c: Store)
    requires Loggable(lay, b.disk, bl) && PinsAre(b.pinned, bl) && AfterInstalls(lay, bl, b, |bl|, c)
    ensures c.pinned == {} && c.view[lay.start] == c.disk[lay.start]
  {
    forall bn | bn in c.pinned
      ensures false
    {
      PinsOnly(b.pinned, bl, bn);
    }
  }

  /** The installs and the last header write finish the commit images and unpin all. */
  lemma AfterCommit(lay: Layout, bl: seq<nat>, st: Store, data: seq<Block>, b: Store, c: Store, z: Store)
    requires Loggable(lay, st.disk, bl) && |data| == |bl| && PinsAre(st.pinned, bl)
    requires |b.disk| == |st.disk| && b.pinned == st.pinned
    requires b.disk == CommitImage(lay, st.disk, bl, data, |bl| + 1)
    requires b.trace == st.trace + CommitTrace(lay, st.disk, bl, data, |bl| + 1)
    requires AfterInstalls(lay, bl, b, |bl|, c) && z == HeadWritten(lay, [], c)
    ensures Sane(z) && z.pinned == {}
    ensures z.disk == CommitImage(lay, st.disk, bl, data, CommitWrites(|bl|))
    ensures z.trace == st.trace + CommitTrace(lay, st.disk, bl, data, CommitWrites(|bl|))
  {
    InstalledUnpins(lay, bl, b, c);
    AfterClear(lay, bl, st, data, b, c.disk, c.trace, z.disk);
    SaneWritten(c, lay.start, PutBlocks(c.view[lay.start], [], 0));
  }

  lemma AfterClear(lay: Layout, bl: seq<nat>, st: Store, data: seq<Block>, b: Store, e: Image, t: seq<Image>, f: Image)
    requires Loggable(lay, st.disk, bl) && |data| == |bl| && |b.disk| == |st.disk|
    requires b.disk == CommitImage(lay, st.disk, bl, data, |bl| + 1)
    requires b.trace == st.trace + CommitTrace(lay, st.disk, bl, data, |bl| + 1)
    requires e == InstallSteps(lay, b.disk, bl, |bl|) && t == b.trace + InstallTrace(lay, b.disk, bl, |bl|)
    requires f == e[lay.start := PutBlocks(e[lay.start], [], 0)]
    ensures f == CommitImage(lay, st.disk, bl, data, CommitWrites(|bl|))
    ensures t + [f] == st.trace + CommitTrace(lay, st.disk, bl, data, CommitWrites(|bl|))
  {
    InstalledTrace(lay, st.disk, bl, data, st.trace, b.disk, e, t);
    ClearedTrace(lay, st.disk, bl, data, st.trace, t, e, f);
  }

  /** commit writes exactly the commit images, unpins everything and leaves the file
      system's view of the home blocks as it was. */
  lemma CommitStoreImages(lay: Layout, bl: seq<nat>, st: Store, data: seq<Block>)
    requires Sane(st) && Loggable(lay, st.disk, bl) && PinsAre(st.pinned, bl) && data == Logged(bl, st.view)
    ensures var z := CommitStore(lay, bl, st);
            Sane(z) && z.pinned == {} && SameHome(lay, st.view, z.view) &&
            z.disk == CommitImage(lay, st.disk, bl, data, CommitWrites(|bl|)) &&
            z.trace == st.trace + CommitTrace(lay, st.disk, bl, data, CommitWrites(|bl|))
  {
    PinsHome(lay, st.disk, st.pinned, bl);
    assert InLog(lay, lay.start);
    var a := LogCopied(lay, bl, st, |bl|);
    LogCopiedImages(lay, bl, st, data, |bl|);
    var b := HeadWritten(lay, bl, a);
    AfterHead(lay, bl, st, data, a, b);
    var c := Installs(lay, bl, b, |bl|);
    InstallsImages(lay, bl, b, |bl|);
    var z := HeadWritten(lay, [], c);
    AfterCommit(lay, bl, st, data, b, c, z);
    CommitKeepsView(lay, bl, st, data, z);
  }

  /** The view is the disk overlaid by the pinned blocks. */
  lemma ViewIsOverlay(lay: Layout, bl: seq<nat>, st: Store, data: seq<Block>)
    requires Sane(st) && Loggable(lay, st.disk, bl) && PinsAre(st.pinned, bl) && data == Logged(bl, st.view)
    ensures st.view == Overlay(st.disk, bl, data, |bl|)
  {
    var o := Overlay(st.disk, bl, data, |bl|);
    OverlayAt(st.disk, bl, data, |bl|);
    assert bl[..|bl|] == bl;
    forall bn: nat | bn < |o|
      ensures st.view[bn] == o[bn]
    {
      if bn in bl {
        var i :| 0 <= i < |bl| && bl[i] == bn;
        assert data[i] == st.view[bn];
      } else if bn in st.pinned {
        PinsOnly(st.pinned, bl, bn);
      }
    }
  }

  /** Every image that a commit writes is crash-atomic: recovery from one up to the last copy
      shows the disk from before, and from one on which the header is shows what the file
      system saw. */
  lemma CommitImagesAtomic(lay: Layout, bl: seq<nat>, st: Store, i: nat)
    requires Sane(st) && Loggable(lay, st.disk, bl) && PinsAre(st.pinned, bl)
    requires HeadOk(lay, st.disk) && HeadN(lay, st.disk) == 0 && i < CommitWrites(|bl|)
    ensures |CommitStore(lay, bl, st).trace| == |st.trace| + CommitWrites(|bl|)
    ensures var e := CommitStore(lay, bl, st).trace[|st.trace| + i];
            HeadOk(lay, e) && SameHome(lay, if i < |bl| then st.disk else st.view, Recovered(lay, e))
  {
    var data := Logged(bl, st.view);
    CommitStoreImages(lay, bl, st, data);
    CommitTraceAt(lay, st.disk, bl, data, CommitWrites(|bl|), i);
    CommitCrashAtomic(lay, st.disk, bl, data, i + 1, CommitImage(lay, st.disk, bl, data, i + 1));
    ViewIsOverlay(lay, bl, st, data);
  }

  lemma CommitKeepsView(lay: Layout, bl: seq<nat>, st: Store, data: seq<Block>, z: Store)
    requires Sane(st) && Loggable(lay, st.disk, bl) && PinsAre(st.pinned, bl) && data == Logged(bl, st.view)
    requires Sane(z) && z.pinned == {} && z.disk == CommitImage(lay, st.disk, bl, data, CommitWrites(|bl|))
    ensures SameHome(lay, st.view, z.view)
  {
    ViewIsOverlay(lay, bl, st, data);
    CommitEnds(lay, st.disk, bl, data, z.disk);
    assert z.view == z.disk;
  }

  ghost function RecoverStore(lay: Layout, bl: seq<nat>, st: Store): (z: Store)
    requires Loggable(lay, st.disk, bl) && |st.view| == |st.disk|
    ensures |z.disk| == |st.disk| == |z.view|
  {
    HeadWritten(lay, [], Installs(lay, bl, st, |bl|))
  }

  /** recover_from_log writes exactly the recovery images. */
  lemma RecoverStoreImages(lay: Layout, bl: seq<nat>, st: Store)
    requires Sane(st) && HeadOk(lay, st.disk) && st.pinned == {} && bl == HeadBlocks(lay, st.disk)
    ensures var z := RecoverStore(lay, bl, st);
            z.disk == Recovered(lay, st.disk) && z.view == z.disk && z.pinned == {} &&
            z.trace == st.trace + RecoveryImages(lay, st.disk)
  {
    var n := |bl|;
    var c := Installs(lay, bl, st, n);
    InstallsImages(lay, bl, st, n);
    RecoveryInstalls(lay, st.disk, bl, n);
    RecoveryTrace(lay, st.disk, bl, n);
    var z := HeadWritten(lay, [], c);
    SaneWritten(c, lay.start, PutBlocks(c.view[lay.start], [], 0));
    assert z.disk == Recovered(lay, st.disk);
    assert z.view == z.disk;
    assert RecoveryImages(lay, st.disk) == RecoveryImages(lay, st.disk)[..n] + [z.disk];
  }
}

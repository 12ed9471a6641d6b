/** The file system on top of the log: calls that keep it sound, the log_write calls they
    make, and what recovery leaves of it whatever moment a crash strikes at (fs.c, log.c). */
module FsCrash {
  import opened Blocks
  import opened LogSpec
  import Log = LogProtocol
  import LogBudget
  import opened FsLayout
  import opened FsSpec
  import opened FsFile
  import opened FsWrite
  import opened FsTrunc
  import opened FsInodes
  import opened Writes
  import opened FsLog
  import opened FsOps

  function InodeAt(sb: Superblock, d: Image, i: nat): Inode
    requires LaidOut(sb, d) && i < sb.ninodes
  {
    DecodeInode(d[IBlock(sb, i)], INODESIZE * (i % IPB))
  }

  /** The file system on disk d, with nothing in memory. */
  function Mounted(sb: Superblock, d: Image): Fs
    requires LaidOut(sb, d)
  {
    Fs(sb, d, seq(sb.ninodes, i requires 0 <= i < sb.ninodes => InodeAt(sb, d, i)))
  }

  /** Every block has one owner or none and the bitmap says so, no file has a hole, and a free
      inode has no content. */
  ghost predicate Healthy(f: Fs, own: map<nat, Owner>) {
    Conserved(f, own) && FreeBare(f) && forall i :: 0 <= i < |f.tab| ==> HoleFree(f, i)
  }

  /** Disk d holds such a file system. */
  ghost predicate Sound(sb: Superblock, d: Image) {
    LaidOut(sb, d) && exists own :: Healthy(Mounted(sb, d), own)
  }

  // ---- Soundness is about home blocks ----

  ghost predicate SameFrom(d: Image, e: Image, a: nat) {
    |d| == |e| && forall x :: a <= x < |d| ==> e[x] == d[x]
  }

  lemma SameFromMounted(sb: Superblock, d: Image, e: Image)
    requires LaidOut(sb, d) && SameFrom(d, e, sb.inodestart)
    ensures LaidOut(sb, e) && Mounted(sb, e).tab == Mounted(sb, d).tab
  {
    forall i: nat | i < sb.ninodes
      ensures InodeAt(sb, e, i) == InodeAt(sb, d, i)
    {
      assert e[IBlock(sb, i)] == d[IBlock(sb, i)];
    }
  }

  lemma SameFromSlots(sb: Superblock, d: Image, e: Image, own: map<nat, Owner>, i: nat, k: nat)
    requires LaidOut(sb, d) && SameFrom(d, e, sb.inodestart) && Conserved(Mounted(sb, d), own)
    requires i < sb.ninodes && k < NSLOT
    ensures Slot(e, Mounted(sb, d).tab[i], k) == Slot(d, Mounted(sb, d).tab[i], k)
  {
    var f := Mounted(sb, d);
    if k > IND && f.tab[i].addrs[IND] != 0 {
      assert Slot(d, f.tab[i], IND) != 0;
      assert f.tab[i].addrs[IND] in own;
    }
  }

  lemma SameFromHealthy(sb: Superblock, d: Image, e: Image, own: map<nat, Owner>)
    requires LaidOut(sb, d) && Healthy(Mounted(sb, d), own) && SameFrom(d, e, sb.inodestart)
    ensures LaidOut(sb, e) && Healthy(Mounted(sb, e), own)
    ensures forall i :: 0 <= i < sb.ninodes ==> SameFile(Mounted(sb, d), Mounted(sb, e), i)
  {
    SameFromMounted(sb, d, e);
    var f, z := Mounted(sb, d), Mounted(sb, e);
    forall i, k | 0 <= i < sb.ninodes && 0 <= k < NSLOT
      ensures Slot(e, z.tab[i], k) == Slot(d, f.tab[i], k)
    {
      SameFromSlots(sb, d, e, own, i, k);
    }
    BitmapSame(sb, d, e);
    ConservedSame(f, z, own);
    forall i | 0 <= i < sb.ninodes
      ensures SameFile(f, z, i) && HoleFree(z, i)
    {
      SameFromFile(sb, d, e, own, i);
      SameFileBytes(f, z, i);
    }
  }

  lemma SameFromFile(sb: Superblock, d: Image, e: Image, own: map<nat, Owner>, i: nat)
    requires LaidOut(sb, d) && Conserved(Mounted(sb, d), own) && SameFrom(d, e, sb.inodestart) && i < sb.ninodes
    requires LaidOut(sb, e) && Mounted(sb, e).tab == Mounted(sb, d).tab
    ensures SameFile(Mounted(sb, d), Mounted(sb, e), i)
  {
    var f := Mounted(sb, d);
    forall k | 0 <= k < NSLOT
      ensures Slot(e, f.tab[i], k) == Slot(d, f.tab[i], k)
      ensures var a := Slot(d, f.tab[i], k); 0 < a < |d| && k != IND ==> e[a] == d[a]
    {
      SameFromSlots(sb, d, e, own, i, k);
      var a := Slot(d, f.tab[i], k);
      if a != 0 { assert a in own; }
    }
  }

  lemma SameFromSound(sb: Superblock, d: Image, e: Image)
    requires Sound(sb, d) && SameFrom(d, e, sb.inodestart)
    ensures Sound(sb, e)
  {
    var own :| Healthy(Mounted(sb, d), own);
    SameFromHealthy(sb, d, e, own);
  }

  ghost predicate SlotsSame(f: Fs, z: Fs)
    requires TabOk(f) && TabOk(z)
  {
    z.sb == f.sb && z.tab == f.tab &&
    forall i, k :: 0 <= i < |f.tab| && 0 <= k < NSLOT ==> Slot(z.disk, z.tab[i], k) == Slot(f.disk, f.tab[i], k)
  }

  lemma ConservedSame(f: Fs, z: Fs, own: map<nat, Owner>)
    requires Conserved(f, own) && TabOk(z) && SlotsSame(f, z)
    requires forall b :: 0 <= b < f.sb.size ==> (InUse(z.sb, z.disk, b) <==> InUse(f.sb, f.disk, b))
    ensures Conserved(z, own)
  {
  }

  /** The log region lies before the inodes. */
  lemma SameHomeFrom(lay: Layout, sb: Superblock, d: Image, e: Image)
    requires Fits(lay, d) && SameHome(lay, d, e) && lay.start + lay.size <= sb.inodestart
    ensures SameFrom(d, e, sb.inodestart) && SameFrom(e, d, sb.inodestart)
  {
    SameHomeAt(lay, d, e);
    forall x | sb.inodestart <= x < |d|
      ensures e[x] == d[x]
    {
      assert IsHome(lay, d, x);
    }
  }

  lemma SameHomeSound(lay: Layout, sb: Superblock, d: Image, e: Image)
    requires Sound(sb, d) && Fits(lay, d) && SameHome(lay, d, e) && lay.start + lay.size <= sb.inodestart
    ensures Sound(sb, e)
  {
    SameHomeFrom(lay, sb, d, e);
    SameFromSound(sb, d, e);
  }

  /** The files on two disks are the same: every inode, and every byte. */
  ghost predicate SameFiles(sb: Superblock, d: Image, e: Image) {
    Sound(sb, d) && Sound(sb, e) && Mounted(sb, e).tab == Mounted(sb, d).tab &&
    forall i :: 0 <= i < sb.ninodes ==>
      HoleFree(Mounted(sb, d), i) && HoleFree(Mounted(sb, e), i) &&
      Bytes(Mounted(sb, e), i) == Bytes(Mounted(sb, d), i)
  }

  lemma SameFromFiles(sb: Superblock, d: Image, e: Image)
    requires Sound(sb, d) && SameFrom(d, e, sb.inodestart)
    ensures SameFiles(sb, d, e)
  {
    SameFromSound(sb, d, e);
    SameFromMounted(sb, d, e);
    var own :| Healthy(Mounted(sb, d), own);
    SameFromHealthy(sb, d, e, own);
    forall i | 0 <= i < sb.ninodes
      ensures HoleFree(Mounted(sb, d), i) && HoleFree(Mounted(sb, e), i)
      ensures Bytes(Mounted(sb, e), i) == Bytes(Mounted(sb, d), i)
    {
      SameFileBytes(Mounted(sb, d), Mounted(sb, e), i);
    }
  }

  // ---- One call ----

  lemma OthersHoleFree(f: Fs, z: Fs, i: nat, j: nat)
    requires TabOk(f) && TabOk(z) && z.sb == f.sb && i < |f.tab| && OthersKept(f, z, i)
    requires j < |f.tab| && j != i && HoleFree(f, j)
    ensures HoleFree(z, j)
  {
    SameFileBytes(f, z, j);
  }

  /** A call that writes inode i back and leaves the others alone keeps memory and disk in
      step, and the file system healthy. */
  lemma CallHealthy(f: Fs, own: map<nat, Owner>, z: Fs, own1: map<nat, Owner>, i: nat)
    requires Healthy(f, own) && f == Mounted(f.sb, f.disk) && i < |f.tab|
    requires Conserved(z, own1) && z.sb == f.sb && Synced(z, i) && OthersKept(f, z, i)
    requires HoleFree(z, i) && (z.tab[i].typ == 0 ==> Bare(z.tab[i]))
    ensures Healthy(z, own1) && z == Mounted(z.sb, z.disk)
  {
    SyncedMounted(f, z, i);
    forall j | 0 <= j < |z.tab|
      ensures HoleFree(z, j) && (z.tab[j].typ == 0 ==> Bare(z.tab[j]))
    {
      if j != i {
        OthersHoleFree(f, z, i, j);
        assert SameFile(f, z, j);
      }
    }
  }

  lemma SyncedMounted(f: Fs, z: Fs, i: nat)
    requires TabOk(f) && f == Mounted(f.sb, f.disk) && TabOk(z) && z.sb == f.sb && i < |f.tab|
    requires Synced(z, i) && OthersKept(f, z, i)
    ensures z == Mounted(z.sb, z.disk)
  {
    forall j | 0 <= j < |z.tab|
      ensures z.tab[j] == InodeAt(z.sb, z.disk, j)
    {
      if j != i { assert SameFile(f, z, j) && OnDisk(z, j) == OnDisk(f, j); }
    }
  }

  // ---- The history that calls leave ----

  /** h once process p has made the log_write calls w. */
  function Logged(h: Log.History, p: Log.Proc, w: seq<Put>): Log.History {
    if w == [] then h
    else Log.Then(Logged(h, p, w[..|w| - 1]), Log.Wrote(p, w[|w| - 1].bn, w[|w| - 1].data))
  }

  lemma {:induction false} LoggedReplay(init: Image, h: Log.History, p: Log.Proc, w: seq<Put>)
    ensures Log.Replay(init, Logged(h, p, w)) == Applied(Log.Replay(init, h), w)
    ensures Log.Open(Logged(h, p, w)) == Log.Open(h)
    ensures Log.Bracketed(h) && p in Log.Open(h) ==> Log.Bracketed(Logged(h, p, w))
  {
    if w != [] { LoggedReplay(init, h, p, w[..|w| - 1]); }
  }

  lemma {:induction false} AppliedSameFrom(d: Image, e: Image, a: nat, w: seq<Put>)
    requires SameFrom(d, e, a)
    ensures SameFrom(Applied(d, w), Applied(e, w), a)
  {
    if w != [] { AppliedSameFrom(d, e, a, w[..|w| - 1]); }
  }

  /** Whenever no operation was open, the disk was sound. */
  ghost predicate RestsSound(sb: Superblock, init: Image, h: Log.History) {
    forall g :: Log.Prefix(g, h) && Log.Open(g) == {} ==> Sound(sb, Log.Replay(init, g))
  }

  lemma RestsNext(sb: Superblock, init: Image, h: Log.History, e: Log.Event)
    requires RestsSound(sb, init, h)
    requires Log.Open(Log.Then(h, e)) == {} ==> Sound(sb, Log.Replay(init, Log.Then(h, e)))
    ensures RestsSound(sb, init, Log.Then(h, e))
  {
  }

  lemma {:induction false} RestsLogged(sb: Superblock, init: Image, h: Log.History, p: Log.Proc, w: seq<Put>)
    requires RestsSound(sb, init, h) && p in Log.Open(h)
    ensures RestsSound(sb, init, Logged(h, p, w))
  {
    if w != [] {
      RestsLogged(sb, init, h, p, w[..|w| - 1]);
      LoggedReplay(init, h, p, w);
      RestsNext(sb, init, Logged(h, p, w[..|w| - 1]), Log.Wrote(p, w[|w| - 1].bn, w[|w| - 1].data));
    }
  }

  /** Every write goes to an inode block, the bitmap or a data block. */
  predicate WritesHome(sb: Superblock, h: Log.History) {
    match h
    case Empty => true
    case Then(past, Wrote(_, bn, _)) => WritesHome(sb, past) && sb.inodestart <= bn < sb.size
    case Then(past, _) => WritesHome(sb, past)
  }

  lemma {:induction false} LoggedHome(sb: Superblock, h: Log.History, p: Log.Proc, w: seq<Put>)
    requires WritesHome(sb, h) && Homed(sb, Targets(w))
    ensures WritesHome(sb, Logged(h, p, w))
  {
    if w != [] { LoggedHome(sb, h, p, w[..|w| - 1]); }
  }

  lemma {:induction false} PrefixHome(sb: Superblock, g: Log.History, h: Log.History)
    requires Log.Prefix(g, h) && WritesHome(sb, h)
    ensures WritesHome(sb, g)
  {
    if g != h { PrefixHome(sb, g, h.past); }
  }

  /** What holds of the history, whatever the kernel was doing. */
  ghost predicate Recorded(sb: Superblock, init: Image, h: Log.History) {
    Log.Bracketed(h) && WritesHome(sb, h) && RestsSound(sb, init, h)
  }

  /** The file system in use by any number of processes, each between begin_op and end_op:
      their calls come in any order, one call at a time. */
  class Volume {
    const sb: Superblock
    ghost const init: Image                 // the disk as mkfs left it
    const fs: FileSystem
    var up: bool                            // no call has panicked
    ghost var h: Log.History

    ghost predicate Valid()
      reads this, fs
    {
      Recorded(sb, init, h) && (up ==> InStep(fs.cur, fs.own))
    }

    /** Memory shows the disk that the log_write calls have made. */
    ghost predicate InStep(f: Fs, own: map<nat, Owner>)
      reads this
    {
      f.sb == sb && SameFrom(Log.Replay(init, h), f.disk, sb.inodestart) && LaidOut(sb, f.disk) &&
      f == Mounted(sb, f.disk) && Healthy(f, own)
    }

    constructor (s: Superblock, d: Image, ghost own: map<nat, Owner>)
      requires LaidOut(s, d) && Healthy(Mounted(s, d), own)
      ensures Valid() && up && fresh(fs) && sb == s && init == d && h == Log.Empty && fs.cur == Mounted(s, d)
    {
      sb, init, up, h := s, d, true, Log.Empty;
      fs := new FileSystem(Mounted(s, d), own);
    }

    /** begin_op has returned. */
    method Begin(p: Log.Proc)
      requires Valid() && p !in Log.Open(h)
      modifies this`h
      ensures Valid() && h == Log.Then(old(h), Log.Began(p))
    {
      RestsNext(sb, init, h, Log.Began(p));
      h := Log.Then(h, Log.Began(p));
    }

    /** end_op is called. */
    method End(p: Log.Proc)
      requires Valid() && up && p in Log.Open(h)
      modifies this`h
      ensures Valid() && h == Log.Then(old(h), Log.Ended(p))
    {
      SameFromSound(sb, fs.cur.disk, Log.Replay(init, h));
      RestsNext(sb, init, h, Log.Ended(p));
      h := Log.Then(h, Log.Ended(p));
    }

    /** A call of p has run: its log_write calls are history, and memory is in step with it. */
    ghost method Extend(p: Log.Proc, f: Fs, own0: map<nat, Owner>, i: nat, log: seq<Put>)
      requires Recorded(sb, init, h) && p in Log.Open(h) && InStep(f, own0) && i < |f.tab|
      requires Conserved(fs.cur, fs.own) && fs.cur.sb == f.sb && Synced(fs.cur, i) && OthersKept(f, fs.cur, i)
      requires HoleFree(fs.cur, i) && (fs.cur.tab[i].typ == 0 ==> Bare(fs.cur.tab[i]))
      requires HomeLog(f, fs.cur, log)
      modifies this`h
      ensures h == Logged(old(h), p, log) && Recorded(sb, init, h) && InStep(fs.cur, fs.own)
    {
      CallHealthy(f, own0, fs.cur, fs.own, i);
      LoggedReplay(init, h, p, log);
      LoggedHome(sb, h, p, log);
      RestsLogged(sb, init, h, p, log);
      AppliedSameFrom(Log.Replay(init, h), f.disk, sb.inodestart, log);
      h := Logged(h, p, log);
    }

    /** A call of p has panicked: p's operation stays open. */
    ghost method Stop(p: Log.Proc, log: seq<Put>)
      requires Recorded(sb, init, h) && p in Log.Open(h) && Homed(sb, Targets(log))
      modifies this`h
      ensures h == Logged(old(h), p, log) && Recorded(sb, init, h)
    {
      LoggedReplay(init, h, p, log);
      LoggedHome(sb, h, p, log);
      RestsLogged(sb, init, h, p, log);
      h := Logged(h, p, log);
    }

    /** writei by p; ilock has seen that the inode is not free. */
    method Writei(p: Log.Proc, i: nat, off: Word, src: seq<Byte>) returns (r: WriteResult, ghost log: seq<Put>)
      requires Valid() && up && p in Log.Open(h) && i < sb.ninodes && fs.cur.tab[i].typ != 0 && |src| <= 0xFFFF_FFFF
      modifies this, fs
      ensures Valid() && h == Logged(old(h), p, log) && up == !r.OutOfBlocks?
      ensures r.Written? ==> off <= old(fs.cur).tab[i].size && Wrote(old(fs.cur), fs.cur, fs.own, i, off, src)
      ensures r.WriteDevice? || r.WriteFails? ==> fs.cur == old(fs.cur) && log == []
    {
      ghost var f, own := fs.cur, fs.own;
      r, log := fs.Writei(i, off, src);
      if r.OutOfBlocks? {
        up := false;
        Stop(p, log);
      } else if r.Written? {
        Extend(p, f, own, i, log);
      }
    }

    /** itrunc by p. */
    method Itrunc(p: Log.Proc, i: nat) returns (ghost log: seq<Put>)
      requires Valid() && up && p in Log.Open(h) && i < sb.ninodes
      modifies this, fs
      ensures Valid() && up && h == Logged(old(h), p, log)
      ensures Truncated(old(fs.cur), old(fs.own), fs.cur, fs.own, i)
    {
      ghost var f, own := fs.cur, fs.own;
      var ok;
      ok, log := fs.Itrunc(i);
      TruncatedBare(f, own, fs.cur, fs.own, i);
      Extend(p, f, own, i, log);
    }

    /** ialloc by p. */
    method Ialloc(p: Log.Proc, typ: Half) returns (i: nat, ghost log: seq<Put>)
      requires Valid() && up && p in Log.Open(h)
      modifies this, fs
      ensures Valid() && h == Logged(old(h), p, log)
      ensures up ==> 0 < i < sb.ninodes && old(fs.cur).tab[i].typ == 0
      ensures up ==> Described(old(fs.cur), fs.cur, fs.own, i, Blank(typ)) && fs.cur.tab[i].typ == typ
      ensures !up ==> forall j :: 0 < j < sb.ninodes ==> old(fs.cur).tab[j].typ != 0
    {
      ghost var f, own := fs.cur, fs.own;
      up, i, log := fs.Ialloc(typ);
      if up { Extend(p, f, own, i, log); } else { Stop(p, log); }
    }

    /** iupdate by p, after create, link or unlink has set fields other than the size and the
        addresses. */
    method Iupdate(p: Log.Proc, i: nat, ino: Inode) returns (ghost log: seq<Put>)
      requires Valid() && up && p in Log.Open(h) && i < sb.ninodes && ino.typ != 0
      requires ino.size == fs.cur.tab[i].size && ino.addrs == fs.cur.tab[i].addrs
      modifies this, fs
      ensures Valid() && up && h == Logged(old(h), p, log) && Described(old(fs.cur), fs.cur, fs.own, i, ino)
    {
      ghost var f, own := fs.cur, fs.own;
      log := fs.Describe(i, ino);
      Extend(p, f, own, i, log);
    }

    /** iput by p. */
    method Iput(p: Log.Proc, i: nat, last: bool) returns (freed: bool, ghost log: seq<Put>)
      requires Valid() && up && p in Log.Open(h) && i < sb.ninodes
      modifies this, fs
      ensures Valid() && up && h == Logged(old(h), p, log) && (freed <==> last && old(fs.cur).tab[i].nlink == 0)
      ensures freed ==> InodeFreed(old(fs.cur), old(fs.own), fs.cur, fs.own, i)
      ensures !freed ==> fs.cur == old(fs.cur) && log == []
    {
      ghost var f, own := fs.cur, fs.own;
      freed, log := fs.Iput(i, last);
      if freed { Extend(p, f, own, i, log); }
    }

    /** The machine comes up again on disk d, with the part g of the history on it. */
    method Reboot(d: Image, ghost g: Log.History)
      requires Valid() && Log.Prefix(g, h) && Log.Open(g) == {} && SameFrom(Log.Replay(init, g), d, sb.inodestart)
      modifies this, fs
      ensures Valid() && up && h == g && fs.cur.disk == d && SameFiles(sb, Log.Replay(init, g), d)
    {
      assert Sound(sb, Log.Replay(init, g));
      SameFromFiles(sb, Log.Replay(init, g), d);
      Log.PrefixBracketed(g, h);
      PrefixHome(sb, g, h);
      forall f | Log.Prefix(f, g)
        ensures Log.Prefix(f, h)
      {
        Log.PrefixTrans(f, g, h);
      }
      ghost var own :| Healthy(Mounted(sb, d), own);
      up, h := true, g;
      fs.cur, fs.own := Mounted(sb, d), own;
    }
  }

  /** Crash safety of the file system: in every reachable state of the log whose history is
      one that calls of a volume made, whatever block write it stops at, recovery leaves a
      sound file system; its files are those of a moment when no operation was open, and the
      volume can come up again on it. */
  lemma CrashLeavesSound(v: Volume, sys: Log.Sys, s: Log.State)
    requires v.Valid() && v.init == sys.init && sys.lay.start + sys.lay.size <= v.sb.inodestart
    requires Log.SysOk(sys) && LogBudget.Contained(sys) && Log.Reachable(sys, s) && Log.Prefix(s.history, v.h)
    ensures HeadOk(sys.lay, s.disk) && Sound(v.sb, Recovered(sys.lay, s.disk))
    ensures Log.Prefix(s.durable, v.h) && Log.Open(s.durable) == {}
    ensures SameFrom(Log.Replay(sys.init, s.durable), Recovered(sys.lay, s.disk), v.sb.inodestart)
    ensures SameFiles(v.sb, Log.Replay(sys.init, s.durable), Recovered(sys.lay, s.disk))
  {
    LogBudget.ReachableBudget(sys, s);
    Log.GroupCommit(sys, s);
    var g, d := s.durable, Recovered(sys.lay, s.disk);
    Log.PrefixTrans(g, s.history, v.h);
    assert Sound(v.sb, Log.Replay(sys.init, g));
    SameHomeFrom(sys.lay, v.sb, d, Log.Replay(sys.init, g));
    SameFromFiles(v.sb, Log.Replay(sys.init, g), d);
  }
}

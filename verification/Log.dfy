/** The logging layer run through the buffer cache: begin_op, log_write, end_op,
    commit and recovery as the kernel executes them, each proved
    equal to its block-level effect in Storage (log.c). */
module Log {
  import opened Blocks
  import opened Lists
  import opened LogSpec
  import opened Bcache
  import opened CacheStore
  import opened Storage
  import LogProtocol

  /** With room to spare, some buffer other than a is free. */
  lemma FreeBesides(bufs: seq<Buf>, disk: Image, a: nat)
    requires Coherent(bufs, disk) && a < NBUF && |Pinned(bufs)| + 2 <= NBUF
    requires forall i :: 0 <= i < NBUF && i != a ==> !bufs[i].busy
    ensures exists i :: 0 <= i < NBUF && i != a && Free(bufs[i])
  {
    if forall i :: 0 <= i < NBUF && i != a ==> !Free(bufs[i]) {
      var s: seq<nat> := seq(NBUF - 1, i requires 0 <= i < NBUF - 1 => bufs[if i < a then i else i + 1].blockno);
      DirtyDistinct(bufs, disk, a, s);
      Pigeon(s, Pinned(bufs));
      assert false;
    }
  }

  lemma DirtyDistinct(bufs: seq<Buf>, disk: Image, a: nat, s: seq<nat>)
    requires Coherent(bufs, disk) && a <= NBUF
    requires forall i :: 0 <= i < NBUF && i != a ==> !Free(bufs[i]) && !bufs[i].busy
    requires |s| == (if a < NBUF then NBUF - 1 else NBUF)
    requires forall i :: 0 <= i < |s| ==> s[i] == bufs[if i < a then i else i + 1].blockno
    ensures Distinct(s) && forall i :: 0 <= i < |s| ==> s[i] in Pinned(bufs)
  {
    forall i, j | 0 <= i < j < |s|
      ensures s[i] != s[j]
    {
      var k, l := if i < a then i else i + 1, if j < a then j else j + 1;
      assert InStep(bufs[k], disk) && InStep(bufs[l], disk);
      assert !Free(bufs[k]) && !Free(bufs[l]);
      assert Apart(bufs, k, l);
    }
    forall i | 0 <= i < |s|
      ensures s[i] in Pinned(bufs)
    {
      assert !Free(bufs[if i < a then i else i + 1]);
    }
  }

  lemma SomeFree(bufs: seq<Buf>, disk: Image)
    requires Coherent(bufs, disk) && NoBusy(bufs) && |Pinned(bufs)| < NBUF
    ensures exists i :: 0 <= i < NBUF && Free(bufs[i])
  {
    if forall i :: 0 <= i < NBUF ==> !Free(bufs[i]) {
      var s: seq<nat> := seq(NBUF, i requires 0 <= i < NBUF => bufs[i].blockno);
      DirtyDistinct(bufs, disk, NBUF, s);
      Pigeon(s, Pinned(bufs));
      assert false;
    }
  }

  /** Pinned blocks fill the cache only if every buffer is pinned. */
  lemma NoneFree(bufs: seq<Buf>, disk: Image, bn: nat)
    requires Coherent(bufs, disk) && |Pinned(bufs)| >= NBUF && bn !in Pinned(bufs)
    ensures (forall i :: 0 <= i < NBUF ==> !Free(bufs[i])) && !Cached(bufs, ROOTDEV, bn)
  {
    forall i | 0 <= i < NBUF
      ensures bufs[i].dirty
    {
      if !bufs[i].dirty {
        PinnedBound(bufs, |bufs|, i);
      }
    }
  }

  ghost function PinnedBelow(bufs: seq<Buf>, n: nat): set<nat>
    requires n <= |bufs|
  {
    set i | 0 <= i < n && bufs[i].dirty :: bufs[i].blockno
  }

  lemma {:induction false} PinnedBound(bufs: seq<Buf>, n: nat, skip: nat)
    requires n <= |bufs|
    ensures |PinnedBelow(bufs, n)| <= n
    ensures skip < n && !bufs[skip].dirty ==> |PinnedBelow(bufs, n)| < n
    ensures PinnedBelow(bufs, |bufs|) == Pinned(bufs)
  {
    if n > 0 {
      PinnedBound(bufs, n - 1, skip);
      var p, q := PinnedBelow(bufs, n), PinnedBelow(bufs, n - 1);
      if bufs[n - 1].dirty {
        assert p == q + {bufs[n - 1].blockno};
      } else {
        assert p == q;
      }
    }
  }

  /** Buffer b is held for block bn, unchanged since bread. */
  predicate Held(bufs: seq<Buf>, disk: Image, b: nat, bn: nat) {
    b < |bufs| && bn < |disk| && bufs[b].busy && bufs[b].valid && Holds(bufs[b], ROOTDEV, bn) &&
    (bufs[b].dirty || bufs[b].data == disk[bn])
  }

  /** bread with the block's buffer not held gives a held buffer. */
  lemma BreadHeld(bufs: seq<Buf>, disk: Image, b: nat, bn: nat, bufs1: seq<Buf>)
    requires Coherent(bufs, disk) && b < NBUF && bn < |disk| && !bufs[b].busy
    requires if Cached(bufs, ROOTDEV, bn) then Holds(bufs[b], ROOTDEV, bn) else Free(bufs[b])
    requires bufs1 == bufs[b := Buf(true, true, bufs[b].dirty, ROOTDEV, bn, View(bufs, disk)[bn])]
    ensures Held(bufs1, disk, b, bn)
  {
    assert InStep(bufs[b], disk);
    if Cached(bufs, ROOTDEV, bn) { LogicalHeld(bufs, disk, b); } else { LogicalAbsent(bufs, disk, bn); }
  }

  /** What log_write and end_op come back with. */
  datatype WriteResult = Recorded | TooBig | OutsideTrans | NotRead
  datatype EndResult = Woke | CommitDone | LogCommitting | NoBuffersLeft

  class Log {
    const lay: Layout
    const cache: Cache
    var lh: seq<nat>         // lh.block[..lh.n]
    var outstanding: int
    var committing: bool

    constructor (lay: Layout, cache: Cache)
      ensures this.lay == lay && this.cache == cache && lh == [] && outstanding == 0 && !committing
    {
      this.lay := lay;
      this.cache := cache;
      lh := [];
      outstanding := 0;
      committing := false;
    }

    /** bread with nothing else held. */
    method AcquireOne(bn: nat) returns (ok: bool, b: nat)
      requires cache.Idle() && bn < |cache.disk|
      modifies cache`bufs, cache`disk
      ensures ok <==> |old(cache.st).pinned| < NBUF || bn in old(cache.st).pinned
      ensures cache.disk == old(cache.disk)
      ensures ok ==>
                cache.Valid() && b < NBUF && Held(cache.bufs, cache.disk, b, bn) &&
                bn < |cache.st.view| && cache.bufs[b].data == cache.st.view[bn] &&
                forall i :: 0 <= i < NBUF && cache.bufs[i].busy ==> i == b
    {
      ghost var bufs0, disk := cache.bufs, cache.disk;
      b := 0;
      if bn in Pinned(bufs0) {
        PinnedCached(bufs0, disk, bn);
      } else if |Pinned(bufs0)| < NBUF {
        SomeFree(bufs0, disk);
      } else {
        NoneFree(bufs0, disk, bn);
      }
      var r := cache.Bread(ROOTDEV, bn);
      if !r.Got? { return false, 0; }
      b := r.b;
      BreadHeld(bufs0, disk, b, bn, cache.bufs);
      ok := true;
    }

    /** bread with only buffer l held. */
    method AcquireAnother(bn: nat, l: nat) returns (ok: bool, b: nat)
      requires cache.Valid() && bn < |cache.disk| && l < NBUF && cache.bufs[l].busy &&
               !Holds(cache.bufs[l], ROOTDEV, bn)
      requires forall i :: 0 <= i < NBUF && cache.bufs[i].busy ==> i == l
      modifies cache`bufs, cache`disk
      ensures bn in old(cache.st).pinned || |old(cache.st).pinned| + 2 <= NBUF ==> ok
      ensures cache.disk == old(cache.disk)
      ensures ok ==>
                cache.Valid() && b < NBUF && b != l && Held(cache.bufs, cache.disk, b, bn) &&
                bn < |cache.st.view| && cache.bufs[b].data == cache.st.view[bn] &&
                cache.bufs[l] == old(cache.bufs[l]) &&
                forall i :: 0 <= i < NBUF && cache.bufs[i].busy ==> i == l || i == b
    {
      ghost var bufs0, disk := cache.bufs, cache.disk;
      b := 0;
      if bn in Pinned(bufs0) {
        PinnedCached(bufs0, disk, bn);
      } else if |Pinned(bufs0)| + 2 <= NBUF {
        FreeBesides(bufs0, disk, l);
      }
      var r := cache.Bread(ROOTDEV, bn);
      if !r.Got? { return false, 0; }
      b := r.b;
      BreadHeld(bufs0, disk, b, bn, cache.bufs);
      ok := true;
    }

    /** Change a held buffer and write it through. */
    method StoreHeld(b: nat, data: Block)
      requires cache.Valid() && b < NBUF && Held(cache.bufs, cache.disk, b, cache.bufs[b].blockno)
      modifies cache
      ensures cache.Valid() && cache.order == old(cache.order) && cache.links == old(cache.links)
      ensures cache.bufs == old(cache.bufs)[b := old(cache.bufs[b]).(data := data, dirty := false)]
      ensures old(cache.bufs[b].blockno) < |old(cache.st).disk| == |old(cache.st).view|
      ensures cache.st == Written(old(cache.st), old(cache.bufs[b].blockno), data)
    {
      cache.Modify(b, data);
      var ok := cache.Bwrite(b);
    }

    /** The loop body shared by write_log and install_trans: read a log block and a
        home block, copy one over the other, write it through, release the source and
        then the destination. False is the "no buffers" panic. */
    method CopyBlock(logBn: nat, homeBn: nat, toLog: bool) returns (ok: bool)
      requires cache.Idle() && logBn < |cache.disk| && homeBn < |cache.disk| && logBn != homeBn
      modifies cache
      ensures |old(cache.st).pinned| < NBUF && homeBn in old(cache.st).pinned ==> ok
      ensures |old(cache.st).pinned| + 2 <= NBUF ==> ok
      ensures |old(cache.st).pinned| >= NBUF && logBn !in old(cache.st).pinned ==> !ok
      ensures !ok ==> cache.st == old(cache.st)
      ensures ok ==> cache.Idle()
      ensures ok && toLog ==> cache.st == Copied(old(cache.st), homeBn, logBn)
      ensures ok && !toLog ==> cache.st == Copied(old(cache.st), logBn, homeBn)
    {
      var l, h;
      ok, l := AcquireOne(logBn);
      if !ok { return; }
      ok, h := AcquireAnother(homeBn, l);
      if !ok { return; }
      if toLog { Transfer(h, l); } else { Transfer(l, h); }
    }

    /** memmove, bwrite and the two brelses, on the two held buffers. */
    method Transfer(src: nat, dst: nat)
      requires cache.Valid() && src < NBUF && dst < NBUF && src != dst
      requires Held(cache.bufs, cache.disk, src, cache.bufs[src].blockno)
      requires Held(cache.bufs, cache.disk, dst, cache.bufs[dst].blockno)
      requires cache.bufs[src].blockno != cache.bufs[dst].blockno
      requires forall i :: 0 <= i < NBUF && cache.bufs[i].busy ==> i == src || i == dst
      modifies cache
      ensures cache.Idle() && old(cache.bufs[dst].blockno) < |old(cache.st).disk| == |old(cache.st).view|
      ensures cache.st == Written(old(cache.st), old(cache.bufs[dst].blockno), old(cache.bufs[src].data))
    {
      StoreHeld(dst, cache.bufs[src].data);
      var ok := cache.Brelse(src);
      ok := cache.Brelse(dst);
    }

    /** write_head: store the in-memory header in the header block and write it through. */
    method WriteHeader() returns (ok: bool)
      requires cache.Idle() && Fits(lay, cache.disk) && |lh| <= LOGSIZE
      requires forall i :: 0 <= i < |lh| ==> lh[i] < 0x8000_0000
      modifies cache
      ensures ok <==> |old(cache.st).pinned| < NBUF || lay.start in old(cache.st).pinned
      ensures ok ==> cache.Idle() && cache.st == HeadWritten(lay, lh, old(cache.st))
    {
      var b;
      ok, b := AcquireOne(lay.start);
      if !ok { return; }
      var hb := FillHeader(cache.bufs[b].data, lh);
      StoreHeld(b, hb);
      ok := cache.Brelse(b);
    }

    /** write_head's loop: n and the block numbers, in place of what the block held. */
    static method FillHeader(b: Block, bl: seq<nat>) returns (hb: Block)
      requires |bl| <= LOGSIZE && forall i :: 0 <= i < |bl| ==> bl[i] < 0x8000_0000
      ensures hb == PutBlocks(b, bl, |bl|)
    {
      hb := PutWord(b, 0, |bl|);
      var i := 0;
      while i < |bl|
        invariant i <= |bl| && hb == PutBlocks(b, bl, i)
      {
        hb := PutWord(hb, 4 * (i + 1), bl[i]);
        i := i + 1;
      }
    }

    /** One iteration of write_log. */
    method CopyToLog(tail: nat, ghost st: Store) returns (ok: bool)
      requires cache.Idle() && Loggable(lay, st.disk, lh) && |st.view| == |st.disk| && tail < |lh|
      requires PinsAre(st.pinned, lh) && cache.st == LogCopied(lay, lh, st, tail)
      modifies cache
      ensures ok <==> |lh| < NBUF
      ensures !ok ==> cache.st == old(cache.st)
      ensures ok ==> cache.Idle() && cache.st == LogCopied(lay, lh, st, tail + 1)
    {
      PinsHome(lay, st.disk, st.pinned, lh);
      LogCopiedPins(lay, lh, st, tail);
      assert InLog(lay, lay.start + tail + 1);
      ghost var cur := cache.st;
      ok := CopyBlock(lay.start + tail + 1, lh[tail], true);
      if ok { LogCopiedNext(lay, lh, st, tail, cur, cache.st); }
    }

    /** write_log: copy every logged block from the cache into the log. */
    method WriteLog() returns (ok: bool)
      requires cache.Idle() && Loggable(lay, cache.st.disk, lh) && |cache.st.view| == |cache.st.disk|
      requires PinsAre(cache.st.pinned, lh) && lh != []
      modifies cache
      ensures ok <==> |lh| < NBUF
      ensures !ok ==> cache.st == old(cache.st)
      ensures ok ==> cache.Idle() && cache.st == LogCopied(lay, lh, old(cache.st), |lh|)
    {
      ghost var st := cache.st;
      var tail := 0;
      ok := true;
      while tail < |lh|
        invariant tail <= |lh| && ok && cache.Idle() && (tail > 0 ==> |lh| < NBUF)
        invariant cache.st == LogCopied(lay, lh, st, tail)
      {
        ok := CopyToLog(tail, st);
        if !ok {
          assert tail == 0;
          return;
        }
        tail := tail + 1;
      }
    }

    /** One iteration of install_trans. */
    method CopyHome(tail: nat, ghost st: Store)
      requires cache.Idle() && Loggable(lay, st.disk, lh) && |st.view| == |st.disk| && tail < |lh|
      requires st.pinned == {} || (PinsAre(st.pinned, lh) && |lh| < NBUF)
      requires cache.st == Installs(lay, lh, st, tail)
      modifies cache
      ensures cache.Idle() && cache.st == Installs(lay, lh, st, tail + 1)
    {
      ghost var cur := cache.st;
      InstallFits(lay, lh, st, tail, cur);
      var ok := CopyBlock(lay.start + tail + 1, lh[tail], false);
      InstallsNext(lay, lh, st, tail, cur, cache.st);
    }

    /** install_trans: copy every log block to its home. In a commit the home blocks are
        pinned and come unpinned one by one; in a recovery nothing is pinned. */
    method InstallTrans()
      requires cache.Idle() && Loggable(lay, cache.st.disk, lh) && |cache.st.view| == |cache.st.disk|
      requires cache.st.pinned == {} || (PinsAre(cache.st.pinned, lh) && |lh| < NBUF)
      modifies cache
      ensures cache.Idle() && cache.st == Installs(lay, lh, old(cache.st), |lh|)
    {
      ghost var st := cache.st;
      var tail := 0;
      while tail < |lh|
        invariant tail <= |lh| && cache.Idle() && cache.st == Installs(lay, lh, st, tail)
      {
        CopyHome(tail, st);
        tail := tail + 1;
      }
    }

    /** commit: true when it runs to the end, false for the "no buffers" panic. */
    method Commit() returns (ok: bool)
      requires cache.Idle() && Loggable(lay, cache.st.disk, lh) && |cache.st.view| == |cache.st.disk| &&
               PinsAre(cache.st.pinned, lh)
      modifies cache, this`lh
      ensures ok <==> |old(lh)| < NBUF
      ensures !ok ==> cache.st == old(cache.st) && lh == old(lh)
      ensures ok ==> cache.Idle() && lh == []
      ensures ok && old(lh) != [] ==> cache.st == CommitStore(lay, old(lh), old(cache.st))
      ensures old(lh) == [] ==> cache.st == old(cache.st)
    {
      ok := true;
      if |lh| > 0 {
        ok := LogAndMark();
        if !ok { return; }
        InstallAndClear();
      }
    }

    /** The head of commit, up to and including the header write that commits. */
    method LogAndMark() returns (ok: bool)
      requires cache.Idle() && Loggable(lay, cache.st.disk, lh) && |cache.st.view| == |cache.st.disk| &&
               PinsAre(cache.st.pinned, lh) && lh != []
      modifies cache
      ensures ok <==> |lh| < NBUF
      ensures !ok ==> cache.st == old(cache.st)
      ensures ok ==>
              cache.Idle() && Loggable(lay, cache.st.disk, lh) && |cache.st.view| == |cache.st.disk| &&
              cache.st.pinned == old(cache.st).pinned
      ensures ok ==> cache.st == HeadWritten(lay, lh, LogCopied(lay, lh, old(cache.st), |lh|))
    {
      PinsHome(lay, cache.st.disk, cache.st.pinned, lh);
      CommitPins(lay, lh, cache.st);
      assert InLog(lay, lay.start);
      ok := WriteLog();
      if !ok { return; }
      ok := WriteHeader();
    }

    /** The tail of commit and of recover_from_log: install, forget the list, clear the header. */
    method InstallAndClear()
      requires cache.Idle() && Loggable(lay, cache.st.disk, lh) && |cache.st.view| == |cache.st.disk|
      requires cache.st.pinned == {} || (PinsAre(cache.st.pinned, lh) && |lh| < NBUF)
      modifies cache, this`lh
      ensures cache.Idle() && lh == [] && cache.st == RecoverStore(lay, old(lh), old(cache.st))
    {
      ghost var st := cache.st;
      InstallTrans();
      InstallsPins(lay, lh, st, |lh|);
      lh := [];
      var ok := WriteHeader();
    }

    /** read_head. */
    method ReadHeader() returns (ok: bool)
      requires cache.Idle() && HeadOk(lay, cache.disk) && cache.st.pinned == {}
      modifies cache, this`lh
      ensures ok && cache.Idle() && cache.st == old(cache.st) && lh == HeadBlocks(lay, cache.disk)
    {
      cache.IdleSane();
      var b;
      ok, b := AcquireOne(lay.start);
      lh := TakeHeader(cache.bufs[b].data);
      ok := cache.Brelse(b);
    }

    /** Its loop over the header block hb. */
    static method TakeHeader(hb: Block) returns (bl: seq<nat>)
      requires GetWord(hb, 0) <= LOGSIZE
      ensures bl == HeadBlocksIn(hb, GetWord(hb, 0))
    {
      var n, i := GetWord(hb, 0), 0;
      bl := [];
      while i < n
        invariant 0 <= i <= n && bl == HeadBlocksIn(hb, i)
      {
        bl := bl + [GetWord(hb, 4 + 4 * i)];
        i := i + 1;
      }
    }

    /** recover_from_log, on a freshly initialised cache or any other with nothing pinned. */
    method RecoverFromLog()
      requires cache.Idle() && HeadOk(lay, cache.disk) && cache.st.pinned == {}
      modifies cache, this`lh
      ensures cache.Idle() && lh == []
      ensures cache.st == Store(Recovered(lay, old(cache.st).disk), Recovered(lay, old(cache.st).disk), {},
                                old(cache.st).trace + RecoveryImages(lay, old(cache.st).disk))
    {
      ghost var st := cache.st;
      cache.IdleSane();
      var ok := ReadHeader();
      ghost var bl := lh;
      InstallAndClear();
      RecoverStoreImages(lay, bl, st);
    }

    /** log_write up to acquire: the test, on whatever lh.n and outstanding are at the time. */
    method LogWriteTest() returns (r: WriteResult)
      ensures r.TooBig? <==> |lh| >= LOGSIZE || |lh| >= lay.size - 1
      ensures r.OutsideTrans? <==> !r.TooBig? && outstanding < 1
      ensures !r.NotRead?
    {
      if |lh| >= LOGSIZE || |lh| >= lay.size - 1 { return TooBig; }
      if outstanding < 1 { return OutsideTrans; }
      r := Recorded;
    }

    /** The rest of log_write, under the lock, whatever has become of lh.n since the test:
        record the held buffer's block, absorbing a repeat, and pin it. False is a store past
        the end of lh.block. */
    method LogWriteAppend(b: nat) returns (ok: bool)
      requires cache.Valid() && b < NBUF && cache.bufs[b].busy && cache.bufs[b].valid
      modifies cache`bufs, cache`st, this`lh
      ensures ok <==> old(cache.bufs[b].blockno) in old(lh) || |old(lh)| < LOGSIZE
      ensures cache.Valid()
      ensures !ok ==> lh == old(lh) && cache.bufs == old(cache.bufs) && cache.st == old(cache.st)
      ensures ok ==>
                lh == LogProtocol.Absorb(old(lh), old(cache.bufs[b].blockno)) &&
                cache.bufs == old(cache.bufs)[b := old(cache.bufs[b]).(dirty := true)] &&
                cache.st == old(cache.st).(pinned := old(cache.st).pinned + {old(cache.bufs[b].blockno)})
    {
      var bn := cache.bufs[b].blockno;
      var i := 0;
      while i < |lh|
        invariant i <= |lh| && bn !in lh[..i]
      {
        if lh[i] == bn { break; }
        i := i + 1;
      }
      if i == |lh| {
        assert lh[..i] == lh;
        if i >= LOGSIZE { return false; }
        lh := lh + [bn];
      } else {
        lh := lh[i := bn];
      }
      cache.Pin(b);
      ok := true;
    }

    /** log_write with nothing between the two. */
    method LogWrite(b: nat) returns (r: WriteResult)
      requires cache.Valid() && b < NBUF && cache.bufs[b].busy && cache.bufs[b].valid
      modifies cache`bufs, cache`st, this`lh
      ensures r.TooBig? <==> |old(lh)| >= LOGSIZE || |old(lh)| >= lay.size - 1
      ensures r.OutsideTrans? <==> !r.TooBig? && outstanding < 1
      ensures !r.NotRead? && cache.Valid()
      ensures !r.Recorded? ==> lh == old(lh) && cache.bufs == old(cache.bufs) && cache.st == old(cache.st)
      ensures r.Recorded? ==>
                lh == LogProtocol.Absorb(old(lh), old(cache.bufs[b].blockno)) &&
                cache.bufs == old(cache.bufs)[b := old(cache.bufs[b]).(dirty := true)] &&
                cache.st == old(cache.st).(pinned := old(cache.st).pinned + {old(cache.bufs[b].blockno)})
    {
      r := LogWriteTest();
      if r.Recorded? { var ok := LogWriteAppend(b); }
    }

    /** New data for a held buffer, logged. */
    method WriteHeld(b: nat, bn: nat, data: Block) returns (r: WriteResult)
      requires cache.Valid() && b < NBUF && cache.bufs[b].busy && cache.bufs[b].valid &&
               cache.bufs[b].blockno == bn < |cache.st.view|
      modifies cache`bufs, cache`st, this`lh
      ensures !r.NotRead? && cache.Valid()
      ensures r.TooBig? <==> |old(lh)| >= LOGSIZE || |old(lh)| >= lay.size - 1
      ensures r.OutsideTrans? <==> !r.TooBig? && outstanding < 1
      ensures r.Recorded? ==>
                lh == LogProtocol.Absorb(old(lh), bn) &&
                cache.bufs == old(cache.bufs)[b := old(cache.bufs[b]).(data := data, dirty := true)] &&
                cache.st == old(cache.st).(view := old(cache.st).view[bn := data],
                  pinned := old(cache.st).pinned + {bn})
    {
      cache.Modify(b, data);
      r := LogWrite(b);
    }

    /** brelse of the one buffer held, once it is pinned. */
    method Release(b: nat)
      requires cache.Valid() && b < NBUF && cache.bufs[b].dirty && cache.bufs[b].busy
      requires forall i :: 0 <= i < NBUF && cache.bufs[i].busy ==> i == b
      modifies cache`bufs, cache`links, cache`order
      ensures cache.Idle()
    {
      var ok := cache.Brelse(b);
    }

    /** How the file system changes a block: bread, modify, log_write, brelse. The
        cache shows the new data, the disk is untouched. */
    method UpdateBlock(bn: nat, data: Block) returns (r: WriteResult)
      requires cache.Idle() && Loggable(lay, cache.st.disk, lh) && PinsAre(cache.st.pinned, lh)
      requires IsHome(lay, cache.st.disk, bn)
      modifies cache, this`lh
      ensures r.NotRead? <==> |old(lh)| >= NBUF && bn !in old(lh)
      ensures r.TooBig? <==> !r.NotRead? && (|old(lh)| >= LOGSIZE || |old(lh)| >= lay.size - 1)
      ensures r.OutsideTrans? <==> !r.NotRead? && !r.TooBig? && outstanding < 1
      ensures r.Recorded? ==>
                cache.Idle() && lh == LogProtocol.Absorb(old(lh), bn) && bn < |old(cache.st).view| &&
                cache.st == old(cache.st).(view := old(cache.st).view[bn := data],
                  pinned := old(cache.st).pinned + {bn}) &&
                PinsAre(cache.st.pinned, lh) && Loggable(lay, cache.st.disk, lh)
    {
      ghost var pins := cache.st.pinned;
      if bn in pins { PinsOnly(pins, lh, bn); }
      var ok, b := AcquireOne(bn);
      if !ok { return NotRead; }
      r := ChangeHeld(b, bn, data);
      if r.Recorded? { AbsorbPins(lay, cache.st.disk, pins, old(lh), bn); }
    }

    /** The part of it after bread, with nothing else held. */
    method ChangeHeld(b: nat, bn: nat, data: Block) returns (r: WriteResult)
      requires cache.Valid() && b < NBUF && cache.bufs[b].busy && cache.bufs[b].valid
      requires cache.bufs[b].blockno == bn < |cache.st.view|
      requires forall i :: 0 <= i < NBUF && cache.bufs[i].busy ==> i == b
      modifies cache, this`lh
      ensures !r.NotRead?
      ensures r.TooBig? <==> |old(lh)| >= LOGSIZE || |old(lh)| >= lay.size - 1
      ensures r.OutsideTrans? <==> !r.TooBig? && outstanding < 1
      ensures r.Recorded? ==>
                cache.Idle() && lh == LogProtocol.Absorb(old(lh), bn) &&
                cache.st == old(cache.st).(view := old(cache.st).view[bn := data],
                  pinned := old(cache.st).pinned + {bn})
    {
      r := WriteHeld(b, bn, data);
      if r.Recorded? { Release(b); }
    }

    /** One pass of begin_op's loop: admitted, or sent to sleep. */
    method BeginOp() returns (admitted: bool)
      modifies this`outstanding
      ensures admitted <==> !committing && |lh| + (old(outstanding) + 1) * MAXOPBLOCKS <= LOGSIZE
      ensures outstanding == if admitted then old(outstanding) + 1 else old(outstanding)
    {
      if committing {
        admitted := false;
      } else if |lh| + (outstanding + 1) * MAXOPBLOCKS > LOGSIZE {
        admitted := false;
      } else {
        outstanding := outstanding + 1;
        admitted := true;
      }
    }

    /** end_op: the last operation of a group commits it. */
    method EndOp() returns (r: EndResult)
      requires cache.Idle() && Loggable(lay, cache.st.disk, lh) && PinsAre(cache.st.pinned, lh)
      requires |cache.st.view| == |cache.st.disk|
      modifies cache, this`lh, this`outstanding, this`committing
      ensures outstanding == old(outstanding) - 1
      ensures r.LogCommitting? <==> old(committing)
      ensures r.Woke? <==> !old(committing) && outstanding != 0
      ensures r.NoBuffersLeft? <==> !old(committing) && outstanding == 0 && |old(lh)| >= NBUF
      ensures r.Woke? || r.LogCommitting? ==>
              lh == old(lh) && cache.st == old(cache.st) && committing == old(committing)
      ensures r.NoBuffersLeft? ==> committing && lh == old(lh) && cache.st == old(cache.st)
      ensures r.CommitDone? ==> !committing && lh == [] && cache.Idle()
      ensures r.CommitDone? && old(lh) != [] ==> cache.st == CommitStore(lay, old(lh), old(cache.st))
      ensures r.CommitDone? && old(lh) == [] ==> cache.st == old(cache.st)
    {
      outstanding := outstanding - 1;
      if committing { return LogCommitting; }
      if outstanding != 0 { return Woke; }
      committing := true;
      var ok := Commit();
      if !ok { return NoBuffersLeft; }
      committing := false;
      r := CommitDone;
    }
  }

  /** Recording a block keeps the pinned blocks and the list in step. */
  lemma AbsorbPins(lay: Layout, d: Image, pins: set<nat>, bl: seq<nat>, bn: nat)
    requires Loggable(lay, d, bl) && PinsAre(pins, bl) && IsHome(lay, d, bn)
    requires |bl| < LOGSIZE && |bl| < lay.size - 1
    ensures PinsAre(pins + {bn}, LogProtocol.Absorb(bl, bn)) && Loggable(lay, d, LogProtocol.Absorb(bl, bn))
  {
    if bn in bl {
      assert pins + {bn} == pins;
    } else {
      if bn in pins { PinsOnly(pins, bl, bn); }
    }
  }

  lemma LogCopiedNext(lay: Layout, bl: seq<nat>, st: Store, k: nat, y: Store, z: Store)
    requires Loggable(lay, st.disk, bl) && |st.view| == |st.disk| && k < |bl| && y == LogCopied(lay, bl, st, k)
    requires z == Copied(y, bl[k], lay.start + k + 1)
    ensures z == LogCopied(lay, bl, st, k + 1)
  {
  }

  lemma InstallsNext(lay: Layout, bl: seq<nat>, st: Store, k: nat, y: Store, z: Store)
    requires Loggable(lay, st.disk, bl) && |st.view| == |st.disk| && k < |bl| && y == Installs(lay, bl, st, k)
    requires z == Copied(y, lay.start + k + 1, bl[k])
    ensures z == Installs(lay, bl, st, k + 1)
  {
  }

  lemma CopyPins(y: Store, src: nat, dst: nat, z: Store)
    requires src < |y.view| && dst < |y.disk| == |y.view| && z == Copied(y, src, dst)
    ensures z.pinned == y.pinned - {dst} && |z.pinned| <= |y.pinned| && (dst !in y.pinned ==> z.pinned == y.pinned)
  {
  }

  /** write_log pins and unpins nothing. */
  lemma {:induction false} LogCopiedPins(lay: Layout, bl: seq<nat>, st: Store, k: nat)
    requires Loggable(lay, st.disk, bl) && |st.view| == |st.disk| && k <= |bl| && HomePins(lay, st.pinned)
    ensures LogCopied(lay, bl, st, k).pinned == st.pinned
  {
    if k > 0 {
      LogCopiedPins(lay, bl, st, k - 1);
      LogCopyPins(lay, bl, st, k, LogCopied(lay, bl, st, k - 1), LogCopied(lay, bl, st, k));
    }
  }

  lemma LogCopyPins(lay: Layout, bl: seq<nat>, st: Store, k: nat, y: Store, z: Store)
    requires 0 < k < lay.size && k <= |bl| && HomePins(lay, st.pinned) && y.pinned == st.pinned
    requires bl[k - 1] < |y.view| == |y.disk| && lay.start + k < |y.disk| && z == Copied(y, bl[k - 1], lay.start + k)
    ensures z.pinned == st.pinned
  {
    assert InLog(lay, lay.start + k);
    CopyPins(y, bl[k - 1], lay.start + k, z);
  }

  /** What is pinned of pins once the first k blocks of bl are not. */
  ghost predicate PinsLeft(pins: set<nat>, bl: seq<nat>, k: nat, p: set<nat>) {
    p <= pins && |p| <= |pins| && (forall i :: k <= i < |bl| && bl[i] in pins ==> bl[i] in p) &&
    (PinsAre(pins, bl) ==> |p| == |bl| - k)
  }

  /** So it does in the protocol's account of what is pinned. */
  lemma ProtocolPins(m: LogProtocol.Mem, k: nat)
    requires Distinct(m.lh) && m.commit.Writing? && m.commit.pc == |m.lh| + 1 + k && k <= |m.lh|
    ensures PinsLeft(LogProtocol.Elems(m.lh), m.lh, k, LogProtocol.Pinned(m))
    ensures |LogProtocol.Pinned(m)| == |m.lh| - k
  {
    var rest := m.lh[k..];
    assert k == 0 ==> rest == m.lh;
    LogProtocol.ElemsCount(m.lh);
    LogProtocol.ElemsCount(rest);
    Fewer(LogProtocol.Pinned(m), LogProtocol.Elems(m.lh));
  }

  /** install_trans unpins what it has installed and nothing else. */
  lemma {:induction false} InstallsPins(lay: Layout, bl: seq<nat>, st: Store, k: nat)
    requires Loggable(lay, st.disk, bl) && |st.view| == |st.disk| && k <= |bl|
    ensures PinsLeft(st.pinned, bl, k, Installs(lay, bl, st, k).pinned)
  {
    if k > 0 {
      InstallsPins(lay, bl, st, k - 1);
      var y, z := Installs(lay, bl, st, k - 1), Installs(lay, bl, st, k);
      CopyPins(y, lay.start + k, bl[k - 1], z);
      UnpinOne(st.pinned, y.pinned, z.pinned, bl, k);
    }
  }

  lemma UnpinOne(pins: set<nat>, y: set<nat>, z: set<nat>, bl: seq<nat>, k: nat)
    requires 0 < k <= |bl| && Distinct(bl) && z == y - {bl[k - 1]} && PinsLeft(pins, bl, k - 1, y)
    ensures PinsLeft(pins, bl, k, z)
  {
    if bl[k - 1] in y { assert y == z + {bl[k - 1]}; }
  }

  /** There is a buffer for each of the two blocks of an install. */
  lemma InstallFits(lay: Layout, bl: seq<nat>, st: Store, k: nat, cur: Store)
    requires Loggable(lay, st.disk, bl) && |st.view| == |st.disk| && k < |bl| && cur == Installs(lay, bl, st, k)
    requires st.pinned == {} || (PinsAre(st.pinned, bl) && |bl| < NBUF)
    ensures lay.start + k + 1 < |st.disk| && bl[k] < |st.disk| && bl[k] != lay.start + k + 1
    ensures |cur.pinned| + 2 <= NBUF || (|cur.pinned| < NBUF && bl[k] in cur.pinned)
  {
    InstallsPins(lay, bl, st, k);
    assert InLog(lay, lay.start + k + 1) && IsHome(lay, st.disk, bl[k]);
  }

  lemma CommitPins(lay: Layout, bl: seq<nat>, st: Store)
    requires Loggable(lay, st.disk, bl) && |st.view| == |st.disk| && PinsAre(st.pinned, bl)
    ensures LogCopied(lay, bl, st, |bl|).pinned == st.pinned
  {
    PinsHome(lay, st.disk, st.pinned, bl);
    LogCopiedPins(lay, bl, st, |bl|);
  }
}

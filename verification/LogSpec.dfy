/** The write-ahead log on disk, as values: what the header says, which images
    a commit and a recovery put on the disk one block write at a time, and what
    a completed recovery makes of any of them (log.c). */
module LogSpec {
  import opened Blocks
  import opened Lists

  const MAXOPBLOCKS := 10
  const LOGSIZE := MAXOPBLOCKS * 3

  /** log.start and log.size: a header block followed by size - 1 log blocks. */
  datatype Layout = Layout(start: nat, size: nat)

  predicate InLog(lay: Layout, bn: int) {
    lay.start <= bn < lay.start + lay.size
  }

  predicate Fits(lay: Layout, d: Image) {
    1 <= lay.size && lay.start + lay.size <= |d| < 0x8000_0000
  }

  /** bn is a block number outside the log region. */
  predicate IsHome(lay: Layout, d: Image, bn: int) {
    0 <= bn < |d| && !InLog(lay, bn)
  }

  /** The blocks outside the log region. */
  function Home(lay: Layout, d: Image): Image {
    if lay.start + lay.size <= |d| then d[..lay.start] + d[lay.start + lay.size..] else []
  }

  ghost predicate SameHome(lay: Layout, d: Image, e: Image) {
    |d| == |e| && Home(lay, d) == Home(lay, e)
  }

  /** Equal home regions, block by block. */
  lemma SameHomeAt(lay: Layout, d: Image, e: Image)
    requires |d| == |e| && lay.start + lay.size <= |d|
    ensures SameHome(lay, d, e) <==> forall bn :: IsHome(lay, d, bn) ==> d[bn] == e[bn]
  {
    var h, g := Home(lay, d), Home(lay, e);
    var a := lay.start;
    if h == g {
      forall bn | IsHome(lay, d, bn)
        ensures d[bn] == e[bn]
      {
        var i := if a <= bn then bn - lay.size else bn;
        assert h[i] == d[bn] && g[i] == e[bn];
      }
    }
    if forall bn :: IsHome(lay, d, bn) ==> d[bn] == e[bn] {
      forall i | 0 <= i < |h|
        ensures h[i] == g[i]
      {
        var bn := if a <= i then i + lay.size else i;
        assert IsHome(lay, d, bn);
        assert h[i] == d[bn] && g[i] == e[bn];
      }
    }
  }

  lemma SameHomeUpdate(lay: Layout, d: Image, e: Image, bn: nat, b: Block)
    requires SameHome(lay, d, e) && Fits(lay, d) && bn < |d|
    ensures SameHome(lay, d[bn := b], e[bn := b])
  {
    SameHomeAt(lay, d, e);
    SameHomeAt(lay, d[bn := b], e[bn := b]);
  }

  // ---- The header block ----

  function HeadN(lay: Layout, d: Image): Word
    requires Fits(lay, d)
  {
    GetWord(d[lay.start], 0)
  }

  /** The first n block numbers stored in header block b. */
  function HeadBlocksIn(b: Block, n: nat): (bl: seq<nat>)
    requires n <= LOGSIZE
    ensures |bl| == n
  {
    if n == 0 then [] else HeadBlocksIn(b, n - 1) + [GetWord(b, 4 * n)]
  }

  function HeadBlocks(lay: Layout, d: Image): seq<nat>
    requires Fits(lay, d) && HeadN(lay, d) <= LOGSIZE
  {
    HeadBlocksIn(d[lay.start], HeadN(lay, d))
  }

  /** The header block b after write_head has stored n and the first k block numbers. */
  function PutBlocks(b: Block, bl: seq<nat>, k: nat): Block
    requires k <= |bl| <= LOGSIZE && forall i :: 0 <= i < |bl| ==> bl[i] < 0x8000_0000
  {
    if k == 0 then PutWord(b, 0, |bl|) else PutWord(PutBlocks(b, bl, k - 1), 4 * k, bl[k - 1])
  }

  /** Reading the header back while it is being written. */
  lemma {:induction false} PutBlocksReads(b: Block, bl: seq<nat>, k: nat)
    requires k <= |bl| <= LOGSIZE && forall i :: 0 <= i < |bl| ==> bl[i] < 0x8000_0000
    ensures GetWord(PutBlocks(b, bl, k), 0) == |bl|
    ensures HeadBlocksIn(PutBlocks(b, bl, k), k) == bl[..k]
  {
    if k == 0 {
      GetPutWord(b, 0, |bl|);
    } else {
      var c := PutBlocks(b, bl, k - 1);
      PutBlocksReads(b, bl, k - 1);
      GetPutWord(c, 4 * k, bl[k - 1]);
      GetPutWordOther(c, 4 * k, bl[k - 1], 0);
      HeadBlocksBelow(c, 4 * k, bl[k - 1], k - 1);
      assert bl[..k] == bl[..k - 1] + [bl[k - 1]];
    }
  }

  lemma {:induction false} HeadBlocksBelow(b: Block, o: nat, w: Word, n: nat)
    requires n <= LOGSIZE && 4 * n + 4 <= o && o + 4 <= BSIZE
    ensures HeadBlocksIn(PutWord(b, o, w), n) == HeadBlocksIn(b, n)
  {
    if n > 0 {
      HeadBlocksBelow(b, o, w, n - 1);
      GetPutWordOther(b, o, w, 4 * n);
    }
  }

  /** The image after write_head with in-memory block list bl. */
  function WriteHead(lay: Layout, d: Image, bl: seq<nat>): Image
    requires Fits(lay, d) && |bl| <= LOGSIZE && forall i :: 0 <= i < |bl| ==> bl[i] < 0x8000_0000
  {
    d[lay.start := PutBlocks(d[lay.start], bl, |bl|)]
  }

  /** The header round trip: reading back what write_head wrote. */
  lemma WriteHeadReads(lay: Layout, d: Image, bl: seq<nat>)
    requires Fits(lay, d) && |bl| <= LOGSIZE && forall i :: 0 <= i < |bl| ==> bl[i] < 0x8000_0000
    ensures HeadN(lay, WriteHead(lay, d, bl)) == |bl|
    ensures HeadBlocks(lay, WriteHead(lay, d, bl)) == bl
    ensures SameHome(lay, d, WriteHead(lay, d, bl))
  {
    PutBlocksReads(d[lay.start], bl, |bl|);
    assert bl[..|bl|] == bl;
  }

  /** A block list the in-memory header can hold: every entry is a home block, named once. */
  ghost predicate Listed(lay: Layout, d: Image, bl: seq<nat>) {
    Fits(lay, d) && |bl| <= LOGSIZE && Distinct(bl) && forall i :: 0 <= i < |bl| ==> IsHome(lay, d, bl[i])
  }

  /** One the log region can hold too. */
  ghost predicate Loggable(lay: Layout, d: Image, bl: seq<nat>) {
    Listed(lay, d, bl) && |bl| < lay.size
  }

  /** The header on disk names a list the log can hold. */
  ghost predicate HeadOk(lay: Layout, d: Image) {
    Fits(lay, d) && HeadN(lay, d) <= LOGSIZE && Loggable(lay, d, HeadBlocks(lay, d))
  }

  // ---- Overlays ----

  /** d after storing data[i] in block bl[i], for i below k in order. */
  function Overlay(d: Image, bl: seq<nat>, data: seq<Block>, k: nat): (e: Image)
    requires k <= |bl| == |data| && forall i :: 0 <= i < |bl| ==> bl[i] < |d|
    ensures |e| == |d|
  {
    if k == 0 then d else Overlay(d, bl, data, k - 1)[bl[k - 1] := data[k - 1]]
  }

  /** Overlay, block by block. */
  lemma {:induction false} OverlayAt(d: Image, bl: seq<nat>, data: seq<Block>, k: nat)
    requires k <= |bl| == |data| && forall i :: 0 <= i < |bl| ==> bl[i] < |d|
    requires Distinct(bl)
    ensures forall i :: 0 <= i < k ==> Overlay(d, bl, data, k)[bl[i]] == data[i]
    ensures forall bn :: 0 <= bn < |d| && bn !in bl[..k] ==> Overlay(d, bl, data, k)[bn] == d[bn]
  {
    if k > 0 {
      OverlayAt(d, bl, data, k - 1);
      assert bl[..k] == bl[..k - 1] + [bl[k - 1]];
    }
  }

  /** Installing over a partly installed image gives the fully installed one. */
  lemma OverlayResume(d: Image, bl: seq<nat>, data: seq<Block>, k: nat)
    requires k <= |bl| == |data| && forall i :: 0 <= i < |bl| ==> bl[i] < |d|
    requires Distinct(bl)
    ensures Overlay(Overlay(d, bl, data, k), bl, data, |bl|) == Overlay(d, bl, data, |bl|)
  {
    var p, n := Overlay(d, bl, data, k), |bl|;
    OverlayAt(d, bl, data, k);
    OverlayAt(p, bl, data, n);
    OverlayAt(d, bl, data, n);
    assert bl[..n] == bl;
    forall bn | 0 <= bn < |d|
      ensures Overlay(p, bl, data, n)[bn] == Overlay(d, bl, data, n)[bn]
    {
      if bn in bl {
        var i :| 0 <= i < n && bl[i] == bn;
      } else {
        assert bn !in bl[..k];
      }
    }
  }

  // ---- Recovery ----

  /** The contents of the first n log blocks. */
  function LogData(lay: Layout, d: Image, n: nat): seq<Block>
    requires Fits(lay, d) && n < lay.size
  {
    seq(n, i requires 0 <= i < n => d[lay.start + 1 + i])
  }

  /** The image once install_trans has copied the first k logged blocks home. */
  ghost function Installed(lay: Layout, d: Image, k: nat): Image
    requires HeadOk(lay, d) && k <= HeadN(lay, d)
  {
    var bl := HeadBlocks(lay, d);
    Overlay(d, bl, LogData(lay, d, |bl|), k)
  }

  /** The image a completed recover_from_log leaves behind. */
  ghost function Recovered(lay: Layout, d: Image): Image
    requires HeadOk(lay, d)
  {
    WriteHead(lay, Installed(lay, d, HeadN(lay, d)), [])
  }

  /** Everything recover_from_log puts on the disk, one image per block write. */
  ghost function RecoveryImages(lay: Layout, d: Image): seq<Image>
    requires HeadOk(lay, d)
  {
    seq(HeadN(lay, d), i requires 0 <= i < HeadN(lay, d) => Installed(lay, d, i + 1)) + [Recovered(lay, d)]
  }

  /** Installing never touches the log region, so the header and the log stay readable. */
  lemma InstalledKeepsLog(lay: Layout, d: Image, k: nat)
    requires HeadOk(lay, d) && k <= HeadN(lay, d)
    ensures var e := Installed(lay, d, k);
            |e| == |d| && HeadOk(lay, e) && HeadN(lay, e) == HeadN(lay, d) &&
            HeadBlocks(lay, e) == HeadBlocks(lay, d) &&
            LogData(lay, e, HeadN(lay, e)) == LogData(lay, d, HeadN(lay, d)) &&
            forall bn :: InLog(lay, bn) ==> e[bn] == d[bn]
  {
    var bl := HeadBlocks(lay, d);
    OverlayAt(d, bl, LogData(lay, d, |bl|), k);
    var e := Installed(lay, d, k);
    forall bn | InLog(lay, bn)
      ensures e[bn] == d[bn]
    {
      assert bn !in bl[..k];
    }
    assert e[lay.start] == d[lay.start];
  }

  /** A second recovery started from any image of a first one ends the same way. */
  lemma RecoveryImagesRecover(lay: Layout, d: Image, i: nat)
    requires HeadOk(lay, d) && i < |RecoveryImages(lay, d)|
    ensures HeadOk(lay, RecoveryImages(lay, d)[i])
    ensures SameHome(lay, Recovered(lay, RecoveryImages(lay, d)[i]), Recovered(lay, d))
  {
    var n := HeadN(lay, d);
    var bl := HeadBlocks(lay, d);
    var data := LogData(lay, d, n);
    var full := Installed(lay, d, n);
    InstalledKeepsLog(lay, d, n);
    if i < n {
      var e := Installed(lay, d, i + 1);
      InstalledKeepsLog(lay, d, i + 1);
      OverlayResume(d, bl, data, i + 1);
      assert Installed(lay, e, n) == full;
    } else {
      RecoveredIdle(lay, full);
    }
  }

  /** Writing an empty header leaves nothing to install. */
  lemma RecoveredIdle(lay: Layout, d: Image)
    requires Fits(lay, d)
    ensures var e := WriteHead(lay, d, []); HeadOk(lay, e) && HeadN(lay, e) == 0 && SameHome(lay, Recovered(lay, e), d)
  {
    var e := WriteHead(lay, d, []);
    WriteHeadReads(lay, d, []);
    assert Installed(lay, e, 0) == e;
    WriteHeadReads(lay, e, []);
  }

  /** With an empty header, recovery keeps every home block. */
  lemma RecoverIdle(lay: Layout, d: Image)
    requires HeadOk(lay, d) && HeadN(lay, d) == 0
    ensures SameHome(lay, Recovered(lay, d), d)
  {
    assert Installed(lay, d, 0) == d;
    WriteHeadReads(lay, d, []);
  }

  /** A chain of crashes: each image is where the recovery of the one before it stopped. */
  ghost predicate CrashChain(lay: Layout, c: seq<Image>) {
    |c| > 0 && (forall i :: 0 <= i < |c| ==> HeadOk(lay, c[i])) &&
    forall i :: 0 < i < |c| ==> c[i] == c[i - 1] || c[i] in RecoveryImages(lay, c[i - 1])
  }

  /** However often recovery itself is cut short, the recovery that finishes
      yields the home blocks of the first crash image's recovery. */
  lemma {:induction false} CrashChainRecovers(lay: Layout, c: seq<Image>)
    requires CrashChain(lay, c)
    ensures SameHome(lay, Recovered(lay, c[|c| - 1]), Recovered(lay, c[0]))
    decreases |c|
  {
    if |c| > 1 {
      var b := c[..|c| - 1];
      CrashChainRecovers(lay, b);
      var e, f := c[|c| - 2], c[|c| - 1];
      if f != e {
        var i :| 0 <= i < |RecoveryImages(lay, e)| && f == RecoveryImages(lay, e)[i];
        RecoveryImagesRecover(lay, e, i);
      }
    }
  }

  // ---- Commit ----

  /** The log block numbers start + 1 .. start + n. */
  function LogSlots(lay: Layout, n: nat): seq<nat> {
    seq(n, i => lay.start + 1 + i)
  }

  /** The image once write_log has copied the first k cached blocks into the log. */
  function LogWritten(lay: Layout, d: Image, data: seq<Block>, k: nat): (e: Image)
    requires Fits(lay, d) && k <= |data| < lay.size
    ensures |e| == |d|
  {
    Overlay(d, LogSlots(lay, |data|), data, k)
  }

  /** The image right after the commit point: log full, header written. */
  function Committed(lay: Layout, d: Image, bl: seq<nat>, data: seq<Block>): (e: Image)
    requires Fits(lay, d) && |bl| == |data| <= LOGSIZE && |data| < lay.size
    requires forall i :: 0 <= i < |bl| ==> bl[i] < |d|
    ensures |e| == |d|
  {
    WriteHead(lay, LogWritten(lay, d, data, |data|), bl)
  }

  /** The number of block writes in a commit of n blocks. */
  function CommitWrites(n: nat): nat { 2 * n + 2 }

  /** Block write k of commit stores here: the log blocks, the header, the home
      blocks, the header again. */
  function CommitTarget(lay: Layout, bl: seq<nat>, k: nat): nat {
    var n := |bl|;
    if k < n then lay.start + 1 + k
    else if n < k <= 2 * n then bl[k - n - 1]
    else lay.start
  }

  /** What block write k of commit stores when the disk is e: write_log copies from
      the cache, install_trans from the log, write_head changes the header in place. */
  function CommitData(lay: Layout, e: Image, bl: seq<nat>, data: seq<Block>, k: nat): Block
    requires Fits(lay, e) && |bl| == |data| <= LOGSIZE && |bl| < lay.size && k < CommitWrites(|bl|)
    requires forall i :: 0 <= i < |bl| ==> bl[i] < |e|
  {
    var n := |bl|;
    if k < n then data[k]
    else if k == n then PutBlocks(e[lay.start], bl, n)
    else if k <= 2 * n then e[lay.start + 1 + (k - n - 1)]
    else PutBlocks(e[lay.start], [], 0)
  }

  /** The disk after the first k block writes of commit. */
  ghost function CommitImage(lay: Layout, d: Image, bl: seq<nat>, data: seq<Block>, k: nat): (e: Image)
    requires Loggable(lay, d, bl) && |bl| == |data| && k <= CommitWrites(|bl|)
    ensures |e| == |d|
  {
    if k == 0 then d else
    var e := CommitImage(lay, d, bl, data, k - 1);
    e[CommitTarget(lay, bl, k - 1) := CommitData(lay, e, bl, data, k - 1)]
  }

  lemma LogWrittenKeepsHome(lay: Layout, d: Image, data: seq<Block>, k: nat)
    requires Fits(lay, d) && k <= |data| < lay.size
    ensures var e := LogWritten(lay, d, data, k);
            SameHome(lay, d, e) && e[lay.start] == d[lay.start] &&
            forall i :: 0 <= i < k ==> e[lay.start + 1 + i] == data[i]
  {
    var sl := LogSlots(lay, |data|);
    OverlayAt(d, sl, data, k);
    forall i | 0 <= i < k
      ensures LogWritten(lay, d, data, k)[lay.start + 1 + i] == data[i]
    {
      assert sl[i] == lay.start + 1 + i;
    }
  }

  /** After the commit point the log holds exactly the transaction. */
  lemma CommittedReads(lay: Layout, d: Image, bl: seq<nat>, data: seq<Block>)
    requires Loggable(lay, d, bl) && |bl| == |data|
    ensures var c := Committed(lay, d, bl, data);
            SameHome(lay, d, c) && HeadOk(lay, c) && HeadN(lay, c) == |bl| &&
            HeadBlocks(lay, c) == bl && LogData(lay, c, |bl|) == data
  {
    LogWrittenKeepsHome(lay, d, data, |data|);
    WriteHeadReads(lay, LogWritten(lay, d, data, |data|), bl);
  }

  /** The home blocks once the transaction is in place. */
  ghost predicate IsPost(lay: Layout, d: Image, bl: seq<nat>, data: seq<Block>, e: Image)
    requires Loggable(lay, d, bl) && |bl| == |data|
  {
    SameHome(lay, Overlay(d, bl, data, |bl|), e)
  }

  lemma OverlaySameHome(lay: Layout, d: Image, e: Image, bl: seq<nat>, data: seq<Block>, k: nat)
    requires SameHome(lay, d, e) && Loggable(lay, d, bl) && k <= |bl| == |data|
    ensures SameHome(lay, Overlay(d, bl, data, k), Overlay(e, bl, data, k))
  {
    if k > 0 {
      OverlaySameHome(lay, d, e, bl, data, k - 1);
      SameHomeUpdate(lay, Overlay(d, bl, data, k - 1), Overlay(e, bl, data, k - 1), bl[k - 1], data[k - 1]);
    }
  }

  /** While installing, log block j still holds the data of entry j. */
  lemma InstallReadsLog(lay: Layout, d: Image, bl: seq<nat>, data: seq<Block>, j: nat)
    requires Loggable(lay, d, bl) && j < |bl| == |data|
    ensures Overlay(Committed(lay, d, bl, data), bl, data, j)[lay.start + 1 + j] == data[j]
  {
    var c := Committed(lay, d, bl, data);
    CommittedReads(lay, d, bl, data);
    assert Overlay(c, bl, data, j) == Installed(lay, c, j);
    InstalledKeepsLog(lay, c, j);
    assert LogData(lay, c, |bl|)[j] == c[lay.start + 1 + j];
  }

  /** The images of commit in closed form, phase by phase. */
  lemma {:induction false} CommitLogPhase(lay: Layout, d: Image, bl: seq<nat>, data: seq<Block>, k: nat)
    requires Loggable(lay, d, bl) && |bl| == |data| && k <= |bl|
    ensures CommitImage(lay, d, bl, data, k) == LogWritten(lay, d, data, k)
  {
    if k > 0 {
      CommitLogPhase(lay, d, bl, data, k - 1);
      assert LogSlots(lay, |bl|)[k - 1] == lay.start + k;
    }
  }

  lemma {:induction false} CommitInstallPhase(lay: Layout, d: Image, bl: seq<nat>, data: seq<Block>, j: nat)
    requires Loggable(lay, d, bl) && j <= |bl| == |data|
    ensures CommitImage(lay, d, bl, data, |bl| + 1 + j) == Overlay(Committed(lay, d, bl, data), bl, data, j)
  {
    if j == 0 {
      CommitLogPhase(lay, d, bl, data, |bl|);
    } else {
      CommitInstallPhase(lay, d, bl, data, j - 1);
      InstallReadsLog(lay, d, bl, data, j - 1);
      var e, f := CommitImage(lay, d, bl, data, |bl| + j), CommitImage(lay, d, bl, data, |bl| + 1 + j);
      CommitInstallStep(lay, d, bl, data, j, e, f);
      OverlayOne(Committed(lay, d, bl, data), bl, data, j, e, f);
    }
  }

  lemma OverlayOne(c: Image, bl: seq<nat>, data: seq<Block>, j: nat, e: Image, f: Image)
    requires 0 < j <= |bl| == |data| && (forall i :: 0 <= i < |bl| ==> bl[i] < |c|)
    requires e == Overlay(c, bl, data, j - 1) && f == e[bl[j - 1] := data[j - 1]]
    ensures f == Overlay(c, bl, data, j)
  {
  }

  lemma CommitInstallStep(lay: Layout, d: Image, bl: seq<nat>, data: seq<Block>, j: nat, e: Image, f: Image)
    requires Loggable(lay, d, bl) && 0 < j <= |bl| == |data|
    requires e == CommitImage(lay, d, bl, data, |bl| + j) && f == CommitImage(lay, d, bl, data, |bl| + 1 + j)
    ensures f == e[bl[j - 1] := e[lay.start + j]]
  {
  }

  /** Up to the header write, recovery sees an empty log. */
  lemma CrashBeforeHeader(lay: Layout, d: Image, bl: seq<nat>, data: seq<Block>, k: nat, e: Image)
    requires HeadOk(lay, d) && HeadN(lay, d) == 0 && Loggable(lay, d, bl) && k <= |bl| == |data|
    requires e == CommitImage(lay, d, bl, data, k)
    ensures HeadOk(lay, e) && SameHome(lay, d, Recovered(lay, e))
  {
    CommitLogPhase(lay, d, bl, data, k);
    LogWrittenKeepsHome(lay, d, data, k);
    assert e[lay.start] == d[lay.start];
    RecoverIdle(lay, e);
  }

  /** From the header write on, recovery redoes the transaction. */
  lemma CrashWhileInstalling(lay: Layout, d: Image, bl: seq<nat>, data: seq<Block>, j: nat, e: Image)
    requires Loggable(lay, d, bl) && j <= |bl| == |data|
    requires e == CommitImage(lay, d, bl, data, |bl| + 1 + j)
    ensures HeadOk(lay, e) && IsPost(lay, d, bl, data, Recovered(lay, e))
  {
    var c := Committed(lay, d, bl, data);
    CommitInstallPhase(lay, d, bl, data, j);
    CommittedReads(lay, d, bl, data);
    InstallingRecovers(lay, c, bl, data, j, e);
    OverlaySameHome(lay, d, c, bl, data, |bl|);
  }

  /** Recovery of a partly installed image completes the installation. */
  lemma InstallingRecovers(lay: Layout, c: Image, bl: seq<nat>, data: seq<Block>, j: nat, e: Image)
    requires HeadOk(lay, c) && HeadBlocks(lay, c) == bl && LogData(lay, c, |bl|) == data && j <= |bl|
    requires e == Overlay(c, bl, data, j)
    ensures HeadOk(lay, e) && SameHome(lay, Overlay(c, bl, data, |bl|), Recovered(lay, e))
  {
    assert e == Installed(lay, c, j);
    InstalledKeepsLog(lay, c, j);
    OverlayResume(c, bl, data, j);
    assert Installed(lay, e, |bl|) == Overlay(c, bl, data, |bl|);
    WriteHeadReads(lay, Overlay(c, bl, data, |bl|), []);
  }

  /** Once the header is empty again the transaction is home. */
  lemma CommitEnds(lay: Layout, d: Image, bl: seq<nat>, data: seq<Block>, e: Image)
    requires Loggable(lay, d, bl) && |bl| == |data| && e == CommitImage(lay, d, bl, data, CommitWrites(|bl|))
    ensures HeadOk(lay, e) && HeadN(lay, e) == 0 && IsPost(lay, d, bl, data, e)
    ensures IsPost(lay, d, bl, data, Recovered(lay, e))
  {
    var c := Committed(lay, d, bl, data);
    var full := Overlay(c, bl, data, |bl|);
    CommitClears(lay, d, bl, data, full, e);
    CommittedReads(lay, d, bl, data);
    OverlaySameHome(lay, d, c, bl, data, |bl|);
    RecoveredIdle(lay, full);
    WriteHeadReads(lay, full, []);
  }

  lemma CommitClears(lay: Layout, d: Image, bl: seq<nat>, data: seq<Block>, full: Image, e: Image)
    requires Loggable(lay, d, bl) && |bl| == |data| && e == CommitImage(lay, d, bl, data, CommitWrites(|bl|))
    requires full == Overlay(Committed(lay, d, bl, data), bl, data, |bl|)
    ensures e == WriteHead(lay, full, [])
  {
    CommitInstallPhase(lay, d, bl, data, |bl|);
  }

  /** Crash atomicity of one commit: recovering the image left by any number k of
      its block writes gives the whole pre-image up to the header write and the
      whole post-image from the header write on. */
  lemma CommitCrashAtomic(lay: Layout, d: Image, bl: seq<nat>, data: seq<Block>, k: nat, e: Image)
    requires HeadOk(lay, d) && HeadN(lay, d) == 0
    requires Loggable(lay, d, bl) && |bl| == |data| && k <= CommitWrites(|bl|)
    requires e == CommitImage(lay, d, bl, data, k)
    ensures HeadOk(lay, e)
    ensures if k <= |bl| then SameHome(lay, d, Recovered(lay, e)) else IsPost(lay, d, bl, data, Recovered(lay, e))
  {
    if k <= |bl| {
      CrashBeforeHeader(lay, d, bl, data, k, e);
    } else if k <= 2 * |bl| + 1 {
      CrashWhileInstalling(lay, d, bl, data, k - |bl| - 1, e);
    } else {
      CommitEnds(lay, d, bl, data, e);
    }
  }

  /** The same with recovery crashing any number of times: whatever chain of crashes
      starts from a commit image, the final recovery is all or nothing. */
  lemma CommitCrashChainAtomic(lay: Layout, d: Image, bl: seq<nat>, data: seq<Block>, k: nat, c: seq<Image>)
    requires HeadOk(lay, d) && HeadN(lay, d) == 0
    requires Loggable(lay, d, bl) && |bl| == |data| && k <= CommitWrites(|bl|)
    requires CrashChain(lay, c) && c[0] == CommitImage(lay, d, bl, data, k)
    ensures var r := Recovered(lay, c[|c| - 1]);
            if k <= |bl| then SameHome(lay, d, r) else IsPost(lay, d, bl, data, r)
  {
    CommitCrashAtomic(lay, d, bl, data, k, c[0]);
    CrashChainRecovers(lay, c);
  }

  // ---- The loops of log.c, write by write ----

  /** The disk after install_trans has done its first k copies for the list bl. */
  function InstallSteps(lay: Layout, d: Image, bl: seq<nat>, k: nat): (e: Image)
    requires Fits(lay, d) && k <= |bl| < lay.size && forall i :: 0 <= i < |bl| ==> bl[i] < |d|
    ensures |e| == |d|
  {
    if k == 0 then d else
    var e := InstallSteps(lay, d, bl, k - 1);
    e[bl[k - 1] := e[lay.start + k]]
  }

  /** After the commit point, commit's writes are those of install_trans. */
  lemma {:induction false} CommitInstalls(lay: Layout, d: Image, bl: seq<nat>, data: seq<Block>, k: nat)
    requires Loggable(lay, d, bl) && k <= |bl| == |data|
    ensures CommitImage(lay, d, bl, data, |bl| + 1 + k)
         == InstallSteps(lay, CommitImage(lay, d, bl, data, |bl| + 1), bl, k)
  {
    if k > 0 { CommitInstalls(lay, d, bl, data, k - 1); }
  }

  /** So are recovery's. */
  lemma {:induction false} RecoveryInstalls(lay: Layout, d: Image, bl: seq<nat>, k: nat)
    requires HeadOk(lay, d) && bl == HeadBlocks(lay, d) && k <= |bl|
    ensures Installed(lay, d, k) == InstallSteps(lay, d, bl, k)
  {
    if k > 0 {
      RecoveryInstalls(lay, d, bl, k - 1);
      InstalledKeepsLog(lay, d, k - 1);
      assert LogData(lay, d, |bl|)[k - 1] == d[lay.start + k];
    }
  }

  /** The first k images of install_trans. */
  function InstallTrace(lay: Layout, d: Image, bl: seq<nat>, k: nat): (t: seq<Image>)
    requires Fits(lay, d) && k <= |bl| < lay.size && forall i :: 0 <= i < |bl| ==> bl[i] < |d|
    ensures |t| == k
  {
    if k == 0 then [] else InstallTrace(lay, d, bl, k - 1) + [InstallSteps(lay, d, bl, k)]
  }

  /** The first k images of commit. */
  ghost function CommitTrace(lay: Layout, d: Image, bl: seq<nat>, data: seq<Block>, k: nat): (t: seq<Image>)
    requires Loggable(lay, d, bl) && |bl| == |data| && k <= CommitWrites(|bl|)
    ensures |t| == k
  {
    if k == 0 then [] else CommitTrace(lay, d, bl, data, k - 1) + [CommitImage(lay, d, bl, data, k)]
  }

  lemma {:induction false} CommitTraceAt(lay: Layout, d: Image, bl: seq<nat>, data: seq<Block>, k: nat, i: nat)
    requires Loggable(lay, d, bl) && |bl| == |data| && i < k <= CommitWrites(|bl|)
    ensures CommitTrace(lay, d, bl, data, k)[i] == CommitImage(lay, d, bl, data, i + 1)
  {
    if i < k - 1 { CommitTraceAt(lay, d, bl, data, k - 1, i); }
  }

  /** install_trans's images continue write_head's. */
  lemma {:induction false} CommitTraceInstalls(lay: Layout, d: Image, bl: seq<nat>, data: seq<Block>, d1: Image, k: nat)
    requires Loggable(lay, d, bl) && k <= |bl| == |data| && d1 == CommitImage(lay, d, bl, data, |bl| + 1)
    ensures CommitTrace(lay, d, bl, data, |bl| + 1 + k)
         == CommitTrace(lay, d, bl, data, |bl| + 1) + InstallTrace(lay, d1, bl, k)
  {
    if k > 0 {
      CommitTraceInstalls(lay, d, bl, data, d1, k - 1);
      CommitInstalls(lay, d, bl, data, k);
    }
  }

  /** recover_from_log's images are install_trans's and the empty header. */
  lemma {:induction false} RecoveryTrace(lay: Layout, d: Image, bl: seq<nat>, k: nat)
    requires HeadOk(lay, d) && bl == HeadBlocks(lay, d) && k <= |bl|
    ensures InstallTrace(lay, d, bl, k) == RecoveryImages(lay, d)[..k]
  {
    if k > 0 {
      RecoveryTrace(lay, d, bl, k - 1);
      RecoveryInstalls(lay, d, bl, k);
      assert RecoveryImages(lay, d)[..k] == RecoveryImages(lay, d)[..k - 1] + [Installed(lay, d, k)];
    }
  }
}

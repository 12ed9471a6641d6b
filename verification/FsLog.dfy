/** What the calls of the file system log: the writes in order, which blocks they go to and
    how many they are (fs.c, file.c). */
module FsLog {
  import opened Blocks
  import opened Lists
  import opened Writes
  import opened FsLayout
  import opened FsSpec
  import opened FsFile
  import opened FsTrunc

  function Min(a: nat, b: nat): nat {
    if a < b then a else b
  }

  /** The block numbers from a up to b. */
  function Between(a: nat, b: nat): (s: set<nat>)
    ensures forall x: nat :: x in s <==> a <= x < b
  {
    if b <= a then {} else Between(a, b - 1) + {b - 1}
  }

  lemma {:induction false} BetweenCount(a: nat, b: nat)
    requires a <= b
    ensures |Between(a, b)| == b - a
  {
    if a < b { BetweenCount(a, b - 1); }
  }

  /** The blocks of the bitmap. */
  function Bitmap(sb: Superblock): set<nat> {
    Between(sb.bmapstart, sb.datastart)
  }

  /** How many there are. */
  function Bitmaps(sb: Superblock): nat {
    sb.size / BPB + 1
  }

  lemma BitmapHolds(sb: Superblock, d: Image, b: nat)
    requires LaidOut(sb, d) && b < sb.size
    ensures BBlock(sb, b) in Bitmap(sb) && |Bitmap(sb)| == Bitmaps(sb)
  {
    BetweenCount(sb.bmapstart, sb.datastart);
  }

  /** The number of blocks that n bytes from offset off touch. */
  function Touched(off: nat, n: nat): nat {
    if n == 0 then 0 else (off % BSIZE + n - 1) / BSIZE + 1
  }

  /** tot of n bytes are none, all, or end at a block boundary. */
  predicate Boundary(off: nat, tot: nat, n: nat) {
    tot == 0 || tot == n || (off + tot) % BSIZE == 0
  }

  /** One more block. */
  lemma TouchedNext(off: nat, tot: nat, n: nat, bn: nat, o: nat, m: nat)
    requires tot < n && Boundary(off, tot, n)
    requires off + tot == bn * BSIZE + o && o < BSIZE && m == Min(n - tot, BSIZE - o)
    ensures Touched(off, tot + m) == Touched(off, tot) + 1 && Boundary(off, tot + m, n)
  {
    var r, q := off % BSIZE, off / BSIZE;
    assert off == q * BSIZE + r;
    if tot == 0 {
      assert bn == q && o == r;
    } else {
      assert r + tot == (bn - q) * BSIZE;
      assert (r + tot - 1) / BSIZE == bn - q - 1;
      assert (r + tot + m - 1) / BSIZE == bn - q;
    }
  }

  /** log holds blocks of datas, of the bitmap bits, and the indirect block. */
  predicate Within(log: set<nat>, datas: set<nat>, bits: set<nat>, ind: nat) {
    forall x :: x in log ==> x == ind || x in bits || x in datas
  }

  ghost predicate LoggedFor(f: Fs, i: nat, log: set<nat>, datas: set<nat>)
    requires i < |f.tab| && |f.tab[i].addrs| == NDIRECT + 1
  {
    Within(log, datas, Bitmap(f.sb), f.tab[i].addrs[IND])
  }

  ghost predicate KeepsInd(f: Fs, z: Fs, i: nat)
    requires i < |f.tab| && |f.tab[i].addrs| == NDIRECT + 1
  {
    z.sb == f.sb && i < |z.tab| && |z.tab[i].addrs| == NDIRECT + 1 &&
    (f.tab[i].addrs[IND] != 0 ==> z.tab[i].addrs[IND] == f.tab[i].addrs[IND])
  }

  /** n blocks of data at most, and the others. Block 0 is never logged, so an indirect block
      that is missing hides nothing. */
  ghost predicate Spread(log: set<nat>, bits: set<nat>, ind: nat, n: nat) {
    0 !in log && exists datas :: |datas| <= n && Within(log, datas, bits, ind)
  }

  lemma SpreadNone(bits: set<nat>, ind: nat)
    ensures Spread({}, bits, ind, 0)
  {
    var none: set<nat> := {};
    assert Within({}, none, bits, ind) && |none| == 0;
  }

  lemma SpreadMore(log: set<nat>, more: set<nat>, bits: set<nat>, u: nat, v: nat, n: nat, a: nat)
    requires Spread(log, bits, u, n) && 0 !in more && Within(more, {a}, bits, v) && (u != 0 ==> u == v)
    ensures Spread(log + more, bits, v, n + 1)
  {
    var datas :| |datas| <= n && Within(log, datas, bits, u);
    var d1 := WithinMore(log, more, bits, u, v, datas, a);
  }

  lemma WithinMore(log: set<nat>, more: set<nat>, bits: set<nat>, u: nat, v: nat, datas: set<nat>, a: nat)
    returns (d1: set<nat>)
    requires Within(log, datas, bits, u) && 0 !in log && Within(more, {a}, bits, v) && (u != 0 ==> u == v)
    ensures Within(log + more, d1, bits, v) && |d1| <= |datas| + 1
  {
    d1 := datas + {a};
  }

  lemma SpreadCount(log: set<nat>, bits: set<nat>, ind: nat, n: nat)
    requires Spread(log, bits, ind, n)
    ensures |log| <= n + |bits| + 1
  {
    var datas :| |datas| <= n && Within(log, datas, bits, ind);
    var all := datas + bits + {ind};
    assert |datas + bits| <= |datas| + |bits|;
    assert |all| <= |datas + bits| + 1;
    Fewer(log, all);
  }

  ghost predicate LoggedUpTo(f: Fs, i: nat, log: set<nat>, n: nat)
    requires i < |f.tab| && |f.tab[i].addrs| == NDIRECT + 1
  {
    Spread(log, Bitmap(f.sb), f.tab[i].addrs[IND], n)
  }

  lemma LoggedMore(f: Fs, z: Fs, i: nat, log: set<nat>, n: nat, more: set<nat>, a: nat, n1: nat)
    requires i < |f.tab| && |f.tab[i].addrs| == NDIRECT + 1 && KeepsInd(f, z, i) && LoggedUpTo(f, i, log, n)
    requires 0 !in more && LoggedFor(z, i, more, {a}) && n1 == n + 1
    ensures LoggedUpTo(z, i, log + more, n1)
  {
    SpreadMore(log, more, Bitmap(f.sb), f.tab[i].addrs[IND], z.tab[i].addrs[IND], n, a);
  }

  lemma LoggedCount(f: Fs, i: nat, log: set<nat>, n: nat)
    requires i < |f.tab| && |f.tab[i].addrs| == NDIRECT + 1 && LaidOut(f.sb, f.disk) && LoggedUpTo(f, i, log, n)
    ensures |log| <= n + Bitmaps(f.sb) + 1
  {
    BitmapHolds(f.sb, f.disk, 0);
    SpreadCount(log, Bitmap(f.sb), f.tab[i].addrs[IND], n);
  }

  // ---- The calls themselves ----

  /** The writes log take disk d to disk e. */
  predicate Replays(d: Image, e: Image, log: seq<Put>) {
    e == Applied(d, log)
  }

  lemma ReplaysJoin(d: Image, e: Image, g: Image, a: seq<Put>, b: seq<Put>)
    requires Replays(d, e, a) && Replays(e, g, b)
    ensures Replays(d, g, a + b) && Targets(a + b) == Targets(a) + Targets(b)
  {
    AppliedJoin(d, a, b);
    TargetsJoin(a, b);
  }

  lemma ReplaysOne(d: Image, bn: nat, data: Block, e: Image)
    requires bn < |d| && e == d[bn := data]
    ensures Replays(d, e, [Put(bn, data)]) && Targets([Put(bn, data)]) == {bn}
  {
    AppliedOne(d, bn, data);
  }

  /** Inodes, bitmap and data: nothing of the boot block, the superblock or the log. */
  ghost predicate Homed(sb: Superblock, blocks: set<nat>) {
    forall x :: x in blocks ==> sb.inodestart <= x < sb.size
  }

  /** The calls log make z's disk of f's and stay within those. */
  ghost predicate HomeLog(f: Fs, z: Fs, log: seq<Put>) {
    Replays(f.disk, z.disk, log) && Homed(f.sb, Targets(log))
  }

  lemma HomeLogJoin(f: Fs, y: Fs, z: Fs, log: seq<Put>, more: seq<Put>)
    requires HomeLog(f, y, log) && HomeLog(y, z, more) && y.sb == f.sb
    ensures HomeLog(f, z, log + more)
  {
    ReplaysJoin(f.disk, y.disk, z.disk, log, more);
  }

  lemma BitmapHomed(sb: Superblock, d: Image)
    requires LaidOut(sb, d)
    ensures Homed(sb, Bitmap(sb))
  {
  }

  /** balloc's two calls: the bitmap block, then the zeroed block. */
  function ClaimLog(f: Fs, a: nat): seq<Put>
    requires LaidOut(f.sb, f.disk) && a < f.sb.size
  {
    [Put(BBlock(f.sb, a), MarkUsed(f.sb, f.disk, a)[BBlock(f.sb, a)]), Put(a, ZeroBlock)]
  }

  lemma ClaimReplays(f: Fs, a: nat, z: Fs)
    requires LaidOut(f.sb, f.disk) && f.sb.datastart <= a < f.sb.size && z == Claimed(f, a)
    ensures HomeLog(f, z, ClaimLog(f, a)) && Targets(ClaimLog(f, a)) <= Bitmap(f.sb) + {a}
  {
    BitmapHomed(f.sb, f.disk);
    var d, m, bb := f.disk, MarkUsed(f.sb, f.disk, a), BBlock(f.sb, a);
    BitmapHolds(f.sb, d, a);
    ReplaysOne(d, bb, m[bb], m);
    ReplaysOne(m, a, ZeroBlock, z.disk);
    ReplaysJoin(d, m, z.disk, [Put(bb, m[bb])], [Put(a, ZeroBlock)]);
    assert [Put(bb, m[bb])] + [Put(a, ZeroBlock)] == ClaimLog(f, a);
  }

  /** An indirect block still to be allocated costs two calls. */
  function IndCost(f: Fs, i: nat): nat
    requires i < |f.tab| && |f.tab[i].addrs| == NDIRECT + 1
  {
    if f.tab[i].addrs[IND] == 0 then 2 else 0
  }

  /** What bmap of a block that comes to lie at a logs, or a round of writei. */
  ghost predicate BlockLog(f: Fs, z: Fs, i: nat, a: nat, log: seq<Put>, n: nat)
    requires i < |f.tab| && |f.tab[i].addrs| == NDIRECT + 1
  {
    HomeLog(f, z, log) && 0 !in Targets(log) && KeepsInd(f, z, i) &&
    LoggedFor(z, i, Targets(log), {a}) && |log| + IndCost(z, i) <= n + IndCost(f, i)
  }

  /** What writei has logged once it has touched n blocks. */
  ghost predicate FileLog(f: Fs, z: Fs, i: nat, log: seq<Put>, n: nat)
    requires i < |f.tab| && |f.tab[i].addrs| == NDIRECT + 1
  {
    HomeLog(f, z, log) && KeepsInd(f, z, i) && LoggedUpTo(z, i, Targets(log), n) &&
    |log| + IndCost(z, i) <= 4 * n + 2
  }

  lemma FileLogStart(f: Fs, i: nat)
    requires i < |f.tab| && |f.tab[i].addrs| == NDIRECT + 1
    ensures FileLog(f, f, i, [], 0)
  {
    SpreadNone(Bitmap(f.sb), f.tab[i].addrs[IND]);
  }

  lemma FileLogNext(f0: Fs, f: Fs, z: Fs, i: nat, log: seq<Put>, n: nat, a: nat, more: seq<Put>, n1: nat)
    requires i < |f0.tab| && |f0.tab[i].addrs| == NDIRECT + 1 && FileLog(f0, f, i, log, n)
    requires BlockLog(f, z, i, a, more, 4) && n1 == n + 1
    ensures FileLog(f0, z, i, log + more, n1)
  {
    ReplaysJoin(f0.disk, f.disk, z.disk, log, more);
    LoggedMore(f, z, i, Targets(log), n, Targets(more), a, n1);
  }

  /** The whole of writei: at most this many blocks, in at most this many calls. */
  ghost predicate WriteLog(f: Fs, z: Fs, log: seq<Put>, n: nat) {
    HomeLog(f, z, log) && |Targets(log)| <= n + Bitmaps(f.sb) + 2 && |log| <= 4 * n + 3
  }

  lemma FileLogEnd(f: Fs, z: Fs, i: nat, log: seq<Put>, n: nat)
    requires i < |f.tab| && |f.tab[i].addrs| == NDIRECT + 1 && LaidOut(z.sb, z.disk) && FileLog(f, z, i, log, n)
    ensures WriteLog(f, z, log, n) && |Targets(log)| <= n + Bitmaps(f.sb) + 1 && |log| <= 4 * n + 2
  {
    LoggedCount(z, i, Targets(log), n);
  }

  /** Then GrowSize writes the inode, or nothing. */
  lemma WriteLogEnd(f: Fs, y: Fs, z: Fs, log: seq<Put>, n: nat, more: seq<Put>, bn: nat)
    requires HomeLog(f, y, log) && |Targets(log)| <= n + Bitmaps(f.sb) + 1 && |log| <= 4 * n + 2
    requires Replays(y.disk, z.disk, more) && |more| <= 1 && Targets(more) <= {bn} && f.sb.inodestart <= bn < f.sb.size
    ensures WriteLog(f, z, log + more, n)
  {
    ReplaysJoin(f.disk, y.disk, z.disk, log, more);
    Fewer(Targets(more), {bn});
    assert |Targets(log) + Targets(more)| <= |Targets(log)| + |Targets(more)|;
  }

  lemma BlockLogJoin(f: Fs, y: Fs, z: Fs, i: nat, b: nat, a: nat, log: seq<Put>, n: nat, more: seq<Put>, m: nat)
    requires i < |f.tab| && |f.tab[i].addrs| == NDIRECT + 1 && BlockLog(f, y, i, b, log, n)
    requires BlockLog(y, z, i, a, more, m) && (b == a || b == y.tab[i].addrs[IND])
    ensures BlockLog(f, z, i, a, log + more, n + m)
  {
    ReplaysJoin(f.disk, y.disk, z.disk, log, more);
    WithinJoin(Targets(log), Targets(more), Bitmap(f.sb), y.tab[i].addrs[IND], z.tab[i].addrs[IND], b, a);
  }

  /** A block found in the indirect block costs nothing more. */
  lemma BlockLogThere(f: Fs, z: Fs, i: nat, a: nat, log: seq<Put>)
    requires i < |f.tab| && |f.tab[i].addrs| == NDIRECT + 1 && KeepsInd(f, z, i)
    requires BlockLog(f, z, i, z.tab[i].addrs[IND], log, 0)
    ensures BlockLog(f, z, i, a, log, 3)
  {
    WithinJoin(Targets(log), {}, Bitmap(f.sb), z.tab[i].addrs[IND], z.tab[i].addrs[IND], z.tab[i].addrs[IND], a);
    assert Targets(log) + {} == Targets(log);
  }

  /** balloc's calls, and the one on the indirect block. */
  lemma EntryLog(f: Fs, own: map<nat, Owner>, y: Fs, z: Fs, i: nat, ind: nat, a: nat, log: seq<Put>)
    requires Conserved(f, own) && i < |f.tab| && f.tab[i].addrs[IND] == ind != 0 && HomeLog(f, y, log) && |log| <= 2
    requires Targets(log) <= Bitmap(f.sb) + {a} && y.sb == z.sb == f.sb && y.tab == z.tab == f.tab
    requires |y.disk| == |f.disk| && ind < |f.disk| && |z.disk| == |y.disk| && z.disk == y.disk[ind := z.disk[ind]]
    ensures BlockLog(f, z, i, a, log + [Put(ind, z.disk[ind])], 3)
  {
    IndirectOwned(f, own, i);
    BlockLogOne(y, z, i, a, ind, z.disk[ind]);
    BlockLogJoin(f, y, z, i, a, a, log, 2, [Put(ind, z.disk[ind])], 1);
  }

  lemma WithinJoin(log: set<nat>, more: set<nat>, bits: set<nat>, u: nat, v: nat, b: nat, a: nat)
    requires Within(log, {b}, bits, u) && Within(more, {a}, bits, v) && 0 !in log && 0 !in more
    requires (u != 0 ==> u == v) && (b == a || b == u)
    ensures 0 !in log + more && Within(log + more, {a}, bits, v)
  {
  }

  /** One call, on the block itself or on the indirect block. */
  lemma BlockLogOne(f: Fs, z: Fs, i: nat, a: nat, bn: nat, data: Block)
    requires i < |f.tab| && |f.tab[i].addrs| == NDIRECT + 1 && KeepsInd(f, z, i)
    requires z.tab[i].addrs[IND] == f.tab[i].addrs[IND]
    requires 0 < f.sb.inodestart <= bn < f.sb.size == |f.disk| && z.disk == f.disk[bn := data]
    requires bn == a || bn == f.tab[i].addrs[IND]
    ensures BlockLog(f, z, i, a, [Put(bn, data)], 1)
  {
    ReplaysOne(f.disk, bn, data, z.disk);
  }

  /** What itrunc has logged: bitmap blocks only. */
  ghost predicate FreeLog(f: Fs, z: Fs, log: seq<Put>, n: nat) {
    z.sb == f.sb && Replays(f.disk, z.disk, log) && Targets(log) <= Bitmap(f.sb) && |log| <= n
  }

  lemma FreeLogHomed(f: Fs, z: Fs, log: seq<Put>, n: nat)
    requires LaidOut(f.sb, f.disk) && FreeLog(f, z, log, n)
    ensures Homed(f.sb, Targets(log))
  {
    BitmapHomed(f.sb, f.disk);
  }

  lemma FreeLogNext(f: Fs, y: Fs, z: Fs, log: seq<Put>, n: nat, more: seq<Put>)
    requires FreeLog(f, y, log, n) && FreeLog(y, z, more, 1)
    ensures FreeLog(f, z, log + more, n + 1)
  {
    ReplaysJoin(f.disk, y.disk, z.disk, log, more);
  }

  lemma FreedReplays(f: Fs, b: nat, z: Fs)
    requires LaidOut(f.sb, f.disk) && b < f.sb.size && z == Freed(f, b)
    ensures FreeLog(f, z, [Put(BBlock(f.sb, b), z.disk[BBlock(f.sb, b)])], 1)
  {
    BitmapHolds(f.sb, f.disk, b);
    ReplaysOne(f.disk, BBlock(f.sb, b), z.disk[BBlock(f.sb, b)], z.disk);
  }

  /** The whole of itrunc: the bitmap and the inode. */
  ghost predicate TruncLog(f: Fs, z: Fs, i: nat, log: seq<Put>) {
    HomeLog(f, z, log) && Targets(log) <= Bitmap(f.sb) + {IBlock(f.sb, i)} && |log| <= NDIRECT + NINDIRECT + 2
  }

  lemma TruncLogEnd(f: Fs, y: Fs, z: Fs, i: nat, log: seq<Put>, more: seq<Put>)
    requires FreeLog(f, y, log, NDIRECT + NINDIRECT + 1) && LaidOut(f.sb, f.disk) && i < f.sb.ninodes
    requires Replays(y.disk, z.disk, more) && |more| == 1 && Targets(more) == {IBlock(f.sb, i)}
    ensures TruncLog(f, z, i, log + more)
  {
    InodeBlock(f.sb, i);
    FreeLogHomed(f, y, log, NDIRECT + NINDIRECT + 1);
    ReplaysJoin(f.disk, y.disk, z.disk, log, more);
  }
}

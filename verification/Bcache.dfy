/** The buffer cache: NBUF buffers on a doubly linked list kept in release order,
    with BUSY, VALID and DIRTY flags, over a disk of atomic block writes
    (bio.c, memide.c). */
module Bcache {
  import opened Blocks
  import opened CacheStore
  import opened Lists

  const HEAD := NBUF                 // the list head's place in links
  const ROOTDEV: Word := 1
  const NODEV: Word := 0xFFFF_FFFF   // binit stores -1

  datatype Buf = Buf(busy: bool, valid: bool, dirty: bool, dev: Word, blockno: nat, data: Block)
  datatype Link = Link(prev: nat, next: nat)

  /** What bget and bread come back with: a buffer, a busy buffer to sleep on, or a panic. */
  datatype Got = Got(b: nat) | MustSleep(b: nat) | NoBuffers | BadRequest

  // ---- The list ----

  function Ring(order: seq<nat>): seq<nat> {
    [HEAD] + order + [HEAD]
  }

  /** links is the doubly linked circular list HEAD, order[0], order[1], ... */
  ghost predicate Linked(links: seq<Link>, order: seq<nat>) {
    |links| == NBUF + 1 && Distinct(order) && (forall i :: 0 <= i < |order| ==> order[i] < NBUF) &&
    forall i {:trigger LinkedAt(links, Ring(order), i)} :: 0 <= i <= |order| ==> LinkedAt(links, Ring(order), i)
  }

  /** Places i and i + 1 of the list point at each other. */
  predicate LinkedAt(links: seq<Link>, r: seq<nat>, i: int) {
    |links| == NBUF + 1 && 0 <= i < |r| - 1 && r[i] <= NBUF && r[i + 1] <= NBUF &&
    links[r[i]].next == r[i + 1] && links[r[i + 1]].prev == r[i]
  }

  /** The first two assignments of brelse: take b out of the list. */
  function Unlink(links: seq<Link>, b: nat): seq<Link>
    requires |links| == NBUF + 1 && b < NBUF && links[b].prev <= NBUF && links[b].next <= NBUF
  {
    var l1 := links[links[b].next := links[links[b].next].(prev := links[b].prev)];
    if l1[b].prev <= NBUF then l1[l1[b].prev := l1[l1[b].prev].(next := l1[b].next)] else l1
  }

  /** The last four assignments of brelse, and binit's loop body: put b first. */
  function PushFront(links: seq<Link>, b: nat): seq<Link>
    requires |links| == NBUF + 1 && b < NBUF && links[HEAD].next <= NBUF
  {
    var l1 := links[b := Link(HEAD, links[HEAD].next)];
    var l2 := l1[l1[HEAD].next := l1[l1[HEAD].next].(prev := b)];
    l2[HEAD := l2[HEAD].(next := b)]
  }

  lemma UnlinkLinked(links: seq<Link>, order: seq<nat>, k: nat)
    requires Linked(links, order) && k < |order|
    ensures links[order[k]].prev <= NBUF && links[order[k]].next <= NBUF
    ensures Linked(Unlink(links, order[k]), order[..k] + order[k + 1..])
  {
    var b := order[k];
    var r, r1 := Ring(order), Ring(order[..k] + order[k + 1..]);
    assert LinkedAt(links, r, k) && r[k + 1] == b && links[b].prev == r[k];
    assert LinkedAt(links, r, k + 1) && links[b].next == r[k + 2];
    var l := Unlink(links, b);
    forall i | 0 <= i <= |order| - 1
      ensures LinkedAt(l, r1, i)
    {
      if i < k {
        assert r1[i] == r[i] && r1[i + 1] == r[i + 1];
        assert LinkedAt(links, r, i);
      } else if i == k {
        assert r1[i] == r[k] && r1[i + 1] == r[k + 2];
      } else {
        assert r1[i] == r[i + 1] && r1[i + 1] == r[i + 2];
        assert LinkedAt(links, r, i + 1);
      }
    }
  }

  lemma PushFrontLinked(links: seq<Link>, order: seq<nat>, b: nat)
    requires Linked(links, order) && b < NBUF && b !in order
    ensures links[HEAD].next <= NBUF
    ensures Linked(PushFront(links, b), [b] + order)
  {
    var r, r1 := Ring(order), Ring([b] + order);
    assert r[0] == HEAD && LinkedAt(links, r, 0);
    var l := PushFront(links, b);
    forall i | 0 <= i <= |order| + 1
      ensures LinkedAt(l, r1, i)
    {
      if i >= 2 {
        assert r1[i] == r[i - 1] && r1[i + 1] == r[i];
        assert LinkedAt(links, r, i - 1);
        assert r[i - 1] == order[i - 2];
      } else if i == 1 {
        assert r1[1] == b && r1[2] == r[1];
      }
    }
  }

  // ---- Contents ----

  predicate Holds(buf: Buf, dev: Word, bn: nat) {
    buf.dev == dev && buf.blockno == bn
  }

  predicate Cached(bufs: seq<Buf>, dev: Word, bn: nat) {
    exists i :: 0 <= i < |bufs| && Holds(bufs[i], dev, bn)
  }

  /** A real block is held by one buffer at most. */
  ghost predicate Unique(bufs: seq<Buf>) {
    forall i, j {:trigger Apart(bufs, i, j)} :: 0 <= i < j < |bufs| ==> Apart(bufs, i, j)
  }

  /** Buffers i and j do not hold the same real block. */
  predicate Apart(bufs: seq<Buf>, i: int, j: int)
    requires 0 <= i < |bufs| && 0 <= j < |bufs|
  {
    bufs[i].dev != NODEV ==> !Holds(bufs[j], bufs[i].dev, bufs[i].blockno)
  }

  /** No two buffers hold the same real block. */
  lemma NotBoth(bufs: seq<Buf>, i: nat, j: nat)
    requires Unique(bufs) && i < |bufs| && j < |bufs| && i != j && bufs[i].dev != NODEV
    ensures !Holds(bufs[j], bufs[i].dev, bufs[i].blockno)
  {
    if i < j { assert Apart(bufs, i, j); } else { assert Apart(bufs, j, i); }
  }

  lemma UniqueSame(bufs: seq<Buf>, bufs1: seq<Buf>)
    requires Unique(bufs) && |bufs1| == |bufs|
    requires forall i :: 0 <= i < |bufs| ==> bufs1[i].dev == bufs[i].dev && bufs1[i].blockno == bufs[i].blockno
    ensures Unique(bufs1)
  {
    forall i, j | 0 <= i < j < |bufs1|
      ensures Apart(bufs1, i, j)
    {
      assert Apart(bufs, i, j);
    }
  }

  /** A buffer given a real block that no other buffer holds. */
  lemma UniqueSet(bufs: seq<Buf>, b: nat, bn: nat, bufs1: seq<Buf>)
    requires Unique(bufs) && b < |bufs| && |bufs1| == |bufs| && Holds(bufs1[b], ROOTDEV, bn)
    requires forall i :: 0 <= i < |bufs| && i != b ==> bufs1[i] == bufs[i] && !Holds(bufs[i], ROOTDEV, bn)
    ensures Unique(bufs1)
  {
    forall i, j | 0 <= i < j < |bufs1|
      ensures Apart(bufs1, i, j)
    {
      assert Apart(bufs, i, j);
    }
  }

  /** A buffer in step with the disk: one that is neither held nor pinned shows the disk
      block, and one not read yet is held by the process that is about to read it. */
  predicate InStep(buf: Buf, disk: Image) {
    (buf.dirty ==> buf.valid) && (buf.dev != NODEV ==> buf.valid || buf.busy) &&
    (buf.valid || buf.dev != NODEV ==> buf.dev == ROOTDEV && buf.blockno < |disk|) &&
    (buf.valid && !buf.busy && !buf.dirty ==> buf.data == disk[buf.blockno])
  }

  ghost predicate Coherent(bufs: seq<Buf>, disk: Image) {
    |bufs| == NBUF && Unique(bufs) && forall i :: 0 <= i < |bufs| ==> InStep(bufs[i], disk)
  }

  /** The buffer from k on that holds block bn, or |bufs|. */
  ghost function Find(bufs: seq<Buf>, bn: nat, k: nat): nat
    requires k <= |bufs|
    decreases |bufs| - k
  {
    if k == |bufs| || Holds(bufs[k], ROOTDEV, bn) then k else Find(bufs, bn, k + 1)
  }

  lemma {:induction false} FindHolds(bufs: seq<Buf>, bn: nat, k: nat)
    requires k <= |bufs|
    ensures k <= Find(bufs, bn, k) <= |bufs|
    ensures Find(bufs, bn, k) < |bufs| ==> Holds(bufs[Find(bufs, bn, k)], ROOTDEV, bn)
    ensures forall i :: k <= i < Find(bufs, bn, k) ==> !Holds(bufs[i], ROOTDEV, bn)
    decreases |bufs| - k
  {
    if k < |bufs| && !Holds(bufs[k], ROOTDEV, bn) { FindHolds(bufs, bn, k + 1); }
  }

  /** Block bn as the file system sees it: the buffer that holds it once read, else the disk. */
  ghost function Logical(bufs: seq<Buf>, disk: Image, bn: nat): Block
    requires bn < |disk|
  {
    var i := Find(bufs, bn, 0);
    if i < |bufs| && bufs[i].valid then bufs[i].data else disk[bn]
  }

  lemma LogicalHeld(bufs: seq<Buf>, disk: Image, i: nat)
    requires Unique(bufs) && i < |bufs| && bufs[i].dev == ROOTDEV && bufs[i].blockno < |disk|
    ensures Logical(bufs, disk, bufs[i].blockno) == if bufs[i].valid then bufs[i].data else disk[bufs[i].blockno]
  {
    FindHolds(bufs, bufs[i].blockno, 0);
    var k := Find(bufs, bufs[i].blockno, 0);
    if k < |bufs| && k != i { NotBoth(bufs, i, k); }
  }

  lemma LogicalAbsent(bufs: seq<Buf>, disk: Image, bn: nat)
    requires bn < |disk| && !Cached(bufs, ROOTDEV, bn)
    ensures Logical(bufs, disk, bn) == disk[bn]
  {
    FindHolds(bufs, bn, 0);
  }

  /** Between holders, the file system sees the disk overlaid by the pinned buffers. */
  lemma LogicalIsOverlay(bufs: seq<Buf>, disk: Image, bn: nat)
    requires Coherent(bufs, disk) && bn < |disk| && forall i :: 0 <= i < NBUF ==> !bufs[i].busy
    ensures (forall i :: 0 <= i < NBUF && bufs[i].dirty && bufs[i].blockno == bn ==>
            Logical(bufs, disk, bn) == bufs[i].data)
    ensures (forall i :: 0 <= i < NBUF && bufs[i].dirty ==> bufs[i].blockno != bn) ==>
            Logical(bufs, disk, bn) == disk[bn]
  {
    forall i | 0 <= i < NBUF && bufs[i].dirty && bufs[i].blockno == bn
      ensures Logical(bufs, disk, bn) == bufs[i].data
    {
      assert InStep(bufs[i], disk);
      LogicalHeld(bufs, disk, i);
    }
    if Cached(bufs, ROOTDEV, bn) {
      var i :| 0 <= i < |bufs| && Holds(bufs[i], ROOTDEV, bn);
      assert InStep(bufs[i], disk);
      LogicalHeld(bufs, disk, i);
    } else {
      LogicalAbsent(bufs, disk, bn);
    }
  }

  /** Neither held nor pinned: bget may recycle it. */
  predicate Free(buf: Buf) {
    !buf.busy && !buf.dirty
  }

  predicate NoBusy(bufs: seq<Buf>) {
    forall i :: 0 <= i < |bufs| ==> !bufs[i].busy
  }

  /** The blocks whose buffers log_write has pinned. */
  ghost function Pinned(bufs: seq<Buf>): set<nat> {
    set i | 0 <= i < |bufs| && bufs[i].dirty :: bufs[i].blockno
  }

  /** The disk as the file system sees it. */
  ghost function View(bufs: seq<Buf>, disk: Image): (v: Image)
    ensures |v| == |disk|
  {
    seq(|disk|, bn requires 0 <= bn < |disk| => Logical(bufs, disk, bn))
  }

  /** With no buffer held, blocks that are not pinned look as they do on disk. */
  lemma ViewUnpinned(bufs: seq<Buf>, disk: Image, bn: nat)
    requires Coherent(bufs, disk) && NoBusy(bufs) && bn < |disk| && bn !in Pinned(bufs)
    ensures View(bufs, disk)[bn] == disk[bn]
  {
    LogicalIsOverlay(bufs, disk, bn);
  }

  /** A pinned block is cached. */
  lemma PinnedCached(bufs: seq<Buf>, disk: Image, bn: nat)
    requires Coherent(bufs, disk) && bn in Pinned(bufs)
    ensures bn < |disk| && Cached(bufs, ROOTDEV, bn)
  {
    var i :| 0 <= i < |bufs| && bufs[i].dirty && bufs[i].blockno == bn;
    assert InStep(bufs[i], disk) && Holds(bufs[i], ROOTDEV, bn);
  }

  /** Buffer b, neither held nor pinned unless it holds block bn already, is held for bn. */
  lemma HeldUnique(bufs: seq<Buf>, b: nat, bn: nat, bufs1: seq<Buf>)
    requires Unique(bufs) && b < |bufs| && |bufs1| == |bufs| && Holds(bufs1[b], ROOTDEV, bn)
    requires Cached(bufs, ROOTDEV, bn) ==> Holds(bufs[b], ROOTDEV, bn)
    requires forall i :: 0 <= i < |bufs| && i != b ==> bufs1[i] == bufs[i]
    ensures Unique(bufs1)
  {
    forall i: nat | i < |bufs| && i != b
      ensures !Holds(bufs[i], ROOTDEV, bn)
    {
      if bufs[b].dev == ROOTDEV { NotBoth(bufs, b, i); }
    }
    UniqueSet(bufs, b, bn, bufs1);
  }

  /** Buffer b is held for block bn, cached or recycled for it, or has just been read. */
  ghost predicate Fetched(bufs: seq<Buf>, disk: Image, b: nat, bn: nat, bufs1: seq<Buf>) {
    b < |bufs| == |bufs1| && bn < |disk| && (Cached(bufs, ROOTDEV, bn) ==> Holds(bufs[b], ROOTDEV, bn)) &&
    (Free(bufs[b]) || Holds(bufs[b], ROOTDEV, bn)) && bufs1 == bufs[b := bufs1[b]] &&
    Holds(bufs1[b], ROOTDEV, bn) && bufs1[b].busy && bufs1[b].dirty == bufs[b].dirty &&
    (bufs1[b].dirty ==> bufs1[b].valid) && (bufs1[b].valid ==> bufs1[b].data == Logical(bufs, disk, bn)) &&
    (!bufs1[b].valid ==> Logical(bufs, disk, bn) == disk[bn])
  }

  /** What bget and the read after it do to the buffers changes neither the view nor the
      pinned set. */
  lemma FetchedKeepsView(bufs: seq<Buf>, disk: Image, b: nat, bn: nat, bufs1: seq<Buf>)
    requires Coherent(bufs, disk) && Fetched(bufs, disk, b, bn, bufs1)
    ensures Coherent(bufs1, disk) && View(bufs1, disk) == View(bufs, disk) && Pinned(bufs1) == Pinned(bufs)
  {
    HeldUnique(bufs, b, bn, bufs1);
    forall i | 0 <= i < |bufs1|
      ensures InStep(bufs1[i], disk)
    {
      assert InStep(bufs[i], disk);
    }
    forall c: nat | c < |disk|
      ensures Logical(bufs1, disk, c) == Logical(bufs, disk, c)
    {
      FetchedLogical(bufs, disk, b, bn, bufs1, c);
    }
    FetchedPins(bufs, disk, b, bn, bufs1);
  }

  lemma FetchedLogical(bufs: seq<Buf>, disk: Image, b: nat, bn: nat, bufs1: seq<Buf>, c: nat)
    requires Coherent(bufs, disk) && Fetched(bufs, disk, b, bn, bufs1) && Unique(bufs1) && c < |disk|
    ensures Logical(bufs1, disk, c) == Logical(bufs, disk, c)
  {
    if c == bn {
      LogicalHeld(bufs1, disk, b);
    } else if i: nat :| i < |bufs| && i != b && Holds(bufs[i], ROOTDEV, c) {
      LogicalHeld(bufs, disk, i);
      LogicalHeld(bufs1, disk, i);
    } else {
      LogicalAbsent(bufs1, disk, c);
      if Holds(bufs[b], ROOTDEV, c) {
        assert InStep(bufs[b], disk);
        LogicalHeld(bufs, disk, b);
      } else {
        LogicalAbsent(bufs, disk, c);
      }
    }
  }

  lemma FetchedPins(bufs: seq<Buf>, disk: Image, b: nat, bn: nat, bufs1: seq<Buf>)
    requires Coherent(bufs, disk) && Fetched(bufs, disk, b, bn, bufs1)
    ensures Pinned(bufs1) == Pinned(bufs)
  {
    forall c
      ensures c in Pinned(bufs1) <==> c in Pinned(bufs)
    {
      if c in Pinned(bufs) {
        var i :| 0 <= i < |bufs| && bufs[i].dirty && bufs[i].blockno == c;
        assert InStep(bufs[i], disk) && bufs1[i].dirty && bufs1[i].blockno == c;
      }
      if c in Pinned(bufs1) {
        var i :| 0 <= i < |bufs1| && bufs1[i].dirty && bufs1[i].blockno == c;
        assert bufs[i].dirty && bufs[i].blockno == c;
      }
    }
  }

  /** Modifying a held buffer and writing it through changes its block and unpins it. */
  lemma WriteThroughView(bufs: seq<Buf>, disk: Image, b: nat, data: Block, bufs1: seq<Buf>, disk1: Image)
    requires Coherent(bufs, disk) && b < NBUF && bufs[b].dev == ROOTDEV && bufs[b].blockno < |disk|
    requires bufs1 == bufs[b := bufs[b].(data := data, dirty := false, valid := true)]
    requires disk1 == disk[bufs[b].blockno := data]
    ensures View(bufs1, disk1) == View(bufs, disk)[bufs[b].blockno := data]
    ensures Pinned(bufs1) == Pinned(bufs) - {bufs[b].blockno}
  {
    var bn := bufs[b].blockno;
    assert InStep(bufs[b], disk);
    UniqueSame(bufs, bufs1);
    forall c: nat | c < |disk|
      ensures Logical(bufs1, disk1, c) == if c == bn then data else Logical(bufs, disk, c)
    {
      if c == bn {
        LogicalHeld(bufs1, disk1, b);
      } else if i: nat :| i < |bufs| && Holds(bufs[i], ROOTDEV, c) {
        LogicalHeld(bufs, disk, i);
        LogicalHeld(bufs1, disk1, i);
      } else {
        LogicalAbsent(bufs, disk, c);
        LogicalAbsent(bufs1, disk1, c);
      }
    }
    forall c
      ensures c in Pinned(bufs1) <==> c in Pinned(bufs) && c != bn
    {
      if c in Pinned(bufs) && c != bn {
        var i :| 0 <= i < |bufs| && bufs[i].dirty && bufs[i].blockno == c;
        assert bufs1[i].dirty && bufs1[i].blockno == c;
      }
      if c in Pinned(bufs1) {
        var i :| 0 <= i < |bufs1| && bufs1[i].dirty && bufs1[i].blockno == c;
        assert InStep(bufs[i], disk) && bufs[i].dirty && bufs[i].blockno == c;
        if i != b { NotBoth(bufs, b, i); }
      }
    }
  }

  lemma WriteThroughCoherent(bufs: seq<Buf>, disk: Image, b: nat, bufs1: seq<Buf>, disk1: Image)
    requires Coherent(bufs, disk) && b < NBUF && bufs[b].dev == ROOTDEV && bufs[b].blockno < |disk|
    requires bufs1 == bufs[b := bufs[b].(dirty := false, valid := true)]
    requires disk1 == disk[bufs[b].blockno := bufs[b].data]
    ensures Coherent(bufs1, disk1)
  {
    UniqueSame(bufs, bufs1);
    forall i | 0 <= i < |bufs1|
      ensures InStep(bufs1[i], disk1)
    {
      assert InStep(bufs[i], disk) && InStep(bufs[b], disk);
      if i != b { NotBoth(bufs, b, i); }
    }
  }

  /** Changing a held buffer's data changes that block of the view. */
  lemma ModifyView(bufs: seq<Buf>, disk: Image, b: nat, data: Block, bufs1: seq<Buf>)
    requires Coherent(bufs, disk) && b < NBUF && bufs[b].valid && bufs1 == bufs[b := bufs[b].(data := data)]
    ensures bufs[b].blockno < |disk| && View(bufs1, disk) == View(bufs, disk)[bufs[b].blockno := data]
  {
    var bn := bufs[b].blockno;
    assert InStep(bufs[b], disk);
    UniqueSame(bufs, bufs1);
    forall c: nat | c < |disk|
      ensures Logical(bufs1, disk, c) == if c == bn then data else Logical(bufs, disk, c)
    {
      if c == bn {
        LogicalHeld(bufs1, disk, b);
      } else if i: nat :| i < |bufs| && Holds(bufs[i], ROOTDEV, c) {
        LogicalHeld(bufs, disk, i);
        LogicalHeld(bufs1, disk, i);
      } else {
        LogicalAbsent(bufs, disk, c);
        LogicalAbsent(bufs1, disk, c);
      }
    }
  }

  /** The pinned set depends only on the dirty flags and block numbers. */
  lemma PinnedSame(bufs: seq<Buf>, bufs1: seq<Buf>)
    requires |bufs| == |bufs1|
    requires forall i :: 0 <= i < |bufs| ==> bufs1[i].dirty == bufs[i].dirty && bufs1[i].blockno == bufs[i].blockno
    ensures Pinned(bufs1) == Pinned(bufs)
  {
    forall c
      ensures c in Pinned(bufs1) <==> c in Pinned(bufs)
    {
      if c in Pinned(bufs) {
        var i :| 0 <= i < |bufs| && bufs[i].dirty && bufs[i].blockno == c;
        assert bufs1[i].dirty && bufs1[i].blockno == c;
      }
      if c in Pinned(bufs1) {
        var i :| 0 <= i < |bufs1| && bufs1[i].dirty && bufs1[i].blockno == c;
        assert bufs[i].dirty && bufs[i].blockno == c;
      }
    }
  }

  /** Setting one dirty flag adds one block to the pinned set. */
  lemma PinnedMore(bufs: seq<Buf>, b: nat, bufs1: seq<Buf>)
    requires b < |bufs| && bufs1 == bufs[b := bufs[b].(dirty := true)]
    ensures Pinned(bufs1) == Pinned(bufs) + {bufs[b].blockno}
  {
    forall c
      ensures c in Pinned(bufs1) <==> c in Pinned(bufs) || c == bufs[b].blockno
    {
      if c in Pinned(bufs) {
        var i :| 0 <= i < |bufs| && bufs[i].dirty && bufs[i].blockno == c;
        assert bufs1[i].dirty && bufs1[i].blockno == c;
      }
      if c == bufs[b].blockno { assert bufs1[b].dirty; }
      if c in Pinned(bufs1) {
        var i :| 0 <= i < |bufs1| && bufs1[i].dirty && bufs1[i].blockno == c;
        assert i == b || (bufs[i].dirty && bufs[i].blockno == c);
      }
    }
  }

  /** The view depends on what each buffer holds, not on its flags. */
  lemma ViewSame(bufs: seq<Buf>, disk: Image, bufs1: seq<Buf>)
    requires Coherent(bufs, disk) && |bufs1| == |bufs|
    requires forall i :: 0 <= i < |bufs| ==>
               bufs1[i].dev == bufs[i].dev && bufs1[i].blockno == bufs[i].blockno && bufs1[i].data == bufs[i].data &&
               bufs1[i].valid == bufs[i].valid
    ensures View(bufs1, disk) == View(bufs, disk)
  {
    UniqueSame(bufs, bufs1);
    forall c: nat | c < |disk|
      ensures Logical(bufs1, disk, c) == Logical(bufs, disk, c)
    {
      if i: nat :| i < |bufs| && Holds(bufs[i], ROOTDEV, c) {
        LogicalHeld(bufs, disk, i);
        LogicalHeld(bufs1, disk, i);
      } else {
        LogicalAbsent(bufs, disk, c);
        LogicalAbsent(bufs1, disk, c);
      }
    }
  }

  /** bget's change to the buffers is a fetch. */
  lemma GotView(bufs: seq<Buf>, disk: Image, b: nat, bn: nat, bufs1: seq<Buf>)
    requires Coherent(bufs, disk) && b < NBUF && bn < |disk| && !bufs[b].busy
    requires if Cached(bufs, ROOTDEV, bn) then Holds(bufs[b], ROOTDEV, bn) && bufs1 == bufs[b := bufs[b].(busy := true)]
             else Free(bufs[b]) && bufs1 == bufs[b := Buf(true, false, false, ROOTDEV, bn, bufs[b].data)]
    ensures Coherent(bufs1, disk) && View(bufs1, disk) == View(bufs, disk) && Pinned(bufs1) == Pinned(bufs)
  {
    assert InStep(bufs[b], disk);
    if Cached(bufs, ROOTDEV, bn) { LogicalHeld(bufs, disk, b); } else { LogicalAbsent(bufs, disk, bn); }
    FetchedKeepsView(bufs, disk, b, bn, bufs1);
  }

  /** What the buffer holds is on the disk or pinned. */
  predicate Settled(buf: Buf, disk: Image) {
    buf.dev == NODEV || buf.dirty || (buf.valid && buf.blockno < |disk| && buf.data == disk[buf.blockno])
  }

  lemma ReleasedView(bufs: seq<Buf>, disk: Image, b: nat, bufs1: seq<Buf>)
    requires Coherent(bufs, disk) && b < NBUF && bufs1 == bufs[b := bufs[b].(busy := false)]
    ensures View(bufs1, disk) == View(bufs, disk) && Pinned(bufs1) == Pinned(bufs)
    ensures Coherent(bufs1, disk) <==> Settled(bufs[b], disk)
  {
    ViewSame(bufs, disk, bufs1);
    UniqueSame(bufs, bufs1);
    PinnedSame(bufs, bufs1);
    assert InStep(bufs[b], disk);
    assert InStep(bufs1[b], disk) <==> Settled(bufs[b], disk);
  }

  class Cache {
    var bufs: seq<Buf>
    var links: seq<Link>
    var disk: Image
    ghost var order: seq<nat>     // buffers from most to least recently released
    ghost var st: Store           // what the layers above see

    ghost predicate Valid()
      reads this
    {
      match st
      case Store(d, view, pinned, _) =>
        d == disk && view == View(bufs, disk) && pinned == Pinned(bufs) &&
        Coherent(bufs, disk) && Linked(links, order) && |order| == NBUF
    }

    /** Valid, with no buffer held. */
    ghost predicate Idle()
      reads this
    {
      Valid() && NoBusy(bufs)
    }

    lemma IdleSane()
      requires Idle()
      ensures Sane(st)
    {
      forall bn: nat | bn < |disk| && bn !in Pinned(bufs)
        ensures View(bufs, disk)[bn] == disk[bn]
      {
        ViewUnpinned(bufs, disk, bn);
      }
      forall bn | bn in Pinned(bufs)
        ensures bn < |disk|
      {
        PinnedCached(bufs, disk, bn);
      }
    }

    /** binit over a given disk. */
    constructor (d: Image)
      ensures Idle() && disk == d && st == Store(d, d, {}, [])
      ensures forall i :: 0 <= i < NBUF ==> Free(bufs[i]) && bufs[i].dev == NODEV
    {
      disk := d;
      st := Store(d, d, {}, []);
      order := [];
      bufs := seq(NBUF, _ => Buf(false, false, false, NODEV, 0, ZeroBlock));
      links := seq(NBUF + 1, _ => Link(HEAD, HEAD));
      new;
      var b := 0;
      while b < NBUF
        invariant b <= NBUF && |order| == b && Linked(links, order)
        invariant forall i :: 0 <= i < b ==> order[i] < b
        invariant disk == d && st == Store(d, d, {}, []) && |bufs| == NBUF
        invariant forall i :: 0 <= i < NBUF ==> bufs[i] == Buf(false, false, false, NODEV, 0, ZeroBlock)
      {
        PushFrontLinked(links, order, b);
        links := PushFront(links, b);
        order := [b] + order;
        b := b + 1;
      }
      assert Pinned(bufs) == {};
      forall bn: nat | bn < |d|
        ensures View(bufs, d)[bn] == d[bn]
      {
        LogicalAbsent(bufs, d, bn);
      }
    }

    /** The forward scan: the buffer that holds the block, if any does. */
    method Scan(dev: Word, bn: nat) returns (b: nat)
      requires Valid()
      ensures b <= NBUF
      ensures b < NBUF ==> Holds(bufs[b], dev, bn)
      ensures b == HEAD ==> !Cached(bufs, dev, bn)
    {
      ghost var k := 0;
      ghost var r := Ring(order);
      assert LinkedAt(links, r, 0);
      b := links[HEAD].next;
      while b != HEAD
        invariant 0 <= k <= NBUF && b == Ring(order)[k + 1]
        invariant forall i :: 0 <= i < k ==> !Holds(bufs[order[i]], dev, bn)
        decreases NBUF - k
      {
        assert b == order[k];
        if bufs[b].dev == dev && bufs[b].blockno == bn { return; }
        assert LinkedAt(links, r, k + 1);
        b := links[b].next;
        k := k + 1;
      }
      assert k == NBUF;
      if Cached(bufs, dev, bn) {
        var i :| 0 <= i < |bufs| && Holds(bufs[i], dev, bn);
        AllListed(order, i);
      }
    }

    /** The backward scan: the least recently released buffer that is free. */
    method ScanFree() returns (b: nat, ghost k: nat)
      requires Valid()
      ensures b <= NBUF
      ensures b < NBUF ==> k < NBUF && b == order[k] && Free(bufs[b]) && forall i :: k < i < NBUF ==>
              !Free(bufs[order[i]])
      ensures b == HEAD ==> forall i :: 0 <= i < NBUF ==> !Free(bufs[i])
    {
      k := NBUF;
      ghost var r := Ring(order);
      assert LinkedAt(links, r, NBUF);
      b := links[HEAD].prev;
      while b != HEAD
        invariant 0 <= k <= NBUF && b == Ring(order)[k]
        invariant forall i :: k <= i < NBUF ==> !Free(bufs[order[i]])
        decreases k
      {
        assert b == order[k - 1];
        if !bufs[b].busy && !bufs[b].dirty {
          k := k - 1;
          return;
        }
        assert LinkedAt(links, r, k - 1);
        b := links[b].prev;
        k := k - 1;
      }
      forall i | 0 <= i < NBUF
        ensures !Free(bufs[i])
      {
        AllListed(order, i);
      }
    }

    /** One pass of bget: the cached buffer if nobody holds it, else a recycled one. For a
        block of the disk what the file system sees is as before, though a recycled buffer
        is yet to be read. */
    method Bget(dev: Word, bn: nat) returns (r: Got)
      requires Valid()
      modifies this`bufs
      ensures !r.Got? || (dev == ROOTDEV && bn < |disk|) ==> Valid()
      ensures |bufs| == NBUF && (r.Got? ==> r.b < NBUF && !old(bufs[r.b].busy))
      ensures r.Got? && Cached(old(bufs), dev, bn) ==>
                Holds(old(bufs)[r.b], dev, bn) && bufs == old(bufs)[r.b := old(bufs)[r.b].(busy := true)]
      ensures r.Got? && !Cached(old(bufs), dev, bn) ==>
                Free(old(bufs)[r.b]) && LeastRecent(order, old(bufs), r.b) &&
                bufs == old(bufs)[r.b := Buf(true, false, false, dev, bn, old(bufs)[r.b].data)]
      ensures !r.Got? ==> bufs == old(bufs)
      ensures r.MustSleep? ==> r.b < NBUF && Holds(bufs[r.b], dev, bn) && bufs[r.b].busy
      ensures r.NoBuffers? <==> !Cached(old(bufs), dev, bn) && forall i :: 0 <= i < NBUF ==> !Free(old(bufs)[i])
      ensures !r.BadRequest?
    {
      var b := Scan(dev, bn);
      if b != HEAD {
        if bufs[b].busy { return MustSleep(b); }
        bufs := bufs[b := bufs[b].(busy := true)];
        if dev == ROOTDEV && bn < |disk| { GotView(old(bufs), disk, b, bn, bufs); }
        return Got(b);
      }
      ghost var k;
      b, k := ScanFree();
      if b == HEAD { return NoBuffers; }
      bufs := bufs[b := Buf(true, false, false, dev, bn, bufs[b].data)];
      if dev == ROOTDEV && bn < |disk| { GotView(old(bufs), disk, b, bn, bufs); }
      r := Got(b);
    }

    /** iderw on the memory disk: write if dirty, else read. False is a panic. */
    method Iderw(b: nat) returns (ok: bool)
      requires |bufs| == NBUF && b < NBUF
      modifies this`bufs, this`disk
      ensures ok <==> old(bufs[b].busy) && !(old(bufs[b].valid) && !old(bufs[b].dirty)) &&
                      old(bufs[b].dev) == ROOTDEV && old(bufs[b].blockno) < |old(disk)|
      ensures !ok ==> bufs == old(bufs) && disk == old(disk)
      ensures ok && old(bufs[b].dirty) ==>
                bufs == old(bufs)[b := old(bufs)[b].(dirty := false, valid := true)] &&
                disk == old(disk)[old(bufs[b].blockno) := old(bufs[b].data)]
      ensures ok && !old(bufs[b].dirty) ==>
                disk == old(disk) &&
                bufs == old(bufs)[b := old(bufs)[b].(valid := true, data := disk[old(bufs[b].blockno)])]
    {
      var buf := bufs[b];
      if !buf.busy || (buf.valid && !buf.dirty) || buf.dev != ROOTDEV || buf.blockno >= |disk| { return false; }
      if buf.dirty {
        bufs := bufs[b := buf.(dirty := false, valid := true)];
        disk := disk[buf.blockno := buf.data];
      } else {
        bufs := bufs[b := buf.(data := disk[buf.blockno], valid := true)];
      }
      ok := true;
    }

    /** The rest of bread: read the buffer bget gave unless it holds the block already. */
    method Fill(b: nat) returns (ok: bool)
      requires Valid() && b < NBUF && bufs[b].busy && bufs[b].dev == ROOTDEV
      modifies this`bufs, this`disk
      ensures ok && Valid() && disk == old(disk) && bufs[b].blockno < |st.view|
      ensures bufs == old(bufs)[b := old(bufs[b]).(valid := true, data := st.view[bufs[b].blockno])]
    {
      ghost var bufs0 := bufs;
      var bn := bufs[b].blockno;
      assert InStep(bufs[b], disk);
      LogicalHeld(bufs, disk, b);
      ok := true;
      if !bufs[b].valid {
        ok := Iderw(b);
        assert Cached(bufs0, ROOTDEV, bn);
        FetchedKeepsView(bufs0, disk, b, bn, bufs);
      }
    }

    /** bread: a held buffer that shows the block as the file system sees it. */
    method Bread(dev: Word, bn: nat) returns (r: Got)
      requires Valid()
      modifies this`bufs, this`disk
      ensures disk == old(disk) && (!r.BadRequest? ==> Valid())
      ensures r.Got? ==>
                r.b < NBUF && dev == ROOTDEV && bn < |st.view| && !old(bufs[r.b].busy) &&
                bufs == old(bufs)[r.b := Buf(true, true, old(bufs[r.b].dirty), dev, bn, st.view[bn])]
      ensures r.Got? && Cached(old(bufs), dev, bn) ==> Holds(old(bufs)[r.b], dev, bn)
      ensures r.Got? && !Cached(old(bufs), dev, bn) ==> Free(old(bufs)[r.b]) && LeastRecent(order, old(bufs), r.b)
      ensures r.MustSleep? ==> bufs == old(bufs) && r.b < NBUF && Holds(bufs[r.b], dev, bn) && bufs[r.b].busy
      ensures r.NoBuffers? ==> bufs == old(bufs)
      ensures r.NoBuffers? <==> !Cached(old(bufs), dev, bn) && forall i :: 0 <= i < NBUF ==> !Free(old(bufs)[i])
      ensures r.BadRequest? ==> dev != ROOTDEV || bn >= |disk|
    {
      r := Bget(dev, bn);
      if r.Got? {
        assert InStep(old(bufs)[r.b], disk);
        if dev != ROOTDEV || bn >= |disk| {
          var ok := Iderw(r.b);
          return BadRequest;
        }
        var ok := Fill(r.b);
      }
    }

    /** bwrite: write the held buffer through to the disk, which unpins it. */
    method Bwrite(b: nat) returns (ok: bool)
      requires Valid() && b < NBUF
      modifies this`bufs, this`disk, this`st
      ensures ok == old(bufs[b].busy && bufs[b].dev == ROOTDEV)
      ensures ok ==>
                Valid() && bufs == old(bufs)[b := old(bufs[b]).(dirty := false, valid := true)] &&
                old(bufs[b].blockno) < |old(st).disk| == |old(st).view| &&
                st == Written(old(st), old(bufs[b].blockno), old(bufs[b].data))
    {
      if !bufs[b].busy { return false; }
      ghost var bufs0, disk0 := bufs, disk;
      assert InStep(bufs0[b], disk0);
      bufs := bufs[b := bufs[b].(dirty := true)];
      ok := Iderw(b);
      if ok {
        WriteThroughView(bufs0, disk0, b, bufs0[b].data, bufs, disk);
        WriteThroughCoherent(bufs0, disk0, b, bufs, disk);
        st := Written(st, bufs0[b].blockno, bufs0[b].data);
      }
    }

    /** The holder changes the buffer's data. */
    method Modify(b: nat, data: Block)
      requires Valid() && b < NBUF && bufs[b].busy && bufs[b].valid
      modifies this`bufs, this`st
      ensures Valid() && bufs == old(bufs)[b := old(bufs[b]).(data := data)]
      ensures bufs[b].blockno < |old(st).view| && st == old(st).(view := old(st).view[bufs[b].blockno := data])
    {
      ghost var bufs0 := bufs;
      bufs := bufs[b := bufs[b].(data := data)];
      ModifyView(bufs0, disk, b, data, bufs);
      UniqueSame(bufs0, bufs);
      PinnedSame(bufs0, bufs);
      st := st.(view := st.view[bufs[b].blockno := data]);
    }

    /** The flag log_write sets: keep the buffer until it is committed. */
    method Pin(b: nat)
      requires Valid() && b < NBUF && bufs[b].busy && bufs[b].valid
      modifies this`bufs, this`st
      ensures Valid() && bufs == old(bufs)[b := old(bufs[b]).(dirty := true)]
      ensures st == old(st).(pinned := old(st).pinned + {bufs[b].blockno})
    {
      ghost var bufs0 := bufs;
      bufs := bufs[b := bufs[b].(dirty := true)];
      ViewSame(bufs0, disk, bufs);
      UniqueSame(bufs0, bufs);
      PinnedMore(bufs0, b, bufs);
      st := st.(pinned := st.pinned + {bufs[b].blockno});
    }

    /** brelse: the buffer goes to the front of the list and everything else stays. The
        cache stays in step exactly when the holder logged or wrote whatever it changed.
        False is a panic. */
    method Brelse(b: nat) returns (ok: bool)
      requires Valid() && b < NBUF
      modifies this`bufs, this`links, this`order
      ensures ok == old(bufs[b].busy) && (Valid() <==> !ok || Settled(old(bufs[b]), disk))
      ensures !ok ==> bufs == old(bufs) && links == old(links) && order == old(order)
      ensures ok ==> bufs == old(bufs)[b := old(bufs[b]).(busy := false)] && order == [b] + Without(old(order), b)
    {
      if !bufs[b].busy { return false; }
      MoveFirst(b);
      ghost var bufs0 := bufs;
      bufs := bufs[b := bufs[b].(busy := false)];
      ReleasedView(bufs0, disk, b, bufs);
      ok := true;
    }

    /** The list half of brelse. */
    method MoveFirst(b: nat)
      requires Linked(links, order) && |order| == NBUF && b < NBUF
      modifies this`links, this`order
      ensures Linked(links, order) && |order| == NBUF && order == [b] + Without(old(order), b)
    {
      AllListed(order, b);
      ghost var k :| 0 <= k < |order| && order[k] == b;
      WithoutAt(order, b, k);
      UnlinkLinked(links, order, k);
      links := Unlink(links, b);
      PushFrontLinked(links, Without(order, b), b);
      links := PushFront(links, b);
      order := [b] + Without(order, b);
    }
  }

  /** b is the free buffer released longest ago. */
  ghost predicate LeastRecent(order: seq<nat>, bufs: seq<Buf>, b: nat) {
    exists k :: 0 <= k < |order| && order[k] == b &&
      forall i :: k < i < |order| ==> order[i] < |bufs| && !Free(bufs[order[i]])
  }

  ghost function Without(s: seq<nat>, b: nat): seq<nat> {
    if s == [] then [] else if s[0] == b then Without(s[1..], b) else [s[0]] + Without(s[1..], b)
  }

  lemma {:induction false} WithoutAt(s: seq<nat>, b: nat, k: nat)
    requires Distinct(s) && k < |s| && s[k] == b
    ensures Without(s, b) == s[..k] + s[k + 1..] && b !in Without(s, b)
  {
    if k == 0 {
      WithoutAbsent(s[1..], b);
    } else {
      WithoutAt(s[1..], b, k - 1);
      assert s[..k] == [s[0]] + s[1..][..k - 1];
    }
  }

  lemma {:induction false} WithoutAbsent(s: seq<nat>, b: nat)
    requires b !in s
    ensures Without(s, b) == s
  {
    if s != [] { WithoutAbsent(s[1..], b); }
  }

  /** A list of NBUF distinct buffers is a permutation of all buffers. */
  lemma AllListed(order: seq<nat>, b: nat)
    requires Distinct(order) && |order| == NBUF && (forall i :: 0 <= i < |order| ==> order[i] < NBUF) && b < NBUF
    ensures exists i :: 0 <= i < |order| && order[i] == b
  {
    if b !in order { Pigeonholes(order + [b], NBUF); }
  }
}

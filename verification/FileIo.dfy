/** Open files over inodes: filewrite's chunking and fileread's offset (file.c). */
module FileIo {
  import opened Blocks
  import opened FsLayout
  import opened FsSpec
  import opened FsFile
  import opened FsWrite
  import opened FsInodes
  import opened FsOps
  import opened Writes
  import opened FsLog
  import LogSpec
  import Log = LogProtocol
  import LogBudget
  import LogAdmission

  const CHUNK := 13 * 512        // ((LOGSIZE-1-1-2) / 2) * 512

  datatype FileResult =
    | Count(n: nat)
    | Bytes(data: seq<Byte>)
    | Failed                     // -1
    | Device                     // the device's own answer
    | NoBlocks                   // "balloc: out of blocks"
    | ShortWrite                 // "short filewrite"

  // ---- Two writes in a row are one ----

  lemma SpliceTwice(s: seq<Byte>, off: nat, a: seq<Byte>, b: seq<Byte>)
    requires off <= |s|
    ensures off + |a| <= |Spliced(s, off, a)|
    ensures Spliced(Spliced(s, off, a), off + |a|, b) == Spliced(s, off, a + b)
  {
    var t := Spliced(s, off, a);
    var l, r := Spliced(t, off + |a|, b), Spliced(s, off, a + b);
    forall p | 0 <= p < |l|
      ensures p < |r| && l[p] == r[p]
    {
    }
  }

  lemma WroteTrans(f0: Fs, f1: Fs, own1: map<nat, Owner>, f2: Fs, own2: map<nat, Owner>, i: nat, off: nat,
                   a: seq<Byte>, b: seq<Byte>, ab: seq<Byte>)
    requires ab == a + b && TabOk(f0) && i < |f0.tab| && HoleFree(f0, i) && off <= f0.tab[i].size &&
             Wrote(f0, f1, own1, i, off, a)
    requires off + |a| <= f1.tab[i].size && Wrote(f1, f2, own2, i, off + |a|, b)
    ensures Wrote(f0, f2, own2, i, off, ab)
  {
    OthersKeptTrans(f0, f1, f2, i);
    SpliceTwice(FsFile.Bytes(f0, i), off, a, b);
  }

  /** Writing never shrinks a file. */
  lemma WroteSize(f0: Fs, f1: Fs, own1: map<nat, Owner>, i: nat, off: nat, a: seq<Byte>)
    requires TabOk(f0) && i < |f0.tab| && HoleFree(f0, i) && off <= f0.tab[i].size && Wrote(f0, f1, own1, i, off, a)
    ensures off + |a| <= f1.tab[i].size
  {
    assert |FsFile.Bytes(f1, i)| == |Spliced(FsFile.Bytes(f0, i), off, a)|;
  }

  /** filewrite once the bytes done have gone to offset o. */
  ghost predicate Progress(f0: Fs, f: Fs, own: map<nat, Owner>, ip: nat, o: nat, done: seq<Byte>)
    requires TabOk(f0) && ip < |f0.tab| && HoleFree(f0, ip)
  {
    f.sb == f0.sb && Conserved(f, own) && HoleFree(f, ip) && Synced(f, ip) &&
    if done == [] then f == f0
    else o + |done| <= MAXFILE * BSIZE && o <= f0.tab[ip].size && Wrote(f0, f, own, ip, o, done)
  }

  lemma ProgressOthers(f0: Fs, f: Fs, own: map<nat, Owner>, ip: nat, o: nat, done: seq<Byte>)
    requires TabOk(f0) && ip < |f0.tab| && HoleFree(f0, ip) && Progress(f0, f, own, ip, o, done)
    ensures OthersRead(f0, f, ip)
  {
    if done != [] { OthersKeptRead(f0, f, ip); }
  }

  lemma ProgressStep(f0: Fs, f: Fs, own: map<nat, Owner>, ip: nat, o: nat, done: seq<Byte>, piece: seq<Byte>,
                     z: Fs, own1: map<nat, Owner>, done1: seq<Byte>)
    requires TabOk(f0) && ip < |f0.tab| && HoleFree(f0, ip) && Progress(f0, f, own, ip, o, done)
    requires 0 < |piece| && CanWrite(f.tab[ip].size, o + |done|, |piece|) && done1 == done + piece
    requires Wrote(f, z, own1, ip, o + |done|, piece)
    ensures Progress(f0, z, own1, ip, o, done1)
  {
    if done == [] {
      assert done1 == piece;
    } else {
      WroteSize(f0, f, own, ip, o, done);
      WroteTrans(f0, f, own, z, own1, ip, o, done, piece, done1);
    }
  }

  /** writei refuses a chunk only when it would refuse the whole write. */
  lemma ProgressRefused(f0: Fs, f: Fs, own: map<nat, Owner>, ip: nat, o: nat, done: seq<Byte>, n1: nat, n: nat)
    requires TabOk(f0) && ip < |f0.tab| && HoleFree(f0, ip) && Progress(f0, f, own, ip, o, done)
    requires |done| + n1 <= n && !CanWrite(f.tab[ip].size, o + |done|, n1)
    ensures !CanWrite(f0.tab[ip].size, o, n)
  {
    if done != [] { WroteSize(f0, f, own, ip, o, done); }
  }

  /** i bytes are c whole chunks, or all n. */
  predicate InChunks(i: nat, n: int, c: nat) {
    (i == n || i == c * CHUNK) && (i == 0 || i <= n)
  }

  lemma NextChunk(i: nat, n: nat, c: nat, n1: nat)
    requires i < n && InChunks(i, n, c) && n1 == if n - i > CHUNK then CHUNK else n - i
    ensures InChunks(i + n1, n, c + 1)
  {
  }

  /** A chunk touches one block more than it fills, at most. */
  lemma ChunkTouches(off: nat, n: nat)
    requires n <= CHUNK
    ensures Touched(off, n) <= CHUNK / BSIZE + 1
  {
  }

  /** The blocks one chunk may log. */
  function ChunkBlocks(sb: Superblock): nat { CHUNK / BSIZE + 3 + Bitmaps(sb) }

  /** The calls of a chunk: they make z's disk of f's, on so many blocks and so many at most. */
  ghost predicate ChunkLog(f: Fs, z: Fs, log: seq<Put>) {
    Replays(f.disk, z.disk, log) && |Targets(log)| <= ChunkBlocks(f.sb) && |log| <= 59
  }

  lemma ChunkLogged(f: Fs, z: Fs, log: seq<Put>, off: nat, n: nat)
    requires n <= CHUNK && WriteLog(f, z, log, Touched(off, n))
    ensures ChunkLog(f, z, log)
  {
    ChunkTouches(off, n);
  }

  /** With mkfs's log, operations that log no more blocks than a chunk cannot reach the "too
      big" panic exactly if a single process runs them and the bitmap is no longer than
      twelve blocks; a chunk may log more than the MAXOPBLOCKS that begin_op reserves for it,
      and next to another operation that is too many. */
  lemma ChunkFits(sys: Log.Sys, sb: Superblock)
    requires Log.SysOk(sys) && sys.lay.size == LogSpec.LOGSIZE && LogBudget.Homes(sys) >= LogSpec.LOGSIZE
    requires sys.procs >= 1 && sys.limit == ChunkBlocks(sb)
    ensures (forall s :: Log.Reachable(sys, s) ==> s.mode != Log.Panicked(Log.TooBig)) <==>
            sys.procs == 1 && Bitmaps(sb) <= 12
  {
    LogAdmission.MkfsLog(sys);
  }

  lemma Prefixes(src: seq<Byte>, i: nat, n: nat)
    requires i + n <= |src|
    ensures src[..i] + src[i..i + n] == src[..i + n]
  {
  }

  class File {
    const fs: FileSystem
    const ip: nat
    const readable: bool
    const writable: bool
    var off: Word

    constructor (s: FileSystem, i: nat, r: bool, w: bool)
      ensures fs == s && ip == i && readable == r && writable == w && off == 0
    {
      fs, ip, readable, writable, off := s, i, r, w, 0;
    }

    ghost predicate Open()
      reads this, fs
    {
      Conserved(fs.cur, fs.own) && ip < |fs.cur.tab| && HoleFree(fs.cur, ip) && Synced(fs.cur, ip)
    }

    /** fileread: what readi gives at the offset, which moves past it. */
    method Read(n: Word) returns (r: FileResult)
      requires Open()
      modifies this, fs
      ensures fs.cur == old(fs.cur) && fs.own == old(fs.own)
      ensures !readable ==> r == Failed
      ensures r.Bytes? ==>
                off == old(off) + |r.data| <= fs.cur.tab[ip].size &&
                r.data == FsFile.Bytes(fs.cur, ip)[old(off)..off] &&
                (|r.data| == n || (|r.data| < n && off == fs.cur.tab[ip].size))
      ensures !r.Bytes? ==> off == old(off)
      ensures r.Failed? <==>
              !readable ||
              (fs.cur.tab[ip].typ != T_DEV && (old(off) > fs.cur.tab[ip].size || old(off) + n > 0xFFFF_FFFF))
      ensures r.Device? <==> readable && fs.cur.tab[ip].typ == T_DEV
    {
      if !readable { return Failed; }
      var x := fs.Readi(ip, off, n);
      match x {
        case ReadDevice => return Device;
        case ReadFails => return Failed;
        case ReadBytes(data) =>
          off := off + |data|;
          return Bytes(data);
      }
    }

    /** One chunk of filewrite; done1 is what the file then holds of the source. Its log_write
        calls make the new disk of the old one; they are at most 59, and go to at most 14
        blocks of data, the indirect block, the inode's and the bitmap's. */
    method WriteChunk(ghost f0: Fs, ghost o: nat, ghost done: seq<Byte>, piece: seq<Byte>, ghost done1: seq<Byte>)
      returns (r: WriteResult, ghost log: seq<Put>)
      requires TabOk(f0) && ip < |f0.tab| && HoleFree(f0, ip) && Progress(f0, fs.cur, fs.own, ip, o, done)
      requires 0 < |piece| <= CHUNK && off == o + |done| && done1 == done + piece
      modifies this, fs
      ensures r.WriteDevice? <==> f0.tab[ip].typ == T_DEV
      ensures r.WriteFails? ==> !CanWrite(old(fs.cur).tab[ip].size, o + |done|, |piece|)
      ensures r.WriteFails? || r.WriteDevice? ==> fs.cur == old(fs.cur) && fs.own == old(fs.own) && off == old(off)
      ensures r.Written? ==> r.n == |piece| && off == o + |done1| && Progress(f0, fs.cur, fs.own, ip, o, done1)
      ensures r.OutOfBlocks? ==> Conserved(fs.cur, fs.own) && AllUsed(fs.cur, 0, fs.cur.sb.size)
      ensures r.Written? ==> ChunkLog(old(fs.cur), fs.cur, log)
    {
      ghost var from := off;
      r, log := fs.Writei(ip, off, piece);
      if r.Written? && r.n > 0 {
        ChunkLogged(old(fs.cur), fs.cur, log, from, |piece|);
        ProgressStep(f0, old(fs.cur), old(fs.own), ip, o, done, piece, fs.cur, fs.own, done1);
        off := off + r.n;
      }
    }

    /** filewrite on an inode: a result n means exactly those n bytes went to the offset,
        as one write would have put them; on -1 the bytes done, c whole chunks, are in the
        file. */
    method Write(src: seq<Byte>, n: int) returns (r: FileResult, ghost done: seq<Byte>, ghost c: nat)
      requires Open() && n <= |src| && n <= 0x7FFF_FFFF
      modifies this, fs
      ensures !r.Bytes? && !r.ShortWrite?
      ensures r.Count? ==> writable && r.n == n == |done| && (n > 0 ==> CanWrite(old(fs.cur).tab[ip].size, old(off), n))
      ensures r.Failed? ==> done == [] || (|done| < n && |done| == c * CHUNK)
      ensures r.Failed? ==> !writable || n < 0 || !CanWrite(old(fs.cur).tab[ip].size, old(off), n)
      ensures r.Count? || r.Failed? ==>
                done <= src && off == old(off) + |done| && Progress(old(fs.cur), fs.cur, fs.own, ip, old(off), done)
      ensures r.Count? || r.Failed? ==> OthersRead(old(fs.cur), fs.cur, ip)
      ensures r.Device? <==> writable && n > 0 && old(fs.cur).tab[ip].typ == T_DEV
      ensures r.NoBlocks? ==> Conserved(fs.cur, fs.own) && AllUsed(fs.cur, 0, fs.cur.sb.size)
    {
      done, c := [], 0;
      ghost var f0, o := fs.cur, off;
      ProgressOthers(f0, fs.cur, fs.own, ip, o, done);
      if !writable { return Failed, [], 0; }
      var i := 0;
      while i < n
        invariant Progress(f0, fs.cur, fs.own, ip, o, done)
        invariant 0 <= i <= |src| && done == src[..i] && off == o + |done|
        invariant InChunks(i, n, c) && (i > 0 ==> f0.tab[ip].typ != T_DEV)
        decreases n - i
      {
        var n1 := n - i;
        if n1 > CHUNK { n1 := CHUNK; }
        ghost var f, own := fs.cur, fs.own;
        ghost var done1 := src[..i + n1];
        Prefixes(src, i, n1);
        var x;
        ghost var log;
        x, log := WriteChunk(f0, o, done, src[i..i + n1], done1);
        if x.WriteDevice? { return Device, done, c; }
        if x.OutOfBlocks? { return NoBlocks, done, c; }
        if x.WriteFails? {
          ProgressRefused(f0, f, own, ip, o, done, n1, n);
          break;
        }
        if x.n != n1 { return ShortWrite, done, c; }
        NextChunk(i, n, c, n1);
        i, c, done := i + x.n, c + 1, done1;
      }
      ProgressOthers(f0, fs.cur, fs.own, ip, o, done);
      if i == n { r := Count(n); } else { r := Failed; }
    }
  }
}

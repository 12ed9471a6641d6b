/** Pipes: a ring of PIPESIZE bytes with 32-bit counters that are never reset, writers that
    sleep while it is full and readers that sleep while it is empty (pipe.c).

    Each call is one stretch of code under the pipe's lock, from acquire or a return from
    sleep up to the next sleep or release. */
module Pipe {
  import opened CTypes
  import opened Counters

  type Byte = b: nat | b < 256
  const PIPESIZE := 512

  datatype WriteResult = Wrote | WriteSleeps(next: nat) | WriteFails
  datatype ReadResult = Read(bytes: seq<Byte>) | ReadSleeps | ReadFails

  class PipeBuf {
    const data: array<Byte>
    var nread: Uint
    var nwrite: Uint
    var readopen: bool
    var writeopen: bool
    ghost var written: seq<Byte>     // every byte ever put in
    ghost var taken: seq<Byte>       // every byte ever got out
    ghost var writers: set<nat>      // asleep on &nwrite
    ghost var readers: set<nat>      // asleep on &nread

    /** The bytes read are a prefix of the bytes written, and the ring holds the rest. */
    ghost predicate Fifo()
      reads this, data
    {
      data.Length == PIPESIZE && |taken| <= |written| <= |taken| + PIPESIZE && taken == written[..|taken|] &&
      nread == |taken| % WRAP && nwrite == |written| % WRAP &&
      forall k :: |taken| <= k < |written| ==> data[k % PIPESIZE] == written[k]
    }

    ghost predicate Full()
      reads this
    {
      |written| == |taken| + PIPESIZE
    }

    ghost predicate Empty()
      reads this
    {
      |written| == |taken|
    }

    /** Nobody sleeps on an end that is closed, and writers that sleep have reason to. */
    ghost predicate SleepersOk()
      reads this
    {
      (!readopen ==> readers == {}) && (!writeopen ==> writers == {}) && (writers != {} ==> Full() && readopen)
    }

    /** Readers that sleep have reason to. Not part of Valid: Write says when it is lost. */
    ghost predicate ReadersOk()
      reads this
    {
      readers != {} ==> Empty() && writeopen
    }

    ghost predicate Valid()
      reads this, data
    {
      Fifo() && SleepersOk()
    }

    /** pipealloc. */
    constructor ()
      ensures Valid() && fresh(data) && written == [] && taken == [] && readopen && writeopen
      ensures writers == {} && readers == {}
    {
      data := new Byte[PIPESIZE];
      nread, nwrite, readopen, writeopen := 0, 0, true, true;
      written, taken, writers, readers := [], [], {}, {};
    }

    /** pipeclose. The last reference to an end goes only when nobody sleeps in a call on it. */
    method Close(writable: bool) returns (free: bool)
      requires Valid() && (if writable then writers == {} else readers == {})
      modifies this
      ensures Valid() && written == old(written) && taken == old(taken)
      ensures writeopen == (old(writeopen) && !writable) && readopen == (old(readopen) && writable)
      ensures free <==> !readopen && !writeopen
      ensures writers == (if writable then old(writers) else {}) && readers == (if writable then {} else old(readers))
      ensures ReadersOk()
    {
      if writable {
        writeopen := false;
        readers := {};
      } else {
        readopen := false;
        writers := {};
      }
      free := !readopen && !writeopen;
    }

    /** One byte into the ring. */
    method Put(b: Byte)
      requires Fifo() && !Full()
      modifies this`nwrite, this`written, data
      ensures Fifo() && written == old(written) + [b]
    {
      Wraps(PIPESIZE, |taken|, |written|);
      ghost var w := |written|;
      forall k | |taken| <= k < w
        ensures k % PIPESIZE != w % PIPESIZE
      {
        RingApart(PIPESIZE, |taken|, k, w);
      }
      data[nwrite % PIPESIZE] := b;
      nwrite := (nwrite + 1) % WRAP;
      written := written + [b];
    }

    /** One byte out of the ring. */
    method Get() returns (b: Byte)
      requires Fifo() && !Empty()
      modifies this`nread, this`taken
      ensures Fifo() && taken == old(taken) + [b] && b == written[|old(taken)|]
    {
      Wraps(PIPESIZE, |taken|, |written|);
      b := data[nread % PIPESIZE];
      nread := (nread + 1) % WRAP;
      taken := taken + [b];
    }

    /** pipewrite's loop from byte i on, by process p, up to its end or the next sleep. */
    method Write(p: nat, src: seq<Byte>, i: nat, killed: bool) returns (r: WriteResult)
      requires Valid() && writeopen && i <= |src| && p !in writers
      modifies this, data
      ensures Valid() && taken == old(taken) && readopen == old(readopen) && writeopen == old(writeopen)
      ensures ReadersOk() <==> !(r.WriteFails? && old(readers) != {})
      ensures r.Wrote? <==> |old(written)| + |src| - i <= |taken| + PIPESIZE
      ensures r.WriteFails? <==> !r.Wrote? && (!readopen || killed)
      ensures r.Wrote? ==> written == old(written) + src[i..] && readers == {} && writers == old(writers)
      ensures r.WriteSleeps? ==>
                i <= r.next < |src| && written == old(written) + src[i..r.next] && Full() && readopen && !killed &&
                readers == {} && writers == old(writers) + {p}
      ensures r.WriteFails? ==> Full() && (!readopen || killed) && writers == old(writers) && readers == old(readers)
      ensures r.WriteFails? ==> exists j :: i <= j < |src| && written == old(written) + src[i..j]
    {
      var j := i;
      while j < |src|
        invariant i <= j <= |src| && Fifo() && written == old(written) + src[i..j] && taken == old(taken)
        invariant readopen == old(readopen) && writeopen == old(writeopen)
        invariant writers == old(writers) && readers == old(readers)
        invariant writers != {} ==> j == i && Full() && readopen
      {
        Wraps(PIPESIZE, |taken|, |written|);
        if nwrite == (nread + PIPESIZE) % WRAP {
          if !readopen || killed { return WriteFails; }
          readers := {};
          writers := writers + {p};
          return WriteSleeps(j);
        }
        Put(src[j]);
        j := j + 1;
      }
      readers := {};
      return Wrote;
    }

    /** piperead by process p: up to n of the bytes next in line, none only at the end of
        the stream; or sleep. */
    method ReadSome(p: nat, n: nat, killed: bool) returns (r: ReadResult)
      requires Valid() && readopen && p !in readers
      modifies this
      ensures Valid() && written == old(written) && readopen == old(readopen) && writeopen == old(writeopen)
      ensures old(ReadersOk()) || r.ReadSleeps? ==> ReadersOk()
      ensures r.Read? <==> !old(Empty()) || !writeopen
      ensures r.ReadFails? <==> !r.Read? && killed
      ensures r.Read? ==>
                taken == old(taken) + r.bytes &&
                |r.bytes| == (if n < |written| - |old(taken)| then n else |written| - |old(taken)|) &&
                r.bytes == written[|old(taken)|..|taken|] && writers == {} && readers == old(readers)
      ensures r.Read? && r.bytes == [] && n > 0 ==> !writeopen
      ensures r.ReadSleeps? ==>
              Empty() && writeopen && !killed && taken == old(taken) &&
              readers == old(readers) + {p} && writers == old(writers)
      ensures r.ReadFails? ==>
              killed && Empty() && taken == old(taken) && readers == old(readers) && writers == old(writers)
    {
      Wraps(PIPESIZE, |taken|, |written|);
      if nread == nwrite && writeopen {
        if killed { return ReadFails; }
        readers := readers + {p};
        return ReadSleeps;
      }
      var bytes := [];
      while |bytes| < n
        invariant Fifo() && |bytes| <= n && taken == old(taken) + bytes && written == old(written)
        invariant readopen == old(readopen) && writeopen == old(writeopen)
        invariant writers == old(writers) && readers == old(readers)
        invariant |old(taken)| + |bytes| <= |written| && bytes == written[|old(taken)|..|old(taken)| + |bytes|]
        invariant !writeopen || |written| > |old(taken)|
        decreases n - |bytes|
      {
        Wraps(PIPESIZE, |taken|, |written|);
        if nread == nwrite { break; }
        var b := Get();
        bytes := bytes + [b];
      }
      writers := {};
      return Read(bytes);
    }

    /** kill's wakeup: p leaves its sleep, wherever it is, and will find itself killed. */
    method KillWakes(p: nat)
      requires Valid()
      modifies this`readers, this`writers
      ensures Valid() && readers == old(readers) - {p} && writers == old(writers) - {p}
      ensures old(ReadersOk()) ==> ReadersOk()
    {
      readers := readers - {p};
      writers := writers - {p};
    }
  }

  /** How the readers' claim is lost: a killed writer that finds the pipe full gives up
      without waking the reader it has filled the pipe for. */
  method StrandedReader() returns (p: PipeBuf)
    ensures fresh(p) && p.Valid() && p.readers != {} && p.Full() && p.writeopen && p.readopen && !p.ReadersOk()
  {
    p := new PipeBuf();
    var r := p.ReadSome(1, 1, false);
    assert r.ReadSleeps?;
    var w := p.Write(2, seq(PIPESIZE + 1, _ => 0), 0, true);
    assert w.WriteFails?;
  }

  /** A process killed in its sleep resumes and gives up; the others sleep on. */
  method KilledSleeper(p: PipeBuf, a: nat, n: nat)
    requires p.Valid() && p.ReadersOk() && p.readopen && a in p.readers
    modifies p
    ensures p.Valid() && p.ReadersOk() && p.readers == old(p.readers) - {a} && p.taken == old(p.taken)
  {
    p.KillWakes(a);
    var r := p.ReadSome(a, n, true);
    assert r.ReadFails?;
  }
}

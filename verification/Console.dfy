/** The console's input ring: characters typed, edited and committed by the interrupt
    handler, and read a line at a time (console.c). */
module Console {
  import opened CTypes
  import opened Counters

  type Char = c: nat | c < 256

  const INPUT_BUF := 128
  const NEWLINE: Char := 10
  const RETURN: Char := 13
  const CTRL_D: Char := 4
  const CTRL_H: Char := 8
  const CTRL_P: Char := 16
  const CTRL_U: Char := 21
  const DEL: Char := 127

  datatype ReadResult = Line(bytes: seq<Char>) | Sleeps(so_far: seq<Char>) | ReadFails

  /** The characters of one line and no more: no end-of-file mark, no newline but the last. */
  predicate OneLine(s: seq<Char>) {
    forall k :: 0 <= k < |s| ==> s[k] != CTRL_D && (s[k] == NEWLINE ==> k == |s| - 1)
  }

  /** Nothing in hist[from..to] ends a read that has m of the n characters it wants. */
  predicate ReadsOn(hist: seq<Char>, from: nat, to: nat, m: nat, n: nat)
    requires from <= to <= |hist|
  {
    m + to - from < n && forall k :: from <= k < to ==> hist[k] != CTRL_D && hist[k] != NEWLINE
  }

  class Input {
    const buf: array<Char>
    var r: Uint
    var w: Uint
    var e: Uint
    ghost var hist: seq<Char>     // everything typed and not erased
    ghost var read: nat           // how much of it has been read
    ghost var done: nat           // how much of it has been committed
    ghost var readers: set<nat>   // asleep on &input.r

    ghost predicate Valid()
      reads this, buf
    {
      Ring() && (forall k :: done <= k < |hist| ==> hist[k] != NEWLINE && hist[k] != CTRL_D) &&
      (readers != {} ==> read == done)
    }

    /** The ring holds what has been typed and not read. */
    ghost predicate Ring()
      reads this, buf
    {
      buf.Length == INPUT_BUF && read <= done <= |hist| <= read + INPUT_BUF &&
      r == read % WRAP && w == done % WRAP && e == |hist| % WRAP &&
      forall k :: read <= k < |hist| ==> buf[k % INPUT_BUF] == hist[k]
    }

    /** What has been typed but not committed. */
    ghost function Pending(): seq<Char>
      reads this, buf
      requires Valid()
    {
      hist[done..]
    }

    constructor ()
      ensures Valid() && fresh(buf) && hist == [] && read == done == 0 && readers == {}
    {
      buf := new Char[INPUT_BUF];
      r, w, e := 0, 0, 0;
      hist, read, done, readers := [], 0, 0, {};
    }

    /** Taking back the last character typed. */
    method Erase()
      requires Valid() && done < |hist|
      modifies this
      ensures Valid() && hist == old(hist)[..|old(hist)| - 1]
      ensures read == old(read) && done == old(done) && readers == old(readers)
    {
      WrapsDown(INPUT_BUF, |hist|);
      e := (e + (WRAP - 1)) % WRAP;
      hist := hist[..|hist| - 1];
    }

    /** Control-U: exactly the unfinished line goes. */
    method KillLine()
      requires Valid()
      modifies this
      ensures Valid() && hist == old(hist)[..old(done)]
      ensures read == old(read) && done == old(done) && readers == old(readers)
    {
      while e != w && buf[(e + (WRAP - 1)) % WRAP % INPUT_BUF] != NEWLINE
        invariant Valid() && |hist| <= |old(hist)| && hist == old(hist)[..|hist|]
        invariant read == old(read) && done == old(done) && readers == old(readers)
        decreases |hist|
      {
        Wraps(INPUT_BUF, done, |hist|);
        Erase();
      }
      Wraps(INPUT_BUF, done, |hist|);
      if e != w {
        LastTyped();
      }
    }

    /** The character before the edit index is the last one typed. */
    lemma LastTyped()
      requires Valid() && done < |hist|
      ensures buf[(e + (WRAP - 1)) % WRAP % INPUT_BUF] == hist[|hist| - 1] != NEWLINE
    {
      WrapsDown(INPUT_BUF, |hist|);
      WrapsOne(INPUT_BUF, |hist| - 1);
    }

    /** consoleintr for one character. Nothing committed ever changes. */
    method Type(c: Char)
      requires Valid()
      modifies this, buf
      ensures Valid() && read == old(read) && old(done) <= done && hist[..old(done)] == old(hist)[..old(done)]
      ensures c == CTRL_U ==> Pending() == [] && hist == old(hist)[..old(done)]
      ensures c == CTRL_H || c == DEL ==>
                Pending() == if old(Pending()) == [] then [] else old(Pending())[..|old(Pending())| - 1]
      ensures Ordinary(c) && |old(hist)| < read + INPUT_BUF ==>
                hist == old(hist) + [if c == RETURN then NEWLINE else c] &&
                done == (if c == RETURN || c == NEWLINE || c == CTRL_D ||
                  |hist| == read + INPUT_BUF then |hist| else old(done))
      ensures c == 0 || c == CTRL_P || (Ordinary(c) && |old(hist)| == read + INPUT_BUF) ==>
              hist == old(hist) && done == old(done)
      ensures done > old(done) ==> readers == {}
    {
      if c == CTRL_P { return; }
      if c == CTRL_U {
        KillLine();
        return;
      }
      Wraps(INPUT_BUF, done, |hist|);
      if c == CTRL_H || c == DEL {
        if e != w { Erase(); }
        return;
      }
      WrapsDistance(INPUT_BUF, read, |hist|);
      if c != 0 && (e + (WRAP - r)) % WRAP < INPUT_BUF {
        Append(if c == RETURN then NEWLINE else c);
      }
    }

    /** One more character, which may complete a line or fill the ring. */
    method Append(c: Char)
      requires Valid() && |hist| < read + INPUT_BUF
      modifies this, buf
      ensures Valid() && read == old(read) && hist == old(hist) + [c]
      ensures done == if c == NEWLINE || c == CTRL_D || |hist| == read + INPUT_BUF then |hist| else old(done)
      ensures done > old(done) ==> readers == {}
    {
      Store(c);
      Wraps(INPUT_BUF, read, |hist|);
      if c == NEWLINE || c == CTRL_D || e == (r + INPUT_BUF) % WRAP {
        w := e;
        done := |hist|;
        readers := {};
      }
    }

    /** The character goes to the next place of the ring. */
    method Store(c: Char)
      requires Ring() && |hist| < read + INPUT_BUF
      modifies this`e, this`hist, buf
      ensures Ring() && hist == old(hist) + [c]
    {
      Wraps(INPUT_BUF, read, |hist|);
      RingFree(INPUT_BUF, read, |hist|);
      buf[e % INPUT_BUF] := c;
      e := (e + 1) % WRAP;
      hist := hist + [c];
    }

    /** input.r != input.w. */
    method Ready() returns (any: bool)
      requires Valid()
      ensures any <==> read < done
    {
      Wraps(INPUT_BUF, read, done);
      any := r != w;
    }

    /** The next committed character. */
    method Take() returns (c: Char)
      requires Valid() && read < done
      modifies this`r, this`read
      ensures Valid() && read == old(read) + 1 && c == hist[old(read)]
    {
      Wraps(INPUT_BUF, read, |hist|);
      c := buf[r % INPUT_BUF];
      r := (r + 1) % WRAP;
      read := read + 1;
    }

    /** Putting it back; it is still in the ring. */
    method PutBack(ghost b: seq<Char>)
      requires Valid() && 0 < read && |hist| < read + INPUT_BUF && readers == {} && buf[..] == b
      requires b[(read - 1) % INPUT_BUF] == hist[read - 1]
      modifies this`r, this`read
      ensures Valid() && read == old(read) - 1
    {
      WrapsDown(INPUT_BUF, read);
      r := (r + (WRAP - 1)) % WRAP;
      read := read - 1;
    }

    /** The next character; an end-of-file mark is taken only when it comes first. */
    method TakeOrStop(first: bool) returns (c: Char)
      requires Valid() && read < done && readers == {}
      modifies this`r, this`read
      ensures Valid() && c == hist[old(read)]
      ensures read == if c == CTRL_D && !first then old(read) else old(read) + 1
    {
      ghost var b := buf[..];
      c := Take();
      if c == CTRL_D && !first { PutBack(b); }
    }

    /** One more character for a reader that has out, got before it slept and the rest since. */
    method NextOf(out: seq<Char>, ghost got: seq<Char>, ghost from: nat) returns (c: Char, more: seq<Char>)
      requires Valid() && from <= read < done && readers == {} && out == got + hist[from..read]
      requires OneLine(out) && (out != [] ==> out[|out| - 1] != NEWLINE)
      modifies this`r, this`read
      ensures Valid() && c == hist[old(read)]
      ensures c == CTRL_D ==> more == out && read == if out == [] then old(read) + 1 else old(read)
      ensures c != CTRL_D ==>
                read == old(read) + 1 && more == out + [c] == got + hist[from..read] && OneLine(more)
    {
      c := TakeOrStop(|out| == 0);
      more := out;
      if c != CTRL_D {
        Longer(got, hist, from, out, old(read), c);
        more := out + [c];
      }
    }

    /** consoleread by process p, having got some of the n characters it wants, up to its
        end or the next sleep: which of the two is decided by the committed characters. */
    method ReadLine(p: nat, got: seq<Char>, n: nat, killed: bool) returns (o: ReadResult, ghost at: nat)
      requires Valid() && |got| <= n && p !in readers && OneLine(got) && (got != [] ==> got[|got| - 1] != NEWLINE)
      modifies this
      ensures Valid() && hist == old(hist) && done == old(done) && old(read) <= at <= done
      ensures o.Line? <==> !ReadsOn(hist, old(read), done, |got|, n)
      ensures o.ReadFails? <==> killed && ReadsOn(hist, old(read), done, |got|, n)
      ensures o.ReadFails? ==> at == read == done
      ensures o.Sleeps? ==>
                at == read == done && readers == old(readers) + {p} &&
                o.so_far == got + hist[old(read)..at] && OneLine(o.so_far) && |o.so_far| < n
      ensures o.Line? ==> |o.bytes| <= n && OneLine(o.bytes) && o.bytes == got + hist[old(read)..at]
      ensures o.Line? && o.bytes != [] ==>
                read == at && (|o.bytes| == n || o.bytes[|o.bytes| - 1] == NEWLINE || (at < done && hist[at] == CTRL_D))
      ensures o.Line? && o.bytes == [] && n > 0 ==> at == old(read) < done && hist[at] == CTRL_D && read == at + 1
      ensures n > 0 && got == [] && old(read) < done && hist[old(read)] == CTRL_D ==> o == Line([])
      ensures n == 0 ==> read == at == old(read)
    {
      var out := got;
      while |out| < n
        invariant Valid() && hist == old(hist) && done == old(done) && readers == old(readers) && old(read) <= read
        invariant |out| <= n && OneLine(out) && (out != [] ==> out[|out| - 1] != NEWLINE)
        invariant out == got + hist[old(read)..read]
        decreases n - |out|
      {
        at := read;
        var any := Ready();
        if !any {
          StillReading(got, hist, old(read), read, out, n);
          if killed { return ReadFails, at; }
          readers := readers + {p};
          return Sleeps(out), at;
        }
        var c;
        c, out := NextOf(out, got, old(read));
        if c == CTRL_D {
          MarkEnds(hist, old(read), at, out, got);
          return Line(out), at;
        }
        if c == NEWLINE {
          MarkEnds(hist, old(read), read, out, got);
          return Line(out), read;
        }
      }
      MarkEnds(hist, old(read), read, out, got);
      return Line(out), read;
    }
  }

  /** Nothing comes before a mark at the front. */
  lemma MarkEnds(hist: seq<Char>, from: nat, to: nat, out: seq<Char>, got: seq<Char>)
    requires from <= to <= |hist| && out == got + hist[from..to] && OneLine(out)
    ensures got == [] && from < |hist| && hist[from] == CTRL_D ==> out == []
  {
    if from < to { assert out[|got|] == hist[from]; }
  }

  /** What was taken so far did not end the read. */
  lemma StillReading(got: seq<Char>, hist: seq<Char>, from: nat, to: nat, out: seq<Char>, n: nat)
    requires from <= to <= |hist| && out == got + hist[from..to] && |out| < n
    requires OneLine(out) && (out != [] ==> out[|out| - 1] != NEWLINE)
    ensures ReadsOn(hist, from, to, |got|, n)
  {
    forall k | from <= k < to
      ensures hist[k] != CTRL_D && hist[k] != NEWLINE
    {
      assert out[|got| + k - from] == hist[k];
    }
  }

  /** One character more of the same line. */
  lemma Longer(got: seq<Char>, hist: seq<Char>, from: nat, out: seq<Char>, at: nat, c: Char)
    requires from <= at < |hist| && hist[at] == c && c != CTRL_D && out == got + hist[from..at]
    requires OneLine(out) && (out != [] ==> out[|out| - 1] != NEWLINE)
    ensures out + [c] == got + hist[from..at + 1] && OneLine(out + [c])
  {
  }

  predicate Ordinary(c: Char) {
    c != 0 && c != CTRL_P && c != CTRL_U && c != CTRL_H && c != DEL
  }
}

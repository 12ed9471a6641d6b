/** The student shell's strtok and the tokenising part of process_one_cmd (xvsh.c). */
module Strtok {
  import opened CTypes

  const NULL: int := -1

  datatype Runs = NoRuns | Run(start: nat, end: nat, rest: Runs)

  // ---- The maximal delimiter-free runs of a line ----

  function SkipDelims(line: string, delim: string, p: nat): (s: nat)
    requires p <= |line|
    ensures p <= s <= |line| && (s < |line| ==> line[s] !in delim)
    ensures forall i :: p <= i < s ==> line[i] in delim
    decreases |line| - p
  {
    if p < |line| && line[p] in delim then SkipDelims(line, delim, p + 1) else p
  }

  function RunEnd(line: string, delim: string, p: nat): (e: nat)
    requires p <= |line|
    ensures p <= e <= |line| && (e < |line| ==> line[e] in delim)
    ensures forall i :: p <= i < e ==> line[i] !in delim
    decreases |line| - p
  {
    if p < |line| && line[p] !in delim then RunEnd(line, delim, p + 1) else p
  }

  function RunsFrom(line: string, delim: string, p: nat): Runs
    requires p <= |line|
    decreases |line| - p
  {
    var s := SkipDelims(line, delim, p);
    if s == |line| then NoRuns
    else
      var e := RunEnd(line, delim, s);
      Run(s, e, RunsFrom(line, delim, if e < |line| then e + 1 else e))
  }

  function Count(r: Runs): nat {
    if r.NoRuns? then 0 else 1 + Count(r.rest)
  }

  function Nth(r: Runs, i: nat): Runs
    requires i < Count(r)
    ensures Nth(r, i).Run?
  {
    if i == 0 then r else Nth(r.rest, i - 1)
  }

  /** The blanks of line[lo..hi]. */
  function Blanks(line: string, lo: nat, hi: nat): nat
    requires lo <= hi <= |line|
    decreases hi - lo
  {
    if lo == hi then 0 else (if line[hi - 1] == ' ' then 1 else 0) + Blanks(line, lo, hi - 1)
  }

  lemma {:induction false} BlanksSplit(line: string, lo: nat, mid: nat, hi: nat)
    requires lo <= mid <= hi <= |line|
    ensures Blanks(line, lo, hi) == Blanks(line, lo, mid) + Blanks(line, mid, hi)
    decreases hi - mid
  {
    if mid < hi { BlanksSplit(line, lo, mid, hi - 1); }
  }

  /** Runs are told apart by blanks: there is at most one run more than blanks. */
  lemma {:induction false} RunsByBlanks(line: string, p: nat)
    requires p <= |line|
    ensures Count(RunsFrom(line, " ", p)) <= 1 + Blanks(line, if p < |line| then p + 1 else p, |line|)
    ensures p > 0 ==> Count(RunsFrom(line, " ", p)) <= 1 + Blanks(line, p, |line|)
    decreases |line| - p
  {
    var s := SkipDelims(line, " ", p);
    if s < |line| {
      var e := RunEnd(line, " ", s);
      BlanksSplit(line, p, if p < e then p + 1 else p, |line|);
      if e < |line| {
        RunsByBlanks(line, e + 1);
        assert line[e] == ' ';
        BlanksSplit(line, p + 1, e, |line|);
        BlanksSplit(line, e, e + 1, |line|);
        assert Blanks(line, e, e + 1) == 1;
      } else {
        assert RunsFrom(line, " ", e) == NoRuns;
      }
    }
  }

  // ---- C strings in the buffer ----

  /** s reads w at position p, NUL-terminated. */
  predicate Reads(s: seq<char>, p: nat, w: string) {
    p + |w| < |s| && s[p..p + |w|] == w && s[p + |w|] == NUL
  }

  /** The buffer still holds the line, but for NULs over delimiters. */
  ghost predicate Intact(s: seq<char>, line: string, delim: string) {
    |line| < |s| && s[|line|] == NUL &&
    forall i :: 0 <= i < |line| ==> s[i] == line[i] || (s[i] == NUL && line[i] in delim)
  }

  class Tokeniser {
    const buf: array<char>
    const delim: string
    var last: int
    ghost const line: string

    /** Everything from position p on is untouched. */
    ghost predicate Valid()
      reads this, buf
    {
      IsText(line) && NUL !in delim && Intact(buf[..], line, delim) && (last == NULL || 0 <= last <= |line|) &&
      (last != NULL ==> forall i :: last <= i < |line| ==> buf[i] == line[i])
    }

    /** The tokens strtok has still to give. */
    ghost function Left(): Runs
      reads this, buf
      requires Valid()
    {
      if last == NULL then NoRuns else RunsFrom(line, delim, last)
    }

    /** A buffer holding a line, about to be handed to strtok for the first time. */
    constructor (b: array<char>, n: nat, d: string)
      requires n < b.Length && b[n] == NUL && IsText(b[..n]) && NUL !in d
      ensures Valid() && buf == b && delim == d && line == b[..n] && last == 0
    {
      buf, delim, last, line := b, d, 0, b[..n];
    }

    /** strtok's loop over leading delimiters. */
    method SkipFrom(p: nat) returns (s: nat)
      requires Valid() && last != NULL && last <= p <= |line|
      ensures s == SkipDelims(line, delim, p) && (buf[s] == NUL <==> s == |line|)
    {
      s := p;
      while buf[s] != NUL && buf[s] in delim
        invariant p <= s <= |line| && SkipDelims(line, delim, s) == SkipDelims(line, delim, p)
        decreases |line| - s
      {
        s := s + 1;
      }
    }

    /** strtok's loop to the end of the token. */
    method ScanFrom(p: nat) returns (s: nat)
      requires Valid() && last != NULL && last <= p <= |line|
      ensures s == RunEnd(line, delim, p) && (buf[s] == NUL <==> s == |line|)
    {
      s := p;
      while buf[s] != NUL && buf[s] !in delim
        invariant p <= s <= |line| && RunEnd(line, delim, s) == RunEnd(line, delim, p)
        decreases |line| - s
      {
        s := s + 1;
      }
    }

    /** strtok(NULL, delim), and with last set to the start of the line strtok(line, delim). */
    method Next() returns (tok: int)
      requires Valid()
      modifies this, buf
      ensures Valid() && Intact(buf[..], line, delim)
      ensures old(Left()).NoRuns? ==> tok == NULL && last == NULL && buf[..] == old(buf[..])
      ensures old(Left()).Run? ==>
                tok == old(Left()).start && Left() == old(Left()).rest &&
                tok < old(Left()).end <= |line| && Reads(buf[..], tok, line[tok..old(Left()).end])
      ensures forall i :: 0 <= i < buf.Length && old(buf[i]) == NUL ==> buf[i] == NUL
    {
      if last == NULL { return NULL; }
      var s := SkipFrom(last);
      if buf[s] == NUL {
        last := NULL;
        return NULL;
      }
      tok := s;
      s := ScanFrom(s);
      if buf[s] == NUL {
        last := NULL;
        assert RunsFrom(line, delim, s) == NoRuns;
      } else {
        buf[s] := NUL;
        last := s + 1;
      }
      TokenReads(buf[..], line, delim, tok, s);
    }
  }

  // ---- process_one_cmd ----

  function Drop(r: Runs, i: nat): Runs {
    if i == 0 || r.NoRuns? then r else Drop(r.rest, i - 1)
  }

  lemma {:induction false} DropNth(r: Runs, i: nat)
    ensures i < Count(r) ==> Drop(r, i) == Nth(r, i)
    ensures i >= Count(r) ==> Drop(r, i) == NoRuns
    ensures Drop(r, i).Run? ==> Drop(r, i + 1) == Drop(r, i).rest
  {
    if i > 0 && r.Run? { DropNth(r.rest, i - 1); }
  }

  /** Every run lies in the line and holds no delimiter. */
  lemma {:induction false} RunsInside(line: string, delim: string, p: nat, i: nat)
    requires p <= |line| && i < Count(RunsFrom(line, delim, p))
    ensures var r := Nth(RunsFrom(line, delim, p), i);
            p <= r.start < r.end <= |line| && (forall k :: r.start <= k < r.end ==> line[k] !in delim) &&
            (r.end < |line| ==> line[r.end] in delim) && (0 < r.start && p < r.start ==> line[r.start - 1] in delim)
    decreases i
  {
    var s := SkipDelims(line, delim, p);
    var e := RunEnd(line, delim, s);
    if i > 0 {
      assert RunsFrom(line, delim, |line|) == NoRuns;
      RunsInside(line, delim, e + 1, i - 1);
    }
  }

  /** Every character that is not a delimiter is in some run. */
  lemma {:induction false} RunsCover(line: string, delim: string, p: nat, k: nat) returns (i: nat)
    requires p <= k < |line| && line[k] !in delim
    ensures var r := RunsFrom(line, delim, p); i < Count(r) && Nth(r, i).start <= k < Nth(r, i).end
    decreases |line| - p
  {
    var s := SkipDelims(line, delim, p);
    var e := RunEnd(line, delim, s);
    if k < e {
      i := 0;
    } else {
      i := RunsCover(line, delim, e + 1, k);
      i := i + 1;
    }
  }

  /** The last token after the first, among the first n, that starts with c; 0 if none. */
  function LastWith(line: string, r: Runs, n: nat, c: char): (k: nat)
    ensures k == 0 || k < n
  {
    if n <= 1 then 0
    else if n - 1 < Count(r) && Nth(r, n - 1).start < |line| && line[Nth(r, n - 1).start] == c then n - 1
    else LastWith(line, r, n - 1, c)
  }

  /** What process_one_cmd stores for token i. */
  function Stored(line: string, r: Runs, i: nat): int {
    if i >= Count(r) then NULL
    else if i > 0 && Nth(r, i).start < |line| && line[Nth(r, i).start] in "&|>" then NULL
    else Nth(r, i).start
  }

  lemma TokenReads(s: seq<char>, line: string, delim: string, start: nat, end: nat)
    requires Intact(s, line, delim) && start <= end <= |line| && s[end] == NUL
    requires forall k :: start <= k < end ==> line[k] !in delim
    ensures Reads(s, start, line[start..end])
  {
    assert s[start..end] == line[start..end];
  }

  /** The count of blanks that sizes the token array. */
  method CountTokens(buf: array<char>, n: nat) returns (num: nat)
    requires 0 < n <= buf.Length
    ensures num == 1 + Blanks(buf[..n], 1, n)
  {
    var i := n - 1;
    num := 1;
    BlanksSplit(buf[..n], 1, n, n);
    while i != 0
      invariant 0 <= i < n && num == 1 + Blanks(buf[..n], i + 1, n)
    {
      BlanksSplit(buf[..n], i, i + 1, n);
      assert Blanks(buf[..n], i, i + 1) == if buf[i] == ' ' then 1 else 0;
      if buf[i] == ' ' { num := num + 1; }
      i := i - 1;
    }
  }

  /** bg, pip, red, pip_pos and red_pos. */
  datatype Marks = Marks(bg: nat, pip: nat, red: nat, pipPos: nat, redPos: nat)

  /** The switch on a token's first character. */
  function Mark(m: Marks, c: char, i: nat): Marks {
    if c == '&' then m.(bg := i)
    else if c == '|' then m.(pip := 2, pipPos := i + 1)
    else if c == '>' then m.(red := 3, redPos := i + 1)
    else m
  }

  /** The marks once tokens 1 to n - 1 have been seen. */
  function MarksAfter(line: string, r: Runs, n: nat, m: Marks): Marks {
    if n <= 1 then m
    else if n - 1 < Count(r) && Nth(r, n - 1).start < |line| then
      Mark(MarksAfter(line, r, n - 1, m), line[Nth(r, n - 1).start], n - 1)
    else MarksAfter(line, r, n - 1, m)
  }

  lemma LastMarks(line: string, r: Runs, i: nat, m: Marks)
    requires i == Count(r) || (Count(r) == 0 && i == 1)
    ensures MarksAfter(line, r, i, m) == MarksAfter(line, r, Count(r), m)
  {
  }

  /** bg is the last token that starts with '&'; the others likewise. */
  lemma {:induction false} MarksMean(line: string, r: Runs, n: nat, m: Marks)
    requires m.bg == m.pip == m.red == 0
    ensures var z := MarksAfter(line, r, n, m);
            z.bg == LastWith(line, r, n, '&') &&
            z.pip == (if LastWith(line, r, n, '|') > 0 then 2 else 0) &&
            z.red == (if LastWith(line, r, n, '>') > 0 then 3 else 0) &&
            z.pipPos == (if z.pip == 2 then LastWith(line, r, n, '|') + 1 else m.pipPos) &&
            z.redPos == (if z.red == 3 then LastWith(line, r, n, '>') + 1 else m.redPos)
  {
    if n > 1 { MarksMean(line, r, n - 1, m); }
  }

  /** The first i tokens have their closing NULs. */
  ghost predicate Ended(s: seq<char>, line: string, runs: Runs, i: nat) {
    forall j :: 0 <= j < i && j < Count(runs) ==> Nth(runs, j).end <= |line| < |s| && s[Nth(runs, j).end] == NUL
  }

  /** The first i entries of the token array are as they should be. */
  ghost predicate Filled(tok: seq<int>, line: string, runs: Runs, i: nat) {
    i <= |tok| && forall j :: 0 <= j < i ==> tok[j] == Stored(line, runs, j)
  }

  lemma FilledStep(tok: seq<int>, z: seq<int>, line: string, runs: Runs, i: nat)
    requires i < |tok| && Filled(tok, line, runs, i) && z == tok[i := Stored(line, runs, i)]
    ensures Filled(z, line, runs, i + 1)
  {
  }

  lemma EndedStep(s: seq<char>, z: seq<char>, line: string, runs: Runs, i: nat)
    requires Ended(s, line, runs, i) && |z| == |s| && forall k :: 0 <= k < |s| && s[k] == NUL ==> z[k] == NUL
    requires i < Count(runs) ==> Nth(runs, i).end <= |line| < |z| && z[Nth(runs, i).end] == NUL
    ensures Ended(z, line, runs, i + 1)
  {
  }

  /** strtok's ith answer. */
  method Fetch(tk: Tokeniser, ghost runs: Runs, i: nat) returns (v: int, c: char)
    requires tk.Valid() && tk.delim == " " && runs == RunsFrom(tk.line, " ", 0)
    requires tk.Left() == Drop(runs, i) && Ended(tk.buf[..], tk.line, runs, i)
    modifies tk, tk.buf
    ensures tk.Valid() && tk.Left() == Drop(runs, i + 1) && Ended(tk.buf[..], tk.line, runs, i + 1)
    ensures v == if i < Count(runs) then Nth(runs, i).start else NULL
    ensures i < Count(runs) ==> Nth(runs, i).start < |tk.line| && c == tk.line[Nth(runs, i).start]
  {
    DropNth(runs, i);
    DropNth(runs, i + 1);
    ghost var was := tk.buf[..];
    v := tk.Next();
    EndedStep(was, tk.buf[..], tk.line, runs, i);
    if v == NULL { return v, NUL; }
    RunsInside(tk.line, " ", 0, i);
    c := tk.buf[v];
  }

  /** One turn of process_one_cmd's loop: token i is stored and marked, or the array closed. */
  method FillOne(tk: Tokeniser, tok: array<int>, ghost runs: Runs, i: nat, m: Marks) returns (v: int, z: Marks)
    requires tk.Valid() && tk.delim == " " && runs == RunsFrom(tk.line, " ", 0)
    requires tk.Left() == Drop(runs, i) && Ended(tk.buf[..], tk.line, runs, i)
    requires 1 <= i < tok.Length && Filled(tok[..], tk.line, runs, i)
    modifies tk, tk.buf, tok
    ensures tk.Valid() && tk.Left() == Drop(runs, i + 1) && Ended(tk.buf[..], tk.line, runs, i + 1)
    ensures Filled(tok[..], tk.line, runs, i + 1) && (v == NULL <==> Count(runs) <= i)
    ensures v == NULL ==> z == m
    ensures v != NULL ==> Nth(runs, i).start < |tk.line| && z == Mark(m, tk.line[Nth(runs, i).start], i)
  {
    z := m;
    var c;
    v, c := Fetch(tk, runs, i);
    ghost var was := tok[..];
    tok[i] := v;
    if v != NULL {
      if c == '&' {
        z := m.(bg := i);
        tok[i] := NULL;
      } else if c == '|' {
        z := m.(pip := 2, pipPos := i + 1);
        tok[i] := NULL;
      } else if c == '>' {
        z := m.(red := 3, redPos := i + 1);
        tok[i] := NULL;
      }
    }
    FilledStep(was, tok[..], tk.line, runs, i);
  }

  /** The first token is stored whatever it starts with. */
  method FillFirst(tk: Tokeniser, tok: array<int>, ghost runs: Runs)
    requires tk.Valid() && tk.delim == " " && runs == RunsFrom(tk.line, " ", 0) && tk.Left() == runs
    requires 1 <= tok.Length
    modifies tk, tk.buf, tok
    ensures tk.Valid() && tk.Left() == Drop(runs, 1) && Ended(tk.buf[..], tk.line, runs, 1)
    ensures Filled(tok[..], tk.line, runs, 1)
  {
    var v, c := Fetch(tk, runs, 0);
    tok[0] := v;
  }

  lemma FilledLess(tok: seq<int>, line: string, runs: Runs, i: nat, k: nat)
    requires Filled(tok, line, runs, i) && k <= i
    ensures Filled(tok, line, runs, k)
  {
  }

  /** process_one_cmd's loop over the tokens. */
  method FillTokens(tk: Tokeniser, tok: array<int>, ghost runs: Runs, m0: Marks) returns (m: Marks)
    requires tk.Valid() && tk.delim == " " && runs == RunsFrom(tk.line, " ", 0) && tk.Left() == runs
    requires 2 <= tok.Length && Count(runs) < tok.Length
    modifies tk, tk.buf, tok
    ensures tk.Valid() && Ended(tk.buf[..], tk.line, runs, Count(runs))
    ensures Filled(tok[..], tk.line, runs, Count(runs) + 1) && m == MarksAfter(tk.line, runs, Count(runs), m0)
  {
    ghost var t := Count(runs);
    var i := 0;
    m := m0;
    FillFirst(tk, tok, runs);
    i := i + 1;
    while true
      invariant 1 <= i < tok.Length && (i <= t || (t == 0 && i == 1))
      invariant tk.Valid() && tk.Left() == Drop(runs, i) && Ended(tk.buf[..], tk.line, runs, i)
      invariant Filled(tok[..], tk.line, runs, i) && m == MarksAfter(tk.line, runs, i, m0)
      decreases t - i
    {
      var v;
      v, m := FillOne(tk, tok, runs, i, m);
      if v == NULL {
        LastMarks(tk.line, runs, i, m0);
        FilledLess(tok[..], tk.line, runs, i + 1, t + 1);
        break;
      }
      i := i + 1;
    }
  }

  /** The tokenising part of process_one_cmd, on a line of length n that is not empty. The
      array has room for every token and the closing NULL. */
  method Tokenise(buf: array<char>, n: nat, m0: Marks) returns (tok: array<int>, m: Marks, ghost runs: Runs)
    requires 0 < n < buf.Length && buf[n] == NUL && IsText(buf[..n])
    modifies buf
    ensures runs == RunsFrom(old(buf[..n]), " ", 0) && fresh(tok) && Count(runs) < tok.Length
    ensures tok.Length == Blanks(old(buf[..n]), 1, n) + 2
    ensures Filled(tok[..], old(buf[..n]), runs, Count(runs) + 1) &&
            m == MarksAfter(old(buf[..n]), runs, Count(runs), m0)
    ensures forall i :: 0 <= i < Count(runs) ==> RunReads(buf[..], old(buf[..n]), Nth(runs, i))
  {
    var num := CountTokens(buf, n);
    tok := new int[num + 1];
    ghost var line := buf[..n];
    runs := RunsFrom(line, " ", 0);
    RunsByBlanks(line, 0);
    var tk := new Tokeniser(buf, n, " ");
    m := FillTokens(tk, tok, runs, m0);
    AllRead(buf[..], line, runs);
  }

  ghost predicate RunReads(s: seq<char>, line: string, r: Runs) {
    r.Run? && r.start <= r.end <= |line| && Reads(s, r.start, line[r.start..r.end])
  }

  lemma AllRead(s: seq<char>, line: string, runs: Runs)
    requires Intact(s, line, " ") && runs == RunsFrom(line, " ", 0)
    requires Ended(s, line, runs, Count(runs))
    ensures forall j :: 0 <= j < Count(runs) ==> RunReads(s, line, Nth(runs, j))
  {
    forall j | 0 <= j < Count(runs)
      ensures RunReads(s, line, Nth(runs, j))
    {
      RunsInside(line, " ", 0, j);
      TokenReads(s, line, " ", Nth(runs, j).start, Nth(runs, j).end);
    }
  }
}

/** The shell's parser as it runs: over a buffer, with commands that point into it, and
    nulterminate's pass that writes the NULs (sh.c). */
module ShellParse {
  import opened CTypes
  import opened ShellLex
  import opened ShellGrammar

  /** A parsed command points into the buffer. */
  type Node = Cmd<Span>

  datatype Outcome = Parsed(cmd: Node) | Failed(why: Why)

  ghost predicate SpansOk(b: string, c: Node) {
    match c
    case Exec(ws) => forall i :: 0 <= i < |ws| ==> SpanOk(b, ws[i])
    case Redir(d, f, _) => SpansOk(b, d) && SpanOk(b, f)
    case Pipe(l, r) => SpansOk(b, l) && SpansOk(b, r)
    case List(l, r) => SpansOk(b, l) && SpansOk(b, r)
    case Back(d) => SpansOk(b, d)
  }

  ghost function Texts(b: string, ws: seq<Span>): (r: seq<string>)
    requires forall i :: 0 <= i < |ws| ==> SpanOk(b, ws[i])
    ensures |r| == |ws| && forall i :: 0 <= i < |ws| ==> r[i] == Text(b, ws[i])
  {
    seq(|ws|, i requires 0 <= i < |ws| => Text(b, ws[i]))
  }

  /** The command with its words read out of the buffer. */
  ghost function Abs(b: string, c: Node): Ast
    requires SpansOk(b, c)
  {
    match c
    case Exec(ws) => Exec(Texts(b, ws))
    case Redir(d, f, m) => Redir(Abs(b, d), Text(b, f), m)
    case Pipe(l, r) => Pipe(Abs(b, l), Abs(b, r))
    case List(l, r) => List(Abs(b, l), Abs(b, r))
    case Back(d) => Back(Abs(b, d))
  }

  lemma {:induction false} AddWordAbs(b: string, c: Node, w: Span)
    requires SpansOk(b, c) && SpanOk(b, w)
    ensures SpansOk(b, AddWord(c, w)) && Abs(b, AddWord(c, w)) == AddWord(Abs(b, c), Text(b, w))
  {
    match c
    case Exec(ws) => assert Texts(b, ws + [w]) == Texts(b, ws) + [Text(b, w)];
    case Redir(d, _, _) => AddWordAbs(b, d, w);
    case _ =>
  }

  /** The method's outcome and position are what the grammar says. */
  ghost predicate Agrees(b: string, o: Outcome, p: nat, r: Res)
    requires IsText(b)
  {
    match r
    case Panic(why) => o == Failed(why)
    case Ok(tree, rest) => o.Parsed? && SpansOk(b, o.cmd) && Abs(b, o.cmd) == tree && p <= |b| && Lex(b, p) == rest
  }

  /** The sets of symbols the parser peeks for. */
  lemma PeekSets(ts: Toks)
    ensures Starts(ts, "<>") <==> NextRedir(ts)
    ensures Starts(ts, "|)&;") <==> NextStop(ts)
    ensures Starts(ts, "(") <==> Next(ts, '(')
    ensures Starts(ts, ")") <==> Next(ts, ')')
    ensures Starts(ts, "|") <==> Next(ts, '|')
    ensures Starts(ts, "&") <==> Next(ts, '&')
    ensures Starts(ts, ";") <==> Next(ts, ';')
  {
  }

  /** One round of parseexec's loop, in terms of the grammar. */
  lemma WordsRound(b: string, c: Node, n: nat, ts: Toks, o: Outcome, p: nat)
    requires IsText(b) && SpansOk(b, c) && ts.Cons? && !NextStop(ts) && Agrees(b, o, p, OneWord(Abs(b, c), n, ts))
    ensures o.Failed? ==> Words(Abs(b, c), n, ts) == Panic(o.why)
    ensures o.Parsed? ==>
            p <= |b| && SpansOk(b, o.cmd) && Words(Abs(b, o.cmd), n + 1, Lex(b, p)) == Words(Abs(b, c), n, ts)
  {
  }

  method ParseRedirs(b: string, c: Node, p: nat) returns (o: Outcome, s: nat)
    requires IsText(b) && p <= |b| && SpansOk(b, c)
    ensures Agrees(b, o, s, Redirs(Abs(b, c), Lex(b, p))) && p <= s <= |b|
  {
    var cmd := c;
    s := p;
    while true
      invariant p <= s <= |b| && SpansOk(b, cmd)
      invariant Redirs(Abs(b, cmd), Lex(b, s)) == Redirs(Abs(b, c), Lex(b, p))
      decreases |b| - s
    {
      var hit;
      hit, s := Peek(b, s, "<>");
      PeekSets(Lex(b, s));
      if !hit { return Parsed(cmd), s; }
      var tok, file, w;
      ghost var s0 := s;
      tok, w, s := GetToken(b, s);
      var kind;
      kind, file, s := GetToken(b, s);
      if kind != 'a' { return Failed(MissingFile), s; }
      cmd := Redir(cmd, file, if tok == '<' then In else Out);
    }
  }

  method ParseExec(b: string, p: nat) returns (o: Outcome, s: nat)
    requires IsText(b) && p <= |b|
    ensures Agrees(b, o, s, Simple(Lex(b, p))) && p <= s <= |b|
    decreases |b| - p, 1
  {
    var hit;
    hit, s := Peek(b, p, "(");
    PeekSets(Lex(b, s));
    if hit {
      o, s := ParseBlock(b, s);
      return;
    }
    o, s := ParseRedirs(b, Exec([]), s);
    if o.Failed? { return; }
    o, s := ParseWords(b, o.cmd, s);
  }

  /** parseexec's loop over the words and the redirections between them. */
  method ParseWords(b: string, c: Node, p: nat) returns (o: Outcome, s: nat)
    requires IsText(b) && p <= |b| && SpansOk(b, c)
    ensures Agrees(b, o, s, Words(Abs(b, c), 0, Lex(b, p))) && p <= s <= |b|
  {
    ghost var r := Words(Abs(b, c), 0, Lex(b, p));
    var argc := 0;
    o, s := Parsed(c), p;
    while true
      invariant p <= s <= |b| && o.Parsed? && SpansOk(b, o.cmd) && argc < MAXARGS
      invariant WordsLeft(b, o.cmd, argc, s, r)
      decreases |b| - s
    {
      var done;
      o, s, done := ParseWord(b, o.cmd, argc, s, r);
      if done || o.Failed? { return; }
      argc := argc + 1;
    }
  }

  /** From p on, with c so far and its argc words, the grammar comes to r. */
  ghost predicate WordsLeft(b: string, c: Node, argc: nat, p: nat, r: Res)
    requires IsText(b) && p <= |b| && SpansOk(b, c)
  {
    Words(Abs(b, c), argc, Lex(b, p)) == r
  }

  /** One round of it; done when the command ends. */
  method ParseWord(b: string, c: Node, argc: nat, p: nat, ghost r: Res) returns (o: Outcome, s: nat, done: bool)
    requires IsText(b) && p <= |b| && SpansOk(b, c) && argc < MAXARGS && WordsLeft(b, c, argc, p, r)
    ensures p <= s <= |b| && (o.Parsed? ==> SpansOk(b, o.cmd))
    ensures done || o.Failed? ==> Agrees(b, o, s, r)
    ensures done ==> o.Parsed?
    ensures !done && o.Parsed? ==> argc + 1 < MAXARGS && p < s && WordsLeft(b, o.cmd, argc + 1, s, r)
  {
    var hit;
    hit, s := Peek(b, p, "|)&;");
    ghost var ts := Lex(b, s);
    PeekSets(ts);
    if hit { return Parsed(c), s, true; }
    var tok, w;
    tok, w, s := GetToken(b, s);
    if tok == NUL { return Parsed(c), s, true; }
    o, s := AddArg(b, c, argc, tok, w, s, ts);
    WordsRound(b, c, argc, ts, o, s);
    done := false;
  }

  /** One more argv entry, and the redirections after it. */
  method AddArg(b: string, c: Node, argc: nat, tok: char, w: Span, p: nat, ghost ts: Toks) returns (o: Outcome, s: nat)
    requires IsText(b) && p <= |b| && SpansOk(b, c) && ts.Cons? && ts.tail == Lex(b, p) && tok == Code(ts)
    requires tok == 'a' ==> SpanOk(b, w) && ts.head == Word(Text(b, w))
    ensures Agrees(b, o, s, OneWord(Abs(b, c), argc, ts)) && p <= s <= |b|
    ensures o.Parsed? ==> argc + 1 < MAXARGS
  {
    if tok != 'a' { return Failed(Syntax), p; }
    AddWordAbs(b, c, w);
    var cmd := AddWord(c, w);
    if argc + 1 >= MAXARGS { return Failed(TooManyArgs), p; }
    o, s := ParseRedirs(b, cmd, p);
  }

  method ParseBlock(b: string, p: nat) returns (o: Outcome, s: nat)
    requires IsText(b) && p < |b| && Next(Lex(b, p), '(')
    ensures Agrees(b, o, s, Block(Lex(b, p))) && p <= s <= |b|
    decreases |b| - p, 0
  {
    var tok, w;
    tok, w, s := GetToken(b, p);
    o, s := ParseLine(b, s);
    if o.Failed? { return; }
    var hit;
    hit, s := Peek(b, s, ")");
    PeekSets(Lex(b, s));
    if !hit { return Failed(MissingParen), s; }
    tok, w, s := GetToken(b, s);
    o, s := ParseRedirs(b, o.cmd, s);
  }

  method ParsePipe(b: string, p: nat) returns (o: Outcome, s: nat)
    requires IsText(b) && p <= |b|
    ensures Agrees(b, o, s, Pipeline(Lex(b, p))) && p <= s <= |b|
    decreases |b| - p, 2
  {
    o, s := ParseExec(b, p);
    if o.Failed? { return; }
    var hit, left := false, o.cmd;
    hit, s := Peek(b, s, "|");
    PeekSets(Lex(b, s));
    if hit {
      var tok, w;
      tok, w, s := GetToken(b, s);
      o, s := ParsePipe(b, s);
      if o.Failed? { return; }
      o := Parsed(Pipe(left, o.cmd));
    }
  }

  /** parseline's loop. */
  method ParseBacks(b: string, c: Node, p: nat) returns (cmd: Node, s: nat)
    requires IsText(b) && p <= |b| && SpansOk(b, c)
    ensures p <= s <= |b| && SpansOk(b, cmd) && !Next(Lex(b, s), '&')
    ensures LineTail(Abs(b, cmd), Lex(b, s)) == LineTail(Abs(b, c), Lex(b, p))
  {
    cmd := c;
    var hit, tok, w;
    hit, s := Peek(b, p, "&");
    PeekSets(Lex(b, s));
    while hit
      invariant p <= s <= |b| && SpansOk(b, cmd) && (hit <==> Next(Lex(b, s), '&'))
      invariant LineTail(Abs(b, cmd), Lex(b, s)) == LineTail(Abs(b, c), Lex(b, p))
      decreases |b| - s
    {
      tok, w, s := GetToken(b, s);
      cmd := Back(cmd);
      hit, s := Peek(b, s, "&");
      PeekSets(Lex(b, s));
    }
  }

  method ParseLine(b: string, p: nat) returns (o: Outcome, s: nat)
    requires IsText(b) && p <= |b|
    ensures Agrees(b, o, s, Line(Lex(b, p))) && p <= s <= |b|
    decreases |b| - p, 3
  {
    o, s := ParsePipe(b, p);
    if o.Failed? { return; }
    var cmd;
    cmd, s := ParseBacks(b, o.cmd, s);
    var hit, tok, w;
    hit, s := Peek(b, s, ";");
    PeekSets(Lex(b, s));
    if hit {
      tok, w, s := GetToken(b, s);
      o, s := ParseLine(b, s);
      if o.Failed? { return; }
      cmd := List(cmd, o.cmd);
    }
    o := Parsed(cmd);
  }

  // ---- nulterminate ----

  /** k is where a word or file name of c ends. */
  ghost predicate EndsAt(c: Node, k: nat) {
    match c
    case Exec(ws) => exists i :: 0 <= i < |ws| && ws[i].eq == k
    case Redir(d, f, _) => EndsAt(d, k) || f.eq == k
    case Pipe(l, r) => EndsAt(l, k) || EndsAt(r, k)
    case List(l, r) => EndsAt(l, k) || EndsAt(r, k)
    case Back(d) => EndsAt(d, k)
  }

  ghost predicate EndsBelow(c: Node, n: nat) {
    match c
    case Exec(ws) => forall i :: 0 <= i < |ws| ==> ws[i].eq < n
    case Redir(d, f, _) => EndsBelow(d, n) && f.eq < n
    case Pipe(l, r) => EndsBelow(l, n) && EndsBelow(r, n)
    case List(l, r) => EndsBelow(l, n) && EndsBelow(r, n)
    case Back(d) => EndsBelow(d, n)
  }

  lemma {:induction false} SpansEnd(b: string, c: Node, n: nat)
    requires SpansOk(b, c) && |b| < n
    ensures EndsBelow(c, n)
  {
    match c
    case Exec(ws) => assert forall i :: 0 <= i < |ws| ==> SpanOk(b, ws[i]);
    case Redir(d, _, _) => SpansEnd(b, d, n);
    case Pipe(l, r) => SpansEnd(b, l, n); SpansEnd(b, r, n);
    case List(l, r) => SpansEnd(b, l, n); SpansEnd(b, r, n);
    case Back(d) => SpansEnd(b, d, n);
  }

  /** nulterminate: a NUL at the end of each word and file name, nothing else. */
  method NulTerminate(c: Node, buf: array<char>)
    requires EndsBelow(c, buf.Length)
    modifies buf
    ensures forall k :: 0 <= k < buf.Length ==> buf[k] == if EndsAt(c, k) then NUL else old(buf[k])
    decreases c
  {
    match c
    case Exec(ws) =>
      var i := 0;
      while i < |ws|
        invariant 0 <= i <= |ws|
        invariant forall k :: 0 <= k < buf.Length ==>
                    buf[k] == if exists j :: 0 <= j < i && ws[j].eq == k then NUL else old(buf[k])
      {
        buf[ws[i].eq] := NUL;
        i := i + 1;
      }
    case Redir(d, f, _) =>
      NulTerminate(d, buf);
      buf[f.eq] := NUL;
    case Pipe(l, r) =>
      NulTerminate(l, buf);
      NulTerminate(r, buf);
    case List(l, r) =>
      NulTerminate(l, buf);
      NulTerminate(r, buf);
    case Back(d) =>
      NulTerminate(d, buf);
  }

  /** The C string at q. */
  function CString(s: string, q: nat): string
    decreases |s| - q
  {
    if q < |s| && s[q] != NUL then [s[q]] + CString(s, q + 1) else ""
  }

  lemma {:induction false} CStringIs(s: string, q: nat, e: nat)
    requires q <= e < |s| && s[e] == NUL && forall i :: q <= i < e ==> s[i] != NUL
    ensures CString(s, q) == s[q..e]
    decreases e - q
  {
    if q < e {
      CStringIs(s, q + 1, e);
      assert s[q..e] == [s[q]] + s[q + 1..e];
    }
  }

  /** The command with its words read as C strings. */
  ghost function CTree(s: string, c: Node): Ast {
    match c
    case Exec(ws) => Exec(seq(|ws|, i requires 0 <= i < |ws| => CString(s, ws[i].q)))
    case Redir(d, f, m) => Redir(CTree(s, d), CString(s, f.q), m)
    case Pipe(l, r) => Pipe(CTree(s, l), CTree(s, r))
    case List(l, r) => List(CTree(s, l), CTree(s, r))
    case Back(d) => Back(CTree(s, d))
  }

  /** Words end where no word goes on, so no NUL lands inside another word. */
  lemma {:induction false} EndsOutside(b: string, c: Node, k: nat)
    requires SpansOk(b, c) && EndsAt(c, k)
    ensures k <= |b| && (k < |b| ==> !IsWordChar(b[k]))
  {
    match c
    case Exec(ws) =>
      var i :| 0 <= i < |ws| && ws[i].eq == k;
      assert SpanOk(b, ws[i]);
    case Redir(d, f, _) => if f.eq != k { EndsOutside(b, d, k); }
    case Pipe(l, r) => if EndsAt(l, k) { EndsOutside(b, l, k); } else { EndsOutside(b, r, k); }
    case List(l, r) => if EndsAt(l, k) { EndsOutside(b, l, k); } else { EndsOutside(b, r, k); }
    case Back(d) => EndsOutside(b, d, k);
  }

  lemma WordReads(b: string, s: string, w: Span)
    requires SpanOk(b, w) && |b| < |s| && w.eq < |s| && s[w.eq] == NUL
    requires forall i :: 0 <= i < |b| && IsWordChar(b[i]) ==> s[i] == b[i]
    ensures CString(s, w.q) == Text(b, w)
  {
    CStringIs(s, w.q, w.eq);
    assert s[w.q..w.eq] == b[w.q..w.eq];
  }

  /** Once every end holds a NUL, the words read as C strings are the tokens. */
  lemma {:induction false} TreeReads(b: string, s: string, c: Node)
    requires SpansOk(b, c) && |b| < |s| && forall k: nat :: EndsAt(c, k) ==> k < |s| && s[k] == NUL
    requires forall i :: 0 <= i < |b| && IsWordChar(b[i]) ==> s[i] == b[i]
    ensures CTree(s, c) == Abs(b, c)
  {
    match c
    case Exec(ws) =>
      forall i | 0 <= i < |ws|
        ensures CString(s, ws[i].q) == Text(b, ws[i])
      {
        assert SpanOk(b, ws[i]) && EndsAt(c, ws[i].eq);
        WordReads(b, s, ws[i]);
      }
    case Redir(d, f, _) =>
      assert EndsAt(c, f.eq);
      assert forall k: nat :: EndsAt(d, k) ==> EndsAt(c, k);
      TreeReads(b, s, d);
      WordReads(b, s, f);
    case Pipe(l, r) =>
      assert forall k: nat :: EndsAt(l, k) || EndsAt(r, k) ==> EndsAt(c, k);
      TreeReads(b, s, l);
      TreeReads(b, s, r);
    case List(l, r) =>
      assert forall k: nat :: EndsAt(l, k) || EndsAt(r, k) ==> EndsAt(c, k);
      TreeReads(b, s, l);
      TreeReads(b, s, r);
    case Back(d) =>
      assert forall k: nat :: EndsAt(d, k) ==> EndsAt(c, k);
      TreeReads(b, s, d);
  }

  /** parsecmd on a line of length n: the tree the grammar gives, its words now C strings
      in the buffer. */
  method ParseCmd(buf: array<char>, n: nat) returns (o: Outcome)
    requires n < buf.Length && buf[n] == NUL && IsText(buf[..n])
    modifies buf
    ensures var r := Command(Lex(old(buf[..n]), 0));
            match r
            case Panic(why) => o == Failed(why) && buf[..] == old(buf[..])
            case Ok(tree, _) => o.Parsed? && CTree(buf[..], o.cmd) == tree
  {
    var b := buf[..n];
    var s;
    o, s := ParseLine(b, 0);
    if o.Failed? { return; }
    var hit;
    hit, s := Peek(b, s, "");
    if s != n { return Failed(Leftovers); }
    forall k: nat | EndsAt(o.cmd, k)
      ensures k <= n && (k < n ==> !IsWordChar(b[k]))
    {
      EndsOutside(b, o.cmd, k);
    }
    SpansEnd(b, o.cmd, buf.Length);
    NulTerminate(o.cmd, buf);
    TreeReads(b, buf[..], o.cmd);
  }
}

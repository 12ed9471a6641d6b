/** What the shell's recursive-descent parser does with a list of tokens, and the printer
    that undoes it (sh.c). */
module ShellGrammar {
  import opened CTypes
  import opened ShellLex

  const MAXARGS := 10

  datatype Mode = In | Out       // O_RDONLY on 0, O_WRONLY|O_CREATE on 1

  datatype Cmd<W> =
    | Exec(argv: seq<W>)
    | Redir(cmd: Cmd<W>, file: W, mode: Mode)
    | Pipe(left: Cmd<W>, right: Cmd<W>)
    | List(left: Cmd<W>, right: Cmd<W>)
    | Back(cmd: Cmd<W>)

  type Ast = Cmd<string>

  datatype Why = MissingFile | MissingParen | TooManyArgs | Syntax | Leftovers

  datatype Res = Ok(tree: Ast, rest: Toks) | Panic(why: Why)

  function Len(ts: Toks): nat {
    if ts.Nil? then 0 else 1 + Len(ts.tail)
  }

  /** The next token is the symbol c. */
  predicate Next(ts: Toks, c: char) {
    ts.Cons? && ts.head == Sym(c)
  }

  predicate NextRedir(ts: Toks) {
    Next(ts, '<') || Next(ts, '>') || Next(ts, '+')
  }

  predicate NextStop(ts: Toks) {
    Next(ts, '|') || Next(ts, ')') || Next(ts, '&') || Next(ts, ';')
  }

  function ModeOf(c: char): Mode {
    if c == '<' then In else Out
  }

  /** The exec node inside cmd, reached through redirections, gets one more word. */
  function AddWord<W>(c: Cmd<W>, w: W): Cmd<W> {
    match c
    case Exec(argv) => Exec(argv + [w])
    case Redir(d, f, m) => Redir(AddWord(d, w), f, m)
    case _ => c
  }

  predicate Shorter(r: Res, n: nat) {
    r.Ok? ==> Len(r.rest) <= n
  }

  function Redirs(c: Ast, ts: Toks): (r: Res)
    ensures Shorter(r, Len(ts))
    decreases ts
  {
    if !NextRedir(ts) then Ok(c, ts)
    else if ts.tail.Cons? && ts.tail.head.Word? then
      Redirs(Redir(c, ts.tail.head.text, ModeOf(ts.head.c)), ts.tail.tail)
    else Panic(MissingFile)
  }

  /** parseexec's loop: n words so far. */
  function Words(c: Ast, n: nat, ts: Toks): (r: Res)
    ensures Shorter(r, Len(ts))
    decreases Len(ts)
  {
    if ts.Nil? || NextStop(ts) then Ok(c, ts)
    else
      var r := OneWord(c, n, ts);
      if r.Panic? then r else Words(r.tree, n + 1, r.rest)
  }

  /** One word, the nth, and the redirections after it. */
  function OneWord(c: Ast, n: nat, ts: Toks): (r: Res)
    requires ts.Cons?
    ensures Shorter(r, Len(ts.tail))
  {
    if !ts.head.Word? then Panic(Syntax)
    else if n + 1 >= MAXARGS then Panic(TooManyArgs)
    else Redirs(AddWord(c, ts.head.text), ts.tail)
  }

  function Line(ts: Toks): (r: Res)
    ensures Shorter(r, Len(ts))
    decreases Len(ts), 4
  {
    var r := Pipeline(ts);
    if r.Panic? then r else LineTail(r.tree, r.rest)
  }

  function LineTail(c: Ast, ts: Toks): (r: Res)
    ensures Shorter(r, Len(ts))
    decreases Len(ts), 3
  {
    if Next(ts, '&') then LineTail(Back(c), ts.tail)
    else if Next(ts, ';') then
      var r := Line(ts.tail);
      if r.Panic? then r else Ok(List(c, r.tree), r.rest)
    else Ok(c, ts)
  }

  function Pipeline(ts: Toks): (r: Res)
    ensures Shorter(r, Len(ts))
    decreases Len(ts), 2
  {
    var r := Simple(ts);
    if r.Panic? || !Next(r.rest, '|') then r
    else
      var q := Pipeline(r.rest.tail);
      if q.Panic? then q else Ok(Pipe(r.tree, q.tree), q.rest)
  }

  function Simple(ts: Toks): (r: Res)
    ensures Shorter(r, Len(ts))
    decreases Len(ts), 1
  {
    if Next(ts, '(') then Block(ts)
    else
      var r := Redirs(Exec([]), ts);
      if r.Panic? then r else Words(r.tree, 0, r.rest)
  }

  function Block(ts: Toks): (r: Res)
    requires Next(ts, '(')
    ensures Shorter(r, Len(ts))
    decreases Len(ts), 0
  {
    var r := Line(ts.tail);
    if r.Panic? then r
    else if !Next(r.rest, ')') then Panic(MissingParen)
    else Redirs(r.tree, r.rest.tail)
  }

  function Command(ts: Toks): Res {
    var r := Line(ts);
    if r.Ok? && r.rest.Cons? then Panic(Leftovers) else r
  }

  // ---- Printing ----

  /** At most MAXARGS-1 words to a command, all words ones the lexer can read. */
  predicate Legal(t: Ast) {
    match t
    case Exec(ws) => |ws| < MAXARGS && forall i :: 0 <= i < |ws| ==> LegalWord(ws[i])
    case Redir(c, f, _) => Legal(c) && LegalWord(f)
    case Pipe(l, r) => Legal(l) && Legal(r)
    case List(l, r) => Legal(l) && Legal(r)
    case Back(c) => Legal(c)
  }

  /** The level of the grammar at which t needs no parentheses: 0 line, 1 backgrounded
      pipeline, 2 pipeline, 3 simple command. */
  function Home(t: Ast): nat {
    match t
    case List(_, _) => 0
    case Back(_) => 1
    case Pipe(_, _) => 2
    case _ => 3
  }

  function PrintWords(ws: seq<string>, i: nat, k: Toks): Toks
    requires i <= |ws|
    decreases |ws| - i
  {
    if i == |ws| then k else Cons(Word(ws[i]), PrintWords(ws, i + 1, k))
  }

  /** The canonical tokens of t at a level of the grammar, followed by k. */
  function Print(lev: nat, t: Ast, k: Toks): Toks
    requires lev <= 3
    decreases t, (Home(t) + 4 - lev) % 4
  {
    if lev == 0 && t.List? then Print(1, t.left, Cons(Sym(';'), Print(0, t.right, k)))
    else if lev == 1 && t.Back? then Print(1, t.cmd, Cons(Sym('&'), k))
    else if lev == 2 && t.Pipe? then Print(3, t.left, Cons(Sym('|'), Print(2, t.right, k)))
    else if lev < 3 then Print(lev + 1, t, k)
    else if t.Exec? then PrintWords(t.argv, 0, k)
    else if t.Redir? then Print(3, t.cmd, Cons(Sym(if t.mode == In then '<' else '>'), Cons(Word(t.file), k)))
    else Cons(Sym('('), Print(0, t, Cons(Sym(')'), k)))
  }

  // ---- Round trip ----

  /** Nothing that would go on a simple command. */
  predicate NotWord(k: Toks) {
    k.Cons? ==> k.head.Sym? && k.head.c != '('
  }

  lemma {:induction false} WordsBack(ws: seq<string>, i: nat, k: Toks, c: Ast, t: Ast, k1: Toks)
    requires i <= |ws| < MAXARGS && c == Exec(ws[..i]) && NotWord(k)
    requires Redirs(Exec(ws), k) == Ok(t, k1) && (k1.Nil? || NextStop(k1))
    ensures var r := Redirs(c, PrintWords(ws, i, k)); r.Ok? && Words(r.tree, i, r.rest) == Ok(t, k1)
    decreases |ws| - i
  {
    if i == |ws| {
      assert ws[..i] == ws;
    } else {
      var d := AddWord(c, ws[i]);
      assert ws[..i] + [ws[i]] == ws[..i + 1];
      WordsBack(ws, i + 1, k, d, t, k1);
    }
  }

  /** A printed simple command, then whatever redirections k starts with. */
  lemma {:induction false} SimpleBack(t: Ast, k: Toks, t1: Ast, k1: Toks)
    requires Legal(t) && NotWord(k) && Redirs(t, k) == Ok(t1, k1) && (k1.Nil? || NextStop(k1))
    ensures Simple(Print(3, t, k)) == Ok(t1, k1)
    decreases t, (Home(t) + 1) % 4
  {
    if t.Exec? {
      WordsBack(t.argv, 0, k, Exec([]), t1, k1);
    } else if t.Redir? {
      SimpleBack(t.cmd, Cons(Sym(if t.mode == In then '<' else '>'), Cons(Word(t.file), k)), t1, k1);
    } else {
      LineBack(t, Cons(Sym(')'), k));
    }
  }

  lemma {:induction false} PipelineBack(t: Ast, k: Toks)
    requires Legal(t) && (k.Nil? || (NextStop(k) && !Next(k, '|')))
    ensures Pipeline(Print(2, t, k)) == Ok(t, k)
    decreases t, (Home(t) + 2) % 4
  {
    if t.Pipe? {
      PipelineBack(t.right, k);
      var m := Cons(Sym('|'), Print(2, t.right, k));
      SimpleBack(t.left, m, t.left, m);
    } else {
      SimpleBack(t, k, t, k);
    }
  }

  lemma {:induction false} BacksBack(t: Ast, k: Toks)
    requires Legal(t) && (k.Nil? || (NextStop(k) && !Next(k, '|')))
    ensures Line(Print(1, t, k)) == LineTail(t, k)
    decreases t, (Home(t) + 3) % 4
  {
    if t.Back? {
      BacksBack(t.cmd, Cons(Sym('&'), k));
    } else {
      PipelineBack(t, k);
    }
  }

  lemma {:induction false} LineBack(t: Ast, k: Toks)
    requires Legal(t) && (k.Nil? || Next(k, ')'))
    ensures Line(Print(0, t, k)) == Ok(t, k)
    decreases t, Home(t)
  {
    if t.List? {
      LineBack(t.right, k);
      BacksBack(t.left, Cons(Sym(';'), Print(0, t.right, k)));
    } else {
      BacksBack(t, k);
    }
  }

  /** Parsing the canonical tokens of a tree gives the tree back. */
  lemma CommandBack(t: Ast)
    requires Legal(t)
    ensures Command(Print(0, t, Nil)) == Ok(t, Nil)
  {
    LineBack(t, Nil);
  }

  lemma {:induction false} PrintLegal(lev: nat, t: Ast, k: Toks)
    requires lev <= 3 && Legal(t) && LegalToks(k)
    ensures LegalToks(Print(lev, t, k))
    decreases t, (Home(t) + 4 - lev) % 4
  {
    if lev == 0 && t.List? {
      PrintLegal(0, t.right, k);
      PrintLegal(1, t.left, Cons(Sym(';'), Print(0, t.right, k)));
    } else if lev == 1 && t.Back? {
      PrintLegal(1, t.cmd, Cons(Sym('&'), k));
    } else if lev == 2 && t.Pipe? {
      PrintLegal(2, t.right, k);
      PrintLegal(3, t.left, Cons(Sym('|'), Print(2, t.right, k)));
    } else if lev < 3 {
      PrintLegal(lev + 1, t, k);
    } else if t.Exec? {
      WordsLegal(t.argv, 0, k);
    } else if t.Redir? {
      PrintLegal(3, t.cmd, Cons(Sym(if t.mode == In then '<' else '>'), Cons(Word(t.file), k)));
    } else {
      PrintLegal(0, t, Cons(Sym(')'), k));
    }
  }

  lemma {:induction false} WordsLegal(ws: seq<string>, i: nat, k: Toks)
    requires i <= |ws| && LegalToks(k) && forall j :: 0 <= j < |ws| ==> LegalWord(ws[j])
    ensures LegalToks(PrintWords(ws, i, k))
    decreases |ws| - i
  {
    if i < |ws| { WordsLegal(ws, i + 1, k); }
  }

  /** The canonical printed form of a tree. */
  function Printed(t: Ast): string {
    Render(Print(0, t, Nil))
  }

  /** The line lexes and parses back to the tree. */
  lemma RoundTrip(t: Ast)
    requires Legal(t)
    ensures IsText(Printed(t)) && Command(Lex(Printed(t), 0)) == Ok(t, Nil)
  {
    var ts := Print(0, t, Nil);
    PrintLegal(0, t, Nil);
    RenderIsText(ts);
    assert [] + Render(ts) == Render(ts);
    LexRender([], ts, Render(ts));
    CommandBack(t);
  }

  /** The tenth word is one too many: a tree that needs it prints, but does not parse. */
  lemma {:induction false} TenWords(ws: seq<string>, i: nat, c: Ast)
    requires |ws| >= MAXARGS && i < MAXARGS && c == Exec(ws[..i])
    ensures Words(c, i, PrintWords(ws, i, Nil)) == Panic(TooManyArgs)
    decreases |ws| - i
  {
    if i + 1 < MAXARGS {
      assert ws[..i] + [ws[i]] == ws[..i + 1];
      TenWords(ws, i + 1, Exec(ws[..i + 1]));
    }
  }

  lemma WordLimit(ws: seq<string>)
    ensures Command(Print(0, Exec(ws), Nil)) == Ok(Exec(ws), Nil) <==> |ws| < MAXARGS
  {
    var ts := PrintWords(ws, 0, Nil);
    assert Print(0, Exec(ws), Nil) == ts by {
      assert Print(3, Exec(ws), Nil) == ts;
      assert Print(2, Exec(ws), Nil) == ts;
      assert Print(1, Exec(ws), Nil) == ts;
    }
    if |ws| < MAXARGS {
      WordsBack(ws, 0, Nil, Exec([]), Exec(ws), Nil);
      assert Simple(ts) == Ok(Exec(ws), Nil);
      assert Pipeline(ts) == Ok(Exec(ws), Nil);
      assert Line(ts) == Ok(Exec(ws), Nil);
    } else {
      TenWords(ws, 0, Exec([]));
      assert Simple(ts) == Panic(TooManyArgs);
      assert Pipeline(ts) == Panic(TooManyArgs);
    }
  }
}

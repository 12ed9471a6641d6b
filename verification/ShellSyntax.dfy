/** The shell's command language by itself: what may be written and what it means, without
    reference to how it is parsed; and the parser's grammar against it (sh.c). */
module ShellSyntax {
  import opened CTypes
  import opened ShellLex
  import opened ShellGrammar

  /** A word of a command, or a redirection. */
  datatype Item = Arg(text: string) | To(sym: char, file: string)

  /** A phrase as it is written. */
  datatype Phrase =
    | Plain(items: seq<Item>)
    | Paren(line: Phrase, tos: seq<Item>)
    | Bar(left: Phrase, right: Phrase)
    | Amp(left: Phrase)
    | Semi(left: Phrase, right: Phrase)

  // ---- What is written ----

  predicate IsTo(x: Item) {
    x.To? && (x.sym == '<' || x.sym == '>' || x.sym == '+')
  }

  predicate ItemsOk(items: seq<Item>) {
    forall i :: 0 <= i < |items| ==> items[i].Arg? || IsTo(items[i])
  }

  predicate AllTos(items: seq<Item>) {
    forall i :: 0 <= i < |items| ==> IsTo(items[i])
  }

  /** The words among the items, in order. */
  function Args(items: seq<Item>): seq<string> {
    if items == [] then [] else (if items[0].Arg? then [items[0].text] else []) + Args(items[1..])
  }

  /** The redirections among them, in order. */
  function Tos(items: seq<Item>): seq<Item> {
    if items == [] then [] else (if items[0].To? then [items[0]] else []) + Tos(items[1..])
  }

  /** p is a phrase of the given level: 0 a line, 1 a pipeline and its &s, 2 a pipeline, 3 a
      command. */
  predicate Well(lev: nat, p: Phrase)
    requires lev <= 3
    decreases p, 3 - lev
  {
    if lev == 0 && p.Semi? then Well(1, p.left) && Well(0, p.right)
    else if lev == 1 && p.Amp? then Well(1, p.left)
    else if lev == 2 && p.Bar? then Well(3, p.left) && Well(2, p.right)
    else if lev < 3 then Well(lev + 1, p)
    else if p.Plain? then ItemsOk(p.items) && |Args(p.items)| < MAXARGS
    else p.Paren? && Well(0, p.line) && AllTos(p.tos)
  }

  /** The tokens of the items, followed by k. */
  function ItemToks(items: seq<Item>, k: Toks): Toks {
    if items == [] then k else
    match items[0]
    case Arg(w) => Cons(Word(w), ItemToks(items[1..], k))
    case To(c, f) => Cons(Sym(c), Cons(Word(f), ItemToks(items[1..], k)))
  }

  /** The tokens of a phrase, followed by k. */
  function Spelt(p: Phrase, k: Toks): Toks
    decreases p
  {
    match p
    case Plain(items) => ItemToks(items, k)
    case Paren(l, tos) => Cons(Sym('('), Spelt(l, Cons(Sym(')'), ItemToks(tos, k))))
    case Bar(l, r) => Spelt(l, Cons(Sym('|'), Spelt(r, k)))
    case Amp(l) => Spelt(l, Cons(Sym('&'), k))
    case Semi(l, r) => Spelt(l, Cons(Sym(';'), Spelt(r, k)))
  }

  // ---- What it means ----

  function Under(c: Ast, x: Item): Ast {
    match x
    case Arg(_) => c
    case To(s, f) => Redir(c, f, if s == '<' then In else Out)
  }

  /** c under the redirections among the items, the first innermost. */
  function Wrapped(c: Ast, items: seq<Item>): Ast
    decreases |items|
  {
    if items == [] then c else Wrapped(Under(c, items[0]), items[1..])
  }

  /** A simple command runs all its words, wherever they stand, under all its redirections. */
  function Means(p: Phrase): Ast {
    match p
    case Plain(items) => Wrapped(Exec(Args(items)), Tos(items))
    case Paren(l, tos) => Wrapped(Means(l), tos)
    case Bar(l, r) => Pipe(Means(l), Means(r))
    case Amp(l) => Back(Means(l))
    case Semi(l, r) => List(Means(l), Means(r))
  }

  // ---- Lists of items ----

  lemma Assoc<T>(a: seq<T>, b: seq<T>, c: seq<T>)
    ensures (a + b) + c == a + (b + c)
  {
  }

  lemma {:induction false} ArgsJoin(x: seq<Item>, y: seq<Item>)
    ensures Args(x + y) == Args(x) + Args(y)
    decreases |x|
  {
    if x == [] {
      assert x + y == y;
    } else {
      assert (x + y)[1..] == x[1..] + y;
      ArgsJoin(x[1..], y);
      Assoc(if x[0].Arg? then [x[0].text] else [], Args(x[1..]), Args(y));
    }
  }

  lemma {:induction false} TosJoin(x: seq<Item>, y: seq<Item>)
    ensures Tos(x + y) == Tos(x) + Tos(y)
    decreases |x|
  {
    if x == [] {
      assert x + y == y;
    } else {
      assert (x + y)[1..] == x[1..] + y;
      TosJoin(x[1..], y);
      Assoc(if x[0].To? then [x[0]] else [], Tos(x[1..]), Tos(y));
    }
  }

  lemma ListsJoin(x: seq<Item>, y: seq<Item>)
    ensures Args(x + y) == Args(x) + Args(y) && Tos(x + y) == Tos(x) + Tos(y)
  {
    ArgsJoin(x, y);
    TosJoin(x, y);
  }

  lemma {:induction false} ToksJoin(x: seq<Item>, y: seq<Item>, k: Toks)
    ensures ItemToks(x + y, k) == ItemToks(x, ItemToks(y, k))
    decreases |x|
  {
    if x == [] {
      assert x + y == y;
    } else {
      assert (x + y)[1..] == x[1..] + y;
      ToksJoin(x[1..], y, k);
    }
  }

  lemma {:induction false} WrapJoin(c: Ast, x: seq<Item>, y: seq<Item>)
    ensures Wrapped(c, x + y) == Wrapped(Wrapped(c, x), y)
    decreases |x|
  {
    if x == [] {
      assert x + y == y;
    } else {
      assert (x + y)[1..] == x[1..] + y;
      WrapJoin(Under(c, x[0]), x[1..], y);
    }
  }

  lemma {:induction false} OnlyTos(x: seq<Item>)
    requires AllTos(x)
    ensures Args(x) == [] && Tos(x) == x
  {
    if x != [] { OnlyTos(x[1..]); }
  }

  /** A word added under redirections is added to the command. */
  lemma {:induction false} AddWordUnder(c: Ast, items: seq<Item>, w: string)
    ensures AddWord(Wrapped(c, items), w) == Wrapped(AddWord(c, w), items)
    decreases |items|
  {
    if items != [] {
      AddWordUnder(Under(c, items[0]), items[1..], w);
    }
  }

  // ---- Simple commands ----

  /** parseexec from inside: command c so far, with n words. */
  function Go(c: Ast, n: nat, ts: Toks): Res {
    var r := Redirs(c, ts);
    if r.Panic? then r else Words(r.tree, n, r.rest)
  }

  function Sofar(items: seq<Item>): Ast {
    Wrapped(Exec(Args(items)), Tos(items))
  }

  /** Having read the items x, the parser goes on past y. */
  lemma {:induction false} GoItems(x: seq<Item>, y: seq<Item>, k: Toks)
    requires ItemsOk(y) && |Args(x + y)| < MAXARGS
    ensures Go(Sofar(x), |Args(x)|, ItemToks(y, k)) == Go(Sofar(x + y), |Args(x + y)|, k)
    decreases |y|
  {
    if y == [] {
      assert x + y == x;
    } else {
      var x1 := x + [y[0]];
      assert x1 + y[1..] == x + y;
      GoItems(x1, y[1..], k);
      ListsJoin(x1, y[1..]);
      GoOne(x, y[0], ItemToks(y[1..], k));
    }
  }

  lemma GoOne(x: seq<Item>, y: Item, k: Toks)
    requires (y.Arg? || IsTo(y)) && |Args(x + [y])| < MAXARGS
    ensures Go(Sofar(x), |Args(x)|, ItemToks([y], k)) == Go(Sofar(x + [y]), |Args(x + [y])|, k)
  {
    assert ItemToks([], k) == k;
    if y.Arg? { OneArg(x, y); } else { OneTo(x, y); }
  }

  lemma OneArg(x: seq<Item>, y: Item)
    requires y.Arg?
    ensures |Args(x + [y])| == |Args(x)| + 1 && Sofar(x + [y]) == AddWord(Sofar(x), y.text)
  {
    ListsJoin(x, [y]);
    assert Args([y]) == [y.text] && Tos([y]) == [] && Tos(x) + [] == Tos(x);
    AddWordUnder(Exec(Args(x)), Tos(x), y.text);
  }

  lemma OneTo(x: seq<Item>, y: Item)
    requires y.To?
    ensures Args(x + [y]) == Args(x) && Sofar(x + [y]) == Under(Sofar(x), y)
  {
    ListsJoin(x, [y]);
    assert Args([y]) == [] && Tos([y]) == [y] && Args(x) + [] == Args(x);
    WrapJoin(Exec(Args(x)), Tos(x), [y]);
    assert Wrapped(Sofar(x), [y]) == Under(Sofar(x), y);
  }

  /** What parseexec makes of items and whatever comes next, which is one of these: the end
      of the command, a redirection without a file, one word too many, or a parenthesis. */
  lemma ItemsThen(items: seq<Item>, k: Toks)
    requires ItemsOk(items) && |Args(items)| < MAXARGS && !Next(ItemToks(items, k), '(')
    ensures k.Nil? || NextStop(k) ==> Simple(ItemToks(items, k)) == Ok(Sofar(items), k)
    ensures NextRedir(k) && !(k.tail.Cons? && k.tail.head.Word?) ==> Simple(ItemToks(items, k)) == Panic(MissingFile)
    ensures k.Cons? && k.head.Word? && |Args(items)| + 1 == MAXARGS ==>
              Simple(ItemToks(items, k)) == Panic(TooManyArgs)
    ensures Next(k, '(') ==> Simple(ItemToks(items, k)) == Panic(Syntax)
  {
    assert [] + items == items;
    GoItems([], items, k);
    assert Sofar([]) == Exec([]);
    GoEnds(Sofar(items), |Args(items)|, k);
  }

  lemma GoEnds(c: Ast, n: nat, k: Toks)
    ensures k.Nil? || NextStop(k) ==> Go(c, n, k) == Ok(c, k)
    ensures NextRedir(k) && !(k.tail.Cons? && k.tail.head.Word?) ==> Go(c, n, k) == Panic(MissingFile)
    ensures k.Cons? && k.head.Word? && n + 1 == MAXARGS ==> Go(c, n, k) == Panic(TooManyArgs)
    ensures Next(k, '(') ==> Go(c, n, k) == Panic(Syntax)
  {
  }

  // ---- Every phrase is parsed to its meaning ----

  lemma {:induction false} TosParse(c: Ast, tos: seq<Item>, k: Toks)
    requires AllTos(tos) && !NextRedir(k)
    ensures Redirs(c, ItemToks(tos, k)) == Ok(Wrapped(c, tos), k)
    decreases |tos|
  {
    if tos != [] {
      TosParse(Under(c, tos[0]), tos[1..], k);
    }
  }

  lemma NoParen(items: seq<Item>, k: Toks)
    requires ItemsOk(items) && (k.Nil? || NextStop(k))
    ensures !Next(ItemToks(items, k), '(')
  {
  }

  lemma {:induction false} SimpleMeant(p: Phrase, k: Toks)
    requires Well(3, p) && (k.Nil? || NextStop(k))
    ensures Simple(Spelt(p, k)) == Ok(Means(p), k)
    decreases p, 0
  {
    if p.Plain? {
      NoParen(p.items, k);
      ItemsThen(p.items, k);
    } else {
      LineMeant(p.line, Cons(Sym(')'), ItemToks(p.tos, k)));
      TosParse(Means(p.line), p.tos, k);
    }
  }

  lemma {:induction false} PipeMeant(p: Phrase, k: Toks)
    requires Well(2, p) && (k.Nil? || (NextStop(k) && !Next(k, '|')))
    ensures Pipeline(Spelt(p, k)) == Ok(Means(p), k)
    decreases p, 1
  {
    if p.Bar? {
      PipeMeant(p.right, k);
      SimpleMeant(p.left, Cons(Sym('|'), Spelt(p.right, k)));
    } else {
      SimpleMeant(p, k);
    }
  }

  lemma {:induction false} BacksMeant(p: Phrase, k: Toks)
    requires Well(1, p) && (k.Nil? || (NextStop(k) && !Next(k, '|')))
    ensures Line(Spelt(p, k)) == LineTail(Means(p), k)
    decreases p, 2
  {
    if p.Amp? { BacksMeant(p.left, Cons(Sym('&'), k)); } else { PipeMeant(p, k); }
  }

  lemma {:induction false} LineMeant(p: Phrase, k: Toks)
    requires Well(0, p) && (k.Nil? || Next(k, ')'))
    ensures Line(Spelt(p, k)) == Ok(Means(p), k)
    decreases p, 3
  {
    if p.Semi? {
      LineMeant(p.right, k);
      BacksMeant(p.left, Cons(Sym(';'), Spelt(p.right, k)));
    } else {
      BacksMeant(p, k);
    }
  }

  // ---- Whatever is parsed is a phrase ----

  lemma {:induction false} RedirsSpelt(c: Ast, ts: Toks) returns (tos: seq<Item>)
    requires Redirs(c, ts).Ok?
    ensures var r := Redirs(c, ts); AllTos(tos) && ts == ItemToks(tos, r.rest) && r.tree == Wrapped(c, tos)
    decreases ts
  {
    if NextRedir(ts) {
      var x := To(ts.head.c, ts.tail.head.text);
      var rest := RedirsSpelt(Under(c, x), ts.tail.tail);
      tos := [x] + rest;
      assert tos[1..] == rest;
    } else {
      tos := [];
    }
  }

  lemma {:induction false} WordsSpelt(x: seq<Item>, ts: Toks) returns (y: seq<Item>)
    requires ItemsOk(x) && |Args(x)| < MAXARGS && Words(Sofar(x), |Args(x)|, ts).Ok?
    ensures ItemsOk(x + y) && |Args(x + y)| < MAXARGS
    ensures var r := Words(Sofar(x), |Args(x)|, ts); ts == ItemToks(y, r.rest) && r.tree == Sofar(x + y)
    decreases Len(ts)
  {
    if ts.Nil? || NextStop(ts) {
      y := [];
      assert x + y == x;
    } else {
      var w := Arg(ts.head.text);
      var tos := RedirsSpelt(AddWord(Sofar(x), w.text), ts.tail);
      OneMore(x, w, tos);
      var x1 := x + ([w] + tos);
      var rest := WordsSpelt(x1, OneWord(Sofar(x), |Args(x)|, ts).rest);
      y := [w] + tos + rest;
      assert x1 + rest == x + y;
      OneThen(w, tos, rest, Words(Sofar(x), |Args(x)|, ts).rest);
    }
  }

  /** A word and the redirections after it. */
  lemma OneMore(x: seq<Item>, w: Item, tos: seq<Item>)
    requires ItemsOk(x) && w.Arg? && AllTos(tos)
    ensures ItemsOk(x + ([w] + tos)) && |Args(x + ([w] + tos))| == |Args(x)| + 1
    ensures Sofar(x + ([w] + tos)) == Wrapped(AddWord(Sofar(x), w.text), tos)
  {
    ListsJoin(x, [w] + tos);
    ListsJoin([w], tos);
    OnlyTos(tos);
    assert Args([w]) == [w.text] && Tos([w]) == [] && [] + tos == tos && [w.text] + [] == [w.text];
    AddWordUnder(Exec(Args(x)), Tos(x), w.text);
    WrapJoin(Exec(Args(x) + [w.text]), Tos(x), tos);
  }

  lemma OneThen(w: Item, tos: seq<Item>, rest: seq<Item>, k: Toks)
    requires w.Arg?
    ensures ItemToks([w] + tos + rest, k) == Cons(Word(w.text), ItemToks(tos, ItemToks(rest, k)))
  {
    ToksJoin([w] + tos, rest, k);
    ToksJoin([w], tos, ItemToks(rest, k));
    assert ItemToks([], ItemToks(tos, ItemToks(rest, k))) == ItemToks(tos, ItemToks(rest, k));
  }

  lemma {:induction false} SimpleSpelt(ts: Toks) returns (p: Phrase)
    requires Simple(ts).Ok?
    ensures Well(3, p) && ts == Spelt(p, Simple(ts).rest) && Simple(ts).tree == Means(p)
    decreases Len(ts), 0
  {
    if Next(ts, '(') {
      var l := LineSpelt(ts.tail);
      var tos := RedirsSpelt(Means(l), Line(ts.tail).rest.tail);
      p := Paren(l, tos);
    } else {
      var tos := RedirsSpelt(Exec([]), ts);
      OnlyTos(tos);
      var y := WordsSpelt(tos, Redirs(Exec([]), ts).rest);
      ToksJoin(tos, y, Simple(ts).rest);
      p := Plain(tos + y);
    }
  }

  lemma {:induction false} PipeSpelt(ts: Toks) returns (p: Phrase)
    requires Pipeline(ts).Ok?
    ensures Well(2, p) && ts == Spelt(p, Pipeline(ts).rest) && Pipeline(ts).tree == Means(p)
    decreases Len(ts), 1
  {
    p := SimpleSpelt(ts);
    if Next(Simple(ts).rest, '|') {
      var q := PipeSpelt(Simple(ts).rest.tail);
      p := Bar(p, q);
    }
  }

  lemma NotSemi(p: Phrase)
    requires p.Semi?
    ensures !Well(1, p)
  {
    assert !Well(3, p);
    assert !Well(2, p);
  }

  /** parseline after the pipeline p. */
  lemma {:induction false} TailSpelt(p: Phrase, ts: Toks) returns (q: Phrase)
    requires Well(1, p) && LineTail(Means(p), ts).Ok?
    ensures Well(0, q) && Spelt(p, ts) == Spelt(q, LineTail(Means(p), ts).rest)
    ensures LineTail(Means(p), ts).tree == Means(q)
    decreases Len(ts), 2
  {
    q := p;
    if p.Semi? { NotSemi(p); }
    if Next(ts, '&') {
      q := TailSpelt(Amp(p), ts.tail);
    } else if Next(ts, ';') {
      var r := LineSpelt(ts.tail);
      q := Semi(p, r);
    }
  }

  lemma {:induction false} LineSpelt(ts: Toks) returns (p: Phrase)
    requires Line(ts).Ok?
    ensures Well(0, p) && ts == Spelt(p, Line(ts).rest) && Line(ts).tree == Means(p)
    decreases Len(ts), 3
  {
    var q := PipeSpelt(ts);
    p := TailSpelt(q, Pipeline(ts).rest);
  }

  /** p is a way to write the tokens ts, and means t. */
  ghost predicate Writes(p: Phrase, ts: Toks, t: Ast) {
    Well(0, p) && Spelt(p, Nil) == ts && Means(p) == t
  }

  /** The parser accepts exactly the lines of the language, and gives each its meaning; any
      other line is a panic. */
  lemma CommandExactly(ts: Toks, t: Ast)
    ensures Command(ts) == Ok(t, Nil) <==> exists p :: Writes(p, ts, t)
    ensures Command(ts).Panic? <==> !exists p :: Writes(p, ts, Means(p))
  {
    if exists p :: Writes(p, ts, Means(p)) {
      var p :| Writes(p, ts, Means(p));
      LineMeant(p, Nil);
      forall q | Writes(q, ts, Means(q))
        ensures Means(q) == Means(p)
      {
        LineMeant(q, Nil);
      }
    }
    if Command(ts).Ok? {
      var p := LineSpelt(ts);
      assert Writes(p, ts, Means(p));
    }
  }
}

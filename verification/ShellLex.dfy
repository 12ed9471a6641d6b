/** The shell's tokens: gettoken and peek over a line of text (sh.c). */
module ShellLex {
  import opened CTypes

  predicate IsSpace(c: char) {
    c == ' ' || c == '\t' || c == '\r' || c == '\n' || c == '\U{0B}'
  }

  predicate IsSymbol(c: char) {
    c == '<' || c == '|' || c == '>' || c == '&' || c == ';' || c == '(' || c == ')'
  }

  predicate IsWordChar(c: char) {
    !IsSpace(c) && !IsSymbol(c) && c != NUL
  }

  /** Sym('+') stands for ">>". */
  datatype Tok = Sym(c: char) | Word(text: string)
  datatype Toks = Nil | Cons(head: Tok, tail: Toks)

  datatype Span = Span(q: nat, eq: nat)

  // ---- What the tokens of a line are ----

  function Skip(b: string, p: nat): (s: nat)
    requires p <= |b|
    ensures p <= s <= |b| && (s < |b| ==> !IsSpace(b[s]))
    ensures forall i :: p <= i < s ==> IsSpace(b[i])
    decreases |b| - p
  {
    if p < |b| && IsSpace(b[p]) then Skip(b, p + 1) else p
  }

  function WordEnd(b: string, p: nat): (e: nat)
    requires p <= |b|
    ensures p <= e <= |b| && (e < |b| ==> !IsWordChar(b[e]))
    ensures forall i :: p <= i < e ==> IsWordChar(b[i])
    decreases |b| - p
  {
    if p < |b| && IsWordChar(b[p]) then WordEnd(b, p + 1) else p
  }

  /** Where the token that starts at s ends. */
  function TokEnd(b: string, s: nat): (e: nat)
    requires s < |b| && IsText(b) && !IsSpace(b[s])
    ensures s < e <= |b|
  {
    if b[s] == '>' && s + 1 < |b| && b[s + 1] == '>' then s + 2
    else if IsSymbol(b[s]) then s + 1
    else assert IsWordChar(b[s]); WordEnd(b, s)
  }

  function TokAt(b: string, s: nat): Tok
    requires s < |b| && IsText(b) && !IsSpace(b[s])
  {
    if b[s] == '>' && s + 1 < |b| && b[s + 1] == '>' then Sym('+')
    else if IsSymbol(b[s]) then Sym(b[s])
    else Word(b[s..TokEnd(b, s)])
  }

  /** The tokens of b from p on. */
  function Lex(b: string, p: nat): (ts: Toks)
    requires p <= |b| && IsText(b)
    decreases |b| - p
  {
    var s := Skip(b, p);
    if s == |b| then Nil else Cons(TokAt(b, s), Lex(b, TokEnd(b, s)))
  }

  lemma SkipTwice(b: string, p: nat)
    requires p <= |b| && IsText(b)
    ensures Skip(b, Skip(b, p)) == Skip(b, p) && Lex(b, Skip(b, p)) == Lex(b, p)
  {
  }

  /** A whole word of b, with the character after it not part of it. */
  ghost predicate SpanOk(b: string, w: Span) {
    w.q < w.eq <= |b| && (forall i :: w.q <= i < w.eq ==> IsWordChar(b[i])) && (w.eq < |b| ==> !IsWordChar(b[w.eq]))
  }

  function Text(b: string, w: Span): string {
    if w.q <= w.eq <= |b| then b[w.q..w.eq] else ""
  }

  // ---- gettoken and peek ----

  /** The loops over white space. */
  method SkipSpace(b: string, p: nat) returns (s: nat)
    requires p <= |b|
    ensures s == Skip(b, p)
  {
    s := p;
    while s < |b| && IsSpace(b[s])
      invariant p <= s <= |b| && Skip(b, s) == Skip(b, p)
    {
      s := s + 1;
    }
  }

  /** gettoken's loop over a word. */
  method SkipWord(b: string, s: nat) returns (e: nat)
    requires s <= |b| && IsText(b)
    ensures e == WordEnd(b, s)
  {
    e := s;
    while e < |b| && !IsSpace(b[e]) && !IsSymbol(b[e])
      invariant s <= e <= |b| && WordEnd(b, e) == WordEnd(b, s)
    {
      e := e + 1;
    }
  }

  /** The next token starts with one of toks. */
  predicate Starts(ts: Toks, toks: string) {
    ts.Cons? && ts.head.Sym? && (if ts.head.c == '+' then '>' else ts.head.c) in toks
  }

  /** peek: whether the next character that is not white space is one of toks. */
  method Peek(b: string, p: nat, toks: string) returns (hit: bool, s: nat)
    requires p <= |b| && IsText(b) && forall i :: 0 <= i < |toks| ==> IsSymbol(toks[i])
    ensures p <= s <= |b| && Lex(b, s) == Lex(b, p)
    ensures hit <==> Starts(Lex(b, p), toks)
    ensures s == |b| <==> Lex(b, p).Nil?
  {
    s := SkipSpace(b, p);
    SkipTwice(b, p);
    hit := s < |b| && b[s] in toks;
  }

  /** gettoken's answer for a token: 0 at the end, 'a' for a word. */
  function Code(ts: Toks): char {
    if ts.Nil? then NUL else if ts.head.Sym? then ts.head.c else 'a'
  }

  /** gettoken. */
  method GetToken(b: string, p: nat) returns (ret: char, w: Span, rest: nat)
    requires p <= |b| && IsText(b)
    ensures p <= rest <= |b| && ret == Code(Lex(b, p))
    ensures Lex(b, p).Nil? ==> Lex(b, rest).Nil?
    ensures Lex(b, p).Cons? ==> Lex(b, rest) == Lex(b, p).tail && p < rest
    ensures ret == 'a' ==> SpanOk(b, w) && Lex(b, p).head == Word(Text(b, w))
    ensures ret == 'a' ==> p <= w.q && forall i :: p <= i < w.q ==> IsSpace(b[i])
    ensures rest < |b| ==> !IsSpace(b[rest])
  {
    var s := SkipSpace(b, p);
    w := Span(s, s);
    if s == |b| { return NUL, w, s; }
    ret := b[s];
    if b[s] == '|' || b[s] == '(' || b[s] == ')' || b[s] == ';' || b[s] == '&' || b[s] == '<' {
      rest := s + 1;
    } else if b[s] == '>' {
      rest := s + 1;
      if rest < |b| && b[rest] == '>' {
        ret := '+';
        rest := rest + 1;
      }
    } else {
      ret := 'a';
      rest := SkipWord(b, s);
    }
    w := Span(s, rest);
    assert rest == TokEnd(b, s);
    SkipTwice(b, rest);
    rest := SkipSpace(b, rest);
  }

  // ---- Writing tokens out ----

  /** A word the lexer can return. */
  predicate LegalWord(w: string) {
    w != [] && forall i :: 0 <= i < |w| ==> IsWordChar(w[i])
  }

  predicate LegalTok(t: Tok) {
    match t
    case Sym(c) => IsSymbol(c) || c == '+'
    case Word(w) => LegalWord(w)
  }

  predicate LegalToks(ts: Toks) {
    ts.Cons? ==> LegalTok(ts.head) && LegalToks(ts.tail)
  }

  function Show(t: Tok): string {
    match t
    case Sym(c) => if c == '+' then ">>" else [c]
    case Word(w) => w
  }

  /** The tokens separated by blanks. */
  function Render(ts: Toks): string {
    if ts.Nil? then "" else Show(ts.head) + " " + Render(ts.tail)
  }

  lemma {:induction false} RenderIsText(ts: Toks)
    requires LegalToks(ts)
    ensures IsText(Render(ts))
  {
    if ts.Cons? { RenderIsText(ts.tail); }
  }

  /** Reading what was written gives the tokens back. */
  lemma {:induction false} LexRender(pre: string, ts: Toks, b: string)
    requires LegalToks(ts) && b == pre + Render(ts) && IsText(b)
    ensures Lex(b, |pre|) == ts
    decreases ts
  {
    if ts.Cons? {
      var s := Show(ts.head);
      var more := pre + s + " ";
      assert b == more + Render(ts.tail);
      LexRender(more, ts.tail, b);
      LexShown(b, |pre|, ts.head);
      assert Lex(b, |pre|) == Cons(ts.head, Lex(b, |pre| + |s|));
      assert Skip(b, |pre| + |s|) == Skip(b, |more|);
    }
  }

  lemma LexShown(b: string, p: nat, t: Tok)
    requires IsText(b) && LegalTok(t) && p + |Show(t)| < |b| && b[p..p + |Show(t)|] == Show(t) &&
             b[p + |Show(t)|] == ' '
    ensures Skip(b, p) == p < |b| && !IsSpace(b[p]) && TokAt(b, p) == t && TokEnd(b, p) == p + |Show(t)|
  {
    match t
    case Sym(c) => SymShown(b, p, c);
    case Word(w) => WordShown(b, p, w);
  }

  lemma SymShown(b: string, p: nat, c: char)
    requires IsText(b) && LegalTok(Sym(c)) && p + |Show(Sym(c))| < |b| && b[p..p + |Show(Sym(c))|] == Show(Sym(c))
    requires b[p + |Show(Sym(c))|] == ' '
    ensures Skip(b, p) == p && !IsSpace(b[p]) && TokAt(b, p) == Sym(c) && TokEnd(b, p) == p + |Show(Sym(c))|
  {
    var s := Show(Sym(c));
    assert b[p] == b[p..p + |s|][0] == s[0];
    if c == '+' { assert b[p + 1] == b[p..p + 2][1] == s[1]; }
  }

  lemma WordShown(b: string, p: nat, w: string)
    requires IsText(b) && LegalTok(Word(w)) && p + |w| < |b| && b[p..p + |w|] == w && b[p + |w|] == ' '
    ensures Skip(b, p) == p && !IsSpace(b[p]) && TokAt(b, p) == Word(w) && TokEnd(b, p) == p + |w|
  {
    forall i | p <= i < p + |w|
      ensures IsWordChar(b[i])
    {
      assert b[i] == w[i - p];
    }
    WordEndAt(b, p, p + |w|);
  }

  lemma {:induction false} WordEndAt(b: string, p: nat, e: nat)
    requires p <= e < |b| && (forall i :: p <= i < e ==> IsWordChar(b[i])) && !IsWordChar(b[e])
    ensures WordEnd(b, p) == e
    decreases e - p
  {
    if p < e { WordEndAt(b, p + 1, e); }
  }

  // ---- What the tokens of a text are, without a scan ----

  predicate AllSpace(s: string) {
    forall i :: 0 <= i < |s| ==> IsSpace(s[i])
  }

  /** Token t ends before rest: what follows would not go on with it. */
  predicate Ends(t: Tok, rest: string) {
    rest == "" || match t
                  case Word(_) => !IsWordChar(rest[0])
                  case Sym(c) => c == '>' ==> rest[0] != '>'
  }

  /** After n blanks, s has the whole token t. */
  predicate HasTok(s: string, n: nat, t: Tok) {
    LegalTok(t) && n + |Show(t)| <= |s| && AllSpace(s[..n]) && s[n..n + |Show(t)|] == Show(t) &&
    Ends(t, AfterTok(s, n, t))
  }

  function AfterTok(s: string, n: nat, t: Tok): string {
    if n + |Show(t)| <= |s| then s[n + |Show(t)|..] else ""
  }

  /** s is the tokens ts in order, each whole, with nothing but blanks between them. */
  ghost predicate Reads(s: string, ts: Toks)
    decreases ts
  {
    match ts
    case Nil => AllSpace(s)
    case Cons(t, more) => exists n: nat :: HasTok(s, n, t) && Reads(AfterTok(s, n, t), more)
  }

  lemma {:induction false} LexReads(b: string, p: nat)
    requires p <= |b| && IsText(b)
    ensures Reads(b[p..], Lex(b, p))
    decreases |b| - p
  {
    if Skip(b, p) < |b| {
      LexReads(b, TokEnd(b, Skip(b, p)));
      LexReadsOne(b, p, Skip(b, p), TokEnd(b, Skip(b, p)));
    }
  }

  lemma LexReadsOne(b: string, p: nat, s: nat, e: nat)
    requires p <= s < |b| && IsText(b) && s == Skip(b, p) && e == TokEnd(b, s) && Reads(b[e..], Lex(b, e))
    ensures Reads(b[p..], Lex(b, p))
  {
    var t := TokAt(b, s);
    TokShown(b, s);
    TokIn(b, p, s, e, t);
  }

  lemma TokIn(b: string, p: nat, s: nat, e: nat, t: Tok)
    requires p <= s <= e <= |b| && (forall i :: p <= i < s ==> IsSpace(b[i]))
    requires LegalTok(t) && b[s..e] == Show(t) && Ends(t, b[e..])
    ensures HasTok(b[p..], s - p, t) && AfterTok(b[p..], s - p, t) == b[e..]
  {
    var r := b[p..];
    assert r[..s - p] == b[p..s] && r[s - p..s - p + |Show(t)|] == b[s..e] && r[s - p + |Show(t)|..] == b[e..];
  }

  lemma TokShown(b: string, s: nat)
    requires s < |b| && IsText(b) && !IsSpace(b[s])
    ensures var t, e := TokAt(b, s), TokEnd(b, s); LegalTok(t) && b[s..e] == Show(t) && Ends(t, b[e..])
  {
    if b[s] == '>' && s + 1 < |b| && b[s + 1] == '>' {
      assert b[s..s + 2] == ">>";
    } else if IsSymbol(b[s]) {
      assert b[s..s + 1] == [b[s]];
    } else {
      assert IsWordChar(b[s]);
    }
  }

  lemma BlankAt(s: string, m: nat, i: nat)
    requires i < m <= |s| && AllSpace(s[..m])
    ensures IsSpace(s[i])
  {
    assert s[..m][i] == s[i];
  }

  /** The first token and the blanks before it are determined. */
  lemma OneTok(s: string, n: nat, t: Tok, m: nat, u: Tok)
    requires HasTok(s, n, t) && HasTok(s, m, u)
    ensures n == m && t == u
  {
    var a, b := Show(t), Show(u);
    assert a[0] == s[n..n + |a|][0] == s[n] && b[0] == s[m..m + |b|][0] == s[m];
    assert !IsSpace(s[n]) && !IsSpace(s[m]);
    if n < m { BlankAt(s, m, n); }
    if m < n { BlankAt(s, n, m); }
    SameShown(s, n, t, u);
  }

  lemma SameShown(s: string, n: nat, t: Tok, u: Tok)
    requires HasTok(s, n, t) && HasTok(s, n, u)
    ensures t == u
  {
    var a, b := Show(t), Show(u);
    if |a| < |b| {
      Longer(s, n, t, u);
    } else if |b| < |a| {
      Longer(s, n, u, t);
    } else {
      assert a == b;
      assert a[0] == b[0];
    }
  }

  lemma CharOf(s: string, n: nat, b: string, i: nat)
    requires n + |b| <= |s| && s[n..n + |b|] == b && i < |b|
    ensures b[i] == s[n + i] && s[n + i..] != "" && s[n + i..][0] == s[n + i]
  {
  }

  /** A whole token is not the beginning of another. */
  lemma Longer(s: string, n: nat, t: Tok, u: Tok)
    requires HasTok(s, n, t) && n + |Show(u)| <= |s| && s[n..n + |Show(u)|] == Show(u) && LegalTok(u)
    ensures |Show(u)| <= |Show(t)|
  {
    CharOf(s, n, Show(t), 0);
    CharOf(s, n, Show(u), 0);
    if |Show(t)| < |Show(u)| { CharOf(s, n, Show(u), |Show(t)|); }
  }

  lemma FirstTok(s: string, ts: Toks) returns (n: nat)
    requires Reads(s, ts) && ts.Cons?
    ensures HasTok(s, n, ts.head) && Reads(AfterTok(s, n, ts.head), ts.tail)
  {
    n :| HasTok(s, n, ts.head) && Reads(AfterTok(s, n, ts.head), ts.tail);
  }

  lemma {:induction false} ReadsOnce(s: string, ts: Toks, us: Toks)
    requires Reads(s, ts) && Reads(s, us)
    ensures ts == us
    decreases ts
  {
    if ts.Cons? && us.Cons? {
      var n := FirstTok(s, ts);
      var m := FirstTok(s, us);
      OneTok(s, n, ts.head, m, us.head);
      ReadsOnce(AfterTok(s, n, ts.head), ts.tail, us.tail);
    } else {
      if ts.Cons? { NotBlank(s, ts); }
      if us.Cons? { NotBlank(s, us); }
    }
  }

  lemma NotBlank(s: string, ts: Toks)
    requires Reads(s, ts) && ts.Cons?
    ensures !AllSpace(s)
  {
    var n: nat :| HasTok(s, n, ts.head) && Reads(AfterTok(s, n, ts.head), ts.tail);
    assert Show(ts.head)[0] == s[n..n + |Show(ts.head)|][0] == s[n];
  }

  /** The lexer finds exactly the tokens of the text. */
  lemma LexExactly(b: string, ts: Toks)
    requires IsText(b)
    ensures Lex(b, 0) == ts <==> Reads(b, ts)
  {
    LexReads(b, 0);
    assert b[0..] == b;
    if Reads(b, ts) { ReadsOnce(b, ts, Lex(b, 0)); }
  }
}

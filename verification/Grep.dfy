/** grep's regular expression matcher against the language a pattern denotes (grep.c, after
    chapter 9 of Kernighan and Pike, The Practice of Programming). */
module Grep {
  /** A pattern: c is one character, '.' any; '*' repeats the character before it; '$' at
      the very end is the end of the text.  Operators elsewhere stand for themselves. */
  datatype Pattern = Done | End | One(c: char, rest: Pattern) | Star(c: char, rest: Pattern)

  function Parse(re: string): Pattern {
    if re == "" then Done
    else if |re| >= 2 && re[1] == '*' then Star(re[0], Parse(re[2..]))
    else if re == "$" then End
    else One(re[0], Parse(re[1..]))
  }

  predicate Fits(c: char, x: char) {
    c == '.' || c == x
  }

  /** w is in the language of p; atEnd tells whether the text ends where w does. */
  ghost predicate Denotes(p: Pattern, w: string, atEnd: bool) {
    match p
    case Done => w == ""
    case End => w == "" && atEnd
    case One(c, rest) => w != "" && Fits(c, w[0]) && Denotes(rest, w[1..], atEnd)
    case Star(c, rest) =>
      exists n :: 0 <= n <= |w| && (forall i :: 0 <= i < n ==> Fits(c, w[i])) && Denotes(rest, w[n..], atEnd)
  }

  /** Some prefix of text is in the language of p. */
  ghost predicate Begins(p: Pattern, text: string) {
    exists k :: 0 <= k <= |text| && Denotes(p, text[..k], k == |text|)
  }

  /** Some suffix of text begins with a match; after '^', text itself must. */
  ghost predicate Found(re: string, text: string) {
    if re != "" && re[0] == '^' then Begins(Parse(re[1..]), text)
    else exists i :: 0 <= i <= |text| && Begins(Parse(re), text[i..])
  }

  // ---- How a match begins ----

  lemma BeginsOne(c: char, rest: Pattern, text: string)
    ensures Begins(One(c, rest), text) <==> text != "" && Fits(c, text[0]) && Begins(rest, text[1..])
  {
    if Begins(One(c, rest), text) {
      var k :| 0 <= k <= |text| && Denotes(One(c, rest), text[..k], k == |text|);
      assert text[..k][1..] == text[1..][..k - 1];
      assert Denotes(rest, text[1..][..k - 1], k - 1 == |text[1..]|);
    }
    if text != "" && Fits(c, text[0]) && Begins(rest, text[1..]) {
      var k :| 0 <= k <= |text[1..]| && Denotes(rest, text[1..][..k], k == |text[1..]|);
      assert text[..k + 1][1..] == text[1..][..k];
      assert Denotes(One(c, rest), text[..k + 1], k + 1 == |text|);
    }
  }

  /** After n characters that fit c, the rest of the pattern begins. */
  ghost predicate StarAt(c: char, rest: Pattern, text: string, n: nat) {
    n <= |text| && (forall i :: 0 <= i < n ==> Fits(c, text[i])) && Begins(rest, text[n..])
  }

  lemma BeginsStar(c: char, rest: Pattern, text: string)
    ensures Begins(Star(c, rest), text) <==> exists n: nat :: StarAt(c, rest, text, n)
  {
    if Begins(Star(c, rest), text) {
      var k :| 0 <= k <= |text| && Denotes(Star(c, rest), text[..k], k == |text|);
      var w := text[..k];
      var n :| 0 <= n <= |w| && (forall i :: 0 <= i < n ==> Fits(c, w[i])) && Denotes(rest, w[n..], k == |text|);
      assert forall i :: 0 <= i < n ==> w[i] == text[i];
      assert w[n..] == text[n..][..k - n];
      assert Denotes(rest, text[n..][..k - n], k - n == |text[n..]|);
      assert StarAt(c, rest, text, n);
    }
    if exists n: nat :: StarAt(c, rest, text, n) {
      var n: nat :| StarAt(c, rest, text, n);
      var j :| 0 <= j <= |text[n..]| && Denotes(rest, text[n..][..j], j == |text[n..]|);
      var w := text[..n + j];
      assert w[n..] == text[n..][..j];
      assert forall i :: 0 <= i < n ==> w[i] == text[i];
      assert Denotes(Star(c, rest), w, n + j == |text|);
    }
  }

  lemma BeginsEnds(text: string)
    ensures Begins(Done, text) && (Begins(End, text) <==> text == "")
  {
    assert Denotes(Done, text[..0], 0 == |text|);
    if text == "" { assert Denotes(End, text[..0], 0 == |text|); }
  }

  // ---- The matcher ----

  /** match: true exactly when the pattern is found in the text. */
  method Match(re: string, text: string) returns (r: bool)
    ensures r <==> Found(re, text)
  {
    if re != "" && re[0] == '^' {
      r := MatchHere(re[1..], text);
      return;
    }
    var i := 0;
    while true
      invariant 0 <= i <= |text| && forall j :: 0 <= j < i ==> !Begins(Parse(re), text[j..])
      decreases |text| - i
    {
      r := MatchHere(re, text[i..]);
      if r { return true; }
      if i == |text| { break; }
      i := i + 1;
    }
    r := false;
  }

  /** matchhere: the pattern matches at the beginning of the text. */
  method MatchHere(re: string, text: string) returns (r: bool)
    ensures r <==> Begins(Parse(re), text)
    decreases |re|, 0
  {
    BeginsEnds(text);
    if re == "" { return true; }
    if |re| >= 2 && re[1] == '*' {
      r := MatchStar(re[0], re[2..], text);
      return;
    }
    if re == "$" { return text == ""; }
    BeginsOne(re[0], Parse(re[1..]), text);
    if text != "" && (re[0] == '.' || re[0] == text[0]) {
      r := MatchHere(re[1..], text[1..]);
      return;
    }
    r := false;
  }

  /** matchstar: c*re matches at the beginning of the text. */
  method MatchStar(c: char, re: string, text: string) returns (r: bool)
    ensures r <==> Begins(Star(c, Parse(re)), text)
    decreases |re|, 1
  {
    BeginsStar(c, Parse(re), text);
    var i := 0;
    while true
      invariant 0 <= i <= |text| && (forall j :: 0 <= j < i ==> Fits(c, text[j]))
      invariant forall n: nat :: n < i ==> !StarAt(c, Parse(re), text, n)
      decreases |text| - i
    {
      r := MatchHere(re, text[i..]);
      if r {
        assert StarAt(c, Parse(re), text, i);
        return;
      }
      if i == |text| || !(text[i] == c || c == '.') {
        assert forall n: nat :: !StarAt(c, Parse(re), text, n);
        return;
      }
      i := i + 1;
    }
  }

  // ---- Some consequences ----

  /** A pattern of plain characters is found exactly where it occurs. */
  predicate Plain(re: string) {
    forall i :: 0 <= i < |re| ==> re[i] != '.' && re[i] != '*' && re[i] != '$' && re[i] != '^'
  }

  lemma {:induction false} PlainBegins(re: string, text: string)
    requires Plain(re)
    ensures Begins(Parse(re), text) <==> re <= text
    decreases |re|
  {
    BeginsEnds(text);
    if re != "" {
      BeginsOne(re[0], Parse(re[1..]), text);
      if text != "" {
        PlainBegins(re[1..], text[1..]);
        assert re <= text <==> re[0] == text[0] && re[1..] <= text[1..] by {
          if re[0] == text[0] && re[1..] <= text[1..] {
            assert re == [re[0]] + re[1..] && text == [text[0]] + text[1..];
          }
        }
      }
    }
  }
}

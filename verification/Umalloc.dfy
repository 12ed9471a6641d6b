/** The user-level allocator: a circular, address-ordered free list with coalescing
    (umalloc.c, after section 8.7 of Kernighan and Ritchie, second edition).

    Addresses count headers (8 bytes).  The static header base lies below the heap. */
module Umalloc {
  import opened CTypes

  datatype Header = Header(ptr: nat, size: nat)

  type Memory = map<nat, Header>

  const NULL: nat := 0
  const BASE: nat := 1
  const HEADER := 8              // sizeof(Header)

  /** What the headers mean: the free blocks (base among them), the blocks handed out with
      their sizes, the block each unit obtained from sbrk belongs to, and the break. */
  datatype Shape = Shape(frees: set<nat>, live: map<nat, nat>, owner: map<nat, nat>, top: nat)

  // ---- The ring ----

  /** q follows p in address order, the lowest following the highest. */
  ghost predicate Follows(frees: set<nat>, p: nat, q: nat) {
    q in frees &&
    if p < q then forall r :: r in frees ==> r <= p || q <= r
    else forall r :: r in frees ==> q <= r <= p
  }

  ghost predicate LinkOk(m: Memory, frees: set<nat>, p: nat) {
    BASE <= p && p in m && Follows(frees, p, m[p].ptr)
  }

  ghost predicate Ring(m: Memory, frees: set<nat>) {
    BASE in frees && forall p {:trigger LinkOk(m, frees, p)} :: p in frees ==> LinkOk(m, frees, p)
  }

  /** bp belongs between p and its successor q. */
  predicate Gap(p: nat, bp: nat, q: nat) {
    p < bp < q || (q <= p && (p < bp || bp < q))
  }

  function LinkMem(m: Memory, p: nat, bp: nat): Memory
    requires p in m && bp in m
  {
    m[bp := Header(m[p].ptr, m[bp].size)][p := Header(bp, m[p].size)]
  }

  lemma LinkRing(m: Memory, frees: set<nat>, p: nat, bp: nat, z: Memory, f: set<nat>)
    requires Ring(m, frees) && p in frees && p in m && bp !in frees && BASE < bp && bp in m && Gap(p, bp, m[p].ptr)
    requires z == LinkMem(m, p, bp) && f == frees + {bp}
    ensures Ring(z, f)
  {
    assert LinkOk(m, frees, p);
    forall r | r in f
      ensures LinkOk(z, f, r)
    {
      if r != bp && r != p {
        assert LinkOk(m, frees, r);
        LinkOther(frees, p, bp, m[p].ptr, r, m[r].ptr, f);
      }
    }
  }

  lemma LinkOther(frees: set<nat>, p: nat, bp: nat, q: nat, r: nat, t: nat, f: set<nat>)
    requires p in frees && Follows(frees, p, q) && Gap(p, bp, q) && f == frees + {bp}
    requires r in frees && r != p && Follows(frees, r, t) && BASE in frees && BASE < bp
    ensures Follows(f, r, t)
  {
  }

  /** a absorbs its successor b. */
  function AbsorbMem(m: Memory, a: nat, b: nat): Memory
    requires a in m && b in m
  {
    m[a := Header(m[b].ptr, m[a].size + m[b].size)]
  }

  /** p drops its successor b out of the list. */
  lemma UnlinkRing(m: Memory, frees: set<nat>, p: nat, b: nat, n: nat, z: Memory, f: set<nat>)
    requires Ring(m, frees) && p in frees && b in frees && p in m && b in m && BASE != b == m[p].ptr && p != b
    requires z == m[p := Header(m[b].ptr, n)] && f == frees - {b}
    ensures Ring(z, f)
  {
    assert LinkOk(m, frees, p) && LinkOk(m, frees, b);
    forall r | r in f
      ensures LinkOk(z, f, r)
    {
      assert LinkOk(m, frees, r);
      UnlinkOther(frees, p, b, m[b].ptr, r, m[r].ptr, f);
    }
  }

  lemma UnlinkOther(frees: set<nat>, p: nat, b: nat, c: nat, r: nat, t: nat, f: set<nat>)
    requires BASE in frees && p in frees && b in frees && BASE < b && p != b && Follows(frees, p, b) &&
             Follows(frees, b, c)
    requires r in f && Follows(frees, r, t) && (r == p ==> t == b) && f == frees - {b}
    ensures Follows(f, r, if r == p then c else t)
  {
  }

  /** Exactly one link goes backwards: the highest block's, to base. */
  lemma OneWrap(m: Memory, frees: set<nat>, p: nat)
    requires Ring(m, frees) && p in frees
    ensures p in m && (m[p].ptr <= p <==> forall r :: r in frees ==> r <= p)
    ensures m[p].ptr <= p ==> m[p].ptr == BASE
  {
    assert LinkOk(m, frees, p);
    assert LinkOk(m, frees, m[p].ptr);
  }

  /** The block n links after p. */
  ghost function Walk(m: Memory, frees: set<nat>, p: nat, n: nat): (q: nat)
    requires Ring(m, frees) && p in frees
    ensures q in frees
    decreases n
  {
    if n == 0 then p else (assert LinkOk(m, frees, p); Walk(m, frees, m[p].ptr, n - 1))
  }

  /** The list is circular: every free block is reached from every other. */
  lemma {:induction false} ReachesUp(m: Memory, frees: set<nat>, p: nat, r: nat) returns (n: nat)
    requires Ring(m, frees) && p in frees && r in frees && p <= r
    ensures Walk(m, frees, p, n) == r
    decreases r - p
  {
    if p == r {
      n := 0;
    } else {
      assert LinkOk(m, frees, p);
      n := ReachesUp(m, frees, m[p].ptr, r);
      n := n + 1;
    }
  }

  lemma {:induction false} ReachesAll(m: Memory, frees: set<nat>, p: nat, r: nat, top: nat) returns (n: nat)
    requires Ring(m, frees) && p in frees && r in frees && forall x :: x in frees ==> x <= top
    ensures Walk(m, frees, p, n) == r
    decreases top - p
  {
    if p <= r {
      n := ReachesUp(m, frees, p, r);
    } else {
      assert LinkOk(m, frees, p);
      if m[p].ptr <= p {
        OneWrap(m, frees, p);
        assert LinkOk(m, frees, r);
        n := ReachesUp(m, frees, BASE, r);
      } else {
        n := ReachesAll(m, frees, m[p].ptr, r, top);
      }
      n := n + 1;
    }
  }

  // ---- The blocks ----

  predicate IsBlock(s: Shape, a: nat) {
    a in s.live || (a in s.frees && a != BASE)
  }

  /** Block a covers its units and no others. */
  ghost predicate Covers(m: Memory, s: Shape, a: nat) {
    BASE < a && a in m && 1 <= m[a].size && a + m[a].size <= s.top &&
    forall u :: a <= u < a + m[a].size ==> u in s.owner && s.owner[u] == a
  }

  ghost predicate BlocksOk(m: Memory, s: Shape) {
    (forall a :: IsBlock(s, a) ==> Covers(m, s, a)) &&
    (forall u :: u in s.owner ==>
       IsBlock(s, s.owner[u]) && s.owner[u] in m && s.owner[u] <= u < s.owner[u] + m[s.owner[u]].size) &&
    (forall a :: a in s.live ==> a !in s.frees && a in m && m[a].size == s.live[a]) &&
    BASE in m && m[BASE].size == 0 && BASE < s.top
  }

  /** Free block a does not end where another begins. */
  ghost predicate EndsApart(m: Memory, frees: set<nat>, a: nat) {
    a in m ==> a + m[a].size !in frees
  }

  /** No free block but x and y ends where another begins. */
  ghost predicate Apart(m: Memory, frees: set<nat>, x: nat, y: nat) {
    forall a {:trigger EndsApart(m, frees, a)} :: a in frees && a != BASE && a != x && a != y ==> EndsApart(m, frees, a)
  }

  /** What malloc and free keep. */
  ghost predicate Good(m: Memory, s: Shape) {
    Ring(m, s.frees) && BlocksOk(m, s) && Apart(m, s.frees, BASE, BASE)
  }

  /** Live blocks share no unit with each other or with free ones. */
  lemma Disjoint(m: Memory, s: Shape, a: nat, b: nat)
    requires BlocksOk(m, s) && IsBlock(s, a) && IsBlock(s, b) && a != b
    ensures a in m && b in m && (a + m[a].size <= b || b + m[b].size <= a)
  {
    assert Covers(m, s, a) && Covers(m, s, b);
    assert s.owner[a] == a && s.owner[b] == b;
  }

  /** A free block that does not end at its successor ends at no free block. */
  lemma NoNeighbour(m: Memory, s: Shape, a: nat)
    requires Ring(m, s.frees) && BlocksOk(m, s) && a in s.frees && a != BASE && a in m && a + m[a].size != m[a].ptr
    ensures EndsApart(m, s.frees, a)
  {
    assert LinkOk(m, s.frees, a) && Covers(m, s, a);
    if m[a].ptr > a { Disjoint(m, s, a, m[a].ptr); }
  }

  // ---- free ----

  /** bp, so far live, becomes a free block between p and its successor. */
  lemma Released(m: Memory, s: Shape, p: nat, bp: nat, z: Memory, t: Shape)
    requires Good(m, s) && p in s.frees && p in m && bp in s.live && bp in m && Gap(p, bp, m[p].ptr)
    requires z == LinkMem(m, p, bp) && t == Shape(s.frees + {bp}, s.live - {bp}, s.owner, s.top)
    ensures Ring(z, t.frees) && BlocksOk(z, t) && Apart(z, t.frees, p, bp)
  {
    assert Covers(m, s, bp);
    LinkRing(m, s.frees, p, bp, z, t.frees);
    ReleasedBlocks(m, s, p, bp, z, t);
    ReleasedApart(m, s, p, bp, z, t.frees);
  }

  lemma ReleasedApart(m: Memory, s: Shape, p: nat, bp: nat, z: Memory, f: set<nat>)
    requires Good(m, s) && p in s.frees && p in m && bp in s.live && bp in m && Gap(p, bp, m[p].ptr)
    requires z == LinkMem(m, p, bp) && f == s.frees + {bp}
    ensures Apart(z, f, p, bp)
  {
    assert LinkOk(m, s.frees, p);
    forall a | a in f && a != BASE && a != p && a != bp
      ensures EndsApart(z, f, a)
    {
      assert EndsApart(m, s.frees, a) && LinkOk(m, s.frees, a);
      assert Covers(m, s, bp);
      if p != BASE { Disjoint(m, s, a, p); }
    }
  }

  lemma ReleasedBlocks(m: Memory, s: Shape, p: nat, bp: nat, z: Memory, t: Shape)
    requires BlocksOk(m, s) && p in s.frees && p in m && bp in s.live
    requires z == LinkMem(m, p, bp) && t == Shape(s.frees + {bp}, s.live - {bp}, s.owner, s.top)
    ensures BlocksOk(z, t)
  {
    assert Covers(m, s, bp);
    forall a
      ensures IsBlock(t, a) <==> IsBlock(s, a)
      ensures IsBlock(t, a) ==> Covers(z, t, a)
    {
      if IsBlock(s, a) { assert Covers(m, s, a); }
    }
  }

  /** The shape once a has absorbed b. */
  function Absorbed(s: Shape, a: nat, b: nat): Shape {
    Shape(s.frees - {b}, s.live, map u | u in s.owner :: if s.owner[u] == b then a else s.owner[u], s.top)
  }

  lemma Merged(m: Memory, s: Shape, a: nat, b: nat, x: nat, z: Memory, t: Shape)
    requires Ring(m, s.frees) && BlocksOk(m, s) && Apart(m, s.frees, x, a)
    requires a in s.frees && a != BASE && b in s.frees && a in m && b in m && m[a].ptr == b == a + m[a].size && b != x
    requires z == AbsorbMem(m, a, b) && t == Absorbed(s, a, b)
    ensures Ring(z, t.frees) && BlocksOk(z, t) && Apart(z, t.frees, x, x)
  {
    assert Covers(m, s, a);
    UnlinkRing(m, s.frees, a, b, m[a].size + m[b].size, z, t.frees);
    MergedBlocks(m, s, a, b, z, t);
    forall c | c in t.frees && c != BASE && c != x
      ensures EndsApart(z, t.frees, c)
    {
      assert EndsApart(m, s.frees, if c == a then b else c);
    }
  }

  lemma MergedBlocks(m: Memory, s: Shape, a: nat, b: nat, z: Memory, t: Shape)
    requires BlocksOk(m, s) && a in s.frees && b in s.frees && BASE < a < b && a in m && b in m && a + m[a].size == b
    requires z == AbsorbMem(m, a, b) && t == Absorbed(s, a, b)
    ensures BlocksOk(z, t)
  {
    assert Covers(m, s, a) && Covers(m, s, b);
    forall c | IsBlock(t, c)
      ensures Covers(z, t, c)
    {
      assert Covers(m, s, c);
      MergedCovers(m, s, a, b, c, z, t);
    }
    forall u | u in t.owner
      ensures IsBlock(t, t.owner[u]) && t.owner[u] in z && t.owner[u] <= u < t.owner[u] + z[t.owner[u]].size
    {
      assert IsBlock(s, s.owner[u]);
    }
  }

  lemma MergedCovers(m: Memory, s: Shape, a: nat, b: nat, c: nat, z: Memory, t: Shape)
    requires a in m && b in m && a + m[a].size == b && Covers(m, s, a) && Covers(m, s, b) && Covers(m, s, c) && c != b
    requires z == AbsorbMem(m, a, b) && t == Absorbed(s, a, b)
    ensures Covers(z, t, c)
  {
  }

  /** free's merge of bp with the block above it. */
  function UpMem(m: Memory, bp: nat): Memory
    requires bp in m && m[bp].ptr in m
  {
    if bp + m[bp].size == m[bp].ptr then AbsorbMem(m, bp, m[bp].ptr) else m
  }

  /** free's merge of bp into the block below it. */
  function DownMem(m: Memory, p: nat, bp: nat): Memory
    requires p in m && bp in m
  {
    if p + m[p].size == bp then AbsorbMem(m, p, bp) else m
  }

  /** x is s but for some merging of free blocks. */
  ghost predicate SameUnits(s: Shape, x: Shape) {
    x.live == s.live && x.owner.Keys == s.owner.Keys && x.top == s.top
  }

  lemma JoinUp(m: Memory, s: Shape, p: nat, bp: nat, z: Memory) returns (x: Shape)
    requires Ring(m, s.frees) && BlocksOk(m, s) && Apart(m, s.frees, p, bp)
    requires p in s.frees && bp in s.frees && BASE < bp && p < bp && p in m && bp in m && m[bp].ptr in m &&
             m[p].ptr == bp
    requires z == UpMem(m, bp)
    ensures Ring(z, x.frees) && BlocksOk(z, x) && Apart(z, x.frees, p, p) && SameUnits(s, x)
    ensures p in x.frees && bp in x.frees
  {
    var q := m[bp].ptr;
    assert LinkOk(m, s.frees, bp);
    if bp + m[bp].size == q {
      x := Absorbed(s, bp, q);
      Merged(m, s, bp, q, p, z, x);
    } else {
      x := s;
      NoNeighbour(m, s, bp);
    }
  }

  lemma JoinDown(m: Memory, s: Shape, p: nat, bp: nat, z: Memory) returns (x: Shape)
    requires Ring(m, s.frees) && BlocksOk(m, s) && Apart(m, s.frees, p, p)
    requires p in s.frees && bp in s.frees && BASE < bp && p in m && bp in m && m[p].ptr == bp
    requires z == DownMem(m, p, bp)
    ensures Good(z, x) && p in x.frees && SameUnits(s, x)
  {
    assert LinkOk(m, s.frees, p);
    if p + m[p].size == bp {
      x := Absorbed(s, p, bp);
      assert Apart(m, s.frees, BASE, p);
      Merged(m, s, p, bp, BASE, z, x);
    } else {
      x := s;
      if p != BASE { NoNeighbour(m, s, p); }
    }
  }

  /** The headers after free has linked bp in after p, in free's own order. */
  function FreeMem(m: Memory, p: nat, bp: nat): Memory
    requires p in m && bp in m && m[p].ptr in m
  {
    var q := m[p].ptr;
    var y :=
      if bp + m[bp].size == q then m[bp := Header(m[q].ptr, m[bp].size + m[q].size)]
      else m[bp := Header(q, m[bp].size)];
    if p + y[p].size == bp then y[p := Header(y[bp].ptr, y[p].size + y[bp].size)] else y[p := Header(bp, y[p].size)]
  }

  lemma FreeDefined(m: Memory, s: Shape, p: nat, bp: nat)
    requires Good(m, s) && p in s.frees && p in m && bp in s.live && Gap(p, bp, m[p].ptr)
    ensures BASE <= p && BASE < bp && bp in m && m[p].ptr in m && p < bp && bp !in s.frees && m[p].ptr in s.frees
  {
    assert LinkOk(m, s.frees, p);
    assert LinkOk(m, s.frees, m[p].ptr);
    assert Covers(m, s, bp);
  }

  /** Linking first and merging afterwards comes to the same. */
  lemma FreeInSteps(m: Memory, p: nat, bp: nat)
    requires p in m && bp in m && m[p].ptr in m && p < bp && Gap(p, bp, m[p].ptr)
    ensures FreeMem(m, p, bp) == DownMem(UpMem(LinkMem(m, p, bp), bp), p, bp)
  {
  }

  /** free keeps every invariant, every other live block and every unit. */
  lemma FreeGood(m: Memory, s: Shape, p: nat, bp: nat, z: Memory) returns (x: Shape)
    requires Good(m, s) && p in s.frees && p in m && bp in s.live && bp in m && m[p].ptr in m && Gap(p, bp, m[p].ptr)
    requires z == FreeMem(m, p, bp)
    ensures Good(z, x) && p in x.frees && x.live == s.live - {bp} && x.owner.Keys == s.owner.Keys && x.top == s.top
    ensures Untouched(m, z, s, bp) && Roomy(z, p, s.live[bp])
  {
    FreeDefined(m, s, p, bp);
    FreeInSteps(m, p, bp);
    var t := Shape(s.frees + {bp}, s.live - {bp}, s.owner, s.top);
    var m1 := LinkMem(m, p, bp);
    var m2 := UpMem(m1, bp);
    Released(m, s, p, bp, m1, t);
    var y := JoinUp(m1, t, p, bp, m2);
    x := JoinDown(m2, y, p, bp, z);
    FreeUntouched(m, s, p, bp, z);
  }

  lemma FreeUntouched(m: Memory, s: Shape, p: nat, bp: nat, z: Memory)
    requires BlocksOk(m, s) && p in s.frees && p in m && bp in s.live && bp in m && m[p].ptr in m &&
             z == FreeMem(m, p, bp)
    ensures Untouched(m, z, s, bp)
  {
    assert Covers(m, s, bp);
    if p != BASE { assert IsBlock(s, p) && Covers(m, s, p); }
  }

  // ---- malloc ----

  /** The shape once free block b is handed out whole. */
  function Taken(s: Shape, b: nat, n: nat): Shape {
    Shape(s.frees - {b}, s.live[b := n], s.owner, s.top)
  }

  lemma TakenGood(m: Memory, s: Shape, p: nat, b: nat, z: Memory, t: Shape)
    requires Good(m, s) && p in s.frees && b in s.frees && p in m && b in m && BASE != b == m[p].ptr && p != b
    requires z == m[p := Header(m[b].ptr, m[p].size)] && t == Taken(s, b, m[b].size)
    ensures Good(z, t)
  {
    UnlinkRing(m, s.frees, p, b, m[p].size, z, t.frees);
    TakenBlocks(m, s, p, b, z, t);
    forall a | a in t.frees && a != BASE
      ensures EndsApart(z, t.frees, a)
    {
      assert EndsApart(m, s.frees, a) && LinkOk(m, s.frees, a);
    }
  }

  lemma TakenBlocks(m: Memory, s: Shape, p: nat, b: nat, z: Memory, t: Shape)
    requires BlocksOk(m, s) && p in s.frees && b in s.frees && p in m && b in m && b != BASE && p != b
    requires z == m[p := Header(m[b].ptr, m[p].size)] && t == Taken(s, b, m[b].size)
    ensures BlocksOk(z, t)
  {
    forall a
      ensures IsBlock(t, a) <==> IsBlock(s, a)
      ensures IsBlock(t, a) ==> Covers(z, t, a)
    {
      if IsBlock(s, a) { assert Covers(m, s, a); }
    }
  }

  /** What malloc writes to lies in free blocks. */
  lemma TakeFrame(m: Memory, s: Shape, prevp: nat, p: nat)
    requires Good(m, s) && prevp in s.frees && p in s.frees && prevp in m && p in m && m[prevp].ptr == p &&
             m[p].size >= 1
    ensures p != BASE && p != prevp
    ensures forall u :: (u == prevp || p <= u < p + m[p].size) && u in s.owner ==> s.owner[u] !in s.live
  {
    assert LinkOk(m, s.frees, prevp);
    assert IsBlock(s, p) && Covers(m, s, p);
    if prevp != BASE { assert IsBlock(s, prevp) && Covers(m, s, prevp); }
  }

  /** The shape once the last n units of free block b are handed out as block c. */
  function Cut(s: Shape, b: nat, c: nat, n: nat): Shape {
    Shape(s.frees, s.live[c := n], map u | u in s.owner :: if s.owner[u] == b && u >= c then c else s.owner[u], s.top)
  }

  function CutMem(m: Memory, b: nat, c: nat, n: nat, junk: nat): Memory
    requires b in m && n <= m[b].size
  {
    m[b := Header(m[b].ptr, m[b].size - n)][c := Header(junk, n)]
  }

  lemma CutGood(m: Memory, s: Shape, b: nat, c: nat, n: nat, junk: nat, z: Memory, t: Shape)
    requires Good(m, s) && b in s.frees && b != BASE && b in m && 1 <= n < m[b].size && c == b + (m[b].size - n)
    requires z == CutMem(m, b, c, n, junk) && t == Cut(s, b, c, n)
    ensures !IsBlock(s, c) && Good(z, t)
  {
    assert Covers(m, s, b);
    if IsBlock(s, c) { Disjoint(m, s, b, c); }
    CutRing(m, s.frees, b, c, n, junk, z);
    CutBlocks(m, s, b, c, n, junk, z, t);
    forall a | a in t.frees && a != BASE
      ensures EndsApart(z, t.frees, a)
    {
      assert EndsApart(m, s.frees, a);
    }
  }

  lemma CutRing(m: Memory, frees: set<nat>, b: nat, c: nat, n: nat, junk: nat, z: Memory)
    requires Ring(m, frees) && b in frees && b in m && n <= m[b].size && c !in frees && z == CutMem(m, b, c, n, junk)
    ensures Ring(z, frees)
  {
    forall p | p in frees
      ensures LinkOk(z, frees, p)
    {
      assert LinkOk(m, frees, p);
    }
  }

  lemma CutBlocks(m: Memory, s: Shape, b: nat, c: nat, n: nat, junk: nat, z: Memory, t: Shape)
    requires BlocksOk(m, s) && b in s.frees && b != BASE && b in m && 1 <= n < m[b].size && c == b + (m[b].size - n)
    requires !IsBlock(s, c) && c != BASE && z == CutMem(m, b, c, n, junk) && t == Cut(s, b, c, n)
    ensures BlocksOk(z, t)
  {
    assert Covers(m, s, b);
    forall a | IsBlock(t, a)
      ensures Covers(z, t, a)
    {
      if a != c { CutCovers(m, s, b, c, n, junk, a, z, t); }
    }
    forall u | u in t.owner
      ensures IsBlock(t, t.owner[u]) && t.owner[u] in z && t.owner[u] <= u < t.owner[u] + z[t.owner[u]].size
    {
      CutOwner(m, s, b, c, n, junk, u, z, t);
    }
  }

  lemma CutOwner(m: Memory, s: Shape, b: nat, c: nat, n: nat, junk: nat, u: nat, z: Memory, t: Shape)
    requires BlocksOk(m, s) && b in s.frees && b != BASE && b in m && 1 <= n < m[b].size && c == b + (m[b].size - n)
    requires !IsBlock(s, c) && z == CutMem(m, b, c, n, junk) && t == Cut(s, b, c, n) && u in t.owner
    ensures IsBlock(t, t.owner[u]) && t.owner[u] in z && t.owner[u] <= u < t.owner[u] + z[t.owner[u]].size
  {
    assert IsBlock(s, s.owner[u]);
  }

  lemma CutCovers(m: Memory, s: Shape, b: nat, c: nat, n: nat, junk: nat, a: nat, z: Memory, t: Shape)
    requires b in m && 1 <= n < m[b].size && c == b + (m[b].size - n)
    requires z == CutMem(m, b, c, n, junk) && t == Cut(s, b, c, n) && Covers(m, s, a) && a != c
    ensures Covers(z, t, a)
  {
  }

  /** malloc's writes when p is large enough. */
  function TakeMem(m: Memory, prevp: nat, p: nat, n: nat, junk: nat): Memory
    requires prevp in m && p in m && m[p].size >= n
  {
    if m[p].size == n then m[prevp := Header(m[p].ptr, m[prevp].size)] else CutMem(m, p, p + (m[p].size - n), n, junk)
  }

  lemma TakeGood(m: Memory, s: Shape, prevp: nat, p: nat, n: nat, junk: nat, h: nat, z: Memory) returns (t: Shape)
    requires Good(m, s) && prevp in s.frees && p in s.frees && prevp in m && p in m && m[prevp].ptr == p
    requires 1 <= n <= m[p].size && z == TakeMem(m, prevp, p, n, junk) && h == p + (m[p].size - n)
    ensures Good(z, t) && prevp in t.frees && prevp != NULL && HandedOut(s, t, h, n) && Untouched(m, z, s, NULL)
  {
    assert LinkOk(m, s.frees, prevp);
    TakeFrame(m, s, prevp, p);
    TakeUntouched(m, s, prevp, p, n, junk, z);
    if m[p].size == n {
      t := Taken(s, p, n);
      TakenGood(m, s, prevp, p, z, t);
      assert p !in s.live;
    } else {
      t := Cut(s, p, h, n);
      CutGood(m, s, p, h, n, junk, z, t);
      CutKeys(s, p, h, n);
    }
  }

  lemma CutKeys(s: Shape, b: nat, c: nat, n: nat)
    ensures Cut(s, b, c, n).owner.Keys == s.owner.Keys
  {
  }

  lemma TakeUntouched(m: Memory, s: Shape, prevp: nat, p: nat, n: nat, junk: nat, z: Memory)
    requires prevp in m && p in m && 1 <= n <= m[p].size && z == TakeMem(m, prevp, p, n, junk)
    requires forall u :: (u == prevp || p <= u < p + m[p].size) && u in s.owner ==> s.owner[u] !in s.live
    ensures Untouched(m, z, s, NULL)
  {
  }

  // ---- morecore ----

  /** The units from at up to at + nu, all of block at. */
  ghost function Units(at: nat, nu: nat): (o: map<nat, nat>)
    ensures forall u :: u in o <==> at <= u < at + nu
    ensures forall u :: u in o ==> o[u] == at
  {
    if nu == 0 then map[] else Units(at, nu - 1)[at + nu - 1 := at]
  }

  /** The shape once sbrk has added nu units at address at, as one live block. */
  ghost function Grown(s: Shape, at: nat, nu: nat): Shape {
    Shape(s.frees, s.live[at := nu], s.owner + Units(at, nu), at + nu)
  }

  lemma GrownGood(m: Memory, s: Shape, at: nat, nu: nat, ptr: nat, z: Memory, t: Shape)
    requires Good(m, s) && s.top <= at && 1 <= nu && z == m[at := Header(ptr, nu)] && t == Grown(s, at, nu)
    ensures Good(z, t)
  {
    BelowTop(m, s);
    GrownBlocks(m, s, at, nu, ptr, z, t);
    forall p | p in s.frees
      ensures LinkOk(z, s.frees, p) && (p != BASE ==> EndsApart(z, s.frees, p))
    {
      assert LinkOk(m, s.frees, p);
      if p != BASE { assert EndsApart(m, s.frees, p); }
    }
  }

  lemma GrownBlocks(m: Memory, s: Shape, at: nat, nu: nat, ptr: nat, z: Memory, t: Shape)
    requires BlocksOk(m, s) && s.top <= at && 1 <= nu && z == m[at := Header(ptr, nu)] && t == Grown(s, at, nu)
    ensures BlocksOk(z, t)
  {
    BelowTop(m, s);
    forall a | IsBlock(t, a)
      ensures Covers(z, t, a)
    {
      if a != at { GrownCovers(m, s, at, nu, ptr, a); }
    }
    forall u | u in t.owner
      ensures IsBlock(t, t.owner[u]) && t.owner[u] in z && t.owner[u] <= u < t.owner[u] + z[t.owner[u]].size
    {
      GrownOwner(m, s, at, nu, ptr, u);
    }
  }

  lemma GrownOwner(m: Memory, s: Shape, at: nat, nu: nat, ptr: nat, u: nat)
    requires BlocksOk(m, s) && s.top <= at && u in Grown(s, at, nu).owner
    requires forall v :: v in s.owner ==> v < s.top
    ensures var z, t := m[at := Header(ptr, nu)], Grown(s, at, nu);
            IsBlock(t, t.owner[u]) && t.owner[u] in z && t.owner[u] <= u < t.owner[u] + z[t.owner[u]].size
  {
  }

  lemma GrownCovers(m: Memory, s: Shape, at: nat, nu: nat, ptr: nat, a: nat)
    requires Covers(m, s, a) && s.top <= at && 1 <= nu
    ensures Covers(m[at := Header(ptr, nu)], Grown(s, at, nu), a)
  {
  }

  lemma GrownBack(m: Memory, s: Shape, at: nat, nu: nat)
    requires BlocksOk(m, s) && s.top <= at
    ensures Grown(s, at, nu).live - {at} == s.live && Grown(s, at, nu).live[at] == nu
    ensures Grown(s, at, nu).owner.Keys == s.owner.Keys + Units(at, nu).Keys
  {
    BelowTop(m, s);
  }

  lemma GrownUntouched(m: Memory, s: Shape, at: nat, nu: nat, y: Memory, z: Memory)
    requires BlocksOk(m, s) && s.top <= at && y == m[at := Header(NULL, nu)] && Untouched(y, z, Grown(s, at, nu), at)
    ensures Untouched(m, z, s, NULL)
  {
    BelowTop(m, s);
    var t := Grown(s, at, nu);
    forall u | u in s.owner && s.owner[u] in s.live && u in m
      ensures u in z && z[u] == m[u]
    {
      assert t.owner[u] == s.owner[u] && t.owner[u] in t.live;
    }
  }

  lemma BelowTop(m: Memory, s: Shape)
    requires BlocksOk(m, s)
    ensures forall a :: a in s.frees || a in s.live ==> a < s.top
    ensures forall u :: u in s.owner ==> u < s.top
  {
    forall a | a in s.frees || a in s.live
      ensures a < s.top
    {
      if a != BASE { assert IsBlock(s, a) && Covers(m, s, a); }
    }
    forall u | u in s.owner
      ensures u < s.top
    {
      assert Covers(m, s, s.owner[u]);
    }
  }

  // ---- The search ----

  /** Going round from a, r comes strictly before b. */
  predicate Between(a: nat, r: nat, b: nat) {
    if a < b then a < r < b else a < r || r < b
  }

  /** The blocks passed on the way from freep to p are too small. */
  ghost predicate Passed(m: Memory, frees: set<nat>, freep: nat, p: nat, n: nat) {
    forall r :: r in frees && r in m && Between(freep, r, p) ==> m[r].size < n
  }

  lemma PassedStart(m: Memory, frees: set<nat>, freep: nat, p: nat, n: nat)
    requires Follows(frees, freep, p) && freep in frees
    ensures Passed(m, frees, freep, p, n)
  {
  }

  ghost predicate NoneFits(m: Memory, frees: set<nat>, n: nat) {
    forall b :: b in frees && b in m ==> m[b].size < n
  }

  lemma AllPassed(m: Memory, frees: set<nat>, freep: nat, n: nat)
    requires Passed(m, frees, freep, freep, n) && freep in m && m[freep].size < n
    ensures NoneFits(m, frees, n)
  {
  }

  lemma PassedStep(m: Memory, frees: set<nat>, freep: nat, p: nat, q: nat, n: nat)
    requires Passed(m, frees, freep, p, n) && p in m && m[p].size < n && freep in frees && p in frees && p != freep
    requires Follows(frees, p, q) && BASE in frees && forall r :: r in frees ==> BASE <= r
    ensures Passed(m, frees, freep, q, n)
  {
  }

  /** How far round the list freep still is. */
  function Distance(freep: nat, p: nat, top: nat): int {
    if p <= freep then freep - p else top - p + freep
  }

  lemma DistanceStep(frees: set<nat>, freep: nat, p: nat, q: nat, top: nat)
    requires freep in frees && p in frees && p != freep && p < top && Follows(frees, p, q) && q < top
    ensures 0 <= Distance(freep, q, top) < Distance(freep, p, top)
  {
  }

  /** free's search: p moves up to bp's gap, past the top first if bp lies below p. */
  function GapDistance(p: nat, bp: nat, top: nat): int {
    if p < bp then bp - p else top - p + bp
  }

  lemma GapStep(frees: set<nat>, p: nat, bp: nat, q: nat, top: nat)
    requires p in frees && bp !in frees && BASE in frees && BASE < bp < top && p < top && Follows(frees, p, q)
    requires !Gap(p, bp, q) && q < top
    ensures 0 <= GapDistance(q, bp, top) < GapDistance(p, bp, top)
  {
  }

  /** The headers inside live blocks other than x are as they were. */
  ghost predicate Untouched(m: Memory, z: Memory, s: Shape, x: nat) {
    forall u :: u in s.owner && s.owner[u] in s.live && s.owner[u] != x && u in m ==> u in z && z[u] == m[u]
  }

  lemma UntouchedTrans(m0: Memory, s0: Shape, m1: Memory, s1: Shape, m2: Memory)
    requires s0.owner == map[] || BlocksOk(m0, s0)
    requires BlocksOk(m1, s1) && s1.live == s0.live && Untouched(m0, m1, s0, NULL) && Untouched(m1, m2, s1, NULL)
    ensures Untouched(m0, m2, s0, NULL)
  {
    forall u | u in s0.owner && s0.owner[u] in s0.live && u in m0
      ensures u in m2 && m2[u] == m0[u]
    {
      var a := s0.owner[u];
      assert IsBlock(s1, a) && Covers(m1, s1, a);
      assert s1.owner[u] == a;
    }
  }

  /** The block at freep or the one after it has at least n units. */
  predicate Roomy(m: Memory, freep: nat, n: nat) {
    freep in m && (m[freep].size >= n || (m[freep].ptr in m && m[m[freep].ptr].size >= n))
  }

  function AtLeast(n: nat, k: nat): (r: nat)
    ensures n <= r && k <= r && (r == n || r == k)
  {
    if n < k then k else n
  }

  /** sbrk would take n units for a negative size. */
  predicate TooLarge(n: nat) {
    n * HEADER > 0x7FFF_FFFF
  }

  /** h is a new live block of n units. */
  ghost predicate HandedOut(s: Shape, t: Shape, h: nat, n: nat) {
    h !in s.live && t.live == s.live[h := n] && t.owner.Keys == s.owner.Keys && t.top == s.top
  }

  /** The units accounted for are those before; if no free block was large enough, those of
      one sbrk come in addition. */
  ghost predicate Obtained(m: Memory, s: Shape, t: Shape, at: nat, n: nat) {
    if NoneFits(m, s.frees, n) then at != NULL && t.owner.Keys == s.owner.Keys + Units(at, AtLeast(n, 4096)).Keys
    else t.owner.Keys == s.owner.Keys
  }

  /** malloc's loop: p comes after prevp, and what was passed on the way is too small. */
  ghost predicate Searching(m: Memory, frees: set<nat>, freep: nat, prevp: nat, p: nat, n: nat) {
    prevp in frees && p in frees && prevp in m && freep in m && m[prevp].ptr == p && Passed(m, frees, freep, p, n)
  }

  lemma SearchStep(m: Memory, s: Shape, freep: nat, p: nat, n: nat)
    requires Good(m, s) && freep in s.frees && p in s.frees && p != freep && p in m && m[p].size < n
    requires Passed(m, s.frees, freep, p, n)
    ensures m[p].ptr in s.frees && Passed(m, s.frees, freep, m[p].ptr, n)
    ensures 0 <= Distance(freep, m[p].ptr, s.top) < Distance(freep, p, s.top)
  {
    BelowTop(m, s);
    assert LinkOk(m, s.frees, p);
    forall r | r in s.frees
      ensures BASE <= r
    {
      assert LinkOk(m, s.frees, r);
    }
    PassedStep(m, s.frees, freep, p, m[p].ptr, n);
    DistanceStep(s.frees, freep, p, m[p].ptr, s.top);
  }

  // ---- Request sizes ----

  /** malloc's nunits, in unsigned arithmetic. */
  function Nunits(nbytes: Uint): (n: nat)
    ensures 1 <= n <= 0x2000_0000
  {
    (nbytes + HEADER - 1) % 0x1_0000_0000 / HEADER + 1
  }

  /** The block is large enough for the request exactly when the rounding does not wrap. */
  lemma LargeEnough(nbytes: Uint)
    ensures (Nunits(nbytes) - 1) * HEADER >= nbytes <==> nbytes <= 0xFFFF_FFF8
  {
  }

  /** It does wrap: a request for all but the last byte of the address space gets none. */
  lemma WrapsToNothing()
    ensures Nunits(0xFFFF_FFFF) == 1
  {
  }

  datatype MallocResult =
    | Block(header: nat)         // the caller is given header + 1
    | Refused                    // 0
    | Wild                       // sbrk was asked for a size that is not positive as an int

  class Heap {
    var mem: Memory
    var freep: nat
    ghost var shape: Shape

    ghost predicate Valid()
      reads this
    {
      if freep == NULL then shape == Shape({}, map[], map[], shape.top) && BASE < shape.top
      else Good(mem, shape) && freep in shape.frees
    }

    constructor (brk: nat)
      requires BASE < brk
      ensures Valid() && shape.live == map[] && shape.owner == map[] && shape.top == brk && freep == NULL
    {
      mem, freep := map[], NULL;
      shape := Shape({}, map[], map[], brk);
    }

    /** free's loop. */
    method FindGap(bp: nat) returns (p: nat)
      requires Valid() && bp in shape.live
      ensures p in shape.frees && p in mem && Gap(p, bp, mem[p].ptr)
    {
      assert Covers(mem, shape, bp);
      BelowTop(mem, shape);
      p := freep;
      assert LinkOk(mem, shape.frees, p);
      while !(bp > p && bp < mem[p].ptr)
        invariant p in shape.frees && LinkOk(mem, shape.frees, p)
        decreases GapDistance(p, bp, shape.top)
      {
        if p >= mem[p].ptr && (bp > p || bp < mem[p].ptr) { break; }
        assert LinkOk(mem, shape.frees, mem[p].ptr);
        GapStep(shape.frees, p, bp, mem[p].ptr, shape.top);
        p := mem[p].ptr;
      }
    }

    /** free of the block whose header is bp: it is no longer live, every unit stays
        accounted for, and what it touches joins it. */
    method Free(bp: nat)
      requires Valid() && bp in shape.live
      modifies this
      ensures Valid() && freep != NULL
      ensures shape.live == old(shape.live) - {bp} && shape.owner.Keys == old(shape.owner.Keys) &&
              shape.top == old(shape.top)
      ensures Untouched(old(mem), mem, old(shape), bp)
      ensures Roomy(mem, freep, old(shape).live[bp])
    {
      ghost var m, s := mem, shape;
      var p := FindGap(bp);
      FreeDefined(m, s, p, bp);
      var q := mem[p].ptr;
      if bp + mem[bp].size == q {
        mem := mem[bp := Header(mem[q].ptr, mem[bp].size + mem[q].size)];
      } else {
        mem := mem[bp := Header(q, mem[bp].size)];
      }
      if p + mem[p].size == bp {
        mem := mem[p := Header(mem[bp].ptr, mem[p].size + mem[bp].size)];
      } else {
        mem := mem[p := Header(bp, mem[p].size)];
      }
      freep := p;
      shape := FreeGood(m, s, p, bp, mem);
    }

    /** morecore: the address of the free block before the new one, or 0. */
    method Morecore(nu: nat, at: nat) returns (p: nat, wild: bool)
      requires Valid() && freep != NULL && 1 <= nu <= 0x2000_0000 && (at == NULL || shape.top <= at)
      modifies this
      ensures wild <==> TooLarge(nu)
      ensures wild || at == NULL ==> p == NULL && mem == old(mem) && freep == old(freep) && shape == old(shape)
      ensures !wild && at != NULL ==>
                Valid() && p == freep != NULL && shape.live == old(shape.live) &&
                shape.owner.Keys == old(shape.owner.Keys) + Units(at, AtLeast(nu, 4096)).Keys &&
                Untouched(old(mem), mem, old(shape), NULL) && Roomy(mem, freep, nu)
    {
      var n := AtLeast(nu, 4096);
      var bytes := n * HEADER % 0x1_0000_0000;
      if bytes == 0 || bytes > 0x7FFF_FFFF { return NULL, true; }
      if at == NULL { return NULL, false; }
      ghost var m, s := mem, shape;
      mem := mem[at := Header(NULL, n)];
      shape := Grown(s, at, n);
      GrownGood(m, s, at, n, NULL, mem, shape);
      ghost var m1 := mem;
      GrownBack(m, s, at, n);
      Free(at);
      p, wild := freep, false;
      GrownUntouched(m, s, at, n, m1, mem);
    }

    /** malloc's first call: the list is base alone. */
    method Start()
      requires Valid() && freep == NULL
      modifies this
      ensures Valid() && freep == BASE && shape.frees == {BASE} && shape.live == old(shape.live)
      ensures shape.owner == old(shape.owner) && shape.top == old(shape.top) && mem == old(mem)[BASE := Header(BASE, 0)]
    {
      mem := mem[BASE := Header(BASE, 0)];
      freep := BASE;
      shape := Shape({BASE}, map[], map[], shape.top);
      assert LinkOk(mem, shape.frees, BASE);
    }

    /** malloc's use of a block p that is large enough: all of it, or its tail. */
    method Take(prevp: nat, p: nat, n: nat, junk: nat) returns (h: nat)
      requires Valid() && freep != NULL && 1 <= n && prevp in shape.frees && p in shape.frees
      requires prevp in mem && p in mem && mem[prevp].ptr == p && mem[p].size >= n
      modifies this
      ensures Valid() && freep == prevp && HandedOut(old(shape), shape, h, n) &&
              Untouched(old(mem), mem, old(shape), NULL)
    {
      ghost var m, s := mem, shape;
      if mem[p].size == n {
        mem := mem[prevp := Header(mem[p].ptr, mem[prevp].size)];
        h := p;
      } else {
        mem := mem[p := Header(mem[p].ptr, mem[p].size - n)];
        h := p + mem[p].size;
        mem := mem[h := Header(junk, n)];
      }
      freep := prevp;
      shape := TakeGood(m, s, prevp, p, n, junk, h, mem);
    }

    /** malloc once the request is in units: its loop. */
    method MallocUnits(n: nat, at: nat, junk: nat) returns (r: MallocResult)
      requires Valid() && (at == NULL || shape.top <= at) && 1 <= n <= 0x2000_0000
      modifies this
      ensures !r.Wild? ==> Valid() && Untouched(old(mem), mem, old(shape), NULL)
      ensures r.Block? ==> r.header !in old(shape).live && shape.live == old(shape).live[r.header := n]
      ensures r.Block? ==> Obtained(old(mem), old(shape), shape, at, n)
      ensures r.Refused? <==> NoneFits(old(mem), old(shape).frees, n) && !TooLarge(n) && at == NULL
      ensures r.Refused? ==> shape.live == old(shape).live && shape.owner == old(shape).owner
      ensures r.Wild? <==> NoneFits(old(mem), old(shape).frees, n) && TooLarge(n)
      ensures !r.Block? ==> NoneFits(mem, shape.frees, n)
    {
      if freep == NULL { Start(); }
      ghost var m0, s0 := mem, shape;
      assert NoneFits(m0, s0.frees, n) <==> NoneFits(old(mem), old(shape).frees, n);
      var prevp := freep;
      assert LinkOk(mem, shape.frees, prevp);
      var p := mem[prevp].ptr;
      ghost var more := false;
      PassedStart(mem, shape.frees, freep, p, n);
      while true
        invariant Valid() && freep != NULL && Searching(mem, shape.frees, freep, prevp, p, n)
        invariant !more ==> mem == m0 && shape == s0
        invariant more ==> at != NULL && shape.live == old(shape).live && NoneFits(m0, s0.frees, n) && !TooLarge(n)
        invariant more ==> shape.owner.Keys == old(shape).owner.Keys + Units(at, AtLeast(n, 4096)).Keys
        invariant more ==> Roomy(mem, freep, n) && (p == mem[freep].ptr || mem[freep].size >= n)
        invariant Untouched(old(mem), mem, old(shape), NULL)
        decreases !more, Distance(freep, p, shape.top)
      {
        assert LinkOk(mem, shape.frees, p);
        if mem[p].size >= n {
          ghost var m, s := mem, shape;
          var h := Take(prevp, p, n, junk);
          UntouchedTrans(old(mem), old(shape), m, s, mem);
          return Block(h);
        }
        if p == freep {
          var wild;
          assert !more;
          AllPassed(mem, shape.frees, freep, n);
          p, wild := Morecore(n, at);
          if wild { return Wild; }
          if p == NULL { return Refused; }
          more := true;
          assert LinkOk(mem, shape.frees, p);
          PassedStart(mem, shape.frees, freep, mem[p].ptr, n);
        } else {
          SearchStep(mem, shape, freep, p, n);
        }
        prevp := p;
        p := mem[p].ptr;
      }
    }

    /** malloc, with sbrk's answer at (0 when it refuses): a new live block of nunits units,
        or 0 when no free block is that large and sbrk refuses. */
    method Malloc(nbytes: Uint, at: nat, junk: nat) returns (r: MallocResult)
      requires Valid() && (at == NULL || shape.top <= at)
      modifies this
      ensures !r.Wild? ==> Valid() && Untouched(old(mem), mem, old(shape), NULL)
      ensures r.Block? ==> r.header !in old(shape).live && shape.live == old(shape).live[r.header := Nunits(nbytes)]
      ensures r.Block? && nbytes <= 0xFFFF_FFF8 ==> (shape.live[r.header] - 1) * HEADER >= nbytes
      ensures r.Block? ==> Obtained(old(mem), old(shape), shape, at, Nunits(nbytes))
      ensures r.Refused? ==> shape.live == old(shape).live && shape.owner == old(shape).owner
      ensures var n := Nunits(nbytes);
              (r.Refused? <==> NoneFits(old(mem), old(shape).frees, n) && !TooLarge(n) && at == NULL) &&
              (r.Wild? <==> NoneFits(old(mem), old(shape).frees, n) && TooLarge(n))
      ensures !r.Block? ==> NoneFits(mem, shape.frees, Nunits(nbytes))
    {
      LargeEnough(nbytes);
      r := MallocUnits(Nunits(nbytes), at, junk);
    }
  }
}

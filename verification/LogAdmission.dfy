/** begin_op's admission rule against log_write's unlocked test: exactly when operations
    that keep to an allowance of blocks can overrun the log region, and exactly when they can hit
    the "too big" panic, with the runs that do (log.c). */
module LogAdmission {
  import opened Blocks
  import opened Lists
  import opened LogSpec
  import opened LogProtocol
  import opened LogBudget

  // ---- Runs ----

  lemma {:induction false} ExecSnoc(sys: Sys, s: State, ts: seq<Step>, y: State, t: Step)
    requires Exec(sys, s, ts, y) && Enabled(sys, y, t)
    ensures Exec(sys, s, ts + [t], Apply(sys, y, t))
    decreases |ts|
  {
    if ts == [] {
      assert ([t])[1..] == [];
      assert ts + [t] == [t];
    } else {
      ExecSnoc(sys, Apply(sys, s, ts[0]), ts[1..], y, t);
      assert (ts + [t])[1..] == ts[1..] + [t];
    }
  }

  lemma ReachNext(sys: Sys, s: State, t: Step, z: State)
    requires Reachable(sys, s) && Enabled(sys, s, t) && z == Apply(sys, s, t)
    ensures Reachable(sys, z)
  {
    var ts :| Exec(sys, Init(sys), ts, s);
    ExecSnoc(sys, Init(sys), ts, s, t);
  }

  /** The k-th block number outside the log region. */
  function HomeBlock(lay: Layout, k: nat): nat {
    if k < lay.start then k else k + lay.size
  }

  /** How many blocks the list can have for the test still to pass, plus one. */
  function Ceiling(sys: Sys): int {
    if sys.lay.size - 1 < LOGSIZE then sys.lay.size - 1 else LOGSIZE
  }

  /** Process 0 began first and has not ended. */
  predicate Led(h: History) {
    h == Then(Empty, Began(0)) || (h.Then? && Led(h.past) && h.last != Ended(0))
  }

  /** The first k home blocks, in order. */
  function HomeList(lay: Layout, k: nat): (s: seq<nat>)
    ensures |s| == k
  {
    if k == 0 then [] else HomeList(lay, k - 1) + [HomeBlock(lay, k - 1)]
  }

  /** d with contents w in its first k home blocks. */
  function Marked(lay: Layout, d: Image, k: nat, w: Block): (e: Image)
    ensures |e| == |d|
  {
    if k == 0 then d else
    var e := Marked(lay, d, k - 1, w);
    if HomeBlock(lay, k - 1) < |e| then e[HomeBlock(lay, k - 1) := w] else e
  }

  lemma {:induction false} HomeListAt(lay: Layout, k: nat, j: nat)
    requires j < k
    ensures HomeList(lay, k)[j] == HomeBlock(lay, j)
  {
    if j < k - 1 { HomeListAt(lay, k - 1, j); }
  }

  lemma {:induction false} HomeListNew(lay: Layout, k: nat, b: nat)
    requires k <= b
    ensures HomeBlock(lay, b) !in HomeList(lay, k)
  {
    if k > 0 { HomeListNew(lay, k - 1, b); }
  }

  lemma {:induction false} MarkedAt(lay: Layout, d: Image, k: nat, w: Block, j: nat)
    requires j < k && HomeBlock(lay, k - 1) < |d|
    ensures HomeBlock(lay, j) < |d| && Marked(lay, d, k, w)[HomeBlock(lay, j)] == w
  {
    if j < k - 1 { MarkedAt(lay, d, k - 1, w, j); }
  }

  /** Memory with the first k home blocks logged and nothing in flight or held. */
  function Quiet(sys: Sys, w: Block, k: nat, ops: Ops): Mem {
    Mem(ops, {}, {}, map[], map[], HomeList(sys.lay, k), Marked(sys.lay, sys.init, k, w), |ops|, false, NotCommitting)
  }

  /** A run has filled the log with the first k home blocks, contents w, in one group. */
  ghost predicate Filled(sys: Sys, w: Block, s: State, k: nat, ops: Ops) {
    Reachable(sys, s) && Led(s.history) && s == State(sys.init, Up(Quiet(sys, w, k, ops)), s.history, Empty) &&
    AmongFirst(sys.lay, k, ops)
  }

  /** The operations have logged none but the first k home blocks. */
  ghost predicate AmongFirst(lay: Layout, k: nat, ops: Ops) {
    forall p, b :: p in ops && b in ops[p] ==> b in HomeList(lay, k)
  }

  lemma AmongFirstNext(lay: Layout, k: nat, ops: Ops, p: Proc, ops1: Ops)
    requires AmongFirst(lay, k, ops) && p in ops && ops1 == ops[p := ops[p] + [HomeBlock(lay, k)]]
    ensures AmongFirst(lay, k + 1, ops1) && |ops1[p]| == |ops[p]| + 1
  {
    HomeListNew(lay, k, k);
  }

  /** Operation 0, or 0 and 1, with nothing logged. */
  function Lone(): Ops { map[0 := []] }

  function Two(): Ops { map[0 := [], 1 := []] }

  /** begin_op by p. */
  lemma Admit(sys: Sys, w: Block, s: State, k: nat, ops: Ops, p: Proc) returns (z: State)
    requires Filled(sys, w, s, k, ops) && p !in ops && p < sys.procs && Admits(k, |ops|)
    ensures Filled(sys, w, z, k, ops[p := []])
  {
    var y := Apply(sys, s, Call(p));
    ReachNext(sys, s, Call(p), y);
    z := Apply(sys, y, Begin(p));
    ReachNext(sys, y, Begin(p), z);
    assert {} + {p} - {p} == {};
    assert ops[p := []] - {p} == ops;
    Smaller(ops[p := []], p);
  }

  /** end_op by p, with operation 0 outstanding. */
  lemma Finish(sys: Sys, w: Block, s: State, k: nat, ops: Ops, p: Proc) returns (z: State)
    requires Filled(sys, w, s, k, ops) && p in ops && 0 in ops && p != 0
    ensures Filled(sys, w, z, k, ops - {p})
  {
    z := Apply(sys, s, End(p));
    ReachNext(sys, s, End(p), z);
    Smaller(ops, p);
    assert 0 in ops - {p};
  }

  /** bread, log_write and brelse of the next home block by p. */
  lemma Put(sys: Sys, w: Block, s: State, k: nat, ops: Ops, p: Proc, ops1: Ops)
    returns (z: State)
    requires Filled(sys, w, s, k, ops) && p in ops && |ops[p]| < sys.limit && k < Ceiling(sys) && k < Homes(sys)
    requires Fits(sys.lay, sys.init) && ops1 == ops[p := ops[p] + [HomeBlock(sys.lay, k)]]
    ensures Filled(sys, w, z, k + 1, ops1) && |ops1[p]| == |ops[p]| + 1
  {
    HomeListNew(sys.lay, k, k);
    z := PutRun(sys, s, Quiet(sys, w, k, ops), p, HomeBlock(sys.lay, k), w);
    KeysSame(ops, p, ops1[p]);
    AmongFirstNext(sys.lay, k, ops, p, ops1);
  }

  /** The same from any memory with nothing in flight or held. */
  lemma PutRun(sys: Sys, s: State, m: Mem, p: Proc, bn: nat, w: Block) returns (z: State)
    requires Reachable(sys, s) && s.mode == Up(m) && m.flight == map[] && m.held == map[] && Running(m, p)
    requires Allowed(sys, m.ops, p, bn) && Passes(sys, |m.lh|) && m.outstanding >= 1
    requires IsHome(sys.lay, s.disk, bn) && bn !in m.lh && bn < |m.cache| && !m.commit.Writing?
    ensures Reachable(sys, z) && z == s.(mode := Up(Put1(m, p, bn, w)), history := Then(s.history, Wrote(p, bn, w)))
  {
    var m1 := m.(held := m.held[bn := p]);
    var m2 := m1.(flight := m1.flight[p := Pending(bn, w)]);
    var s1 := Get(sys, s, m, p, bn);
    var s2 := Pass(sys, s1, m1, p, bn, w);
    Dropped(m2.flight, p, m.flight, Pending(bn, w));
    Dropped(m2.held, bn, m.held, p);
    z := Record(sys, s2, m2, p, bn, w, m.flight, m.held);
    Put1Same(m, m2, p, bn, w);
  }

  lemma Put1Same(m: Mem, m2: Mem, p: Proc, bn: nat, w: Block)
    requires p in m.ops && bn < |m.cache| && m2 == m.(held := m2.held, flight := m2.flight)
    ensures Put1(m2, p, bn, w).(flight := m.flight, held := m.held) == Put1(m, p, bn, w)
  {
  }

  lemma Dropped<V>(f: map<nat, V>, k: nat, g: map<nat, V>, v: V)
    requires f == g[k := v] && k !in g
    ensures g == f - {k}
  {
  }

  /** The locked half of log_write, and brelse. */
  lemma Record(sys: Sys, s: State, m: Mem, p: Proc, bn: nat, w: Block,
               flight: map<Proc, Pending>, held: map<nat, Proc>) returns (z: State)
    requires flight == m.flight - {p} && held == m.held - {bn}
    requires Reachable(sys, s) && s.mode == Up(m) && p in m.flight && m.flight[p] == Pending(bn, w)
    requires p in m.ops && bn < |m.cache| && bn !in m.lh && |m.lh| < LOGSIZE
    requires p !in m.wanting && p !in m.asleep && bn in m.held && m.held[bn] == p
    ensures Reachable(sys, z)
    ensures z == s.(mode := Up(Put1(m, p, bn, w).(flight := flight, held := held)),
                    history := Then(s.history, Wrote(p, bn, w)))
  {
    var y := Apply(sys, s, Append(p));
    ReachNext(sys, s, Append(p), y);
    z := Apply(sys, y, Brelse(p, bn));
    ReachNext(sys, y, Brelse(p, bn), z);
  }

  function Put1(m: Mem, p: Proc, bn: nat, w: Block): Mem
    requires p in m.ops && bn < |m.cache|
  {
    m.(lh := m.lh + [bn], cache := m.cache[bn := w], ops := m.ops[p := Absorb(m.ops[p], bn)])
  }

  lemma KeysSame(ops: Ops, p: Proc, v: seq<nat>)
    requires p in ops
    ensures |ops[p := v]| == |ops|
  {
    assert ops[p := v].Keys == ops.Keys;
    assert |ops| == |ops.Keys| && |ops[p := v]| == |ops[p := v].Keys|;
  }

  /** bread with a buffer to spare. */
  lemma Get(sys: Sys, s: State, m: Mem, p: Proc, bn: nat) returns (z: State)
    requires Reachable(sys, s) && s.mode == Up(m) && Running(m, p) && IsHome(sys.lay, s.disk, bn) && bn !in m.held
    requires !m.commit.Writing? && (bn in m.lh || |m.lh| + |m.held| < NBUF)
    ensures Reachable(sys, z) && z == s.(mode := Up(m.(held := m.held[bn := p])))
  {
    z := Apply(sys, s, Bread(p, bn));
    ReachNext(sys, s, Bread(p, bn), z);
    TakenBound(m);
  }

  lemma TakenBound(m: Mem)
    ensures |Taken(m)| <= |m.lh| + |m.held|
    ensures !m.commit.Writing? ==> forall bn :: bn in m.lh ==> bn in Pinned(m)
  {
    ElemsCount(m.lh);
    Fewer(Pinned(m), Elems(m.lh));
    assert |m.held| == |m.held.Keys|;
  }

  /** log_write's test, passed. */
  lemma Pass(sys: Sys, s: State, m: Mem, p: Proc, bn: nat, w: Block) returns (z: State)
    requires Reachable(sys, s) && s.mode == Up(m) && Enabled(sys, s, Test(p, bn, w))
    requires Passes(sys, |m.lh|) && m.outstanding >= 1
    ensures Reachable(sys, z) && z == s.(mode := Up(m.(flight := m.flight[p := Pending(bn, w)])))
  {
    z := Apply(sys, s, Test(p, bn, w));
    ReachNext(sys, s, Test(p, bn, w), z);
  }

  lemma Start(sys: Sys, w: Block) returns (s: State)
    requires sys.procs >= 1
    ensures Filled(sys, w, s, 0, Lone())
  {
    var s0 := Init(sys);
    assert Exec(sys, s0, [], s0);
    var s1 := Apply(sys, s0, Call(0));
    ReachNext(sys, s0, Call(0), s1);
    s := Apply(sys, s1, Begin(0));
    ReachNext(sys, s1, Begin(0), s);
    assert s.mode.mem.wanting == {} && s.mode.mem.ops == Lone();
  }

  /** While operation 0 idles, one-write operations of process 1 log the first ten blocks. */
  lemma {:induction false} FillLow(sys: Sys, w: Block, k: nat) returns (s: State)
    requires sys.procs >= 2 && sys.limit >= 1 && k <= MAXOPBLOCKS && k <= Ceiling(sys) && k <= Homes(sys)
    requires Fits(sys.lay, sys.init)
    ensures Filled(sys, w, s, k, Lone())
  {
    if k == 0 {
      s := Start(sys, w);
    } else {
      var a := FillLow(sys, w, k - 1);
      s := PutAlone(sys, w, a, k - 1);
    }
  }

  lemma PutAlone(sys: Sys, w: Block, a: State, k: nat) returns (s: State)
    requires Filled(sys, w, a, k, Lone()) && sys.procs >= 2 && sys.limit >= 1 && k < MAXOPBLOCKS && k < Ceiling(sys)
    requires k < Homes(sys) && Fits(sys.lay, sys.init)
    ensures Filled(sys, w, s, k + 1, Lone())
  {
    assert |Lone()| == 1;
    s := PutBeside(sys, w, a, k, Lone(), 1);
  }

  /** A whole operation of p with one write. */
  lemma PutBeside(sys: Sys, w: Block, a: State, k: nat, ops: Ops, p: Proc) returns (s: State)
    requires Filled(sys, w, a, k, ops) && sys.limit >= 1 && Admits(k, |ops|) && k < Ceiling(sys) && p < sys.procs
    requires k < Homes(sys) && Fits(sys.lay, sys.init) && p != 0 && 0 in ops && p !in ops
    ensures Filled(sys, w, s, k + 1, ops)
  {
    var b := Admit(sys, w, a, k, ops, p);
    var o := ops[p := []];
    var o1 := o[p := o[p] + [HomeBlock(sys.lay, k)]];
    var c := Put(sys, w, b, k, o, p, o1);
    s := Finish(sys, w, c, k + 1, o1, p);
    assert o1 - {p} == ops;
  }

  /** An operation alone logs the first k blocks. */
  lemma {:induction false} FillLone(sys: Sys, w: Block, k: nat) returns (s: State, ops: Ops)
    requires sys.procs >= 1 && k <= sys.limit && k <= Ceiling(sys) && k <= Homes(sys) && Fits(sys.lay, sys.init)
    ensures Filled(sys, w, s, k, ops) && ops.Keys == {0} && |ops[0]| == k
  {
    if k == 0 {
      s := Start(sys, w);
      ops := Lone();
    } else {
      var a, o := FillLone(sys, w, k - 1);
      ops := o[0 := o[0] + [HomeBlock(sys.lay, k - 1)]];
      s := Put(sys, w, a, k - 1, o, 0, ops);
    }
  }

  /** Operations 0 and 1 have logged n blocks, at most c each. */
  predicate Split(ops: Ops, n: nat, c: nat) {
    ops.Keys == {0, 1} && |ops[0]| + |ops[1]| == n && |ops[0]| <= c && |ops[1]| <= c
  }

  lemma AdmitSecond(sys: Sys, w: Block, a: State, k: nat) returns (s: State)
    requires Filled(sys, w, a, k, Lone()) && k <= MAXOPBLOCKS && sys.procs >= 2
    ensures Filled(sys, w, s, k, Two())
  {
    assert |Lone()| == 1 && Lone()[1 := []] == Two();
    s := Admit(sys, w, a, k, Lone(), 1);
  }

  /** From ten blocks on, operations 0 and 1 spend their allowances. */
  lemma {:induction false} FillHigh(sys: Sys, w: Block, k: nat, c: nat) returns (s: State, ops: Ops)
    requires sys.procs >= 2 && sys.limit >= 1 && c <= sys.limit && MAXOPBLOCKS <= k <= MAXOPBLOCKS + 2 * c
    requires k <= Ceiling(sys) && k <= Homes(sys) && Fits(sys.lay, sys.init)
    ensures Filled(sys, w, s, k, ops) && Split(ops, k - MAXOPBLOCKS, c)
  {
    if k == MAXOPBLOCKS {
      var a := FillLow(sys, w, k);
      s := AdmitSecond(sys, w, a, k);
      ops := Two();
    } else {
      var a, o := FillHigh(sys, w, k - 1, c);
      var p := if |o[0]| < c then 0 else 1;
      ops := o[p := o[p] + [HomeBlock(sys.lay, k - 1)]];
      s := Put(sys, w, a, k - 1, o, p, ops);
    }
  }

  // ---- The panic ----

  /** A log that is full up to the test's limit: the test comes before the search for a
      block that is logged already, so even such a block panics. */
  lemma FullPanics(sys: Sys, w: Block, s: State, k: nat, ops: Ops, p: Proc) returns (z: State)
    requires Filled(sys, w, s, k, ops) && k == Ceiling(sys) <= Homes(sys) && p in ops && sys.limit >= 1
    requires SysOk(sys)
    ensures Reachable(sys, z) && z.mode == Panicked(TooBig)
  {
    var bn := HomeBlock(sys.lay, 0);
    if k > 0 { HomeListAt(sys.lay, k, 0); }
    if ops[p] != [] {
      bn := ops[p][0];
      HomeListHome(sys.lay, sys.init, k, bn);
    }
    var y := Get(sys, s, s.mode.mem, p, bn);
    z := Apply(sys, y, Test(p, bn, w));
    ReachNext(sys, y, Test(p, bn, w), z);
  }

  lemma {:induction false} HomeListHome(lay: Layout, d: Image, k: nat, b: nat)
    requires b in HomeList(lay, k) && k + lay.size <= |d| && Fits(lay, d)
    ensures IsHome(lay, d, b)
  {
    if b != HomeBlock(lay, k - 1) { HomeListHome(lay, d, k - 1, b); }
  }

  lemma CanPanic(sys: Sys) returns (z: State)
    requires SysOk(sys) && !Tame(sys)
    ensures Reachable(sys, z) && z.mode == Panicked(TooBig)
  {
    var k := Ceiling(sys);
    if sys.procs == 1 {
      var s, ops := FillLone(sys, ZeroBlock, k);
      z := FullPanics(sys, ZeroBlock, s, k, ops, 0);
    } else if k <= MAXOPBLOCKS {
      var s := FillLow(sys, ZeroBlock, k);
      z := FullPanics(sys, ZeroBlock, s, k, Lone(), 0);
    } else {
      var s, ops := FillHigh(sys, ZeroBlock, k, sys.limit);
      z := FullPanics(sys, ZeroBlock, s, k, ops, 0);
    }
  }

  /** Nothing may be logged, or there are too few blocks to fill the log, or what one
      operation may log, alone, or two on top of MAXOPBLOCKS blocks, stays below both limits
      of the test. */
  predicate Tame(sys: Sys) {
    sys.procs == 0 || sys.limit == 0 || Homes(sys) < Ceiling(sys) ||
    (if sys.procs == 1 then sys.limit else MAXOPBLOCKS + 2 * sys.limit) < Ceiling(sys)
  }

  /** Log admission: "too big a transaction" is unreachable exactly for tame systems. */
  lemma TooBigUnreachable(sys: Sys)
    requires SysOk(sys)
    ensures (forall s :: Reachable(sys, s) ==> s.mode != Panicked(TooBig)) <==> Tame(sys)
  {
    if Tame(sys) {
      forall s | Reachable(sys, s)
        ensures s.mode != Panicked(TooBig)
      {
        var ts :| Exec(sys, Init(sys), ts, s);
        InitInv(sys);
        FreshBudget(sys);
        NoPanicExec(sys, Init(sys), ts, s);
      }
    } else {
      var z := CanPanic(sys);
      assert Reachable(sys, z);
    }
  }

  lemma {:induction false} NoPanicExec(sys: Sys, s: State, ts: seq<Step>, z: State)
    requires Tame(sys) && Inv(sys, s) && BudgetInv(sys, s) && s.mode != Panicked(TooBig) && Exec(sys, s, ts, z)
    ensures z.mode != Panicked(TooBig)
    decreases |ts|
  {
    if ts != [] {
      var y := Apply(sys, s, ts[0]);
      StepInv(sys, s, ts[0], y);
      BudgetStep(sys, s, ts[0], y);
      if s.mode.Up? { InvListed(sys, s, s.mode.mem); }
      NoPanicStep(sys, s, ts[0], y);
      NoPanicExec(sys, y, ts[1..], z);
    }
  }

  lemma InvListed(sys: Sys, s: State, m: Mem)
    requires Inv(sys, s) && s.mode == Up(m)
    ensures |m.lh| <= Homes(sys)
  {
    ListedCount(sys, s.disk, m.lh);
  }

  lemma NoPanicStep(sys: Sys, s: State, t: Step, z: State)
    requires Tame(sys) && BudgetInv(sys, s) && Enabled(sys, s, t) && z == Apply(sys, s, t)
    requires s.mode != Panicked(TooBig) && (s.mode.Up? ==> |s.mode.mem.lh| <= Homes(sys))
    ensures z.mode != Panicked(TooBig)
  {
    if z.mode == Panicked(TooBig) {
      PanicAt(sys, s, t, z);
      TestTame(sys, s.mode.mem, t.p, t.bn);
    }
  }

  lemma PanicAt(sys: Sys, s: State, t: Step, z: State)
    requires Enabled(sys, s, t) && z == Apply(sys, s, t) && z.mode == Panicked(TooBig) && s.mode != z.mode
    ensures t.Test? && !Passes(sys, |s.mode.mem.lh|)
  {
  }

  /** A call that an operation's allowance covers finds the list short enough. */
  lemma TestTame(sys: Sys, m: Mem, p: Proc, bn: nat)
    requires Tame(sys) && Budget(sys, m) && Allowed(sys, m.ops, p, bn) && |m.lh| <= Homes(sys)
    ensures Passes(sys, |m.lh|)
  {
    assert OpBudget(sys, m, p);
    forall q | q in m.ops
      ensures |m.ops[q]| <= sys.limit
    {
      assert OpBudget(sys, m, q);
    }
    UnusedBounds(m.ops, sys.limit);
  }

  // ---- The stray copy ----

  /** Two calls in flight at once take the list past the test's limit. */
  lemma Overtake(sys: Sys, w: Block, s: State, k: nat, ops: Ops) returns (z: State, ops1: Ops)
    requires Filled(sys, w, s, k, ops) && k < Ceiling(sys) && k + 1 < LOGSIZE && k + 1 < Homes(sys)
    requires Fits(sys.lay, sys.init) && ops.Keys == {0, 1} && |ops[0]| < sys.limit && |ops[1]| < sys.limit
    ensures Filled(sys, w, z, k + 2, ops1) && ops1.Keys == {0, 1}
  {
    var m := Quiet(sys, w, k, ops);
    var b0, b1 := HomeBlock(sys.lay, k), HomeBlock(sys.lay, k + 1);
    HomeListNew(sys.lay, k, k);
    HomeListNew(sys.lay, k, k + 1);
    z := BothRecord(sys, s, m, b0, b1, w);
    var o := ops[0 := ops[0] + [b0]];
    ops1 := o[1 := o[1] + [b1]];
    AmongFirstNext(sys.lay, k, ops, 0, o);
    QuietNext(sys, w, k, ops, 0);
    QuietNext(sys, w, k + 1, o, 1);
    AmongFirstNext(sys.lay, k + 1, o, 1, ops1);
  }

  lemma QuietNext(sys: Sys, w: Block, k: nat, ops: Ops, p: Proc)
    requires p in ops && HomeBlock(sys.lay, k) < |sys.init| && AmongFirst(sys.lay, k, ops)
    ensures Put1(Quiet(sys, w, k, ops), p, HomeBlock(sys.lay, k), w) ==
            Quiet(sys, w, k + 1, ops[p := ops[p] + [HomeBlock(sys.lay, k)]])
  {
    HomeListNew(sys.lay, k, k);
    KeysSame(ops, p, ops[p] + [HomeBlock(sys.lay, k)]);
  }

  /** Both calls append, 0 first. */
  lemma BothRecord(sys: Sys, s: State, m: Mem, b0: nat, b1: nat, w: Block) returns (z: State)
    requires Reachable(sys, s) && s.mode == Up(m) && m.flight == map[] && m.held == map[] && !m.commit.Writing?
    requires 0 in m.ops && 1 in m.ops && |m.ops[0]| < sys.limit && |m.ops[1]| < sys.limit
    requires Running(m, 0) && Running(m, 1) && Passes(sys, |m.lh|) && |m.lh| + 1 < LOGSIZE && m.outstanding >= 1
    requires IsHome(sys.lay, s.disk, b0) && IsHome(sys.lay, s.disk, b1) && b0 != b1 && |m.cache| == |s.disk|
    requires b0 !in m.lh && b1 !in m.lh
    ensures Reachable(sys, z)
    ensures z == s.(mode := Up(Put1(Put1(m, 0, b0, w), 1, b1, w)),
                    history := Then(Then(s.history, Wrote(0, b0, w)), Wrote(1, b1, w)))
  {
    var y := BothPass(sys, s, m, b0, b1, w);
    var m1 := Both(m, b0, b1, w);
    var m2 := m.(held := m.held[b1 := 1], flight := m.flight[1 := Pending(b1, w)]);
    Dropped(m1.flight, 0, m2.flight, Pending(b0, w));
    Dropped(m1.held, b0, m2.held, 0);
    var x := Record(sys, y, m1, 0, b0, w, m2.flight, m2.held);
    var m3 := Put1(m2, 0, b0, w);
    Put1Same(m2, m1, 0, b0, w);
    Dropped(m3.flight, 1, m.flight, Pending(b1, w));
    Dropped(m3.held, b1, m.held, 1);
    z := Record(sys, x, m3, 1, b1, w, m.flight, m.held);
    Put1Same(Put1(m, 0, b0, w), m3, 1, b1, w);
  }

  /** 0 and 1 in flight with blocks b0 and b1. */
  function Both(m: Mem, b0: nat, b1: nat, w: Block): Mem {
    m.(held := m.held[b1 := 1][b0 := 0], flight := m.flight[1 := Pending(b1, w)][0 := Pending(b0, w)])
  }

  /** Processes 0 and 1 both hold a block and pass the test on the same list. */
  lemma BothPass(sys: Sys, s: State, m: Mem, b0: nat, b1: nat, w: Block) returns (z: State)
    requires Reachable(sys, s) && s.mode == Up(m) && m.flight == map[] && m.held == map[] && !m.commit.Writing?
    requires 0 in m.ops && 1 in m.ops && |m.ops[0]| < sys.limit && |m.ops[1]| < sys.limit
    requires Running(m, 0) && Running(m, 1) && Passes(sys, |m.lh|) && |m.lh| + 1 < NBUF && m.outstanding >= 1
    requires IsHome(sys.lay, s.disk, b0) && IsHome(sys.lay, s.disk, b1) && b0 != b1
    ensures Reachable(sys, z) && z == s.(mode := Up(Both(m, b0, b1, w)))
  {
    var m1 := m.(held := m.held[b1 := 1]);
    var m2 := m1.(held := m1.held[b0 := 0]);
    var m3 := m2.(flight := m2.flight[1 := Pending(b1, w)]);
    var s1 := Get(sys, s, m, 1, b1);
    var s2 := Get(sys, s1, m1, 0, b0);
    var s3 := Pass(sys, s2, m2, 1, b1, w);
    z := Pass(sys, s3, m3, 0, b0, w);
  }

  /** commit of the first k home blocks, before its block write pc. */
  function CopyingMem(sys: Sys, w: Block, k: nat, pc: nat): Mem {
    Quiet(sys, w, k, map[]).(committing := true, commit := Writing(pc, sys.init))
  }

  ghost predicate Copying(sys: Sys, w: Block, s: State, k: nat, pc: nat) {
    Reachable(sys, s) && s.mode == Up(CopyingMem(sys, w, k, pc)) && s.durable == Empty && |s.disk| == |sys.init| &&
    s.history.Then? && s.history.last == Ended(0) && Led(s.history.past)
  }

  /** Both operations end and the group commits. */
  lemma EndBoth(sys: Sys, w: Block, s: State, k: nat, ops: Ops) returns (z: State)
    requires Filled(sys, w, s, k, ops) && 0 < k && ops.Keys == {0, 1}
    ensures Copying(sys, w, z, k, 0)
  {
    var y := Finish(sys, w, s, k, ops, 1);
    z := Apply(sys, y, End(0));
    ReachNext(sys, y, End(0), z);
    var o := ops - {1};
    assert o.Keys == {0};
    assert |o| == |o.Keys| == 1;
    assert o - {0} == map[];
  }

  lemma {:induction false} CopyOn(sys: Sys, w: Block, s: State, k: nat, pc: nat) returns (z: State)
    requires SysOk(sys) && Copying(sys, w, s, k, pc) && pc < sys.lay.size <= k < NBUF
    ensures Copying(sys, w, z, k, sys.lay.size - 1)
    decreases sys.lay.size - pc
  {
    if pc == sys.lay.size - 1 {
      z := s;
    } else {
      var y := CopyOne(sys, w, s, k, pc);
      z := CopyOn(sys, w, y, k, pc + 1);
    }
  }

  lemma CopyOne(sys: Sys, w: Block, s: State, k: nat, pc: nat) returns (y: State)
    requires SysOk(sys) && Copying(sys, w, s, k, pc) && pc < sys.lay.size - 1 && sys.lay.size <= k < NBUF
    ensures Copying(sys, w, y, k, pc + 1)
  {
    y := CopyNext(sys, s, CopyingMem(sys, w, k, pc), pc);
  }

  /** A copy of write_log, in or just past the log region. */
  lemma CopyNext(sys: Sys, s: State, m: Mem, pc: nat) returns (z: State)
    requires SysOk(sys) && Reachable(sys, s) && s.mode == Up(m) && m.held == map[] && |s.disk| == |sys.init|
    requires m.commit.Writing? && m.commit.pc == pc < sys.lay.size <= |m.lh| < NBUF
    ensures Reachable(sys, z) && m.lh[pc] < |m.cache| && z == ApplyOverfull(sys, s, m, pc)
  {
    ReachableInv(sys, s);
    TakenBound(m);
    z := Apply(sys, s, CommitWrite);
    ReachNext(sys, s, CommitWrite, z);
  }

  /** A prefix of a group that 0 leads is empty or has 0 open. */
  lemma {:induction false} LedPrefix(g: History, h: History)
    requires Led(h) && Prefix(g, h)
    ensures g == Empty || 0 in Open(g)
  {
    if h == Then(Empty, Began(0)) {
      assert Prefix(g, Empty) ==> g == Empty;
    } else if g == h {
      LedPrefix(h.past, h.past);
      assert h.past != Empty;
    } else {
      LedPrefix(g, h.past);
    }
  }

  /** A block different from both. */
  function Third(a: Block, b: Block): (w: Block)
    ensures w != a && w != b
  {
    var c, d, e := ZeroBlock, ZeroBlock[0 := 1], ZeroBlock[0 := 2];
    assert c[0] == 0 && d[0] == 1 && e[0] == 2;
    if c != a && c != b then c else if d != a && d != b then d else e
  }

  /** Two calls in flight, then a commit of one block more than the log region takes, up to
      its last copy. */
  lemma CanOverfill(sys: Sys, w: Block) returns (s: State)
    requires SysOk(sys) && !Contained(sys)
    ensures Copying(sys, w, s, sys.lay.size, sys.lay.size - 1)
  {
    var k, n := sys.lay.size - 2, sys.lay.size;
    var a, ops := TwoOpen(sys, w, k);
    var b, ops1 := Overtake(sys, w, a, k, ops);
    var c := EndBoth(sys, w, b, n, ops1);
    s := CopyOn(sys, w, c, n, 0);
  }

  /** That copy lands on the first home block after the log region, before the header is
      written. */
  lemma CanStray(sys: Sys, w: Block) returns (s: State, z: State)
    requires SysOk(sys) && !Contained(sys)
    ensures Copying(sys, w, s, sys.lay.size, sys.lay.size - 1) && Reachable(sys, z)
    ensures z.history == s.history && z.disk == s.disk[sys.lay.start + sys.lay.size := w]
  {
    s := CanOverfill(sys, w);
    var n := sys.lay.size;
    z := CopyNext(sys, s, CopyingMem(sys, w, n, n - 1), n - 1);
    HomeListAt(sys.lay, n, n - 1);
    MarkedAt(sys.lay, sys.init, n, w, n - 1);
  }

  /** k blocks logged with both operations open and room left in each allowance. */
  lemma TwoOpen(sys: Sys, w: Block, k: nat) returns (s: State, ops: Ops)
    requires SysOk(sys) && sys.procs >= 2 && sys.limit >= 1 && k < Ceiling(sys) && k <= Homes(sys)
    requires k <= MAXOPBLOCKS + 2 * (sys.limit - 1)
    ensures Filled(sys, w, s, k, ops) && ops.Keys == {0, 1} && |ops[0]| < sys.limit && |ops[1]| < sys.limit
  {
    if k <= MAXOPBLOCKS {
      var a := FillLow(sys, w, k);
      s := AdmitSecond(sys, w, a, k);
      ops := Two();
    } else {
      s, ops := FillHigh(sys, w, k, sys.limit - 1);
    }
  }

  /** A recovery from there shows neither the old home blocks nor the new. */
  lemma StrayBreaks(sys: Sys, w: Block, s: State, z: State, x: nat)
    requires SysOk(sys) && HeadOk(sys.lay, z.disk) && CopyingShows(sys, w, s)
    requires z.history.Then? && Led(z.history.past) && z.history == s.history
    requires z.disk == s.disk[sys.lay.start + sys.lay.size := w]
    requires w != sys.init[sys.lay.start + sys.lay.size]
    requires IsHome(sys.lay, sys.init, x) && x != sys.lay.start + sys.lay.size
    requires Marked(sys.lay, sys.init, sys.lay.size, w)[x] == w != sys.init[x]
    ensures !AllOrNothing(sys, z)
  {
    var a := sys.lay.start + sys.lay.size;
    var r := Recovered(sys.lay, z.disk);
    StrayShows(sys, s, z, a, w, x);
    forall g | Prefix(g, z.history) && Open(g) == {}
      ensures !SameHome(sys.lay, r, Replay(sys.init, g))
    {
      if g == z.history {
        SameHomeAt(sys.lay, Replay(sys.init, z.history), Marked(sys.lay, sys.init, sys.lay.size, w));
      } else {
        LedPrefix(g, z.history.past);
      }
      SameHomeAt(sys.lay, r, Replay(sys.init, g));
    }
  }

  /** Before the stray copy the disk holds the old home blocks, memory the new. */
  ghost predicate CopyingShows(sys: Sys, w: Block, s: State) {
    HeadOk(sys.lay, s.disk) && HeadN(sys.lay, s.disk) == 0 && SameHome(sys.lay, s.disk, sys.init) &&
    SameHome(sys.lay, Marked(sys.lay, sys.init, sys.lay.size, w), Replay(sys.init, s.history))
  }

  lemma CopyingInv(sys: Sys, w: Block, s: State)
    requires Inv(sys, s) && Copying(sys, w, s, sys.lay.size, sys.lay.size - 1)
    ensures CopyingShows(sys, w, s)
  {
  }

  lemma StrayShows(sys: Sys, s: State, z: State, a: nat, w: Block, x: nat)
    requires SysOk(sys) && HeadOk(sys.lay, s.disk) && HeadN(sys.lay, s.disk) == 0 && SameHome(sys.lay, s.disk, sys.init)
    requires a == sys.lay.start + sys.lay.size && z.disk == s.disk[a := w] && HeadOk(sys.lay, z.disk)
    requires IsHome(sys.lay, sys.init, x) && x != a
    ensures var r := Recovered(sys.lay, z.disk); |r| == |sys.init| && r[a] == w && r[x] == sys.init[x]
  {
    RecoverIdle(sys.lay, z.disk);
    SameHomeAt(sys.lay, Recovered(sys.lay, z.disk), z.disk);
    SameHomeAt(sys.lay, s.disk, sys.init);
  }

  /** Crash atomicity of the whole protocol holds in every reachable state if and only if
      the list of a commit cannot outgrow the log region before the cache fills up. */
  lemma GroupCommitExactly(sys: Sys)
    requires SysOk(sys)
    ensures (forall s :: Reachable(sys, s) ==> AllOrNothing(sys, s)) <==> Contained(sys)
  {
    if Contained(sys) {
      forall s | Reachable(sys, s)
        ensures AllOrNothing(sys, s)
      {
        ReachableBudget(sys, s);
        GroupCommit(sys, s);
      }
    } else {
      var z := StrayRun(sys);
      assert Reachable(sys, z);
    }
  }

  lemma StrayRun(sys: Sys) returns (z: State)
    requires SysOk(sys) && !Contained(sys)
    ensures Reachable(sys, z) && !AllOrNothing(sys, z)
  {
    var j := if sys.lay.start == 0 then 1 else 0;
    var x := HomeBlock(sys.lay, j);
    var w := Third(sys.init[sys.lay.start + sys.lay.size], sys.init[x]);
    var s;
    s, z := CanStray(sys, w);
    ReachableInv(sys, s);
    GroupCommit(sys, z);
    CopyingInv(sys, w, s);
    MarkedAt(sys.lay, sys.init, sys.lay.size, w, j);
    StrayBreaks(sys, w, s, z, x);
  }

  /** mkfs's log: atomic whatever operations log. It is free of the panic exactly when they
      log fewer than MAXOPBLOCKS blocks each, or fewer than LOGSIZE - 1 if there is only
      one process. */
  lemma MkfsLog(sys: Sys)
    requires SysOk(sys) && sys.lay.size == LOGSIZE && Homes(sys) >= LOGSIZE && sys.procs >= 1
    ensures forall s :: Reachable(sys, s) ==> AllOrNothing(sys, s)
    ensures (forall s :: Reachable(sys, s) ==> s.mode != Panicked(TooBig)) <==>
            sys.limit < if sys.procs == 1 then LOGSIZE - 1 else MAXOPBLOCKS
  {
    GroupCommitExactly(sys);
    TooBigUnreachable(sys);
  }
}

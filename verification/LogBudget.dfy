/** What begin_op's admission rule, log_write's unlocked test and the size of the buffer
    cache guarantee about the length of the in-memory log list (log.c, bio.c). */
module LogBudget {
  import opened Blocks
  import opened Lists
  import opened LogSpec
  import opened LogProtocol

  /** The blocks the outstanding operations may still add to the log. */
  ghost function Unused(ops: Ops, limit: nat): int
    decreases |ops|
  {
    if ops == map[] then 0 else
    var p :| p in ops;
    Smaller(ops, p);
    limit - |ops[p]| + Unused(ops - {p}, limit)
  }

  lemma Smaller<V>(ops: map<Proc, V>, p: Proc)
    requires p in ops
    ensures |ops - {p}| == |ops| - 1
  {
    assert (ops - {p}).Keys == ops.Keys - {p};
    assert |ops| == |ops.Keys| && |ops - {p}| == |(ops - {p}).Keys|;
  }

  /** Unused can be summed in any order. */
  lemma {:induction false} UnusedRemove(ops: Ops, limit: nat, p: Proc)
    requires p in ops
    ensures Unused(ops, limit) == limit - |ops[p]| + Unused(ops - {p}, limit)
    decreases |ops|
  {
    var q :| q in ops && Unused(ops, limit) == limit - |ops[q]| + Unused(ops - {q}, limit);
    if p != q {
      Smaller(ops, q);
      Smaller(ops, p);
      UnusedRemove(ops - {q}, limit, p);
      UnusedRemove(ops - {p}, limit, q);
      assert ops - {q} - {p} == ops - {p} - {q};
    }
  }

  lemma {:induction false} UnusedBounds(ops: Ops, limit: nat)
    requires forall p :: p in ops ==> |ops[p]| <= limit
    ensures 0 <= Unused(ops, limit)
    ensures |ops| <= 1 ==> Unused(ops, limit) <= limit
    ensures |ops| <= 2 ==> Unused(ops, limit) <= 2 * limit
    decreases |ops|
  {
    if ops != map[] {
      var p :| p in ops;
      UnusedRemove(ops, limit, p);
      Smaller(ops, p);
      UnusedBounds(ops - {p}, limit);
    }
  }

  // ---- The budget ----

  /** No call can pass the test. */
  predicate Barred(sys: Sys) {
    sys.procs == 0 || sys.limit == 0 || sys.lay.size <= 1
  }

  /** Every operation keeps to its allowance, and what it has logged is in the list. */
  ghost predicate OpBudget(sys: Sys, m: Mem, p: Proc)
    requires p in m.ops
  {
    p < sys.procs && |m.ops[p]| <= sys.limit && (forall b :: b in m.ops[p] ==> b in m.lh) &&
    (p in m.flight ==> Allowed(sys, m.ops, p, m.flight[p].bn))
  }

  /** Every logged or held block has a buffer of its own; every operation keeps to its
      allowance; and lh.n plus what is left of the allowances is bounded. */
  ghost predicate Budget(sys: Sys, m: Mem) {
    |Taken(m)| <= NBUF && (forall p :: p in m.ops ==> OpBudget(sys, m, p)) &&
    (forall p :: p in m.wanting || p in m.asleep ==> p < sys.procs) &&
    (Barred(sys) ==> m.lh == [] && m.flight == map[]) && Within(sys, m.lh, m.ops) &&
    (sys.procs == 1 ==> OneAtATime(sys, m))
  }

  ghost predicate Within(sys: Sys, lh: seq<nat>, ops: Ops) {
    (sys.limit <= MAXOPBLOCKS ==> |lh| + Unused(ops, sys.limit) <= MAXOPBLOCKS + 2 * sys.limit) &&
    (sys.procs == 1 ==> |lh| + Unused(ops, sys.limit) <= sys.limit)
  }

  /** A process alone appends before it tests again. */
  ghost predicate OneAtATime(sys: Sys, m: Mem) {
    |m.lh| + |m.flight| <= sys.lay.size - 1 || (m.lh == [] && m.flight == map[])
  }

  ghost predicate BudgetInv(sys: Sys, s: State) {
    s.mode != Strayed(PastArray) && (s.mode.Up? ==> Budget(sys, s.mode.mem))
  }

  /** What the budget needs to know of the protocol invariant. */
  ghost predicate Books(m: Mem) {
    m.outstanding == |m.ops| && m.wanting !! m.ops.Keys && Distinct(m.lh) &&
    (forall p :: p in m.flight ==> p in m.ops && m.flight[p].bn in m.held) &&
    (m.ops != map[] ==> m.commit.NotCommitting?) && (m.committing <==> !m.commit.NotCommitting?) &&
    (m.commit.NotCommitting? && m.ops == map[] ==> m.lh == []) && (m.commit.Finished? ==> m.lh == [])
  }

  lemma InvBooks(sys: Sys, s: State, m: Mem)
    requires Inv(sys, s) && s.mode == Up(m)
    ensures Books(m)
  {
  }

  lemma BudgetStep(sys: Sys, s: State, t: Step, z: State)
    requires Inv(sys, s) && BudgetInv(sys, s) && Enabled(sys, s, t) && z == Apply(sys, s, t)
    ensures BudgetInv(sys, z)
  {
    if s.mode.Up? && !t.Crash? {
      InvBooks(sys, s, s.mode.mem);
      BudgetUp(sys, s, s.mode.mem, t, z);
    }
  }

  lemma BudgetUp(sys: Sys, s: State, m: Mem, t: Step, z: State)
    requires s.mode == Up(m) && Books(m) && Budget(sys, m) && !t.Crash?
    requires Enabled(sys, s, t) && z == Apply(sys, s, t)
    ensures BudgetInv(sys, z)
  {
    if t.Bread? || t.Brelse? || t.Test? || t.Append? {
      BudgetBuffers(sys, s, m, t, z);
    } else {
      match t
      case Call(_) => BudgetSame(sys, m, z.mode.mem);
      case CommitDone => BudgetSame(sys, m, z.mode.mem);
      case Begin(p) => BudgetBegin(sys, s, m, p, z);
      case End(p) => BudgetEnd(sys, s, m, p, z);
      case CommitWrite => BudgetCommit(sys, s, m, z);
    }
  }

  lemma BudgetBuffers(sys: Sys, s: State, m: Mem, t: Step, z: State)
    requires s.mode == Up(m) && Books(m) && Budget(sys, m) && (t.Bread? || t.Brelse? || t.Test? || t.Append?)
    requires Enabled(sys, s, t) && z == Apply(sys, s, t)
    ensures BudgetInv(sys, z)
  {
    match t
    case Test(p, bn, data) => BudgetTest(sys, s, m, p, bn, data, z);
    case Bread(p, bn) => BudgetBread(sys, s, m, p, bn, z);
    case Brelse(p, bn) => BudgetBrelse(sys, m, bn, z.mode.mem);
    case Append(p) => BudgetAppend(sys, s, m, p, z);
  }

  lemma BudgetSame(sys: Sys, m: Mem, m1: Mem)
    requires Budget(sys, m) && m1.ops == m.ops && m1.flight == m.flight && m1.lh == m.lh && m1.held == m.held
    requires m1.commit == m.commit || (m.lh == [] && !m1.commit.Writing?)
    requires forall p :: p in m1.wanting || p in m1.asleep ==> p < sys.procs
    ensures Budget(sys, m1)
  {
    assert Taken(m1) == Taken(m);
    forall p | p in m1.ops
      ensures OpBudget(sys, m1, p)
    {
      assert OpBudget(sys, m, p);
    }
  }

  lemma BudgetTest(sys: Sys, s: State, m: Mem, p: Proc, bn: nat, data: Block, z: State)
    requires Books(m) && Budget(sys, m) && Allowed(sys, m.ops, p, bn) && p !in m.flight
    requires z == ApplyTest(sys, s, m, p, bn, data)
    ensures BudgetInv(sys, z)
  {
    if z.mode.Up? { BudgetPassed(sys, m, p, bn, z.mode.mem); }
  }

  lemma BudgetPassed(sys: Sys, m: Mem, p: Proc, bn: nat, m1: Mem)
    requires Books(m) && Budget(sys, m) && Allowed(sys, m.ops, p, bn) && p !in m.flight && Passes(sys, |m.lh|)
    requires p in m1.flight && m1.flight[p].bn == bn && m1 == m.(flight := m.flight[p := m1.flight[p]])
    ensures Budget(sys, m1)
  {
    TakenSame(m, m1);
    OpsBudget(sys, m);
    forall q | q in m1.ops
      ensures OpBudget(sys, m1, q)
    {
      assert OpBudget(sys, m, q);
    }
    if sys.procs == 1 { AloneInFlight(sys, m, p, m1); }
  }

  lemma OpsBudget(sys: Sys, m: Mem)
    requires Budget(sys, m)
    ensures forall q :: q in m.ops ==> q < sys.procs && |m.ops[q]| <= sys.limit
  {
    forall q | q in m.ops
      ensures q < sys.procs && |m.ops[q]| <= sys.limit
    {
      assert OpBudget(sys, m, q);
    }
  }

  lemma AloneInFlight(sys: Sys, m: Mem, p: Proc, m1: Mem)
    requires Books(m) && (forall q :: q in m.ops ==> q < 1) && p == 0 && p !in m.flight
    requires p in m1.flight && m1.flight == m.flight[p := m1.flight[p]] && m1.lh == m.lh && |m.lh| < sys.lay.size - 1
    ensures OneAtATime(sys, m1)
  {
    assert m.flight == map[] by {
      forall q | q in m.flight
        ensures false
      {
      }
    }
    assert m1.flight.Keys == {p};
    assert |m1.flight| == |m1.flight.Keys|;
  }

  /** Admission with k operations outstanding leaves lh.n <= LOGSIZE - k * MAXOPBLOCKS. */
  lemma BudgetBegin(sys: Sys, s: State, m: Mem, p: Proc, z: State)
    requires Books(m) && Budget(sys, m) && p in m.wanting && z == ApplyBegin(s, m, p)
    ensures z.mode.Up? && Budget(sys, z.mode.mem)
  {
    var m1 := z.mode.mem;
    if m1.ops == m.ops { BudgetSame(sys, m, m1); } else { BudgetBegun(sys, m, p, m1); }
  }

  lemma TakenSame(m: Mem, m1: Mem)
    requires m1.lh == m.lh && m1.held == m.held && m1.commit == m.commit
    ensures Taken(m1) == Taken(m)
  {
  }

  lemma BudgetBegun(sys: Sys, m: Mem, p: Proc, m1: Mem)
    requires Budget(sys, m) && Books(m) && p !in m.ops && p < sys.procs
    requires m1.lh == m.lh && m1.flight == m.flight && m1.held == m.held && m1.commit == m.commit
    requires forall q :: q in m1.wanting || q in m1.asleep ==> q < sys.procs
    requires m1.ops == m.ops[p := []] && Admits(|m.lh|, m.outstanding) && !m.committing
    ensures Budget(sys, m1)
  {
    TakenSame(m, m1);
    OpsBudget(sys, m);
    OpsBegun(sys, m, p, m1);
    AdmitWithin(sys, m.lh, m.ops, p);
    if sys.procs == 1 { assert OneAtATime(sys, m); }
  }

  lemma OpsBegun(sys: Sys, m: Mem, p: Proc, m1: Mem)
    requires (forall q :: q in m.ops ==> OpBudget(sys, m, q)) && p !in m.ops && p !in m.flight && p < sys.procs
    requires m1.lh == m.lh && m1.flight == m.flight && m1.ops == m.ops[p := []]
    ensures forall q :: q in m1.ops ==> OpBudget(sys, m1, q)
  {
    forall q | q in m1.ops
      ensures OpBudget(sys, m1, q)
    {
      if q in m.ops { assert OpBudget(sys, m, q); }
    }
  }

  lemma AdmitWithin(sys: Sys, lh: seq<nat>, ops: Ops, p: Proc)
    requires p !in ops && p < sys.procs && (forall q :: q in ops ==> q < sys.procs && |ops[q]| <= sys.limit)
    requires Admits(|lh|, |ops|) && (ops == map[] ==> lh == [])
    ensures Within(sys, lh, ops[p := []])
  {
    if sys.limit <= MAXOPBLOCKS { BudgetAdmit(sys.limit, ops, |lh|, p); }
    if sys.procs == 1 { AdmitAlone(sys.limit, ops, p); }
  }

  lemma BudgetAdmit(limit: nat, ops: Ops, n: nat, p: Proc)
    requires limit <= MAXOPBLOCKS && p !in ops && forall q :: q in ops ==> |ops[q]| <= limit
    requires Admits(n, |ops|) && (ops == map[] ==> n == 0)
    ensures n + Unused(ops[p := []], limit) <= MAXOPBLOCKS + 2 * limit
  {
    assert ops[p := []] - {p} == ops;
    UnusedRemove(ops[p := []], limit, p);
    UnusedBounds(ops, limit);
    if |ops| == 0 { assert ops == map[]; }
  }

  lemma AdmitAlone(limit: nat, ops: Ops, p: Proc)
    requires p == 0 && p !in ops && forall q :: q in ops ==> q < 1
    ensures ops == map[] && Unused(ops[p := []], limit) == limit
  {
    assert ops == map[] by {
      forall q | q in ops
        ensures false
      {
      }
    }
    assert ops[p := []] - {p} == map[];
    UnusedRemove(ops[p := []], limit, p);
  }

  lemma BudgetBread(sys: Sys, s: State, m: Mem, p: Proc, bn: nat, z: State)
    requires Budget(sys, m) && z == ApplyBread(s, m, p, bn)
    ensures z.mode.Up? ==> Budget(sys, z.mode.mem)
    ensures !z.mode.Strayed?
  {
    if z.mode.Up? {
      TakenMore(m, bn, p, z.mode.mem);
      BudgetHeld(sys, m, z.mode.mem);
    }
  }

  lemma TakenMore(m: Mem, bn: nat, p: Proc, m1: Mem)
    requires m1.lh == m.lh && m1.commit == m.commit && m1.held == m.held[bn := p]
    requires |Taken(m)| <= NBUF && (bn in Pinned(m) || |Taken(m)| < NBUF)
    ensures |Taken(m1)| <= NBUF
  {
    PinnedSame(m, m1);
    HeldMore(m, bn, p, m1, Pinned(m));
  }

  lemma PinnedSame(m: Mem, m1: Mem)
    requires m1.lh == m.lh && m1.commit == m.commit
    ensures Pinned(m1) == Pinned(m)
  {
  }

  lemma HeldMore(m: Mem, bn: nat, p: Proc, m1: Mem, pins: set<nat>)
    requires m1.held == m.held[bn := p] && |pins + m.held.Keys| <= NBUF
    requires bn in pins || |pins + m.held.Keys| < NBUF
    ensures |pins + m1.held.Keys| <= NBUF
  {
    KeysMore(m.held, bn, p);
    OneMore(pins, m.held.Keys, bn);
  }

  lemma KeysMore(held: map<nat, Proc>, bn: nat, p: Proc)
    ensures held[bn := p].Keys == held.Keys + {bn}
  {
  }

  lemma OneMore(pins: set<nat>, keys: set<nat>, bn: nat)
    requires |pins + keys| <= NBUF && (bn in pins || |pins + keys| < NBUF)
    ensures |pins + (keys + {bn})| <= NBUF
  {
    assert pins + (keys + {bn}) == pins + keys + {bn};
  }

  lemma BudgetHeld(sys: Sys, m: Mem, m1: Mem)
    requires Budget(sys, m) && m1 == m.(held := m1.held) && |Taken(m1)| <= NBUF
    ensures Budget(sys, m1)
  {
    forall p | p in m1.ops
      ensures OpBudget(sys, m1, p)
    {
      assert OpBudget(sys, m, p);
    }
  }

  lemma BudgetBrelse(sys: Sys, m: Mem, bn: nat, m1: Mem)
    requires Budget(sys, m) && m1 == m.(held := m.held - {bn})
    ensures Budget(sys, m1)
  {
    assert m1.held.Keys == m.held.Keys - {bn};
    Fewer(Taken(m1), Taken(m));
    BudgetHeld(sys, m, m1);
  }

  /** An append of a new block spends a unit of its operation's allowance. Its block has a
      buffer of its own, so lh.block has room for it. */
  lemma BudgetAppend(sys: Sys, s: State, m: Mem, p: Proc, z: State)
    requires Books(m) && Budget(sys, m) && p in m.flight && m.flight[p].bn < |m.cache| && z == ApplyAppend(s, m, p)
    ensures z.mode.Up? && Budget(sys, z.mode.mem)
  {
    ListRoom(m, m.flight[p].bn);
    AppendTaken(m, m.flight[p].bn, z.mode.mem);
    BudgetAppended(sys, m, p, m.flight[p].bn, z.mode.mem);
  }

  lemma BudgetAppended(sys: Sys, m: Mem, p: Proc, bn: nat, m1: Mem)
    requires Books(m) && Budget(sys, m) && p in m.flight && m.flight[p].bn == bn
    requires m1.lh == Absorb(m.lh, bn) && m1.ops == m.ops[p := Absorb(m.ops[p], bn)] && m1.flight == m.flight - {p}
    requires m1.wanting == m.wanting && m1.asleep == m.asleep && |Taken(m1)| <= NBUF
    ensures Budget(sys, m1)
  {
    assert OpBudget(sys, m, p);
    forall q | q in m1.ops
      ensures OpBudget(sys, m1, q)
    {
      OpAppended(sys, m, p, bn, m1, q);
    }
    SpendWithin(sys, m.ops, p, bn, m.lh, m1.ops, m1.lh);
    FlightSpent(sys, m, p, m1);
  }

  lemma SpendWithin(sys: Sys, ops: Ops, p: Proc, bn: nat, lh: seq<nat>, ops1: Ops, lh1: seq<nat>)
    requires Within(sys, lh, ops) && Allowed(sys, ops, p, bn) && forall b :: b in ops[p] ==> b in lh
    requires ops1 == ops[p := Absorb(ops[p], bn)] && lh1 == Absorb(lh, bn)
    ensures Within(sys, lh1, ops1)
  {
    UnusedSpend(sys, ops, p, bn, lh);
  }

  lemma FlightSpent(sys: Sys, m: Mem, p: Proc, m1: Mem)
    requires p in m.flight && m1.flight == m.flight - {p} && |m.lh| <= |m1.lh| <= |m.lh| + 1
    requires Barred(sys) ==> m.flight == map[]
    requires sys.procs == 1 ==> OneAtATime(sys, m)
    ensures !Barred(sys) && (sys.procs == 1 ==> OneAtATime(sys, m1))
  {
    Smaller(m.flight, p);
  }

  lemma OpAppended(sys: Sys, m: Mem, p: Proc, bn: nat, m1: Mem, q: Proc)
    requires p in m.ops && q in m.ops && OpBudget(sys, m, q) && p in m.flight && m.flight[p].bn == bn
    requires m1.lh == Absorb(m.lh, bn) && m1.ops == m.ops[p := Absorb(m.ops[p], bn)] && m1.flight == m.flight - {p}
    ensures OpBudget(sys, m1, q)
  {
  }

  lemma ListRoom(m: Mem, bn: nat)
    requires Distinct(m.lh) && |Taken(m)| <= NBUF && bn in m.held && m.commit.NotCommitting?
    ensures bn in m.lh || |m.lh| < LOGSIZE
  {
    if bn !in m.lh {
      ElemsCount(m.lh);
      Fewer(Elems(m.lh) + {bn}, Taken(m));
    }
  }

  lemma AppendTaken(m: Mem, bn: nat, m1: Mem)
    requires bn in m.held && m.commit.NotCommitting?
    requires m1.lh == Absorb(m.lh, bn) && m1.held == m.held && m1.commit == m.commit
    ensures Taken(m1) == Taken(m)
  {
    assert Elems(m1.lh) == Elems(m.lh) + {bn};
  }

  /** A block new to the operation costs a unit; one new to the list is new to it. */
  lemma UnusedSpend(sys: Sys, ops: Ops, p: Proc, bn: nat, lh: seq<nat>)
    requires Allowed(sys, ops, p, bn) && forall b :: b in ops[p] ==> b in lh
    ensures |Absorb(lh, bn)| + Unused(ops[p := Absorb(ops[p], bn)], sys.limit) <= |lh| + Unused(ops, sys.limit)
  {
    var ops1 := ops[p := Absorb(ops[p], bn)];
    assert ops1 - {p} == ops - {p};
    UnusedRemove(ops, sys.limit, p);
    UnusedRemove(ops1, sys.limit, p);
  }

  lemma BudgetEnd(sys: Sys, s: State, m: Mem, p: Proc, z: State)
    requires Books(m) && Budget(sys, m) && p in m.ops && p !in m.flight && z == ApplyEnd(s, m, p)
    ensures BudgetInv(sys, z)
  {
    if z.mode.Up? {
      var m1 := z.mode.mem;
      PinnedEnd(m, m1);
      BudgetEnded(sys, m, p, m1);
    }
  }

  /** A commit that has not started to install has cleaned no buffer. */
  lemma PinnedEnd(m: Mem, m1: Mem)
    requires m1.lh == m.lh && m.commit.NotCommitting? && (m1.commit.Writing? ==> m1.commit.pc == 0)
    ensures Pinned(m1) == Pinned(m)
  {
  }

  lemma BudgetEnded(sys: Sys, m: Mem, p: Proc, m1: Mem)
    requires Budget(sys, m) && p in m.ops && p !in m.flight && m1.ops == m.ops - {p}
    requires m1.flight == m.flight && m1.lh == m.lh && Pinned(m1) == Pinned(m) && m1.held == m.held
    requires forall q :: q in m1.wanting || q in m1.asleep ==> q < sys.procs
    ensures Budget(sys, m1)
  {
    assert OpBudget(sys, m, p);
    OpsEnded(sys, m, p, m1);
    UnusedRemove(m.ops, sys.limit, p);
  }

  lemma OpsEnded(sys: Sys, m: Mem, p: Proc, m1: Mem)
    requires forall q :: q in m.ops ==> OpBudget(sys, m, q)
    requires m1.lh == m.lh && m1.flight == m.flight && m1.ops == m.ops - {p}
    ensures forall q :: q in m1.ops ==> OpBudget(sys, m1, q)
  {
    forall q | q in m1.ops
      ensures OpBudget(sys, m1, q)
    {
      assert OpBudget(sys, m, q);
    }
  }

  lemma BudgetCommit(sys: Sys, s: State, m: Mem, z: State)
    requires Books(m) && Budget(sys, m) && Enabled(sys, s, CommitWrite) && s.mode == Up(m)
    requires z == ApplyCommitStep(sys, s, m)
    ensures BudgetInv(sys, z)
  {
    CommitStepMem(sys, s, m, z);
    if z.mode.Up? { BudgetCopied(sys, m, z.mode.mem); }
  }

  lemma CommitStepMem(sys: Sys, s: State, m: Mem, z: State)
    requires Enabled(sys, s, CommitWrite) && s.mode == Up(m) && z == ApplyCommitStep(sys, s, m)
    ensures z.mode != Strayed(PastArray)
    ensures z.mode.Up? ==> z.mode.mem == m.(lh := [], commit := Finished) || Advanced(m, z.mode.mem)
  {
  }

  predicate Advanced(m: Mem, m1: Mem)
    requires m.commit.Writing?
  {
    m.commit.pc + 1 < CommitWrites(|m.lh|) && m1 == m.(commit := m.commit.(pc := m.commit.pc + 1))
  }

  lemma BudgetCopied(sys: Sys, m: Mem, m1: Mem)
    requires Budget(sys, m) && m.ops == map[] && m.flight == map[]
    requires m.commit.Writing? && m.commit.pc < CommitWrites(|m.lh|)
    requires m1 == m.(lh := [], commit := Finished) || Advanced(m, m1)
    ensures Budget(sys, m1)
  {
    PinnedShrinks(m, m1);
    Fewer(Taken(m1), Taken(m));
    NothingOpen(sys, m, m1);
  }

  lemma NothingOpen(sys: Sys, m: Mem, m1: Mem)
    requires Budget(sys, m) && m1.ops == m.ops == map[] && m1.flight == m.flight == map[] && |Taken(m1)| <= NBUF
    requires (m1.lh == m.lh || m1.lh == []) && m1.wanting == m.wanting && m1.asleep == m.asleep
    ensures Budget(sys, m1)
  {
  }

  lemma PinnedShrinks(m: Mem, m1: Mem)
    requires m.commit.Writing? && m.commit.pc < CommitWrites(|m.lh|) && m1.held == m.held
    requires m1 == m.(lh := [], commit := Finished) || Advanced(m, m1)
    ensures Taken(m1) <= Taken(m)
  {
    var n, pc := |m.lh|, m.commit.pc;
    if n < pc < 2 * n + 1 {
      assert pc > n + 1 ==> m.lh[pc - n..] == m.lh[pc - n - 1..][1..];
    }
  }

  // ---- When a copy can leave the log region ----

  /** The list a commit works on always fits: no call passes the test, or there is no other
      call to pass it meanwhile, or the cache fills up before the log region does, or the
      allowances run out before, or the blocks. */
  predicate Contained(sys: Sys) {
    Barred(sys) || sys.procs == 1 || sys.lay.size >= NBUF || sys.lay.size > MAXOPBLOCKS + 2 * sys.limit ||
    Homes(sys) < sys.lay.size
  }

  /** The number of blocks outside the log region. */
  function Homes(sys: Sys): int { |sys.init| - sys.lay.size }

  /** A list of distinct home blocks is no longer than there are home blocks. */
  lemma ListedCount(sys: Sys, d: Image, lh: seq<nat>)
    requires Listed(sys.lay, d, lh) && |d| == |sys.init|
    ensures |lh| <= Homes(sys)
  {
    var log := seq(sys.lay.size, i requires 0 <= i => sys.lay.start + i);
    forall i | 0 <= i < |lh|
      ensures lh[i] !in log
    {
      assert IsHome(sys.lay, d, lh[i]);
    }
    Pigeonholes(lh + log, |d|);
  }

  lemma NoStray(sys: Sys, s: State, t: Step, z: State)
    requires Contained(sys) && BudgetInv(sys, s) && BudgetInv(sys, z) && |s.disk| == |sys.init|
    requires s.mode.Up? ==> Books(s.mode.mem)
    requires Enabled(sys, s, t) && z == Apply(sys, s, t)
    ensures !z.mode.Strayed?
  {
    if t.CommitWrite? {
      CommitContained(sys, s, s.mode.mem, z);
    } else if z.mode == Strayed(PastLog) {
      StrayAt(sys, s, t, z);
    }
  }

  lemma StrayAt(sys: Sys, s: State, t: Step, z: State)
    requires Enabled(sys, s, t) && z == Apply(sys, s, t) && z.mode == Strayed(PastLog)
    ensures t.CommitWrite?
  {
  }

  lemma CommitContained(sys: Sys, s: State, m: Mem, z: State)
    requires Contained(sys) && Budget(sys, m) && Enabled(sys, s, CommitWrite) && s.mode == Up(m) && Books(m)
    requires |s.disk| == |sys.init| && z == ApplyCommitStep(sys, s, m)
    ensures !z.mode.Strayed?
  {
    if z.mode.Strayed? {
      ElemsCount(m.lh);
      Fewer(Elems(m.lh), Taken(m));
      ListedCount(sys, s.disk, m.lh);
      UnusedBounds(map[], sys.limit);
      assert false;
    }
  }

  lemma {:induction false} BudgetExec(sys: Sys, s: State, ts: seq<Step>, z: State)
    requires Inv(sys, s) && BudgetInv(sys, s) && Exec(sys, s, ts, z)
    ensures Inv(sys, z) && BudgetInv(sys, z)
    ensures Contained(sys) && !s.mode.Strayed? ==> !z.mode.Strayed?
    decreases |ts|
  {
    if ts != [] {
      var y := Apply(sys, s, ts[0]);
      StepInv(sys, s, ts[0], y);
      BudgetStep(sys, s, ts[0], y);
      if Contained(sys) {
        if s.mode.Up? { InvBooks(sys, s, s.mode.mem); }
        NoStray(sys, s, ts[0], y);
      }
      BudgetExec(sys, y, ts[1..], z);
    }
  }

  lemma ReachableBudget(sys: Sys, s: State)
    requires SysOk(sys) && Reachable(sys, s)
    ensures Inv(sys, s) && BudgetInv(sys, s) && (Contained(sys) ==> !s.mode.Strayed?)
  {
    var ts :| Exec(sys, Init(sys), ts, s);
    InitInv(sys);
    FreshBudget(sys);
    BudgetExec(sys, Init(sys), ts, s);
  }

  lemma FreshBudget(sys: Sys)
    ensures BudgetInv(sys, Init(sys))
  {
    assert Taken(Fresh(sys.init)) == {};
  }
}

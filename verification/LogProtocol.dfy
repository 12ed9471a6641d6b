/** Group commit as a state machine: any number of processes run well-bracketed
    operations (begin_op .. log_write .. end_op) while one of them may be inside
    commit, and a crash may strike between any two block writes (log.c). log_write tests
    lh.n before it takes the lock, so the test and the append are two steps with anything
    between them. */
module LogProtocol {
  import opened Blocks
  import opened Lists
  import opened LogSpec

  type Proc = nat
  type Ops = map<Proc, seq<nat>>

  /** What operations did, in order; the reference history the disk is judged by. */
  datatype History = Empty | Then(past: History, last: Event)
  datatype Event = Began(p: Proc) | Wrote(p: Proc, bn: nat, data: Block) | Ended(p: Proc)

  /** Where the committing process is: before block write pc of a commit that
      started from the disk image base, or past its last write. */
  datatype Commit = NotCommitting | Writing(pc: nat, base: Image) | Finished

  /** A log_write call that has passed the test and does not have the lock yet. */
  datatype Pending = Pending(bn: nat, data: Block)

  /** Kernel memory. ops holds the outstanding operations, each with the blocks its log_write
      calls have gone to; flight the calls between test and append; held the busy
      buffers of home blocks; cache is the disk as bread shows it; wanting processes are
      about to test begin_op's loop condition, asleep ones wait on &log. */
  datatype Mem = Mem(ops: Ops, wanting: set<Proc>, asleep: set<Proc>,
                     flight: map<Proc, Pending>, held: map<nat, Proc>,
                     lh: seq<nat>, cache: Image, outstanding: int, committing: bool, commit: Commit)

  datatype Why = TooBig | OutsideTrans | LogCommitting | NoBuffers

  /** A store past the end of lh.block, or a copy past the end of the log region. */
  datatype Stray = PastArray | PastLog

  /** Nothing is followed past a stray store; the disk is judged as it leaves it. */
  datatype Mode =
    | Up(mem: Mem)
    | Down
    | Recovering(lh: seq<nat>, base: Image, pc: nat)
    | Panicked(why: Why)
    | Strayed(stray: Stray)

  /** history is what operations did; durable is the part a recovery would bring back. */
  datatype State = State(disk: Image, mode: Mode, history: History, durable: History)

  /** There are procs processes; limit bounds the number of blocks one operation logs, each
      as often as it likes. */
  datatype Sys = Sys(lay: Layout, init: Image, procs: nat, limit: nat)

  datatype Step =
    | Call(p: Proc)                          // enter begin_op
    | Begin(p: Proc)                         // one pass of begin_op's loop
    | Bread(p: Proc, bn: nat)                // p gets the buffer of a home block
    | Brelse(p: Proc, bn: nat)
    | Test(p: Proc, bn: nat, data: Block)    // p has changed the block; log_write up to acquire
    | Append(p: Proc)                        // the rest of log_write, under the lock
    | End(p: Proc)                           // p calls end_op
    | CommitWrite                            // commit writes one block
    | CommitDone                             // end_op's second critical section
    | Crash
    | Boot                                   // read_head
    | Install                                // recovery writes one block

  // ---- The reference history ----

  /** The processes whose operation has begun and not ended. */
  function Open(h: History): set<Proc> {
    match h
    case Empty => {}
    case Then(past, Began(p)) => Open(past) + {p}
    case Then(past, Wrote(_, _, _)) => Open(past)
    case Then(past, Ended(p)) => Open(past) - {p}
  }

  /** Every write lies between its operation's begin and end. */
  predicate Bracketed(h: History) {
    match h
    case Empty => true
    case Then(past, Began(p)) => Bracketed(past) && p !in Open(past)
    case Then(past, e) => Bracketed(past) && e.p in Open(past)
  }

  /** The image once all writes of h are applied to d. */
  function Replay(d: Image, h: History): (e: Image)
    ensures |e| == |d|
  {
    match h
    case Empty => d
    case Then(past, Wrote(_, bn, data)) => var e := Replay(d, past); if bn < |e| then e[bn := data] else e
    case Then(past, _) => Replay(d, past)
  }

  predicate Prefix(g: History, h: History) {
    g == h || (h.Then? && Prefix(g, h.past))
  }

  lemma PrefixBracketed(g: History, h: History)
    requires Prefix(g, h) && Bracketed(h)
    ensures Bracketed(g)
  {
  }

  // ---- Steps ----

  function Init(sys: Sys): State {
    State(sys.init, Up(Fresh(sys.init)), Empty, Empty)
  }

  function Fresh(d: Image): Mem {
    Mem(map[], {}, {}, map[], map[], [], d, 0, false, NotCommitting)
  }

  /** begin_op's test that the log has room for one more operation. */
  predicate Admits(n: nat, outstanding: int) {
    n + (outstanding + 1) * MAXOPBLOCKS <= LOGSIZE
  }

  /** log_write's bookkeeping: absorb a repeated block, else append. */
  function Absorb(lh: seq<nat>, bn: nat): seq<nat> {
    if bn in lh then lh else lh + [bn]
  }

  function Wake(m: Mem): Mem {
    m.(wanting := m.wanting + m.asleep, asleep := {})
  }

  predicate Active(m: Mem, p: Proc) {
    p in m.wanting || p in m.asleep || p in m.ops
  }

  /** The cached contents of the logged blocks. */
  function CacheData(m: Mem): seq<Block>
    requires forall i :: 0 <= i < |m.lh| ==> m.lh[i] < |m.cache|
  {
    seq(|m.lh|, i requires 0 <= i < |m.lh| => m.cache[m.lh[i]])
  }

  /** p is neither inside begin_op nor inside log_write. */
  predicate Running(m: Mem, p: Proc) {
    p !in m.wanting && p !in m.asleep && p !in m.flight
  }

  /** log_write's test. lh.n only grows while the caller's operation is outstanding, so the
      two reads of it pass or panic as one read at the first or the second would. */
  predicate Passes(sys: Sys, n: nat) {
    n < LOGSIZE && n < sys.lay.size - 1
  }

  /** p's operation may log bn: it has done so before, or its allowance is not used up. */
  predicate Allowed(sys: Sys, ops: Ops, p: Proc, bn: nat) {
    p in ops && (bn in ops[p] || |ops[p]| < sys.limit)
  }

  ghost function Elems(s: seq<nat>): set<nat> { set b | b in s }

  lemma {:induction false} ElemsCount(s: seq<nat>)
    ensures |Elems(s)| <= |s| && (Distinct(s) ==> |Elems(s)| == |s|)
  {
    if s != [] {
      var r := s[..|s| - 1];
      ElemsCount(r);
      assert s == r + [s[|s| - 1]];
      assert Elems(s) == Elems(r) + {s[|s| - 1]};
    }
  }

  /** The logged blocks whose buffers are still dirty: bwrite in install_trans cleans them. */
  ghost function Pinned(m: Mem): set<nat> {
    if m.commit.Writing? && |m.lh| + 1 < m.commit.pc <= 2 * |m.lh| + 1 then Elems(m.lh[m.commit.pc - |m.lh| - 1..])
    else Elems(m.lh)
  }

  /** The blocks whose buffers bget cannot recycle. */
  ghost function Taken(m: Mem): set<nat> {
    Pinned(m) + m.held.Keys
  }

  /** The home block commit's next write needs, if any, is not held. */
  predicate CommitRuns(m: Mem, pc: nat) {
    (pc < |m.lh| ==> m.lh[pc] !in m.held) && (|m.lh| < pc <= 2 * |m.lh| ==> m.lh[pc - |m.lh| - 1] !in m.held)
  }

  ghost predicate Enabled(sys: Sys, s: State, t: Step) {
    match t
    case Call(p) => s.mode.Up? && p < sys.procs && !Active(s.mode.mem, p)
    case Begin(p) => s.mode.Up? && p in s.mode.mem.wanting
    case Bread(p, bn) =>
      s.mode.Up? && Running(s.mode.mem, p) && IsHome(sys.lay, s.disk, bn) && bn !in s.mode.mem.held
    case Brelse(p, bn) =>
      s.mode.Up? && Running(s.mode.mem, p) && bn in s.mode.mem.held && s.mode.mem.held[bn] == p
    case Test(p, bn, data) =>
      s.mode.Up? && Running(s.mode.mem, p) && Allowed(sys, s.mode.mem.ops, p, bn) &&
      bn in s.mode.mem.held && s.mode.mem.held[bn] == p
    case Append(p) =>
      s.mode.Up? && p in s.mode.mem.flight && p in s.mode.mem.ops && s.mode.mem.flight[p].bn < |s.mode.mem.cache|
    case End(p) => s.mode.Up? && p in s.mode.mem.ops && Running(s.mode.mem, p)
    case CommitWrite =>
      s.mode.Up? && s.mode.mem.commit.Writing? && s.mode.mem.commit.pc < CommitWrites(|s.mode.mem.lh|) &&
      |s.mode.mem.cache| == |s.disk| && Listed(sys.lay, s.disk, s.mode.mem.lh) &&
      CommitRuns(s.mode.mem, s.mode.mem.commit.pc) &&
      (|s.mode.mem.lh| < sys.lay.size ||
       (s.mode.mem.commit.pc < |s.mode.mem.lh| && sys.lay.start + 1 + s.mode.mem.commit.pc < |s.disk|))
    case CommitDone => s.mode.Up? && s.mode.mem.commit.Finished?
    case Crash => !s.mode.Down? && !s.mode.Strayed?
    case Boot => s.mode.Down? && HeadOk(sys.lay, s.disk)
    case Install => s.mode.Recovering? && s.mode.pc <= |s.mode.lh| && Loggable(sys.lay, s.disk, s.mode.lh)
  }

  ghost function Apply(sys: Sys, s: State, t: Step): State
    requires Enabled(sys, s, t)
  {
    match t
    case Call(p) => s.(mode := Up(s.mode.mem.(wanting := s.mode.mem.wanting + {p})))
    case Begin(p) => ApplyBegin(s, s.mode.mem, p)
    case Bread(p, bn) => ApplyBread(s, s.mode.mem, p, bn)
    case Brelse(p, bn) => s.(mode := Up(s.mode.mem.(held := s.mode.mem.held - {bn})))
    case Test(p, bn, data) => ApplyTest(sys, s, s.mode.mem, p, bn, data)
    case Append(p) => ApplyAppend(s, s.mode.mem, p)
    case End(p) => ApplyEnd(s, s.mode.mem, p)
    case CommitWrite => ApplyCommitStep(sys, s, s.mode.mem)
    case CommitDone => s.(mode := Up(Wake(s.mode.mem).(committing := false, commit := NotCommitting)))
    case Crash => s.(mode := Down, history := s.durable)
    case Boot => s.(mode := Recovering(HeadBlocks(sys.lay, s.disk), s.disk, 0))
    case Install =>
      var m := s.mode;
      if m.pc < |m.lh| then
        s.(disk := s.disk[m.lh[m.pc] := s.disk[sys.lay.start + 1 + m.pc]], mode := m.(pc := m.pc + 1))
      else
        var d := s.disk[sys.lay.start := PutBlocks(s.disk[sys.lay.start], [], 0)];
        s.(disk := d, mode := Up(Fresh(d)))
  }

  function ApplyBegin(s: State, m: Mem, p: Proc): State {
    if m.committing || !Admits(|m.lh|, m.outstanding) then
      s.(mode := Up(m.(wanting := m.wanting - {p}, asleep := m.asleep + {p})))
    else
      s.(mode := Up(m.(wanting := m.wanting - {p}, ops := m.ops[p := []], outstanding := m.outstanding + 1)),
         history := Then(s.history, Began(p)))
  }

  ghost function ApplyBread(s: State, m: Mem, p: Proc, bn: nat): State {
    if bn in Pinned(m) || |Taken(m)| < NBUF then s.(mode := Up(m.(held := m.held[bn := p])))
    else s.(mode := Panicked(NoBuffers))
  }

  function ApplyTest(sys: Sys, s: State, m: Mem, p: Proc, bn: nat, data: Block): State {
    if !Passes(sys, |m.lh|) then s.(mode := Panicked(TooBig))
    else if m.outstanding < 1 then s.(mode := Panicked(OutsideTrans))
    else s.(mode := Up(m.(flight := m.flight[p := Pending(bn, data)])))
  }

  function ApplyAppend(s: State, m: Mem, p: Proc): State
    requires p in m.flight && p in m.ops && m.flight[p].bn < |m.cache|
  {
    var Pending(bn, data) := m.flight[p];
    if bn !in m.lh && |m.lh| >= LOGSIZE then s.(mode := Strayed(PastArray))
    else
      s.(mode := Up(m.(lh := Absorb(m.lh, bn), cache := m.cache[bn := data], ops := m.ops[p := Absorb(m.ops[p], bn)],
                       flight := m.flight - {p})),
         history := Then(s.history, Wrote(p, bn, data)))
  }

  function ApplyEnd(s: State, m: Mem, p: Proc): State
    requires p in m.ops
  {
    if m.committing then s.(mode := Panicked(LogCommitting))
    else
      var h := Then(s.history, Ended(p));
      var m1 := m.(ops := m.ops - {p}, outstanding := m.outstanding - 1);
      if m1.outstanding != 0 then s.(mode := Up(Wake(m1)), history := h)
      else if |m.lh| > 0 then
        s.(mode := Up(m1.(committing := true, commit := Writing(0, s.disk))), history := h)
      else
        s.(mode := Up(m1.(committing := true, commit := Finished)), history := h, durable := h)
  }

  /** One block write of commit; bread panics when no buffer can be recycled. */
  ghost function ApplyCommitStep(sys: Sys, s: State, m: Mem): State
    requires Listed(sys.lay, s.disk, m.lh) && |m.cache| == |s.disk|
    requires m.commit.Writing? && m.commit.pc < CommitWrites(|m.lh|)
    requires |m.lh| < sys.lay.size || (m.commit.pc < |m.lh| && sys.lay.start + 1 + m.commit.pc < |s.disk|)
  {
    if |Taken(m)| >= NBUF then s.(mode := Panicked(NoBuffers))
    else if |m.lh| < sys.lay.size then ApplyCommitWrite(sys, s, m)
    else ApplyOverfull(sys, s, m, m.commit.pc)
  }

  /** write_log with more blocks than the log region has room for. */
  function ApplyOverfull(sys: Sys, s: State, m: Mem, pc: nat): State
    requires m.commit.Writing? && pc < |m.lh| && sys.lay.start + 1 + pc < |s.disk| && m.lh[pc] < |m.cache|
  {
    var d := s.disk[sys.lay.start + 1 + pc := m.cache[m.lh[pc]]];
    if pc < sys.lay.size - 1 then s.(disk := d, mode := Up(m.(commit := m.commit.(pc := pc + 1))))
    else s.(disk := d, mode := Strayed(PastLog))
  }

  function ApplyCommitWrite(sys: Sys, s: State, m: Mem): State
    requires Fits(sys.lay, s.disk) && |m.lh| <= LOGSIZE && |m.lh| < sys.lay.size
    requires |m.cache| == |s.disk| && forall i :: 0 <= i < |m.lh| ==> m.lh[i] < |s.disk|
    requires m.commit.Writing? && m.commit.pc < CommitWrites(|m.lh|)
  {
    var pc := m.commit.pc;
    var d := s.disk[CommitTarget(sys.lay, m.lh, pc) := CommitData(sys.lay, s.disk, m.lh, CacheData(m), pc)];
    var durable := if pc == |m.lh| then s.history else s.durable;
    if pc + 1 < CommitWrites(|m.lh|) then
      s.(disk := d, mode := Up(m.(commit := m.commit.(pc := pc + 1))), durable := durable)
    else
      s.(disk := d, mode := Up(m.(lh := [], commit := Finished)), durable := durable)
  }

  ghost predicate Exec(sys: Sys, s: State, ts: seq<Step>, z: State)
    decreases |ts|
  {
    if ts == [] then s == z else Enabled(sys, s, ts[0]) && Exec(sys, Apply(sys, s, ts[0]), ts[1..], z)
  }

  /** z can be reached by some interleaving of operations, commits, crashes and recoveries. */
  ghost predicate Reachable(sys: Sys, z: State) {
    exists ts :: Exec(sys, Init(sys), ts, z)
  }

  // ---- Invariant ----

  /** A disk as mkfs makes it: an empty log, and the inode blocks after the log region. */
  ghost predicate SysOk(sys: Sys) {
    HeadOk(sys.lay, sys.init) && HeadN(sys.lay, sys.init) == 0 && sys.lay.start + sys.lay.size < |sys.init|
  }

  ghost predicate OpsMatch(m: Mem, h: History) {
    m.outstanding == |m.ops| && m.ops.Keys == Open(h) &&
    m.wanting !! m.asleep && m.ops.Keys !! m.wanting && m.ops.Keys !! m.asleep
  }

  /** A call in flight belongs to an outstanding operation and holds a home block's buffer. */
  ghost predicate FlightOk(sys: Sys, d: Image, m: Mem) {
    (forall p :: p in m.flight ==> p in m.ops && m.flight[p].bn in m.held && m.held[m.flight[p].bn] == p) &&
    forall bn :: bn in m.held ==> IsHome(sys.lay, d, bn)
  }

  /** The cache is d overlaid by the logged blocks. */
  ghost predicate CacheIs(sys: Sys, m: Mem, d: Image) {
    |m.cache| == |d| && Listed(sys.lay, d, m.lh) &&
    SameHome(sys.lay, Overlay(d, m.lh, CacheData(m), |m.lh|), m.cache)
  }

  /** The disk is where the commit's block writes have taken it. */
  ghost predicate WritingInv(sys: Sys, s: State, m: Mem, pc: nat, base: Image)
    requires |m.cache| == |s.disk| && Loggable(sys.lay, s.disk, m.lh)
  {
    |base| == |s.disk| && 0 < |m.lh| && pc < CommitWrites(|m.lh|) &&
    HeadOk(sys.lay, base) && HeadN(sys.lay, base) == 0 &&
    s.disk == CommitImage(sys.lay, base, m.lh, CacheData(m), pc) && CacheIs(sys, m, base) &&
    (pc <= |m.lh| ==> SameHome(sys.lay, base, Replay(sys.init, s.durable))) &&
    (pc > |m.lh| ==> s.durable == s.history)
  }

  /** write_log on a list too long for the log region: so far only log blocks changed. */
  ghost predicate OverfullInv(sys: Sys, s: State, pc: nat) {
    pc < sys.lay.size && Fits(sys.lay, s.disk) && HeadN(sys.lay, s.disk) == 0 &&
    SameHome(sys.lay, s.disk, Replay(sys.init, s.durable))
  }

  ghost predicate CommitInv(sys: Sys, s: State, m: Mem)
    requires |m.cache| == |s.disk| && Listed(sys.lay, s.disk, m.lh)
  {
    match m.commit
    case NotCommitting =>
      HeadN(sys.lay, s.disk) == 0 && CacheIs(sys, m, s.disk) &&
      (m.ops == map[] ==> m.lh == [] && s.durable == s.history)
    case Writing(pc, base) =>
      m.ops == map[] && if |m.lh| < sys.lay.size then WritingInv(sys, s, m, pc, base) else OverfullInv(sys, s, pc)
    case Finished =>
      m.ops == map[] && m.lh == [] && HeadN(sys.lay, s.disk) == 0 && CacheIs(sys, m, s.disk) && s.durable == s.history
  }

  ghost predicate UpInv(sys: Sys, s: State, m: Mem)
  {
    |m.cache| == |s.disk| && Listed(sys.lay, s.disk, m.lh) &&
    SameHome(sys.lay, m.cache, Replay(sys.init, s.history)) &&
    OpsMatch(m, s.history) && FlightOk(sys, s.disk, m) && (m.committing <==> !m.commit.NotCommitting?) &&
    (m.asleep != {} ==> m.committing || !Admits(|m.lh|, m.outstanding)) &&
    CommitInv(sys, s, m)
  }

  /** What a crash now would leave: the recovered home blocks are those of the
      durable history, and no operation is half inside that prefix. */
  ghost predicate DurableInv(sys: Sys, s: State) {
    |s.disk| == |sys.init| && HeadOk(sys.lay, s.disk) &&
    Prefix(s.durable, s.history) && Bracketed(s.history) && Open(s.durable) == {} &&
    SameHome(sys.lay, Recovered(sys.lay, s.disk), Replay(sys.init, s.durable))
  }

  ghost predicate ModeInv(sys: Sys, s: State)
  {
    match s.mode
    case Up(m) => UpInv(sys, s, m)
    case Down => s.durable == s.history
    case Recovering(lh, base, pc) =>
      HeadOk(sys.lay, base) && |base| == |s.disk| && lh == HeadBlocks(sys.lay, base) && pc <= |lh| &&
      s.disk == Installed(sys.lay, base, pc) && s.durable == s.history
    case Panicked(why) => why == TooBig || why == NoBuffers
    case Strayed(_) => true
  }

  ghost predicate Inv(sys: Sys, s: State) {
    SysOk(sys) && |s.disk| == |sys.init| && HeadOk(sys.lay, s.disk) &&
    (!s.mode.Strayed? ==> DurableInv(sys, s)) && ModeInv(sys, s)
  }

  // ---- Preservation ----

  lemma InitInv(sys: Sys)
    requires SysOk(sys)
    ensures Inv(sys, Init(sys))
  {
    RecoverIdle(sys.lay, sys.init);
  }

  lemma CallInv(sys: Sys, s: State, p: Proc, z: State)
    requires Inv(sys, s) && Enabled(sys, s, Call(p))
    requires z == Apply(sys, s, Call(p))
    ensures Inv(sys, z)
  {
    var m := s.mode.mem;
    assert CacheData(m.(wanting := m.wanting + {p})) == CacheData(m);
  }

  lemma BeginInv(sys: Sys, s: State, p: Proc, z: State)
    requires Inv(sys, s) && Enabled(sys, s, Begin(p))
    requires z == Apply(sys, s, Begin(p))
    ensures Inv(sys, z)
  {
    var m := s.mode.mem;
    if m.committing || !Admits(|m.lh|, m.outstanding) {
      assert CacheData(z.mode.mem) == CacheData(m);
    } else {
      BeginOps(m, z.mode.mem, s.history, p);
      assert m.commit.NotCommitting?;
    }
  }

  lemma BeginOps(m: Mem, m1: Mem, h: History, p: Proc)
    requires OpsMatch(m, h) && p in m.wanting
    requires m1 == m.(wanting := m.wanting - {p}, ops := m.ops[p := []], outstanding := m.outstanding + 1)
    ensures OpsMatch(m1, Then(h, Began(p)))
  {
    assert m1.ops.Keys == m.ops.Keys + {p};
  }

  /** Only busy buffers and calls in flight changed. */
  lemma BuffersInv(sys: Sys, s: State, m: Mem, z: State, m1: Mem)
    requires Inv(sys, s) && s.mode == Up(m) && m1 == m.(held := m1.held, flight := m1.flight)
    requires z == s.(mode := Up(m1)) && FlightOk(sys, s.disk, m1)
    ensures Inv(sys, z)
  {
    assert CacheData(m1) == CacheData(m);
  }

  lemma BreadInv(sys: Sys, s: State, m: Mem, p: Proc, bn: nat, z: State)
    requires Inv(sys, s) && s.mode == Up(m) && IsHome(sys.lay, s.disk, bn) && bn !in m.held
    requires z == ApplyBread(s, m, p, bn)
    ensures Inv(sys, z)
  {
    if z.mode.Up? { HeldInv(sys, s, m, p, bn, z, m.(held := m.held[bn := p])); }
  }

  lemma HeldInv(sys: Sys, s: State, m: Mem, p: Proc, bn: nat, z: State, m1: Mem)
    requires Inv(sys, s) && s.mode == Up(m) && IsHome(sys.lay, s.disk, bn) && bn !in m.held
    requires m1 == m.(held := m.held[bn := p]) && z == s.(mode := Up(m1))
    ensures Inv(sys, z)
  {
    BuffersInv(sys, s, m, z, m1);
  }

  lemma BrelseInv(sys: Sys, s: State, m: Mem, p: Proc, bn: nat, z: State)
    requires Inv(sys, s) && s.mode == Up(m) && p !in m.flight && bn in m.held && m.held[bn] == p
    requires z == s.(mode := Up(m.(held := m.held - {bn})))
    ensures Inv(sys, z)
  {
    BuffersInv(sys, s, m, z, z.mode.mem);
  }

  lemma TestInv(sys: Sys, s: State, p: Proc, bn: nat, data: Block, z: State)
    requires Inv(sys, s) && Enabled(sys, s, Test(p, bn, data))
    requires z == Apply(sys, s, Test(p, bn, data))
    ensures Inv(sys, z)
  {
    var m := s.mode.mem;
    assert m.outstanding >= 1;
    if z.mode.Up? { BuffersInv(sys, s, m, z, z.mode.mem); }
  }

  lemma AppendInv(sys: Sys, s: State, p: Proc, z: State)
    requires Inv(sys, s) && Enabled(sys, s, Append(p))
    requires z == Apply(sys, s, Append(p))
    ensures Inv(sys, z)
  {
    if z.mode.Up? {
      AppendUp(sys, s, s.mode.mem, p, z);
      SameDiskDurable(sys, s, z);
    }
  }

  /** Steps that leave the disk alone leave alone what recovery yields. */
  lemma SameDiskDurable(sys: Sys, s: State, z: State)
    requires DurableInv(sys, s) && z.disk == s.disk && z.durable == s.durable
    requires Prefix(s.history, z.history) && Bracketed(z.history)
    ensures DurableInv(sys, z)
  {
    PrefixTrans(s.durable, s.history, z.history);
  }

  lemma {:induction false} PrefixTrans(f: History, g: History, h: History)
    requires Prefix(f, g) && Prefix(g, h)
    ensures Prefix(f, h)
  {
    if g != h { PrefixTrans(f, g, h.past); }
  }

  lemma AppendUp(sys: Sys, s: State, m: Mem, p: Proc, z: State)
    requires UpInv(sys, s, m) && p in m.ops && p in m.flight && |sys.init| == |s.disk|
    requires Bracketed(s.history) && z == ApplyAppend(s, m, p) && z.mode.Up?
    ensures UpInv(sys, z, z.mode.mem) && Bracketed(z.history)
  {
    var m1 := z.mode.mem;
    var Pending(bn, data) := m.flight[p];
    assert m.commit.NotCommitting?;
    AppendFlight(sys, s.disk, m, p, m1);
    AppendDisk(sys, s, m, bn, data, z, m1);
    WriteOps(m, s.history, p, bn, data, m1);
  }

  lemma AppendFlight(sys: Sys, d: Image, m: Mem, p: Proc, m1: Mem)
    requires FlightOk(sys, d, m) && p in m.flight && p in m.ops
    requires m1.held == m.held && m1.flight == m.flight - {p} && p in m1.ops && m1.ops == m.ops[p := m1.ops[p]]
    ensures FlightOk(sys, d, m1) && IsHome(sys.lay, d, m.flight[p].bn)
  {
  }

  lemma AppendDisk(sys: Sys, s: State, m: Mem, bn: nat, data: Block, z: State, m1: Mem)
    requires CacheIs(sys, m, s.disk) && SameHome(sys.lay, m.cache, Replay(sys.init, s.history))
    requires IsHome(sys.lay, s.disk, bn) && (|m.lh| < LOGSIZE || bn in m.lh)
    requires m1.lh == Absorb(m.lh, bn) && m1.cache == m.cache[bn := data] && z.disk == s.disk
    requires z.history.Then? && z.history.past == s.history && z.history.last.Wrote?
    requires z.history.last.bn == bn && z.history.last.data == data
    ensures CacheIs(sys, m1, z.disk) && SameHome(sys.lay, m1.cache, Replay(sys.init, z.history))
    ensures |m.lh| <= |m1.lh|
  {
    WriteCache(sys, s.disk, m, m1, bn, data);
    SameHomeUpdate(sys.lay, m.cache, Replay(sys.init, s.history), bn, data);
  }

  lemma WriteOps(m: Mem, h: History, p: Proc, bn: nat, data: Block, m1: Mem)
    requires OpsMatch(m, h) && p in m.ops && p in m1.ops && m1.ops == m.ops[p := m1.ops[p]]
    requires m1.outstanding == m.outstanding && m1.wanting == m.wanting && m1.asleep == m.asleep
    ensures OpsMatch(m1, Then(h, Wrote(p, bn, data)))
  {
    assert m1.ops.Keys == m.ops.Keys;
    assert |m1.ops| == |m1.ops.Keys| && |m.ops| == |m.ops.Keys|;
  }

  /** A logged write keeps the cache equal to the disk overlaid by the log. */
  lemma InCacheData(m: Mem, b: nat)
    requires b in m.lh && forall i :: 0 <= i < |m.lh| ==> m.lh[i] < |m.cache|
    ensures exists i :: 0 <= i < |m.lh| && m.lh[i] == b && CacheData(m)[i] == m.cache[b]
  {
    var i :| 0 <= i < |m.lh| && m.lh[i] == b;
    assert CacheData(m)[i] == m.cache[b];
  }

  lemma WriteCache(sys: Sys, d: Image, m: Mem, m1: Mem, bn: nat, data: Block)
    requires CacheIs(sys, m, d) && IsHome(sys.lay, d, bn)
    requires |m.lh| < LOGSIZE || bn in m.lh
    requires m1.lh == Absorb(m.lh, bn) && m1.cache == m.cache[bn := data]
    ensures |m.lh| <= |m1.lh| <= |m.lh| + 1 && CacheIs(sys, m1, d)
  {
    AbsorbListed(sys.lay, d, m.lh, bn);
    var n, n1 := |m.lh|, |m1.lh|;
    var o, o1 := Overlay(d, m.lh, CacheData(m), n), Overlay(d, m1.lh, CacheData(m1), n1);
    OverlayAt(d, m.lh, CacheData(m), n);
    OverlayAt(d, m1.lh, CacheData(m1), n1);
    assert m.lh[..n] == m.lh && m1.lh[..n1] == m1.lh;
    SameHomeAt(sys.lay, o, m.cache);
    forall b | IsHome(sys.lay, d, b)
      ensures o1[b] == m1.cache[b]
    {
      if b in m1.lh { InCacheData(m1, b); }
    }
    SameHomeAt(sys.lay, o1, m1.cache);
  }

  lemma AbsorbListed(lay: Layout, d: Image, lh: seq<nat>, bn: nat)
    requires Listed(lay, d, lh) && IsHome(lay, d, bn) && (|lh| < LOGSIZE || bn in lh)
    ensures Listed(lay, d, Absorb(lh, bn)) && bn in Absorb(lh, bn)
    ensures forall b :: b in lh ==> b in Absorb(lh, bn)
    ensures |lh| <= |Absorb(lh, bn)|
  {
    if bn !in lh { assert Absorb(lh, bn)[|lh|] == bn; }
  }

  lemma EndInv(sys: Sys, s: State, p: Proc, z: State)
    requires Inv(sys, s) && Enabled(sys, s, End(p))
    requires z == Apply(sys, s, End(p))
    ensures Inv(sys, z)
  {
    var m := s.mode.mem;
    var m1 := m.(ops := m.ops - {p}, outstanding := m.outstanding - 1);
    assert m.commit.NotCommitting?;
    if m1.outstanding != 0 {
      EndAmongOthers(sys, s, m, p, z, Wake(m1));
    } else if |m.lh| > 0 {
      EndOfGroup(sys, s, m, p, z, m1.(committing := true, commit := Writing(0, s.disk)));
    } else {
      EndOfNothing(sys, s, m, p, z, m1.(committing := true, commit := Finished));
    }
  }

  /** Other operations are outstanding. */
  lemma EndAmongOthers(sys: Sys, s: State, m: Mem, p: Proc, z: State, m1: Mem)
    requires Inv(sys, s) && s.mode == Up(m) && p in m.ops && p !in m.flight && m.commit.NotCommitting?
    requires m1 == Wake(m.(ops := m.ops - {p}, outstanding := m.outstanding - 1)) && m1.outstanding != 0
    requires z == s.(mode := Up(m1), history := Then(s.history, Ended(p)))
    ensures Inv(sys, z)
  {
    EndOps(m, s.history, p);
    assert CacheData(m1) == CacheData(m);
  }

  /** The group has logged something. */
  lemma EndOfGroup(sys: Sys, s: State, m: Mem, p: Proc, z: State, m1: Mem)
    requires Inv(sys, s) && s.mode == Up(m) && p in m.ops && p !in m.flight && m.commit.NotCommitting? && 0 < |m.lh|
    requires m1 == m.(ops := m.ops - {p}, outstanding := m.outstanding - 1, committing := true,
                      commit := Writing(0, s.disk))
    requires m1.outstanding == 0 && z == s.(mode := Up(m1), history := Then(s.history, Ended(p)))
    ensures Inv(sys, z)
  {
    EndOps(m, s.history, p);
    if |m.lh| < sys.lay.size { EndStartsCommit(sys, s, m, z); } else { EndStartsOverfull(sys, s, m, z); }
  }

  lemma EndOfNothing(sys: Sys, s: State, m: Mem, p: Proc, z: State, m1: Mem)
    requires Inv(sys, s) && s.mode == Up(m) && p in m.ops && p !in m.flight && m.commit.NotCommitting? && m.lh == []
    requires m1 == m.(ops := m.ops - {p}, outstanding := m.outstanding - 1, committing := true, commit := Finished)
    requires m1.outstanding == 0 && z.mode == Up(m1) && z.disk == s.disk
    requires z.history == z.durable == Then(s.history, Ended(p))
    ensures Inv(sys, z)
  {
    EndOps(m, s.history, p);
    EndNothingLogged(sys, s, m, z);
  }

  lemma EndOps(m: Mem, h: History, p: Proc)
    requires OpsMatch(m, h) && p in m.ops
    ensures var m1 := m.(ops := m.ops - {p}, outstanding := m.outstanding - 1);
            var h1 := Then(h, Ended(p));
            OpsMatch(m1, h1) && OpsMatch(Wake(m1), h1)
  {
    var ops1 := m.ops - {p};
    assert ops1.Keys == m.ops.Keys - {p};
    assert |m.ops| == |m.ops.Keys| && |ops1| == |ops1.Keys|;
  }

  /** The last end_op of a group turns the disk over to commit. */
  lemma EndStartsCommit(sys: Sys, s: State, m: Mem, z: State)
    requires SysOk(sys) && DurableInv(sys, s) && UpInv(sys, s, m) && m.commit.NotCommitting?
    requires 0 < |m.lh| < sys.lay.size
    requires z.disk == s.disk && z.durable == s.durable
    requires z.mode.Up? && z.mode.mem.lh == m.lh && z.mode.mem.cache == m.cache
    ensures WritingInv(sys, z, z.mode.mem, 0, s.disk)
  {
    RecoverIdle(sys.lay, s.disk);
    assert CommitImage(sys.lay, s.disk, m.lh, CacheData(m), 0) == s.disk;
  }

  lemma EndStartsOverfull(sys: Sys, s: State, m: Mem, z: State)
    requires SysOk(sys) && DurableInv(sys, s) && UpInv(sys, s, m) && m.commit.NotCommitting?
    requires z.disk == s.disk && z.durable == s.durable
    ensures OverfullInv(sys, z, 0)
  {
    RecoverIdle(sys.lay, s.disk);
  }

  /** A group that logged nothing is durable as it stands. */
  lemma EndNothingLogged(sys: Sys, s: State, m: Mem, z: State)
    requires SysOk(sys) && DurableInv(sys, s) && UpInv(sys, s, m) && m.commit.NotCommitting? && m.lh == []
    requires z.disk == s.disk && z.durable == z.history && Bracketed(z.history) && Open(z.history) == {}
    requires Replay(sys.init, z.history) == Replay(sys.init, s.history)
    ensures DurableInv(sys, z)
  {
    RecoverIdle(sys.lay, s.disk);
  }

  // ---- The commit and recovery steps ----

  lemma CommitWriteInv(sys: Sys, s: State, m: Mem, z: State)
    requires Inv(sys, s) && Enabled(sys, s, CommitWrite) && s.mode == Up(m)
    requires z == ApplyCommitStep(sys, s, m)
    ensures Inv(sys, z)
  {
    if |Taken(m)| < NBUF {
      if |m.lh| < sys.lay.size {
        CommitWriteFits(sys, s, m, z);
      } else {
        OverfullWrite(sys, s, m, m.commit.pc, z);
      }
    }
  }

  lemma CommitWriteFits(sys: Sys, s: State, m: Mem, z: State)
    requires DurableInv(sys, s) && UpInv(sys, s, m) && m.commit.Writing? && m.commit.pc < CommitWrites(|m.lh|)
    requires |m.lh| < sys.lay.size && z == ApplyCommitWrite(sys, s, m)
    ensures DurableInv(sys, z) && z.mode.Up? && UpInv(sys, z, z.mode.mem)
  {
    CommitWriteDurable(sys, s, m, z);
    CommitWriteUp(sys, s, m, m.commit.pc, m.commit.base, z);
  }

  lemma CommitWriteUp(sys: Sys, s: State, m: Mem, pc: nat, base: Image, z: State)
    requires UpInv(sys, s, m) && m.commit == Writing(pc, base) && pc < CommitWrites(|m.lh|)
    requires |m.lh| < sys.lay.size && z == ApplyCommitWrite(sys, s, m)
    ensures z.mode.Up? && UpInv(sys, z, z.mode.mem)
  {
    if pc + 1 == CommitWrites(|m.lh|) {
      CommitWriteLast(sys, s, m, z);
    } else {
      var m1 := m.(commit := Writing(pc + 1, base));
      CommitWriteOn(sys, s, m, pc, base, z, m1);
    }
  }

  /** Copies inside the log region leave the header and the home blocks alone. */
  lemma OverfullWrite(sys: Sys, s: State, m: Mem, pc: nat, z: State)
    requires SysOk(sys) && DurableInv(sys, s) && UpInv(sys, s, m) && m.commit.Writing? && m.commit.pc == pc
    requires pc < |m.lh| && sys.lay.size <= |m.lh| && z == ApplyOverfull(sys, s, m, pc)
    ensures |z.disk| == |s.disk| && HeadOk(sys.lay, z.disk)
    ensures z.mode.Up? ==> DurableInv(sys, z) && UpInv(sys, z, z.mode.mem)
  {
    HeaderKept(sys.lay, s.disk, z.disk);
    if z.mode.Up? {
      SameHomeAt(sys.lay, s.disk, z.disk);
      assert InLog(sys.lay, sys.lay.start + 1 + pc);
      RecoverIdle(sys.lay, z.disk);
      OverfullKeeps(sys, s, m, z, z.mode.mem);
    }
  }

  lemma HeaderKept(lay: Layout, d: Image, e: Image)
    requires HeadOk(lay, d) && |e| == |d| && e[lay.start] == d[lay.start]
    ensures HeadOk(lay, e) && HeadN(lay, e) == HeadN(lay, d)
  {
  }

  lemma OverfullKeeps(sys: Sys, s: State, m: Mem, z: State, m1: Mem)
    requires UpInv(sys, s, m) && m.commit.Writing? && m1 == m.(commit := m1.commit) && m1.commit.Writing?
    requires sys.lay.size <= |m.lh| && |z.disk| == |s.disk| && z.history == s.history
    requires OverfullInv(sys, z, m1.commit.pc)
    ensures UpInv(sys, z, m1)
  {
    assert OpsMatch(m1, z.history) && FlightOk(sys, z.disk, m1);
  }

  /** Each block write of commit takes one commit image to the next. */
  lemma CommitWriteImage(sys: Sys, s: State, m: Mem, pc: nat, base: Image, z: State)
    requires |m.cache| == |s.disk| == |base| && Loggable(sys.lay, s.disk, m.lh) && pc < CommitWrites(|m.lh|)
    requires m.commit == Writing(pc, base) && s.disk == CommitImage(sys.lay, base, m.lh, CacheData(m), pc)
    requires z == ApplyCommitWrite(sys, s, m)
    ensures z.disk == CommitImage(sys.lay, base, m.lh, CacheData(m), pc + 1)
    ensures z.history == s.history && z.durable == if pc == |m.lh| then s.history else s.durable
    ensures z.mode == Up(if pc + 1 < CommitWrites(|m.lh|) then m.(commit := Writing(pc + 1, base))
                         else m.(lh := [], commit := Finished))
  {
  }

  lemma CommitWriteOn(sys: Sys, s: State, m: Mem, pc: nat, base: Image, z: State, m1: Mem)
    requires UpInv(sys, s, m) && |m.lh| < sys.lay.size && m.commit == Writing(pc, base)
    requires pc + 1 < CommitWrites(|m.lh|) && z == ApplyCommitWrite(sys, s, m)
    requires m1 == m.(commit := Writing(pc + 1, base))
    ensures z.mode == Up(m1) && UpInv(sys, z, m1)
  {
    CommitWriteMid(sys, s, m, pc, base, z, m1);
    CommitKeeps(sys, s, m, pc, base, z, m1);
  }

  /** Another commit write leaves everything but the disk and the write count alone. */
  lemma CommitKeeps(sys: Sys, s: State, m: Mem, pc: nat, base: Image, z: State, m1: Mem)
    requires UpInv(sys, s, m) && |m.lh| < sys.lay.size
    requires m.commit == Writing(pc, base) && m1 == m.(commit := Writing(pc + 1, base))
    requires z.history == s.history && |z.disk| == |s.disk| && Loggable(sys.lay, z.disk, m.lh)
    requires WritingInv(sys, z, m1, pc + 1, base)
    ensures UpInv(sys, z, m1)
  {
    assert OpsMatch(m1, z.history);
  }

  lemma CommitWriteMid(sys: Sys, s: State, m: Mem, pc: nat, base: Image, z: State, m1: Mem)
    requires |m.cache| == |s.disk| && Loggable(sys.lay, s.disk, m.lh) && WritingInv(sys, s, m, pc, base)
    requires m.commit == Writing(pc, base) && pc + 1 < CommitWrites(|m.lh|)
    requires z == ApplyCommitWrite(sys, s, m) && m1 == m.(commit := Writing(pc + 1, base))
    ensures z.mode == Up(m1) && z.history == s.history && |z.disk| == |s.disk|
    ensures Loggable(sys.lay, z.disk, m.lh)
    ensures WritingInv(sys, z, m1, pc + 1, base)
  {
    CommitWriteImage(sys, s, m, pc, base, z);
    assert CacheData(m1) == CacheData(m);
  }

  /** Recovery flips from the old history to the new one exactly at the header write. */
  lemma CommitWriteDurable(sys: Sys, s: State, m: Mem, z: State)
    requires DurableInv(sys, s) && |m.cache| == |s.disk| && Loggable(sys.lay, s.disk, m.lh)
    requires m.commit.Writing? && WritingInv(sys, s, m, m.commit.pc, m.commit.base)
    requires SameHome(sys.lay, m.cache, Replay(sys.init, s.history)) && Open(s.history) == {}
    requires z == ApplyCommitWrite(sys, s, m)
    ensures DurableInv(sys, z)
  {
    CommitWriteImage(sys, s, m, m.commit.pc, m.commit.base, z);
    CommitFlip(sys, s, m, m.commit.pc, m.commit.base, z);
  }

  lemma CommitFlip(sys: Sys, s: State, m: Mem, pc: nat, base: Image, z: State)
    requires DurableInv(sys, s) && |m.cache| == |s.disk| && Loggable(sys.lay, s.disk, m.lh)
    requires WritingInv(sys, s, m, pc, base)
    requires SameHome(sys.lay, m.cache, Replay(sys.init, s.history)) && Open(s.history) == {}
    requires z.disk == CommitImage(sys.lay, base, m.lh, CacheData(m), pc + 1)
    requires z.history == s.history && z.durable == if pc == |m.lh| then s.history else s.durable
    ensures DurableInv(sys, z)
  {
    FlipShows(sys.lay, base, m.lh, CacheData(m), pc, z.disk, Replay(sys.init, s.durable), m.cache);
  }

  lemma FlipShows(lay: Layout, base: Image, bl: seq<nat>, data: seq<Block>, pc: nat, e: Image, was: Image, now: Image)
    requires HeadOk(lay, base) && HeadN(lay, base) == 0 && Loggable(lay, base, bl) && |bl| == |data|
    requires pc < CommitWrites(|bl|) && e == CommitImage(lay, base, bl, data, pc + 1)
    requires (pc < |bl| ==> SameHome(lay, base, was)) && SameHome(lay, Overlay(base, bl, data, |bl|), now)
    ensures HeadOk(lay, e) && SameHome(lay, Recovered(lay, e), if pc < |bl| then was else now)
  {
    CommitCrashAtomic(lay, base, bl, data, pc + 1, e);
  }

  /** Clearing the header ends the commit with the disk equal to the cache. */
  lemma CommitWriteLast(sys: Sys, s: State, m: Mem, z: State)
    requires UpInv(sys, s, m) && |m.lh| < sys.lay.size && m.commit.Writing? && m.commit.pc + 1 == CommitWrites(|m.lh|)
    requires z == ApplyCommitWrite(sys, s, m)
    ensures z.mode.Up? && UpInv(sys, z, z.mode.mem)
  {
    CommitWriteImage(sys, s, m, m.commit.pc, m.commit.base, z);
    CommitEnds(sys.lay, m.commit.base, m.lh, CacheData(m), z.disk);
  }

  lemma CrashBootInv(sys: Sys, s: State, t: Step, z: State)
    requires Inv(sys, s) && (t.CommitDone? || t.Crash? || t.Boot?) && Enabled(sys, s, t)
    requires z == Apply(sys, s, t)
    ensures Inv(sys, z)
  {
    match t
    case CommitDone => assert Wake(s.mode.mem).ops == map[];
    case Crash => PrefixBracketed(s.durable, s.history);
    case Boot =>
  }

  lemma InstallInv(sys: Sys, s: State, z: State)
    requires Inv(sys, s) && Enabled(sys, s, Install)
    requires z == Apply(sys, s, Install)
    ensures Inv(sys, z)
  {
    var Recovering(lh, base, pc) := s.mode;
    InstallImage(sys, s, base, pc, z);
    if pc < |lh| {
      InstallOn(sys, s, base, pc, z);
    } else {
      InstallLast(sys, s, base, z);
    }
    assert DurableInv(sys, z);
  }

  lemma InstallOn(sys: Sys, s: State, base: Image, pc: nat, z: State)
    requires DurableInv(sys, s) && HeadOk(sys.lay, base) && |base| == |s.disk| && pc < HeadN(sys.lay, base)
    requires s.disk == Installed(sys.lay, base, pc) && z.disk == RecoveryImages(sys.lay, base)[pc]
    requires z.disk == Installed(sys.lay, base, pc + 1)
    requires z.mode == Recovering(HeadBlocks(sys.lay, base), base, pc + 1)
    requires z.history == s.history == s.durable == z.durable
    ensures DurableInv(sys, z) && ModeInv(sys, z)
  {
    InstallDurable(sys, s, base, pc, z);
  }

  lemma InstallLast(sys: Sys, s: State, base: Image, z: State)
    requires SysOk(sys) && DurableInv(sys, s) && HeadOk(sys.lay, base) && |base| == |s.disk|
    requires s.disk == Installed(sys.lay, base, HeadN(sys.lay, base))
    requires z.disk == RecoveryImages(sys.lay, base)[HeadN(sys.lay, base)] && z.disk == WriteHead(sys.lay, s.disk, [])
    requires z.mode == Up(Fresh(z.disk)) && z.history == s.history == s.durable == z.durable
    ensures DurableInv(sys, z) && ModeInv(sys, z)
  {
    InstallDurable(sys, s, base, HeadN(sys.lay, base), z);
    FreshInv(sys, s.disk, z);
  }

  /** The kernel right after recovery: nothing logged, the cache is the disk. */
  lemma FreshInv(sys: Sys, d: Image, z: State)
    requires SysOk(sys) && Fits(sys.lay, d) && z.disk == WriteHead(sys.lay, d, []) && z.mode == Up(Fresh(z.disk))
    requires DurableInv(sys, z) && z.durable == z.history
    ensures ModeInv(sys, z)
  {
    WriteHeadReads(sys.lay, d, []);
    RecoverIdle(sys.lay, z.disk);
  }

  /** One block write of recovery takes one recovery image to the next. */
  lemma InstallImage(sys: Sys, s: State, base: Image, pc: nat, z: State)
    requires HeadOk(sys.lay, base) && pc <= HeadN(sys.lay, base) && s.disk == Installed(sys.lay, base, pc)
    requires s.mode == Recovering(HeadBlocks(sys.lay, base), base, pc) && Enabled(sys, s, Install)
    requires z == Apply(sys, s, Install)
    ensures z.disk == RecoveryImages(sys.lay, base)[pc]
    ensures pc < HeadN(sys.lay, base) ==> z.disk == Installed(sys.lay, base, pc + 1)
    ensures pc == HeadN(sys.lay, base) ==> z.disk == WriteHead(sys.lay, s.disk, [])
  {
    InstalledKeepsLog(sys.lay, base, pc);
    if pc < HeadN(sys.lay, base) {
      assert LogData(sys.lay, base, HeadN(sys.lay, base))[pc] == base[sys.lay.start + 1 + pc];
    }
  }

  /** A block write of recovery does not change what recovery yields. */
  lemma InstallDurable(sys: Sys, s: State, base: Image, pc: nat, z: State)
    requires DurableInv(sys, s) && HeadOk(sys.lay, base) && |base| == |s.disk| && pc <= HeadN(sys.lay, base)
    requires s.disk == Installed(sys.lay, base, pc) && z.disk == RecoveryImages(sys.lay, base)[pc]
    requires z.history == s.history && z.durable == s.durable
    ensures DurableInv(sys, z)
  {
    RecoveryImagesRecover(sys.lay, base, pc);
    if pc > 0 {
      RecoveryImagesRecover(sys.lay, base, pc - 1);
      assert RecoveryImages(sys.lay, base)[pc - 1] == s.disk;
    }
  }

  lemma StepInv(sys: Sys, s: State, t: Step, z: State)
    requires Inv(sys, s) && Enabled(sys, s, t)
    requires z == Apply(sys, s, t)
    ensures Inv(sys, z)
  {
    if t.Call? || t.Begin? || t.End? {
      BracketInv(sys, s, t, z);
    } else if t.Bread? || t.Brelse? || t.Test? || t.Append? {
      BufferInv(sys, s, t, z);
    } else if t.CommitWrite? {
      CommitWriteInv(sys, s, s.mode.mem, z);
    } else if t.Install? {
      InstallInv(sys, s, z);
    } else {
      CrashBootInv(sys, s, t, z);
    }
  }

  lemma BracketInv(sys: Sys, s: State, t: Step, z: State)
    requires Inv(sys, s) && Enabled(sys, s, t) && (t.Call? || t.Begin? || t.End?)
    requires z == Apply(sys, s, t)
    ensures Inv(sys, z)
  {
    match t
    case Call(p) => CallInv(sys, s, p, z);
    case Begin(p) => BeginInv(sys, s, p, z);
    case End(p) => EndInv(sys, s, p, z);
  }

  lemma BufferInv(sys: Sys, s: State, t: Step, z: State)
    requires Inv(sys, s) && Enabled(sys, s, t) && (t.Bread? || t.Brelse? || t.Test? || t.Append?)
    requires z == Apply(sys, s, t)
    ensures Inv(sys, z)
  {
    match t
    case Bread(p, bn) => BreadInv(sys, s, s.mode.mem, p, bn, z);
    case Brelse(p, bn) => BrelseInv(sys, s, s.mode.mem, p, bn, z);
    case Test(p, bn, data) => TestInv(sys, s, p, bn, data, z);
    case Append(p) => AppendInv(sys, s, p, z);
  }

  lemma {:induction false} ExecInv(sys: Sys, s: State, ts: seq<Step>, z: State)
    requires Inv(sys, s) && Exec(sys, s, ts, z)
    ensures Inv(sys, z)
    decreases |ts|
  {
    if ts != [] {
      var y := Apply(sys, s, ts[0]);
      StepInv(sys, s, ts[0], y);
      ExecInv(sys, y, ts[1..], z);
    }
  }

  lemma ReachableInv(sys: Sys, s: State)
    requires SysOk(sys) && Reachable(sys, s)
    ensures Inv(sys, s)
  {
    var ts :| Exec(sys, Init(sys), ts, s);
    InitInv(sys);
    ExecInv(sys, Init(sys), ts, s);
  }

  // ---- Main results ----

  /** Recovering the disk now would show exactly some part of what operations did, from the
      beginning up to a point where none was open. */
  ghost predicate AllOrNothing(sys: Sys, s: State) {
    HeadOk(sys.lay, s.disk) &&
    exists g :: Prefix(g, s.history) && Bracketed(g) && Open(g) == {} &&
                SameHome(sys.lay, Recovered(sys.lay, s.disk), Replay(sys.init, g))
  }

  /** Group commit: in every reachable state, in or out of a commit or a recovery, unless
      a store has gone astray: the durable history is such a part and recovery shows it; a
      commit runs only when no operation is outstanding; and only the panics for a full log
      and for a full cache can occur. */
  lemma GroupCommit(sys: Sys, s: State)
    requires SysOk(sys) && Reachable(sys, s)
    ensures HeadOk(sys.lay, s.disk) && |s.disk| == |sys.init|
    ensures !s.mode.Strayed? ==>
              Prefix(s.durable, s.history) && Bracketed(s.durable) && Open(s.durable) == {} &&
              SameHome(sys.lay, Recovered(sys.lay, s.disk), Replay(sys.init, s.durable)) && AllOrNothing(sys, s)
    ensures s.mode.Up? && s.mode.mem.committing ==> s.mode.mem.outstanding == 0
    ensures s.mode.Panicked? ==> s.mode.why == TooBig || s.mode.why == NoBuffers
  {
    ReachableInv(sys, s);
    if !s.mode.Strayed? { PrefixBracketed(s.durable, s.history); }
  }

  /** The two wakeups of end_op reach everyone: when an operation ends among others, and when
      a commit is over, no process is left asleep in begin_op, and each that was tests for
      admission again. */
  lemma WakesAll(sys: Sys, s: State, t: Step, z: State)
    requires Inv(sys, s) && Enabled(sys, s, t) && z == Apply(sys, s, t) && z.mode.Up?
    requires t.CommitDone? || (t.End? && !z.mode.mem.committing)
    ensures z.mode.mem.asleep == {} && s.mode.mem.asleep + s.mode.mem.wanting == z.mode.mem.wanting
  {
  }

  /** Durability: once no operation is outstanding and no commit is running, the
      whole history is durable, on the disk as on a recovered one. */
  lemma QuiescentDurable(sys: Sys, s: State)
    requires SysOk(sys) && Reachable(sys, s) && s.mode.Up?
    requires s.mode.mem.outstanding == 0 && !s.mode.mem.committing
    ensures s.durable == s.history && SameHome(sys.lay, s.disk, Replay(sys.init, s.history))
  {
    ReachableInv(sys, s);
    RecoverIdle(sys.lay, s.disk);
  }

  /** What is durable stays durable, across crashes too. */
  lemma DurableGrows(sys: Sys, s: State, ts: seq<Step>, z: State)
    requires Inv(sys, s) && Exec(sys, s, ts, z)
    ensures Prefix(s.durable, z.durable)
    decreases |ts|
  {
    if ts != [] {
      var y := Apply(sys, s, ts[0]);
      StepInv(sys, s, ts[0], y);
      DurableStep(sys, s, ts[0], y);
      DurableGrows(sys, y, ts[1..], z);
      PrefixTrans(s.durable, y.durable, z.durable);
    }
  }

  lemma DurableStep(sys: Sys, s: State, t: Step, z: State)
    requires Prefix(s.durable, s.history) && Enabled(sys, s, t) && z == Apply(sys, s, t)
    ensures Prefix(s.durable, z.durable)
  {
    match t
    case CommitWrite => DurableCommit(sys, s, s.mode.mem, z);
    case _ =>
  }

  lemma DurableCommit(sys: Sys, s: State, m: Mem, z: State)
    requires Prefix(s.durable, s.history) && Enabled(sys, s, CommitWrite) && s.mode == Up(m)
    requires z == ApplyCommitStep(sys, s, m)
    ensures Prefix(s.durable, z.durable)
  {
  }

  /** A process asleep in begin_op always has someone to wake it: a commit or an
      outstanding operation. */
  lemma SleeperHasWaker(sys: Sys, s: State)
    requires SysOk(sys) && Reachable(sys, s) && s.mode.Up? && s.mode.mem.asleep != {}
    ensures s.mode.mem.committing || s.mode.mem.outstanding >= 1
  {
    ReachableInv(sys, s);
  }
}

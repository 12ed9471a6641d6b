/** Sleep and wakeup over any number of processes and rounds: consumers wait under lk for
    value > 0 in a loop around sleep, producers raise value under lk and then call wakeup,
    before or after letting go of lk (proc.c, spinlock.c; sleep1.p checks the same for two
    of each and four rounds).

    One step is one access to shared memory, or one acquire or release. */
module SleepWakeup {
  datatype Lock = Free | By(p: nat)

  /** Where a process is. */
  datatype Pc =
    | Idle
    | Wanting                              // acquire(lk), first or on return from sleep
    | Testing                              // holds lk, tests value > 0
    | Committed                            // holds lk, in sleep: acquire(&ptable.lock)
    | Both                                 // holds both, in sleep: release(lk)
    | GoingDown                            // holds ptable.lock: state = SLEEPING
    | Down                                 // SLEEPING, its CPU's scheduler holds ptable.lock
    | Asleep                               // SLEEPING
    | Woken                                // RUNNABLE
    | Resumed                              // running again, holds ptable.lock
    | Taking                               // holds lk, value > 0 seen: x = value
    | Took(x: nat)                         // holds lk: value = x - 1
    | Leaving                              // holds lk: release(lk)
    | Calling                              // producer: acquire(lk)
    | Giving                               // holds lk: x = value
    | Gave(x: nat)                         // holds lk: value = x + 1
    | Owing(inside: bool)                  // wakeup still to come; inside means lk is held
    | Scanning(inside: bool, next: nat)    // in wakeup1, holds ptable.lock

  /** made and used count the finished productions and consumptions. */
  datatype State = State(lk: Lock, pl: Lock, value: nat, made: nat, used: nat, pcs: seq<Pc>)

  datatype Step =
    | Wait(p: nat)       // p starts as a consumer
    | Give(p: nat)       // p starts as a producer
    | Next(p: nat)       // p's next step
    | LetGo(p: nat)      // a producer releases lk before it calls wakeup
    | Kill(k: nat)       // kill wakes process k

  predicate InLk(c: Pc) {
    c.Testing? || c.Committed? || c.Both? || c.Taking? || c.Took? || c.Leaving? || c.Giving? || c.Gave? ||
    (c.Owing? && c.inside) || (c.Scanning? && c.inside)
  }

  predicate InPl(c: Pc) {
    c.Both? || c.GoingDown? || c.Down? || c.Resumed? || c.Scanning?
  }

  /** p->state == SLEEPING. */
  predicate Sleeping(c: Pc) {
    c.Down? || c.Asleep?
  }

  predicate CanNext(s: State, c: Pc) {
    match c
    case Idle => false
    case Asleep => false
    case Wanting => s.lk.Free?
    case Calling => s.lk.Free?
    case Committed => s.pl.Free?
    case Woken => s.pl.Free?
    case Owing(_) => s.pl.Free?
    case _ => true
  }

  predicate Enabled(s: State, t: Step) {
    match t
    case Wait(p) => p < |s.pcs| && s.pcs[p].Idle?
    case Give(p) => p < |s.pcs| && s.pcs[p].Idle?
    case Next(p) => p < |s.pcs| && CanNext(s, s.pcs[p])
    case LetGo(p) => p < |s.pcs| && s.pcs[p] == Owing(true)
    case Kill(k) => k < |s.pcs| && s.pl.Free?
  }

  function Wake(pcs: seq<Pc>, k: nat): (r: seq<Pc>)
    requires k < |pcs|
    ensures |r| == |pcs|
  {
    if pcs[k].Asleep? then pcs[k := Woken] else pcs
  }

  function At(s: State, p: nat, c: Pc): State
    requires p < |s.pcs|
  {
    s.(pcs := s.pcs[p := c])
  }

  function NextOf(s: State, p: nat): (z: State)
    requires p < |s.pcs| && CanNext(s, s.pcs[p])
    ensures |z.pcs| == |s.pcs|
  {
    match s.pcs[p]
    case Wanting => At(s, p, Testing).(lk := By(p))
    case Testing => At(s, p, if s.value > 0 then Taking else Committed)
    case Committed => At(s, p, Both).(pl := By(p))
    case Both => At(s, p, GoingDown).(lk := Free)
    case GoingDown => At(s, p, Down)
    case Down => At(s, p, Asleep).(pl := Free)
    case Woken => At(s, p, Resumed).(pl := By(p))
    case Resumed => At(s, p, Wanting).(pl := Free)
    case Taking => At(s, p, Took(s.value))
    case Took(x) => At(s, p, Leaving).(value := if x > 0 then x - 1 else 0, used := s.used + 1)
    case Leaving => At(s, p, Idle).(lk := Free)
    case Calling => At(s, p, Giving).(lk := By(p))
    case Giving => At(s, p, Gave(s.value))
    case Gave(x) => At(s, p, Owing(true)).(value := x + 1, made := s.made + 1)
    case Owing(inside) => At(s, p, Scanning(inside, 0)).(pl := By(p))
    case Scanning(inside, i) =>
      if i < |s.pcs| then s.(pcs := Wake(s.pcs, i)[p := Scanning(inside, i + 1)])
      else At(s, p, if inside then Leaving else Idle).(pl := Free)
  }

  function Apply(s: State, t: Step): (z: State)
    requires Enabled(s, t)
    ensures |z.pcs| == |s.pcs|
  {
    match t
    case Wait(p) => At(s, p, Wanting)
    case Give(p) => At(s, p, Calling)
    case Next(p) => NextOf(s, p)
    case LetGo(p) => At(s, p, Owing(false)).(lk := Free)
    case Kill(k) => s.(pcs := Wake(s.pcs, k))
  }

  predicate Init(s: State) {
    s.lk == Free && s.pl == Free && s.value == s.made == s.used == 0 &&
    forall p :: 0 <= p < |s.pcs| ==> s.pcs[p] == Idle
  }

  ghost predicate Exec(s: State, ts: seq<Step>, z: State)
    decreases |ts|
  {
    if ts == [] then s == z else Enabled(s, ts[0]) && Exec(Apply(s, ts[0]), ts[1..], z)
  }

  ghost predicate Reachable(z: State) {
    exists s, ts :: Init(s) && Exec(s, ts, z)
  }

  /** Any number of processes can start. */
  lemma Starts(n: nat) returns (s: State)
    ensures Reachable(s) && |s.pcs| == n && s.value == s.made == s.used == 0
  {
    s := State(Free, Free, 0, 0, 0, seq(n, _ => Idle));
    assert Exec(s, [], s);
  }

  // ---- The invariant ----

  /** Waker at c has yet to look at process p. */
  predicate Owes(c: Pc, p: nat) {
    c.Owing? || (c.Scanning? && c.next <= p)
  }

  /** p has decided to sleep and let go of lk. */
  predicate Sunk(c: Pc) {
    c.GoingDown? || c.Down? || c.Asleep?
  }

  ghost predicate Awaited(pcs: seq<Pc>, p: nat) {
    exists w :: 0 <= w < |pcs| && Owes(pcs[w], p)
  }

  /** What holding lk lets a process rely on. */
  predicate Local(c: Pc, value: nat) {
    ((c.Committed? || c.Both?) ==> value == 0) && (c.Taking? ==> value > 0) &&
    (c.Took? ==> c.x == value > 0) && (c.Gave? ==> c.x == value)
  }

  /** The holders of the locks are the processes inside. */
  predicate Held(s: State, p: nat)
    requires p < |s.pcs|
  {
    (InLk(s.pcs[p]) <==> s.lk == By(p)) && (InPl(s.pcs[p]) <==> s.pl == By(p))
  }

  /** No lost wakeup for p. */
  ghost predicate Safe(s: State, p: nat)
    requires p < |s.pcs|
  {
    Sunk(s.pcs[p]) && s.value > 0 ==> Awaited(s.pcs, p)
  }

  ghost predicate Locked(s: State) {
    (s.lk.By? ==> s.lk.p < |s.pcs|) && (s.pl.By? ==> s.pl.p < |s.pcs|) &&
    forall p {:trigger Held(s, p)} :: 0 <= p < |s.pcs| ==> Held(s, p) && Local(s.pcs[p], s.value)
  }

  ghost predicate Inv(s: State) {
    Locked(s) && s.made == s.used + s.value &&
    forall p {:trigger Safe(s, p)} :: 0 <= p < |s.pcs| ==> Safe(s, p)
  }

  lemma InitInv(s: State)
    requires Init(s)
    ensures Inv(s)
  {
    forall p | 0 <= p < |s.pcs|
      ensures Held(s, p) && Local(s.pcs[p], s.value) && Safe(s, p)
    {
    }
  }

  lemma StepLocked(s: State, t: Step, z: State)
    requires Locked(s) && Enabled(s, t) && z == Apply(s, t)
    ensures Locked(z)
  {
    forall q | 0 <= q < |z.pcs|
      ensures Held(z, q) && Local(z.pcs[q], z.value)
    {
      assert Held(s, q);
      if t.Next? {
        assert Held(s, t.p);
        if t.p == q { NextActor(s, q, z); } else { NextBystander(s, t.p, z, q); }
      } else if t.LetGo? {
        assert Held(s, t.p);
      }
    }
  }

  lemma NextActor(s: State, p: nat, z: State)
    requires p < |s.pcs| && Held(s, p) && Local(s.pcs[p], s.value) && CanNext(s, s.pcs[p]) && z == NextOf(s, p)
    ensures Held(z, p) && Local(z.pcs[p], z.value)
  {
  }

  lemma NextBystander(s: State, p: nat, z: State, q: nat)
    requires p < |s.pcs| && Held(s, p) && CanNext(s, s.pcs[p]) && z == NextOf(s, p)
    requires q < |s.pcs| && q != p && Held(s, q) && Local(s.pcs[q], s.value)
    ensures Held(z, q) && Local(z.pcs[q], z.value)
  {
  }

  lemma StepCount(s: State, t: Step, z: State)
    requires Locked(s) && s.made == s.used + s.value && Enabled(s, t) && z == Apply(s, t)
    ensures z.made == z.used + z.value
  {
    if t.Next? { assert Held(s, t.p); }
  }

  /** A waker w that owes p its look still does after a step, or p has been woken. */
  lemma StepOwes(s: State, t: Step, z: State, p: nat, w: nat)
    requires Enabled(s, t) && z == Apply(s, t) && p < |s.pcs| && w < |s.pcs| && Owes(s.pcs[w], p)
    requires Sunk(z.pcs[p]) && Sunk(s.pcs[p]) && Held(s, w) && Held(s, p)
    ensures Owes(z.pcs[w], p)
  {
    if t.Next? {
      if t.p == w { NextOwes(s, w, z, p); } else { assert z.pcs[w] == s.pcs[w]; }
    }
  }

  lemma NextOwes(s: State, w: nat, z: State, p: nat)
    requires w < |s.pcs| && p < |s.pcs| && CanNext(s, s.pcs[w]) && z == NextOf(s, w) && Owes(s.pcs[w], p) && Held(s, w)
    requires Sunk(z.pcs[p]) && Held(s, p)
    ensures Owes(z.pcs[w], p)
  {
  }

  /** A process sinks only while it has seen value 0 and nobody could change it. */
  lemma SunkBefore(s: State, t: Step, z: State, p: nat)
    requires Enabled(s, t) && z == Apply(s, t) && p < |s.pcs| && Sunk(z.pcs[p]) && Local(s.pcs[p], s.value) &&
             s.value > 0
    ensures Sunk(s.pcs[p])
  {
  }

  /** Only a producer makes value positive, and it then owes a wakeup. */
  lemma StepRaises(s: State, t: Step, z: State, p: nat)
    requires Enabled(s, t) && z == Apply(s, t) && p < |s.pcs| && Locked(s) && s.value == 0 < z.value
    ensures Awaited(z.pcs, p)
  {
    assert t.Next? && Held(s, t.p);
    assert Owes(z.pcs[t.p], p);
  }

  lemma StepInv(s: State, t: Step, z: State)
    requires Inv(s) && Enabled(s, t) && z == Apply(s, t)
    ensures Inv(z)
  {
    StepLocked(s, t, z);
    StepCount(s, t, z);
    forall p | 0 <= p < |z.pcs|
      ensures Safe(z, p)
    {
      StepSafe(s, t, z, p);
    }
  }

  lemma StepSafe(s: State, t: Step, z: State, p: nat)
    requires Inv(s) && Enabled(s, t) && z == Apply(s, t) && p < |s.pcs|
    ensures Safe(z, p)
  {
    if Sunk(z.pcs[p]) && z.value > 0 {
      assert Safe(s, p);
      if s.value == 0 {
        StepRaises(s, t, z, p);
      } else {
        assert Held(s, p);
        SunkBefore(s, t, z, p);
        var w :| 0 <= w < |s.pcs| && Owes(s.pcs[w], p);
        assert Held(s, w);
        StepOwes(s, t, z, p, w);
      }
    }
  }

  lemma {:induction false} ExecInv(s: State, ts: seq<Step>, z: State)
    requires Inv(s) && Exec(s, ts, z)
    ensures Inv(z)
    decreases |ts|
  {
    if ts != [] {
      var y := Apply(s, ts[0]);
      StepInv(s, ts[0], y);
      ExecInv(y, ts[1..], z);
    }
  }

  // ---- What it promises ----

  /** No lost wakeup: in every reachable state, a process that sleeps although value > 0
      has a waker that has not finished, and has not looked at it yet. */
  lemma NoLostWakeup(s: State, p: nat)
    requires Reachable(s) && p < |s.pcs| && Sleeping(s.pcs[p]) && s.value > 0
    ensures exists w :: 0 <= w < |s.pcs| && Owes(s.pcs[w], p)
  {
    var i, ts :| Init(i) && Exec(i, ts, s);
    InitInv(i);
    ExecInv(i, ts, s);
    assert Safe(s, p);
  }

  /** The lock keeps the counts: nothing is consumed twice, no update is lost, and a
      consumer never finds value to be 0 once it has seen it positive. */
  lemma CountsAgree(s: State, p: nat)
    requires Reachable(s) && p < |s.pcs|
    ensures s.made == s.used + s.value
    ensures s.pcs[p].Taking? || s.pcs[p].Took? ==> s.value > 0
    ensures forall q :: 0 <= q < |s.pcs| && InLk(s.pcs[p]) && InLk(s.pcs[q]) ==> q == p
    ensures forall q :: 0 <= q < |s.pcs| && InPl(s.pcs[p]) && InPl(s.pcs[q]) ==> q == p
  {
    var i, ts :| Init(i) && Exec(i, ts, s);
    InitInv(i);
    ExecInv(i, ts, s);
    assert Held(s, p);
    forall q | 0 <= q < |s.pcs| && ((InLk(s.pcs[p]) && InLk(s.pcs[q])) || (InPl(s.pcs[p]) && InPl(s.pcs[q])))
      ensures q == p
    {
      assert Held(s, q);
    }
  }

  /** No deadlock: while a process sleeps although value > 0, some process can go on. */
  lemma SomeoneCanGo(s: State, p: nat) returns (g: nat)
    requires Reachable(s) && p < |s.pcs| && Sleeping(s.pcs[p]) && s.value > 0
    ensures g < |s.pcs| && Enabled(s, Next(g)) && !s.pcs[g].Woken? && !s.pcs[g].Asleep?
  {
    NoLostWakeup(s, p);
    var w :| 0 <= w < |s.pcs| && Owes(s.pcs[w], p);
    var i, ts :| Init(i) && Exec(i, ts, s);
    InitInv(i);
    ExecInv(i, ts, s);
    if s.pl.By? {
      g := s.pl.p;
      assert Held(s, g);
    } else {
      g := w;
      assert Held(s, w);
    }
  }

  // ---- The sleeper can be woken ----

  lemma {:induction false} ExecThen(s: State, ts: seq<Step>, y: State, t: Step, z: State)
    requires Exec(s, ts, y) && Enabled(y, t) && z == Apply(y, t)
    ensures Exec(s, ts + [t], z)
    decreases |ts|
  {
    if ts == [] {
      assert Exec(z, [], z);
      assert ([] + [t])[1..] == [];
    } else {
      ExecThen(Apply(s, ts[0]), ts[1..], y, t, z);
      assert (ts + [t])[1..] == ts[1..] + [t];
    }
  }

  lemma {:induction false} ExecJoin(s: State, ts: seq<Step>, y: State, us: seq<Step>, z: State)
    requires Exec(s, ts, y) && Exec(y, us, z)
    ensures Exec(s, ts + us, z)
    decreases |us|
  {
    if us == [] {
      assert ts + us == ts;
    } else {
      ExecThen(s, ts, y, us[0], Apply(y, us[0]));
      ExecJoin(s, ts + [us[0]], Apply(y, us[0]), us[1..], z);
      assert ts + us == ts + [us[0]] + us[1..];
    }
  }

  /** How many steps the holder of ptable.lock at c needs to release it, at most. */
  function HoldsFor(c: Pc, n: nat): nat {
    match c
    case Both => 3
    case GoingDown => 2
    case Down => 1
    case Resumed => 1
    case Scanning(_, i) => if i < n then n - i + 1 else 1
    case _ => 0
  }

  /** The holder of ptable.lock lets go of it without touching value. */
  lemma {:induction false} Drains(s: State, p: nat) returns (ts: seq<Step>, z: State)
    requires Inv(s) && p < |s.pcs| && Sunk(s.pcs[p]) && s.value > 0
    ensures Exec(s, ts, z) && Inv(z) && |z.pcs| == |s.pcs| && z.value == s.value && z.made == s.made
    ensures z.pcs[p].Woken? || (z.pl.Free? && z.pcs[p].Asleep?)
    decreases if s.pl.By? && s.pl.p < |s.pcs| then HoldsFor(s.pcs[s.pl.p], |s.pcs|) else 0
  {
    assert Held(s, p);
    if s.pl.Free? {
      ts, z := [], s;
    } else {
      var g := s.pl.p;
      assert Held(s, g);
      var y := NextOf(s, g);
      StepInv(s, Next(g), y);
      if y.pcs[p].Woken? {
        z := y;
        ts := [Next(g)];
        assert Exec(y, [], y);
      } else {
        DrainStep(s, g, y, p);
        var us;
        us, z := Drains(y, p);
        ts := [Next(g)] + us;
      }
    }
  }

  lemma DrainStep(s: State, g: nat, y: State, p: nat)
    requires g < |s.pcs| && s.pl == By(g) && InPl(s.pcs[g]) && CanNext(s, s.pcs[g]) && y == NextOf(s, g)
    requires p < |s.pcs| && Sunk(s.pcs[p]) && !y.pcs[p].Woken?
    ensures Sunk(y.pcs[p]) && y.value == s.value && y.made == s.made
    ensures y.pl == Free || (y.pl == By(g) && HoldsFor(y.pcs[g], |y.pcs|) < HoldsFor(s.pcs[g], |s.pcs|))
  {
  }

  /** A waker in its scan reaches p. */
  lemma {:induction false} ScanReaches(s: State, w: nat, p: nat) returns (ts: seq<Step>, z: State)
    requires p < |s.pcs| && w < |s.pcs| && s.pcs[p].Asleep? && s.pcs[w].Scanning? && s.pcs[w].next <= p
    ensures Exec(s, ts, z) && |z.pcs| == |s.pcs| && z.pcs[p].Woken? && z.made == s.made
    decreases p - s.pcs[w].next
  {
    var y := NextOf(s, w);
    if s.pcs[w].next == p {
      z := y;
      ts := [Next(w)];
      assert Exec(y, [], y);
    } else {
      var us;
      us, z := ScanReaches(y, w, p);
      ts := [Next(w)] + us;
    }
  }

  /** From every reachable state, a process asleep although value > 0 can be woken by the
      wakers already on their way: no new producer is needed. */
  lemma WakeupComes(s: State, p: nat) returns (ts: seq<Step>, z: State)
    requires Reachable(s) && p < |s.pcs| && Sleeping(s.pcs[p]) && s.value > 0
    ensures Exec(s, ts, z) && |z.pcs| == |s.pcs| && z.pcs[p].Woken? && z.made == s.made
  {
    var i, us :| Init(i) && Exec(i, us, s);
    InitInv(i);
    ExecInv(i, us, s);
    var y;
    ts, y := Drains(s, p);
    z := y;
    if !y.pcs[p].Woken? {
      assert Safe(y, p);
      var w :| 0 <= w < |y.pcs| && Owes(y.pcs[w], p);
      assert Held(y, w);
      var x := NextOf(y, w);
      ExecThen(s, ts, y, Next(w), x);
      var vs;
      vs, z := ScanReaches(x, w, p);
      ExecJoin(s, ts + [Next(w)], x, vs, z);
      ts := ts + [Next(w)] + vs;
    }
  }
}

/** Sleep and wakeup for any shared data, any conditions on it and any number of channels:
    the discipline every sleep and wakeup of the kernel follows (proc.c, spinlock.c). A
    process that waits on channel c tests c's condition under lk in a loop around sleep; a
    process that changes the data does so under lk and calls wakeup, before or after it lets
    go of lk, on every channel whose condition it made true.

    One step is one access to the data, or one acquire or release. */
module SleepChannels {
  datatype Lock = Free | By(p: nat)

  /** Where a process is; c is the channel it waits on, owed are the wakeups it has yet to
      call. */
  datatype Pc =
    | Idle
    | Wanting(c: nat)                                     // acquire(lk), first or on return from sleep
    | Testing(c: nat)                                     // holds lk, tests c's condition
    | Committed(c: nat)                                   // holds lk, in sleep: acquire(&ptable.lock)
    | Both(c: nat)                                        // holds both, in sleep: release(lk)
    | GoingDown(c: nat)                                   // holds ptable.lock: chan = c, state = SLEEPING
    | Down(c: nat)                                        // SLEEPING, its scheduler holds ptable.lock
    | Asleep(c: nat)                                      // SLEEPING
    | Woken(c: nat)                                       // RUNNABLE
    | Resumed(c: nat)                                     // running again, holds ptable.lock
    | Calling                                             // acquire(lk) of a process that does not wait
    | Inside(owed: set<nat>)                              // holds lk
    | Outside(owed: set<nat>)                             // has let go of lk
    | Scanning(inside: bool, owed: set<nat>, c: nat, next: nat)      // in wakeup1(c), holds ptable.lock

  datatype State<V> = State(lk: Lock, pl: Lock, data: V, pcs: seq<Pc>)

  datatype Step<V> =
    | Wait(p: nat, c: nat)                    // p starts to wait on c
    | Enter(p: nat)                           // p starts without waiting
    | Next(p: nat)                            // p's next step where it has no choice
    | Change(p: nat, v: V, owe: set<nat>)     // p stores v and takes on the wakeups owe
    | Wakeup(p: nat, c: nat)                  // p enters wakeup(c)
    | Release(p: nat)                         // p lets go of lk
    | Kill(k: nat)                            // kill wakes process k

  predicate InLk(c: Pc) {
    c.Testing? || c.Committed? || c.Both? || c.Inside? || (c.Scanning? && c.inside)
  }

  predicate InPl(c: Pc) {
    c.Both? || c.GoingDown? || c.Down? || c.Resumed? || c.Scanning?
  }

  /** p->state == SLEEPING. */
  predicate Sleeping(c: Pc) {
    c.Down? || c.Asleep?
  }

  predicate CanNext<V>(s: State<V>, c: Pc) {
    match c
    case Idle => false
    case Asleep(_) => false
    case Inside(_) => false
    case Outside(owed) => owed == {}
    case Wanting(_) => s.lk.Free?
    case Calling => s.lk.Free?
    case Committed(_) => s.pl.Free?
    case Woken(_) => s.pl.Free?
    case _ => true
  }

  /** A change takes on the wakeups of all conditions it makes true. */
  ghost predicate Enabled<V(!new)>(cond: (nat, V) -> bool, s: State<V>, t: Step<V>) {
    match t
    case Wait(p, c) => p < |s.pcs| && s.pcs[p].Idle?
    case Enter(p) => p < |s.pcs| && s.pcs[p].Idle?
    case Next(p) => p < |s.pcs| && CanNext(s, s.pcs[p])
    case Change(p, v, owe) =>
      p < |s.pcs| && s.pcs[p].Inside? && forall c: nat :: !cond(c, s.data) && cond(c, v) ==> c in owe
    case Wakeup(p, c) =>
      p < |s.pcs| && s.pl.Free? && (s.pcs[p].Inside? || s.pcs[p].Outside?) && c in s.pcs[p].owed
    case Release(p) => p < |s.pcs| && s.pcs[p].Inside?
    case Kill(k) => k < |s.pcs| && s.pl.Free?
  }

  function Wake(pcs: seq<Pc>, k: nat): (r: seq<Pc>)
    requires k < |pcs|
    ensures |r| == |pcs|
  {
    if pcs[k].Asleep? then pcs[k := Woken(pcs[k].c)] else pcs
  }

  function At<V>(s: State<V>, p: nat, c: Pc): State<V>
    requires p < |s.pcs|
  {
    s.(pcs := s.pcs[p := c])
  }

  ghost function NextOf<V>(cond: (nat, V) -> bool, s: State<V>, p: nat): (z: State<V>)
    requires p < |s.pcs| && CanNext(s, s.pcs[p])
    ensures |z.pcs| == |s.pcs|
  {
    match s.pcs[p]
    case Wanting(c) => At(s, p, Testing(c)).(lk := By(p))
    case Testing(c) => At(s, p, if cond(c, s.data) then Inside({}) else Committed(c))
    case Committed(c) => At(s, p, Both(c)).(pl := By(p))
    case Both(c) => At(s, p, GoingDown(c)).(lk := Free)
    case GoingDown(c) => At(s, p, Down(c))
    case Down(c) => At(s, p, Asleep(c)).(pl := Free)
    case Woken(c) => At(s, p, Resumed(c)).(pl := By(p))
    case Resumed(c) => At(s, p, Wanting(c)).(pl := Free)
    case Calling => At(s, p, Inside({})).(lk := By(p))
    case Outside(_) => At(s, p, Idle)
    case Scanning(inside, owed, c, i) =>
      if i < |s.pcs| then
        s.(pcs := (if s.pcs[i] == Asleep(c) then Wake(s.pcs, i) else s.pcs)[p := Scanning(inside, owed, c, i + 1)])
      else
        At(s, p, if inside then Inside(owed - {c}) else Outside(owed - {c})).(pl := Free)
  }

  ghost function Apply<V(!new)>(cond: (nat, V) -> bool, s: State<V>, t: Step<V>): (z: State<V>)
    requires Enabled(cond, s, t)
    ensures |z.pcs| == |s.pcs|
  {
    match t
    case Wait(p, c) => At(s, p, Wanting(c))
    case Enter(p) => At(s, p, Calling)
    case Next(p) => NextOf(cond, s, p)
    case Change(p, v, owe) => At(s, p, Inside(s.pcs[p].owed + owe)).(data := v)
    case Wakeup(p, c) => At(s, p, Scanning(s.pcs[p].Inside?, s.pcs[p].owed, c, 0)).(pl := By(p))
    case Release(p) => At(s, p, Outside(s.pcs[p].owed)).(lk := Free)
    case Kill(k) => s.(pcs := Wake(s.pcs, k))
  }

  predicate Init<V>(s: State<V>) {
    s.lk == Free && s.pl == Free && forall p :: 0 <= p < |s.pcs| ==> s.pcs[p] == Idle
  }

  ghost predicate Exec<V(!new)>(cond: (nat, V) -> bool, s: State<V>, ts: seq<Step<V>>, z: State<V>)
    decreases |ts|
  {
    if ts == [] then s == z else Enabled(cond, s, ts[0]) && Exec(cond, Apply(cond, s, ts[0]), ts[1..], z)
  }

  ghost predicate Reachable<V(!new)>(cond: (nat, V) -> bool, z: State<V>) {
    exists s, ts :: Init(s) && Exec(cond, s, ts, z)
  }

  /** A wait is over exactly when the condition holds, and lk is held while that is so. */
  lemma WaitEnds<V(!new)>(cond: (nat, V) -> bool, s: State<V>, t: Step<V>, z: State<V>, p: nat)
    requires Enabled(cond, s, t) && z == Apply(cond, s, t) && p < |s.pcs| && s.pcs[p].Testing? && z.pcs[p] != s.pcs[p]
    ensures z.data == s.data && z.lk == s.lk && t == Next(p)
    ensures z.pcs[p] == if cond(s.pcs[p].c, z.data) then Inside({}) else Committed(s.pcs[p].c)
  {
  }

  /** Nobody moves another process but to wake it: a scan for its channel that has come to
      it, or kill. */
  lemma OthersMove<V(!new)>(cond: (nat, V) -> bool, s: State<V>, t: Step<V>, z: State<V>, q: nat)
    requires Enabled(cond, s, t) && z == Apply(cond, s, t) && q < |s.pcs| && z.pcs[q] != s.pcs[q]
    requires t.Kill? || t.p != q
    ensures s.pcs[q].Asleep? && z.pcs[q] == Woken(s.pcs[q].c)
    ensures t == Kill(q) ||
            (t.Next? && s.pcs[t.p].Scanning? && s.pcs[t.p].c == s.pcs[q].c && s.pcs[t.p].next == q)
  {
  }

  // ---- The invariant ----

  /** A process at w has yet to look at process p for channel c. */
  predicate Owes(w: Pc, c: nat, p: nat) {
    ((w.Inside? || w.Outside?) && c in w.owed) || (w.Scanning? && c in w.owed && (w.c == c ==> w.next <= p))
  }

  /** p has decided to sleep and let go of lk. */
  predicate Sunk(c: Pc) {
    c.GoingDown? || c.Down? || c.Asleep?
  }

  ghost predicate Awaited(pcs: seq<Pc>, c: nat, p: nat) {
    exists w :: 0 <= w < |pcs| && Owes(pcs[w], c, p)
  }

  /** Who holds lk on its way to sleep has seen its condition false. */
  predicate Local<V>(cond: (nat, V) -> bool, c: Pc, v: V) {
    c.Committed? || c.Both? ==> !cond(c.c, v)
  }

  /** The holders of the locks are the processes inside. */
  predicate Held<V>(s: State<V>, p: nat)
    requires p < |s.pcs|
  {
    (InLk(s.pcs[p]) <==> s.lk == By(p)) && (InPl(s.pcs[p]) <==> s.pl == By(p))
  }

  /** No lost wakeup for p. */
  ghost predicate Safe<V>(cond: (nat, V) -> bool, s: State<V>, p: nat)
    requires p < |s.pcs|
  {
    Sunk(s.pcs[p]) && cond(s.pcs[p].c, s.data) ==> Awaited(s.pcs, s.pcs[p].c, p)
  }

  ghost predicate Locked<V>(cond: (nat, V) -> bool, s: State<V>) {
    (s.lk.By? ==> s.lk.p < |s.pcs|) && (s.pl.By? ==> s.pl.p < |s.pcs|) &&
    forall p {:trigger Held(s, p)} :: 0 <= p < |s.pcs| ==> Held(s, p) && Local(cond, s.pcs[p], s.data)
  }

  ghost predicate Inv<V>(cond: (nat, V) -> bool, s: State<V>) {
    Locked(cond, s) && forall p {:trigger Safe(cond, s, p)} :: 0 <= p < |s.pcs| ==> Safe(cond, s, p)
  }

  lemma InitInv<V(!new)>(cond: (nat, V) -> bool, s: State<V>)
    requires Init(s)
    ensures Inv(cond, s)
  {
    forall p | 0 <= p < |s.pcs|
      ensures Held(s, p) && Local(cond, s.pcs[p], s.data) && Safe(cond, s, p)
    {
    }
  }

  lemma StepLocked<V(!new)>(cond: (nat, V) -> bool, s: State<V>, t: Step<V>, z: State<V>)
    requires Locked(cond, s) && Enabled(cond, s, t) && z == Apply(cond, s, t)
    ensures Locked(cond, z)
  {
    if !t.Kill? { assert Held(s, t.p); }
    forall q | 0 <= q < |z.pcs|
      ensures Held(z, q) && Local(cond, z.pcs[q], z.data)
    {
      assert Held(s, q);
      if t.Next? {
        if t.p == q { NextActor(cond, s, q, z); } else { NextBystander(cond, s, t.p, z, q); }
      }
    }
  }

  lemma NextActor<V(!new)>(cond: (nat, V) -> bool, s: State<V>, p: nat, z: State<V>)
    requires p < |s.pcs| && Held(s, p) && Local(cond, s.pcs[p], s.data) && CanNext(s, s.pcs[p])
    requires z == NextOf(cond, s, p)
    ensures Held(z, p) && Local(cond, z.pcs[p], z.data)
  {
  }

  lemma NextBystander<V(!new)>(cond: (nat, V) -> bool, s: State<V>, p: nat, z: State<V>, q: nat)
    requires p < |s.pcs| && Held(s, p) && CanNext(s, s.pcs[p]) && z == NextOf(cond, s, p)
    requires q < |s.pcs| && q != p && Held(s, q) && Local(cond, s.pcs[q], s.data)
    ensures Held(z, q) && Local(cond, z.pcs[q], z.data)
  {
  }

  /** A process w that owes p its look still does after a step, or p has been woken. */
  lemma StepOwes<V(!new)>(cond: (nat, V) -> bool, s: State<V>, t: Step<V>, z: State<V>, p: nat, w: nat)
    requires Enabled(cond, s, t) && z == Apply(cond, s, t) && p < |s.pcs| && w < |s.pcs|
    requires Sunk(z.pcs[p]) && Sunk(s.pcs[p]) && Owes(s.pcs[w], s.pcs[p].c, p) && Held(s, w) && Held(s, p)
    ensures z.pcs[p].c == s.pcs[p].c && Owes(z.pcs[w], z.pcs[p].c, p)
  {
    if t.Next? {
      NextSunk(cond, s, t.p, z, p);
      if t.p == w { NextOwes(cond, s, w, z, p); } else { assert z.pcs[w] == s.pcs[w]; }
    }
  }

  lemma NextSunk<V(!new)>(cond: (nat, V) -> bool, s: State<V>, a: nat, z: State<V>, p: nat)
    requires a < |s.pcs| && p < |s.pcs| && CanNext(s, s.pcs[a]) && z == NextOf(cond, s, a)
    requires Sunk(s.pcs[p]) && Sunk(z.pcs[p])
    ensures z.pcs[p].c == s.pcs[p].c
  {
  }

  lemma NextOwes<V(!new)>(cond: (nat, V) -> bool, s: State<V>, w: nat, z: State<V>, p: nat)
    requires w < |s.pcs| && p < |s.pcs| && CanNext(s, s.pcs[w]) && z == NextOf(cond, s, w) && Held(s, w) && Held(s, p)
    requires Sunk(s.pcs[p]) && Sunk(z.pcs[p]) && Owes(s.pcs[w], s.pcs[p].c, p)
    ensures Owes(z.pcs[w], s.pcs[p].c, p)
  {
  }

  /** A process sinks only while its condition is false. */
  lemma SunkBefore<V(!new)>(cond: (nat, V) -> bool, s: State<V>, t: Step<V>, z: State<V>, p: nat)
    requires Enabled(cond, s, t) && z == Apply(cond, s, t) && p < |s.pcs| && Local(cond, s.pcs[p], s.data)
    requires Sunk(z.pcs[p]) && !Sunk(s.pcs[p])
    ensures z.data == s.data && !cond(z.pcs[p].c, z.data)
  {
  }

  /** Who makes a condition true owes its wakeup. */
  lemma StepRaises<V(!new)>(cond: (nat, V) -> bool, s: State<V>, t: Step<V>, z: State<V>, c: nat, p: nat)
    requires Enabled(cond, s, t) && z == Apply(cond, s, t) && !cond(c, s.data) && cond(c, z.data)
    ensures Awaited(z.pcs, c, p)
  {
    assert t.Change? && Owes(z.pcs[t.p], c, p);
  }

  lemma StepSafe<V(!new)>(cond: (nat, V) -> bool, s: State<V>, t: Step<V>, z: State<V>, p: nat)
    requires Inv(cond, s) && Enabled(cond, s, t) && z == Apply(cond, s, t) && p < |s.pcs|
    ensures Safe(cond, z, p)
  {
    if Sunk(z.pcs[p]) && cond(z.pcs[p].c, z.data) {
      assert Safe(cond, s, p) && Held(s, p);
      if !cond(z.pcs[p].c, s.data) {
        StepRaises(cond, s, t, z, z.pcs[p].c, p);
      } else {
        if !Sunk(s.pcs[p]) { SunkBefore(cond, s, t, z, p); }
        if t.Next? { NextSunk(cond, s, t.p, z, p); }
        var w :| 0 <= w < |s.pcs| && Owes(s.pcs[w], s.pcs[p].c, p);
        assert Held(s, w);
        StepOwes(cond, s, t, z, p, w);
      }
    }
  }

  lemma StepInv<V(!new)>(cond: (nat, V) -> bool, s: State<V>, t: Step<V>, z: State<V>)
    requires Inv(cond, s) && Enabled(cond, s, t) && z == Apply(cond, s, t)
    ensures Inv(cond, z)
  {
    StepLocked(cond, s, t, z);
    forall p | 0 <= p < |z.pcs|
      ensures Safe(cond, z, p)
    {
      StepSafe(cond, s, t, z, p);
    }
  }

  lemma {:induction false} ExecInv<V(!new)>(cond: (nat, V) -> bool, s: State<V>, ts: seq<Step<V>>, z: State<V>)
    requires Inv(cond, s) && Exec(cond, s, ts, z)
    ensures Inv(cond, z)
    decreases |ts|
  {
    if ts != [] {
      var y := Apply(cond, s, ts[0]);
      StepInv(cond, s, ts[0], y);
      ExecInv(cond, y, ts[1..], z);
    }
  }

  lemma ReachableInv<V(!new)>(cond: (nat, V) -> bool, s: State<V>)
    requires Reachable(cond, s)
    ensures Inv(cond, s)
  {
    var i, ts :| Init(i) && Exec(cond, i, ts, s);
    InitInv(cond, i);
    ExecInv(cond, i, ts, s);
  }

  // ---- What it promises ----

  /** No lost wakeup, for any data and conditions: in every reachable state, a process that
      sleeps on c although c's condition holds has a process that still owes it a look. */
  lemma NoLostWakeup<V(!new)>(cond: (nat, V) -> bool, s: State<V>, p: nat)
    requires Reachable(cond, s) && p < |s.pcs| && Sleeping(s.pcs[p]) && cond(s.pcs[p].c, s.data)
    ensures exists w :: 0 <= w < |s.pcs| && Owes(s.pcs[w], s.pcs[p].c, p)
  {
    ReachableInv(cond, s);
    assert Safe(cond, s, p);
  }

  /** Both locks exclude. */
  lemma OneHolder<V(!new)>(cond: (nat, V) -> bool, s: State<V>, p: nat, q: nat)
    requires Reachable(cond, s) && p < |s.pcs| && q < |s.pcs| && p != q
    ensures !(InLk(s.pcs[p]) && InLk(s.pcs[q])) && !(InPl(s.pcs[p]) && InPl(s.pcs[q]))
  {
    ReachableInv(cond, s);
    assert Held(s, p) && Held(s, q);
  }

  // ---- The sleeper can be woken ----

  lemma {:induction false} ExecJoin<V(!new)>(cond: (nat, V) -> bool, s: State<V>, ts: seq<Step<V>>, y: State<V>,
                                             us: seq<Step<V>>, z: State<V>)
    requires Exec(cond, s, ts, y) && Exec(cond, y, us, z)
    ensures Exec(cond, s, ts + us, z)
    decreases |ts|
  {
    if ts == [] {
      assert ts + us == us;
    } else {
      ExecJoin(cond, Apply(cond, s, ts[0]), ts[1..], y, us, z);
      assert (ts + us)[0] == ts[0] && (ts + us)[1..] == ts[1..] + us;
    }
  }

  lemma ExecOne<V(!new)>(cond: (nat, V) -> bool, s: State<V>, t: Step<V>, us: seq<Step<V>>, z: State<V>)
    requires Enabled(cond, s, t) && Exec(cond, Apply(cond, s, t), us, z)
    ensures Exec(cond, s, [t] + us, z)
  {
    assert ([t] + us)[0] == t && ([t] + us)[1..] == us;
  }

  /** How many steps the holder of ptable.lock at c needs to release it, at most. */
  function HoldsFor(c: Pc, n: nat): nat {
    match c
    case Both(_) => 3
    case GoingDown(_) => 2
    case Down(_) => 1
    case Resumed(_) => 1
    case Scanning(_, _, _, i) => if i < n then n - i + 1 else 1
    case _ => 0
  }

  /** The holder of ptable.lock lets go of it without touching the data. */
  lemma {:induction false} Drains<V(!new)>(cond: (nat, V) -> bool, s: State<V>, p: nat)
    returns (ts: seq<Step<V>>, z: State<V>)
    requires Inv(cond, s) && p < |s.pcs| && Sunk(s.pcs[p])
    ensures Exec(cond, s, ts, z) && Inv(cond, z) && |z.pcs| == |s.pcs| && z.data == s.data
    ensures z.pcs[p].Woken? || (z.pl.Free? && z.pcs[p] == Asleep(s.pcs[p].c))
    decreases if s.pl.By? && s.pl.p < |s.pcs| then HoldsFor(s.pcs[s.pl.p], |s.pcs|) else 0
  {
    assert Held(s, p);
    if s.pl.Free? {
      ts, z := [], s;
    } else {
      var g := s.pl.p;
      assert Held(s, g);
      var y := NextOf(cond, s, g);
      StepInv(cond, s, Next(g), y);
      var us := [];
      DrainStep(cond, s, g, y, p);
      if y.pcs[p].Woken? {
        z := y;
      } else {
        us, z := Drains(cond, y, p);
      }
      ts := [Next(g)] + us;
      ExecOne(cond, s, Next(g), us, z);
    }
  }

  lemma DrainStep<V(!new)>(cond: (nat, V) -> bool, s: State<V>, g: nat, y: State<V>, p: nat)
    requires g < |s.pcs| && s.pl == By(g) && InPl(s.pcs[g]) && CanNext(s, s.pcs[g]) && y == NextOf(cond, s, g)
    requires p < |s.pcs| && Sunk(s.pcs[p])
    ensures y.data == s.data && (y.pcs[p].Woken? || (Sunk(y.pcs[p]) && y.pcs[p].c == s.pcs[p].c))
    ensures y.pl == Free || (y.pl == By(g) && HoldsFor(y.pcs[g], |y.pcs|) < HoldsFor(s.pcs[g], |s.pcs|))
  {
  }

  /** A scan of p's channel reaches p. */
  lemma {:induction false} ScanReaches<V(!new)>(cond: (nat, V) -> bool, s: State<V>, w: nat, p: nat)
    returns (ts: seq<Step<V>>, z: State<V>)
    requires p < |s.pcs| && w < |s.pcs| && s.pcs[w].Scanning? && s.pcs[w].next <= p && s.pcs[p] == Asleep(s.pcs[w].c)
    ensures Exec(cond, s, ts, z) && |z.pcs| == |s.pcs| && z.pcs[p].Woken? && z.data == s.data
    decreases p - s.pcs[w].next
  {
    var y := NextOf(cond, s, w);
    var us := [];
    if s.pcs[w].next == p {
      z := y;
    } else {
      us, z := ScanReaches(cond, y, w, p);
    }
    ts := [Next(w)] + us;
    ExecOne(cond, s, Next(w), us, z);
  }

  /** From every reachable state, a process asleep although its condition holds can be woken
      by the wakeups already owed: nobody need change the data again. */
  lemma WakeupComes<V(!new)>(cond: (nat, V) -> bool, s: State<V>, p: nat) returns (ts: seq<Step<V>>, z: State<V>)
    requires Reachable(cond, s) && p < |s.pcs| && Sleeping(s.pcs[p]) && cond(s.pcs[p].c, s.data)
    ensures Exec(cond, s, ts, z) && |z.pcs| == |s.pcs| && z.pcs[p].Woken? && z.data == s.data
  {
    ReachableInv(cond, s);
    var y;
    ts, y := Drains(cond, s, p);
    z := y;
    if !y.pcs[p].Woken? {
      var us;
      us, z := OwedScan(cond, y, p);
      ExecJoin(cond, s, ts, y, us, z);
      ts := ts + us;
    }
  }

  lemma OwedScan<V(!new)>(cond: (nat, V) -> bool, y: State<V>, p: nat) returns (ts: seq<Step<V>>, z: State<V>)
    requires Inv(cond, y) && p < |y.pcs| && y.pcs[p].Asleep? && y.pl.Free? && cond(y.pcs[p].c, y.data)
    ensures Exec(cond, y, ts, z) && |z.pcs| == |y.pcs| && z.pcs[p].Woken? && z.data == y.data
  {
    assert Safe(cond, y, p);
    var c := y.pcs[p].c;
    var w :| 0 <= w < |y.pcs| && Owes(y.pcs[w], c, p);
    assert Held(y, w);
    var x := Apply(cond, y, Wakeup(w, c));
    var us;
    us, z := ScanReaches(cond, x, w, p);
    ts := [Wakeup(w, c)] + us;
    ExecOne(cond, y, Wakeup(w, c), us, z);
  }
}

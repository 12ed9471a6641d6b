/** The process table: fork, exit, wait, sleep, wakeup, kill and the scheduler's choice,
    each section under ptable.lock as one call (proc.c). */
module ProcTable {
  datatype PState = UNUSED | EMBRYO | SLEEPING | RUNNABLE | RUNNING | ZOMBIE

  /** wait sleeps on the caller's own slot; everyone else on other addresses. */
  datatype Chan = NoChan | Slot(i: nat) | Other(a: nat)

  datatype Parent = NoParent | Of(i: nat)

  datatype Proc = Proc(state: PState, pid: nat, parent: Parent, chan: Chan, killed: bool)

  const NPROC := 64

  predicate Alive(s: PState) {
    s == SLEEPING || s == RUNNABLE || s == RUNNING
  }

  /** p sleeps in wait. */
  predicate InWait(ps: seq<Proc>, p: nat)
    requires p < |ps|
  {
    ps[p].state == SLEEPING && ps[p].chan == Slot(p)
  }

  // ---- What holds whenever ptable.lock is free ----

  /** Slot i, as far as its own fields and its parent's go. */
  predicate SlotOk(ps: seq<Proc>, init: nat, i: nat)
    requires i < |ps|
  {
    (ps[i].state == UNUSED ==> ps[i].parent == NoParent) &&
    (ps[i].parent.Of? ==> ps[i].parent.i != i && ps[i].parent.i < |ps| && Alive(ps[ps[i].parent.i].state)) &&
    (Alive(ps[i].state) && i != init ==> ps[i].parent.Of?) &&
    (ps[i].state == ZOMBIE ==> i != init && ps[i].parent.Of? && !InWait(ps, ps[i].parent.i)) &&
    (ps[i].state == SLEEPING && ps[i].chan.Slot? ==> ps[i].chan == Slot(i))
  }

  /** A slot being filled by fork belongs to a process that is running it. */
  predicate ForkOk(ps: seq<Proc>, forking: map<nat, nat>, i: nat)
    requires i < |ps|
  {
    (ps[i].state == EMBRYO <==> i in forking) &&
    (i in forking ==>
       forking[i] < |ps| && Alive(ps[forking[i]].state) && !InWait(ps, forking[i]) &&
       (ps[i].parent == NoParent || ps[i].parent == Of(forking[i])))
  }

  /** Process numbers are not reused. */
  predicate PidOk(ps: seq<Proc>, nextpid: nat, reaped: set<nat>, i: nat)
    requires i < |ps|
  {
    ps[i].state != UNUSED ==> 0 < ps[i].pid < nextpid && ps[i].pid !in reaped
  }

  ghost predicate PidsDiffer(ps: seq<Proc>) {
    forall i, j ::
      0 <= i < |ps| && 0 <= j < |ps| && ps[i].state != UNUSED && ps[j].state != UNUSED && ps[i].pid == ps[j].pid ==>
      i == j
  }

  ghost predicate Ok(ps: seq<Proc>, init: nat, nextpid: nat, forking: map<nat, nat>, reaped: set<nat>) {
    init < |ps| && Alive(ps[init].state) && ps[init].parent == NoParent &&
    (forall i {:trigger SlotOk(ps, init, i)} :: 0 <= i < |ps| ==> SlotOk(ps, init, i)) &&
    (forall i {:trigger ForkOk(ps, forking, i)} :: 0 <= i < |ps| ==> ForkOk(ps, forking, i)) &&
    (forall i {:trigger PidOk(ps, nextpid, reaped, i)} :: 0 <= i < |ps| ==> PidOk(ps, nextpid, reaped, i)) &&
    (forall r :: r in reaped ==> r < nextpid) && PidsDiffer(ps)
  }

  /** No process in use has a parent that is unused or a zombie. */
  lemma ParentsLive(ps: seq<Proc>, init: nat, nextpid: nat, forking: map<nat, nat>, reaped: set<nat>, i: nat)
    requires Ok(ps, init, nextpid, forking, reaped) && i < |ps| && ps[i].parent.Of?
    ensures ps[i].parent.i < |ps| && ps[ps[i].parent.i].state != UNUSED && ps[ps[i].parent.i].state != ZOMBIE
    ensures ps[i].state != UNUSED
  {
    assert SlotOk(ps, init, i);
  }

  /** Nobody sleeps in wait while a child of theirs is a zombie. */
  lemma NoMissedExit(ps: seq<Proc>, init: nat, nextpid: nat, forking: map<nat, nat>, reaped: set<nat>, p: nat, c: nat)
    requires Ok(ps, init, nextpid, forking, reaped) && p < |ps| && c < |ps| && ps[c].parent == Of(p) && InWait(ps, p)
    ensures ps[c].state != ZOMBIE
  {
    assert SlotOk(ps, init, c);
  }

  // ---- The steps, slot by slot ----

  function Wake(p: Proc, c: Chan): Proc {
    if p.state == SLEEPING && p.chan == c then p.(state := RUNNABLE) else p
  }

  /** Changing the state of some slots between alive states, and nobody newly into wait. */
  ghost predicate Stirred(ps: seq<Proc>, qs: seq<Proc>) {
    |qs| == |ps| &&
    forall i :: 0 <= i < |ps| ==>
      qs[i] == ps[i] ||
      (Alive(ps[i].state) && Alive(qs[i].state) && qs[i].pid == ps[i].pid && qs[i].parent == ps[i].parent &&
       (qs[i].state == SLEEPING ==> qs[i].chan.Other?)) ||
      qs[i] == ps[i].(killed := qs[i].killed)
  }

  lemma StirredOk(ps: seq<Proc>, qs: seq<Proc>, init: nat, nextpid: nat, forking: map<nat, nat>, reaped: set<nat>)
    requires Ok(ps, init, nextpid, forking, reaped) && Stirred(ps, qs)
    ensures Ok(qs, init, nextpid, forking, reaped)
  {
    forall i | 0 <= i < |qs|
      ensures SlotOk(qs, init, i) && ForkOk(qs, forking, i) && PidOk(qs, nextpid, reaped, i)
    {
      assert SlotOk(ps, init, i) && ForkOk(ps, forking, i) && PidOk(ps, nextpid, reaped, i);
    }
  }

  /** allocproc's locked part: slot np, unused so far, for a fork by cur. */
  lemma AllocatedOk(ps: seq<Proc>, np: nat, cur: nat, qs: seq<Proc>, init: nat, nextpid: nat, forking: map<nat, nat>,
        reaped: set<nat>)
    requires Ok(ps, init, nextpid, forking, reaped) && np < |ps| && ps[np].state == UNUSED && 0 < nextpid
    requires cur < |ps| && ps[cur].state == RUNNING && qs == ps[np := ps[np].(state := EMBRYO, pid := nextpid)]
    ensures Ok(qs, init, nextpid + 1, forking[np := cur], reaped)
  {
    assert ForkOk(ps, forking, np) && SlotOk(ps, init, np);
    var next, fk := nextpid + 1, forking[np := cur];
    forall i | 0 <= i < |qs|
      ensures SlotOk(qs, init, i) && ForkOk(qs, fk, i) && PidOk(qs, next, reaped, i)
    {
      assert SlotOk(ps, init, i) && ForkOk(ps, forking, i) && PidOk(ps, nextpid, reaped, i);
    }
    forall i, j | 0 <= i < |qs| && 0 <= j < |qs| && qs[i].state != UNUSED && qs[j].state != UNUSED &&
      qs[i].pid == qs[j].pid
      ensures i == j
    {
      assert PidOk(ps, nextpid, reaped, i) && PidOk(ps, nextpid, reaped, j);
    }
    assert Ok(qs, init, next, fk, reaped);
  }

  /** fork gives slot np up again, or finishes it. */
  lemma ForkEndsOk(ps: seq<Proc>, np: nat, qs: seq<Proc>, init: nat, nextpid: nat, forking: map<nat, nat>,
        reaped: set<nat>)
    requires Ok(ps, init, nextpid, forking, reaped) && np < |ps| && np in forking
    requires (ps[np].parent == NoParent && qs == ps[np := ps[np].(state := UNUSED)]) ||
             (ps[np].parent.Of? && qs == ps[np := ps[np].(state := RUNNABLE)])
    ensures Ok(qs, init, nextpid, forking - {np}, reaped)
  {
    assert ForkOk(ps, forking, np) && SlotOk(ps, init, np);
    forall i | 0 <= i < |qs|
      ensures SlotOk(qs, init, i) && ForkOk(qs, forking - {np}, i) && PidOk(qs, nextpid, reaped, i)
    {
      assert SlotOk(ps, init, i) && ForkOk(ps, forking, i) && PidOk(ps, nextpid, reaped, i);
    }
  }

  lemma ParentSetOk(ps: seq<Proc>, np: nat, qs: seq<Proc>, init: nat, nextpid: nat, forking: map<nat, nat>,
        reaped: set<nat>)
    requires Ok(ps, init, nextpid, forking, reaped) && np < |ps| && np in forking
    requires qs == ps[np := ps[np].(parent := Of(forking[np]))]
    ensures Ok(qs, init, nextpid, forking, reaped)
  {
    assert ForkOk(ps, forking, np) && SlotOk(ps, init, np);
    forall i | 0 <= i < |qs|
      ensures SlotOk(qs, init, i) && ForkOk(qs, forking, i) && PidOk(qs, nextpid, reaped, i)
    {
      assert SlotOk(ps, init, i) && ForkOk(ps, forking, i) && PidOk(ps, nextpid, reaped, i);
    }
  }

  /** Slot i after cur's exit; z tells whether cur left a zombie child. */
  function AfterExit(ps: seq<Proc>, cur: nat, init: nat, z: bool, i: nat): Proc
    requires i < |ps| && cur < |ps|
  {
    var a := if ps[cur].parent.Of? then Wake(ps[i], Slot(ps[cur].parent.i)) else ps[i];
    var b := if z then Wake(a, Slot(init)) else a;
    var c := if b.parent == Of(cur) then b.(parent := Of(init)) else b;
    if i == cur then c.(state := ZOMBIE) else c
  }

  ghost predicate LeavesZombie(ps: seq<Proc>, cur: nat) {
    exists j :: 0 <= j < |ps| && ps[j].parent == Of(cur) && ps[j].state == ZOMBIE
  }

  lemma ExitedOk(ps: seq<Proc>, cur: nat, qs: seq<Proc>, init: nat, nextpid: nat, forking: map<nat, nat>,
        reaped: set<nat>)
    requires Ok(ps, init, nextpid, forking, reaped) && cur < |ps| && cur != init && ps[cur].state == RUNNING
    requires cur !in forking.Values && |qs| == |ps|
    requires forall i :: 0 <= i < |ps| ==> qs[i] == AfterExit(ps, cur, init, LeavesZombie(ps, cur), i)
    ensures Ok(qs, init, nextpid, forking, reaped)
  {
    assert SlotOk(ps, init, cur);
    assert SlotOk(ps, init, init);
    forall i | 0 <= i < |qs|
      ensures SlotOk(qs, init, i) && ForkOk(qs, forking, i) && PidOk(qs, nextpid, reaped, i)
    {
      assert SlotOk(ps, init, i) && ForkOk(ps, forking, i) && PidOk(ps, nextpid, reaped, i);
      ExitedSlot(ps, cur, qs, init, LeavesZombie(ps, cur), i);
      ExitedFork(ps, cur, qs, init, forking, i);
    }
    ExitedPids(ps, cur, qs, init, LeavesZombie(ps, cur));
  }

  lemma ExitedPids(ps: seq<Proc>, cur: nat, qs: seq<Proc>, init: nat, z: bool)
    requires cur < |ps| && ps[cur].state == RUNNING && |qs| == |ps| && PidsDiffer(ps)
    requires forall i :: 0 <= i < |ps| ==> qs[i] == AfterExit(ps, cur, init, z, i)
    ensures PidsDiffer(qs)
  {
    forall i | 0 <= i < |ps|
      ensures qs[i].pid == ps[i].pid && (qs[i].state == UNUSED <==> ps[i].state == UNUSED)
    {
      if i != cur { AfterExitFacts(ps, cur, init, z, i, qs[i]); }
    }
  }

  /** Exit wakes or leaves alone the slots other than cur, and moves cur's children. */
  lemma AfterExitFacts(ps: seq<Proc>, cur: nat, init: nat, z: bool, i: nat, q: Proc)
    requires cur < |ps| && i < |ps| && i != cur && q == AfterExit(ps, cur, init, z, i)
    ensures q.pid == ps[i].pid && q.chan == ps[i].chan &&
            q.parent == if ps[i].parent == Of(cur) then Of(init) else ps[i].parent
    ensures q.state == ps[i].state || (ps[i].state == SLEEPING && q.state == RUNNABLE)
    ensures z && ps[i].chan == Slot(init) ==> q.state != SLEEPING
    ensures ps[cur].parent == Of(i) && ps[i].chan == Slot(i) ==> q.state != SLEEPING
  {
  }

  lemma ExitedSlot(ps: seq<Proc>, cur: nat, qs: seq<Proc>, init: nat, z: bool, i: nat)
    requires cur < |ps| && cur != init && ps[cur].state == RUNNING && i < |ps| && |qs| == |ps|
    requires init < |ps| && Alive(ps[init].state) && ps[init].parent == NoParent
    requires forall i :: 0 <= i < |ps| ==> qs[i] == AfterExit(ps, cur, init, z, i)
    requires SlotOk(ps, init, i) && SlotOk(ps, init, cur) && (ps[i].parent == Of(cur) && ps[i].state == ZOMBIE ==> z)
    ensures SlotOk(qs, init, i)
  {
    AfterExitFacts(ps, cur, init, z, init, qs[init]);
    if i == cur {
      AfterExitFacts(ps, cur, init, z, ps[cur].parent.i, qs[ps[cur].parent.i]);
      assert qs[cur].parent == ps[cur].parent && qs[cur].state == ZOMBIE;
    } else {
      AfterExitFacts(ps, cur, init, z, i, qs[i]);
      if ps[i].parent.Of? && ps[i].parent.i != cur {
        AfterExitFacts(ps, cur, init, z, ps[i].parent.i, qs[ps[i].parent.i]);
      }
    }
  }

  lemma ExitedFork(ps: seq<Proc>, cur: nat, qs: seq<Proc>, init: nat, forking: map<nat, nat>, i: nat)
    requires cur < |ps| && ps[cur].state == RUNNING && cur !in forking.Values && i < |ps| && |qs| == |ps|
    requires forall i :: 0 <= i < |ps| ==> qs[i] == AfterExit(ps, cur, init, LeavesZombie(ps, cur), i)
    requires ForkOk(ps, forking, i)
    ensures ForkOk(qs, forking, i)
  {
    if i in forking {
      assert forking[i] in forking.Values;
      assert qs[forking[i]] == AfterExit(ps, cur, init, LeavesZombie(ps, cur), forking[i]);
    }
  }

  /** wait frees the slot of a zombie child. */
  lemma ReapedOk(ps: seq<Proc>, c: nat, qs: seq<Proc>, init: nat, nextpid: nat, forking: map<nat, nat>,
        reaped: set<nat>)
    requires Ok(ps, init, nextpid, forking, reaped) && c < |ps| && ps[c].state == ZOMBIE
    requires qs == ps[c := Proc(UNUSED, 0, NoParent, ps[c].chan, false)]
    ensures Ok(qs, init, nextpid, forking, reaped + {ps[c].pid}) && ps[c].pid !in reaped
  {
    assert SlotOk(ps, init, c) && PidOk(ps, nextpid, reaped, c) && ForkOk(ps, forking, c);
    forall i | 0 <= i < |qs|
      ensures SlotOk(qs, init, i) && ForkOk(qs, forking, i) && PidOk(qs, nextpid, reaped + {ps[c].pid}, i)
    {
      assert SlotOk(ps, init, i) && ForkOk(ps, forking, i) && PidOk(ps, nextpid, reaped, i);
    }
  }

  /** wait goes to sleep when none of its children is a zombie. */
  lemma WaitingOk(ps: seq<Proc>, cur: nat, qs: seq<Proc>, init: nat, nextpid: nat, forking: map<nat, nat>,
        reaped: set<nat>)
    requires Ok(ps, init, nextpid, forking, reaped) && cur < |ps| && ps[cur].state == RUNNING && cur !in forking.Values
    requires forall c :: 0 <= c < |ps| && ps[c].parent == Of(cur) ==> ps[c].state != ZOMBIE
    requires qs == ps[cur := ps[cur].(state := SLEEPING, chan := Slot(cur))]
    ensures Ok(qs, init, nextpid, forking, reaped)
  {
    forall i | 0 <= i < |qs|
      ensures SlotOk(qs, init, i) && ForkOk(qs, forking, i) && PidOk(qs, nextpid, reaped, i)
    {
      assert SlotOk(ps, init, i) && ForkOk(ps, forking, i) && PidOk(ps, nextpid, reaped, i);
    }
  }

  datatype WaitResult = Reaped(pid: nat) | NoChildren | Slept

  class Table {
    const proc: array<Proc>
    const init: nat
    var nextpid: nat
    ghost var forking: map<nat, nat>     // slots being filled, and the process in fork
    ghost var reaped: set<nat>           // pids wait has returned

    ghost predicate Valid()
      reads this, proc
    {
      proc.Length == NPROC && 0 < nextpid && Ok(proc[..], init, nextpid, forking, reaped)
    }

    /** The table after userinit. */
    constructor ()
      ensures Valid() && init == 0 && nextpid == 2 && reaped == {} && fresh(proc)
      ensures forall i :: 1 <= i < NPROC ==> proc[i].state == UNUSED
    {
      init, nextpid, forking, reaped := 0, 2, map[], {};
      proc := new Proc[NPROC](_ => Proc(UNUSED, 0, NoParent, NoChan, false));
      new;
      proc[0] := Proc(RUNNABLE, 1, NoParent, NoChan, false);
      forall i | 0 <= i < NPROC
        ensures SlotOk(proc[..], 0, i) && ForkOk(proc[..], map[], i) && PidOk(proc[..], 2, {}, i)
      {
      }
    }

    /** allocproc's search and claim; -1 when no slot is unused. */
    method AllocProc(cur: nat) returns (np: int)
      requires Valid() && cur < NPROC && proc[cur].state == RUNNING
      modifies this, proc
      ensures Valid() && reaped == old(reaped)
      ensures nextpid == old(nextpid) + (if np == -1 then 0 else 1)
      ensures np == -1 ==> proc[..] == old(proc[..]) && forking == old(forking)
      ensures np == -1 ==> forall i :: 0 <= i < NPROC ==> proc[i].state != UNUSED
      ensures np != -1 ==>
                0 <= np < NPROC && old(proc[np]).state == UNUSED &&
                  (forall i :: 0 <= i < np ==> old(proc[i]).state != UNUSED) &&
                proc[..] == old(proc[..])[np := old(proc[np]).(state := EMBRYO, pid := old(nextpid))] &&
                  forking == old(forking)[np := cur]
    {
      var p := 0;
      while p < NPROC
        invariant 0 <= p <= NPROC && forall i :: 0 <= i < p ==> proc[i].state != UNUSED
      {
        if proc[p].state == UNUSED { break; }
        p := p + 1;
      }
      if p == NPROC { return -1; }
      ghost var ps := proc[..];
      proc[p] := proc[p].(state := EMBRYO, pid := nextpid);
      AllocatedOk(ps, p, cur, proc[..], init, nextpid, forking, reaped);
      nextpid, forking := nextpid + 1, forking[p := cur];
      np := p;
    }

    /** fork cannot copy the address space: the slot is unused again. */
    method ForkFails(np: nat)
      requires Valid() && np < NPROC && np in forking && proc[np].parent == NoParent
      modifies this, proc
      ensures Valid() && proc[..] == old(proc[..])[np := old(proc[np]).(state := UNUSED)] && reaped == old(reaped)
      ensures forking == old(forking) - {np} && nextpid == old(nextpid)
    {
      ghost var ps := proc[..];
      proc[np] := proc[np].(state := UNUSED);
      ForkEndsOk(ps, np, proc[..], init, nextpid, forking, reaped);
      forking := forking - {np};
    }

    /** fork's np->parent = proc, without the lock. */
    method ForkSetsParent(np: nat, cur: nat)
      requires Valid() && np < NPROC && np in forking && forking[np] == cur
      modifies proc
      ensures Valid() && proc[..] == old(proc[..])[np := old(proc[np]).(parent := Of(cur))]
    {
      ghost var ps := proc[..];
      proc[np] := proc[np].(parent := Of(cur));
      ParentSetOk(ps, np, proc[..], init, nextpid, forking, reaped);
    }

    /** fork's last step. */
    method ForkRuns(np: nat) returns (pid: nat)
      requires Valid() && np < NPROC && np in forking && proc[np].parent.Of?
      modifies this, proc
      ensures Valid() && proc[..] == old(proc[..])[np := old(proc[np]).(state := RUNNABLE)] && reaped == old(reaped)
      ensures pid == proc[np].pid && forking == old(forking) - {np} && nextpid == old(nextpid)
    {
      ghost var ps := proc[..];
      pid := proc[np].pid;
      proc[np] := proc[np].(state := RUNNABLE);
      ForkEndsOk(ps, np, proc[..], init, nextpid, forking, reaped);
      forking := forking - {np};
    }

    /** wakeup1: everyone asleep on c becomes runnable, nobody else changes. */
    method Wakeup1(c: Chan)
      requires proc.Length == NPROC
      modifies proc
      ensures forall i :: 0 <= i < NPROC ==> proc[i] == Wake(old(proc[i]), c)
    {
      var p := 0;
      while p < NPROC
        invariant 0 <= p <= NPROC
        invariant forall i :: 0 <= i < p ==> proc[i] == Wake(old(proc[i]), c)
        invariant forall i :: p <= i < NPROC ==> proc[i] == old(proc[i])
      {
        if proc[p].state == SLEEPING && proc[p].chan == c { proc[p] := proc[p].(state := RUNNABLE); }
        p := p + 1;
      }
    }

    /** wakeup. */
    method Wakeup(c: Chan)
      requires Valid()
      modifies proc
      ensures Valid() && forall i :: 0 <= i < NPROC ==> proc[i] == Wake(old(proc[i]), c)
      ensures forall i :: 0 <= i < NPROC ==>
                proc[i] == if old(proc[i]).state == SLEEPING && old(proc[i]).chan == c
                           then old(proc[i]).(state := RUNNABLE) else old(proc[i])
    {
      ghost var ps := proc[..];
      Wakeup1(c);
      StirredOk(ps, proc[..], init, nextpid, forking, reaped);
    }

    /** sleep on an address other than a process slot. */
    method Sleep(cur: nat, a: nat)
      requires Valid() && cur < NPROC && proc[cur].state == RUNNING
      modifies proc
      ensures Valid() && proc[..] == old(proc[..])[cur := old(proc[cur]).(state := SLEEPING, chan := Other(a))]
    {
      ghost var ps := proc[..];
      proc[cur] := proc[cur].(state := SLEEPING, chan := Other(a));
      StirredOk(ps, proc[..], init, nextpid, forking, reaped);
    }

    /** The scheduler picks p. */
    method Run(p: nat)
      requires Valid() && p < NPROC && proc[p].state == RUNNABLE
      modifies proc
      ensures Valid() && proc[..] == old(proc[..])[p := old(proc[p]).(state := RUNNING)]
    {
      ghost var ps := proc[..];
      proc[p] := proc[p].(state := RUNNING);
      StirredOk(ps, proc[..], init, nextpid, forking, reaped);
    }

    /** yield. */
    method Yield(cur: nat)
      requires Valid() && cur < NPROC && proc[cur].state == RUNNING
      modifies proc
      ensures Valid() && proc[..] == old(proc[..])[cur := old(proc[cur]).(state := RUNNABLE)]
    {
      ghost var ps := proc[..];
      proc[cur] := proc[cur].(state := RUNNABLE);
      StirredOk(ps, proc[..], init, nextpid, forking, reaped);
    }

    /** kill: the first slot with that pid is marked, and woken if it sleeps. */
    method Kill(pid: nat) returns (ok: bool, ghost k: nat)
      requires Valid()
      modifies proc
      ensures Valid()
      ensures ok ==>
                k < NPROC && old(proc[k]).pid == pid && (forall i :: 0 <= i < k ==> old(proc[i]).pid != pid) &&
                proc[k] == old(proc[k]).(killed := true,
                  state := if old(proc[k]).state == SLEEPING then RUNNABLE else old(proc[k]).state) &&
                forall i :: 0 <= i < NPROC && i != k ==> proc[i] == old(proc[i])
      ensures !ok ==> proc[..] == old(proc[..]) && forall i :: 0 <= i < NPROC ==> proc[i].pid != pid
    {
      ghost var ps := proc[..];
      var p := 0;
      while p < NPROC
        invariant 0 <= p <= NPROC && proc[..] == ps && forall i :: 0 <= i < p ==> ps[i].pid != pid
      {
        if proc[p].pid == pid {
          proc[p] := proc[p].(killed := true);
          if proc[p].state == SLEEPING { proc[p] := proc[p].(state := RUNNABLE); }
          StirredOk(ps, proc[..], init, nextpid, forking, reaped);
          return true, p;
        }
        p := p + 1;
      }
      return false, 0;
    }

    /** exit's loop over the children of cur. */
    method Abandon(cur: nat, ghost qs: seq<Proc>)
      requires proc.Length == NPROC && cur < NPROC && proc[..] == qs
      modifies proc
      ensures forall i :: 0 <= i < NPROC ==>
                var b := if LeavesZombie(qs, cur) then Wake(qs[i], Slot(init)) else qs[i];
                proc[i] == if b.parent == Of(cur) then b.(parent := Of(init)) else b
    {
      var p := 0;
      ghost var z := false;
      while p < NPROC
        invariant 0 <= p <= NPROC && (z <==> exists j :: 0 <= j < p && qs[j].parent == Of(cur) && qs[j].state == ZOMBIE)
        invariant forall i :: 0 <= i < NPROC ==>
                    var b := if z then Wake(qs[i], Slot(init)) else qs[i];
                    proc[i] == if i < p && b.parent == Of(cur) then b.(parent := Of(init)) else b
      {
        if proc[p].parent == Of(cur) {
          proc[p] := proc[p].(parent := Of(init));
          if proc[p].state == ZOMBIE {
            Wakeup1(Slot(init));
            z := true;
          }
        }
        p := p + 1;
      }
    }

    /** exit: cur is a zombie, its parent awake, its children init's; true is the panic
        "init exiting". */
    method Exit(cur: nat) returns (panic: bool)
      requires Valid() && cur < NPROC && proc[cur].state == RUNNING && cur !in forking.Values
      modifies proc
      ensures panic <==> cur == init
      ensures Valid()
      ensures panic ==> proc[..] == old(proc[..])
      ensures !panic ==>
                proc[cur] == old(proc[cur]).(state := ZOMBIE) && proc[cur].parent.Of? && proc[cur].parent.i < NPROC &&
                !InWait(proc[..], proc[cur].parent.i)
      ensures !panic ==> forall i :: 0 <= i < NPROC && i != cur ==>
                proc[i].pid == old(proc[i]).pid && proc[i].chan == old(proc[i]).chan &&
                proc[i].killed == old(proc[i]).killed &&
                proc[i].parent == (if old(proc[i]).parent == Of(cur) then Of(init) else old(proc[i]).parent) &&
                proc[i].state == if old(proc[i]).state == SLEEPING &&
                                    (old(proc[i]).chan == Slot(old(proc[cur]).parent.i) ||
                                     (old(proc[i]).chan == Slot(init) && LeavesZombie(old(proc[..]), cur)))
                                 then RUNNABLE else old(proc[i]).state
    {
      if cur == init { return true; }
      ghost var ps := proc[..];
      assert SlotOk(ps, init, cur);
      Wakeup1(Slot(proc[cur].parent.i));
      ghost var qs := proc[..];
      SameZombies(ps, qs, cur, ps[cur].parent.i);
      Abandon(cur, qs);
      proc[cur] := proc[cur].(state := ZOMBIE);
      ExitedOk(ps, cur, proc[..], init, nextpid, forking, reaped);
      assert SlotOk(proc[..], init, cur);
      panic := false;
    }

    /** One pass of wait: it reaps the first zombie child, or finds that there are no
        children or that cur was killed, or goes to sleep until an exit wakes it. */
    method Wait(cur: nat) returns (r: WaitResult, ghost c: nat)
      requires Valid() && cur < NPROC && proc[cur].state == RUNNING && cur !in forking.Values
      modifies this, proc
      ensures Valid() && nextpid == old(nextpid) && forking == old(forking)
      ensures r.Reaped? ==>
                c < NPROC && old(proc[c]).parent == Of(cur) && old(proc[c]).state == ZOMBIE &&
                  old(proc[c]).pid == r.pid &&
                (forall i :: 0 <= i < c && old(proc[i]).parent == Of(cur) ==> old(proc[i]).state != ZOMBIE) &&
                r.pid !in old(reaped) && reaped == old(reaped) + {r.pid} &&
                proc[..] == old(proc[..])[c := Proc(UNUSED, 0, NoParent, old(proc[c]).chan, false)]
      ensures !r.Reaped? ==>
                reaped == old(reaped) && forall i :: 0 <= i < NPROC && old(proc[i]).parent == Of(cur) ==>
                  old(proc[i]).state != ZOMBIE
      ensures r.NoChildren? <==>
              (forall i :: 0 <= i < NPROC && old(proc[i]).parent == Of(cur) ==> old(proc[i]).state != ZOMBIE) &&
              (old(proc[cur]).killed || forall i :: 0 <= i < NPROC ==> old(proc[i]).parent != Of(cur))
      ensures r.NoChildren? ==> proc[..] == old(proc[..])
      ensures r.Slept? ==>
                !old(proc[cur]).killed && InWait(proc[..], cur) &&
                proc[..] == old(proc[..])[cur := old(proc[cur]).(state := SLEEPING, chan := Slot(cur))] &&
                exists i :: 0 <= i < NPROC && old(proc[i]).parent == Of(cur)
    {
      ghost var ps := proc[..];
      var havekids, p := false, 0;
      while p < NPROC
        invariant 0 <= p <= NPROC && proc[..] == ps
        invariant havekids <==> exists i :: 0 <= i < p && ps[i].parent == Of(cur)
        invariant forall i :: 0 <= i < p && ps[i].parent == Of(cur) ==> ps[i].state != ZOMBIE
      {
        if proc[p].parent == Of(cur) {
          havekids := true;
          if proc[p].state == ZOMBIE {
            var pid := proc[p].pid;
            proc[p] := Proc(UNUSED, 0, NoParent, proc[p].chan, false);
            ReapedOk(ps, p, proc[..], init, nextpid, forking, reaped);
            reaped := reaped + {pid};
            return Reaped(pid), p;
          }
        }
        p := p + 1;
      }
      if !havekids || proc[cur].killed { return NoChildren, 0; }
      proc[cur] := proc[cur].(state := SLEEPING, chan := Slot(cur));
      WaitingOk(ps, cur, proc[..], init, nextpid, forking, reaped);
      r, c := Slept, 0;
    }
  }

  /** Waking somebody changes no parent and makes no zombie. */
  lemma SameZombies(ps: seq<Proc>, qs: seq<Proc>, cur: nat, w: nat)
    requires |qs| == |ps| && forall i :: 0 <= i < |ps| ==> qs[i] == Wake(ps[i], Slot(w))
    ensures LeavesZombie(qs, cur) <==> LeavesZombie(ps, cur)
  {
    forall i | 0 <= i < |ps|
      ensures qs[i].parent == ps[i].parent && (qs[i].state == ZOMBIE <==> ps[i].state == ZOMBIE)
    {
    }
  }
}

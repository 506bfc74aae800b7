/** wait and exit: a process that waits for its children is not left asleep. */
module Waiting {
  import opened Sched
  import opened LifeCycle

  predicate Live(x: Proc) {
    x.state != Unused && x.state != Embryo
  }

  /** q does not sleep in wait while its child z is a zombie. */
  predicate NotStranded(t: Table, q: nat, z: nat)
    requires q < |t.procs| && z < |t.procs|
  {
    !(t.procs[q].state == Sleeping && t.procs[q].chan == q && t.procs[z].state == Zombie && t.procs[z].parent == q)
  }

  ghost predicate WaitInv(t: Table) {
    && |t.procs| == NPROC
    && (forall q, z :: 0 <= q < NPROC && 0 <= z < NPROC ==> NotStranded(t, q, z))
    && (forall p :: 0 <= p < NPROC && p != t.init && Live(t.procs[p]) ==> t.procs[p].parent != p)
  }

  /** What an event other than exit and wait leaves alone. */
  predicate Calm(a: Proc, b: Proc, p: nat) {
    && (b.state == Zombie ==> a.state == Zombie && b.parent == a.parent)
    && (b.state == Sleeping && b.chan == p ==> a.state == Sleeping && a.chan == p)
    && (Live(b) && b.parent == p ==> Live(a) && a.parent == p)
  }

  lemma {:induction false} CalmKeeps(t: Table, u: Table)
    requires WaitInv(t) && |u.procs| == NPROC && u.init == t.init
    requires forall p :: 0 <= p < NPROC ==> Calm(t.procs[p], u.procs[p], p)
    ensures WaitInv(u)
  {
    forall q, z | 0 <= q < NPROC && 0 <= z < NPROC
      ensures NotStranded(u, q, z)
    {
      assert NotStranded(t, q, z) && Calm(t.procs[q], u.procs[q], q) && Calm(t.procs[z], u.procs[z], z);
    }
  }

  lemma {:induction false} KillCalm(t: Table, pid: int, k: nat, p: nat)
    requires Shape(t) && k <= NPROC && p < NPROC
    ensures var u := DoKill(t, pid, k); |u.procs| == NPROC && u.init == t.init && Calm(t.procs[p], u.procs[p], p)
    decreases NPROC - k
  {
    if k < NPROC && t.procs[k].pid != pid {
      KillCalm(t, pid, k + 1, p);
    }
  }

  /** Aging touches RUNNABLE processes only, and keeps them RUNNABLE. */
  lemma {:induction false} AgingCalm(t: Table, l: nat, p: nat)
    requires QueueInv(t, -1) && l <= MLFLEVELS && p < NPROC
    ensures var u := DoAging(t, l);
            && |u.procs| == NPROC && u.init == t.init && u.procs[p].parent == t.procs[p].parent
            && (t.procs[p].state != Runnable ==> u.procs[p] == t.procs[p])
            && (t.procs[p].state == Runnable ==> u.procs[p].state == Runnable)
    decreases MLFLEVELS - l
  {
    hide Members, Ages, Once, Complete, AgeLevel;
    if l < MLFLEVELS {
      AgeLevelKeeps(t, l);
      AgeCalm(t, l, p);
      AgingCalm(AgeLevel(t, l), l + 1, p);
    }
  }

  lemma {:induction false} AgeCalm(t: Table, l: nat, p: nat)
    requires QueueInv(t, -1) && l < MLFLEVELS && p < NPROC
    ensures var u := AgeLevel(t, l);
            && u.init == t.init && u.procs[p].parent == t.procs[p].parent
            && (t.procs[p].state != Runnable ==> u.procs[p] == t.procs[p])
            && (t.procs[p].state == Runnable ==> u.procs[p].state == Runnable)
  {
    AgeMoves(t, l, p);
    if t.queues[l] != [] {
      YoungHead(t, l);
    }
  }

  lemma {:induction false} DispatchCalm(t: Table, c: nat, p: nat)
    requires Inv(t) && Enabled(t, Dispatch(c)) && p < NPROC
    ensures |DoDispatch(t, c).procs| == NPROC && DoDispatch(t, c).init == t.init
    ensures Calm(t.procs[p], DoDispatch(t, c).procs[p], p)
  {
    var l := Best(t, 0);
    if l < MLFLEVELS {
      YoungHead(t, l);
    }
  }

  lemma {:induction false} StepCalm(t: Table, e: Event, p: nat)
    requires Inv(t) && Enabled(t, e) && p < NPROC && !e.Exit? && !e.Wait?
    ensures var u := Apply(t, e); |u.procs| == NPROC && u.init == t.init && Calm(t.procs[p], u.procs[p], p)
  {
    hide Members, Ages, Once, Complete, CpuInv, Wake, DoKill, DoAging, DoDispatch, Calm, Enabled;
    match e
    case Dispatch(c) => DispatchCalm(t, c, p);
    case Wakeup(chan) => WakeCalm(t, chan, p);
    case Kill(pid) => KillCalm(t, pid, 0, p);
    case Aging => AgedCalm(t, p);
    case _ => OneCalm(t, e, p);
  }

  lemma {:induction false} WakeCalm(t: Table, chan: nat, p: nat)
    requires Shape(t) && p < NPROC
    ensures Calm(t.procs[p], Wake(t, chan, 0).procs[p], p)
  {
    hide Wake;
    WakeWakes(t, chan, 0, p);
  }

  lemma {:induction false} AgedCalm(t: Table, p: nat)
    requires QueueInv(t, -1) && p < NPROC
    ensures |DoAging(t, 0).procs| == NPROC && DoAging(t, 0).init == t.init
    ensures Calm(t.procs[p], DoAging(t, 0).procs[p], p)
  {
    hide DoAging, Members, Ages, Once, Complete;
    AgingCalm(t, 0, p);
  }

  /** Events that change one process. */
  lemma {:induction false} OneCalm(t: Table, e: Event, p: nat)
    requires Shape(t) && Members(t) && CpuInv(t) && Enabled(t, e) && p < NPROC
    requires e.Yield? || e.Sleep? || e.Alloc? || e.Abandon? || e.Start? || e.SetPriority?
    ensures var u := Apply(t, e); |u.procs| == NPROC && u.init == t.init && Calm(t.procs[p], u.procs[p], p)
  {
    hide Members;
  }

  /** wait goes to sleep only if it has found no zombie child. */
  lemma {:induction false} WaitKeepsWaiting(t: Table, c: nat)
    requires CpuInv(t) && WaitInv(t) && OnCpu(t, c)
    ensures WaitInv(DoWait(t, c))
  {
    var u, p := DoWait(t, c), t.cpus[c];
    forall q, z | 0 <= q < NPROC && 0 <= z < NPROC
      ensures NotStranded(u, q, z)
    {
      assert NotStranded(t, q, z);
    }
  }

  lemma {:induction false} ZombieIs(t: Table, p: nat, q: nat, z: nat)
    requires |t.procs| == NPROC && q <= z < NPROC && t.procs[z].parent == p && t.procs[z].state == Zombie
    ensures ZombieChild(t, p, q)
    decreases NPROC - q
  {
    if q < z {
      ZombieIs(t, p, q + 1, z);
    }
  }

  /** exit wakes whoever waits for the exiting process, or for a zombie that it passes on. */
  lemma {:induction false} ExitStrands(t: Table, c: nat, q: nat, z: nat)
    requires Inv(t) && WaitInv(t) && Enabled(t, Exit(c)) && q < NPROC && z < NPROC
    ensures |DoExit(t, c).procs| == NPROC && NotStranded(DoExit(t, c), q, z)
  {
    hide DoExit, ZombieChild, Members, Ages, Once, Complete;
    ExitKeeps(t, c);
    ExitEffect(t, c, q);
    ExitEffect(t, c, z);
    var p := t.cpus[c];
    assert NotStranded(t, q, z);
    if t.procs[z].parent == p && t.procs[z].state == Zombie {
      ZombieIs(t, p, 0, z);
    }
  }

  lemma {:induction false} ExitKeepsWaiting(t: Table, c: nat)
    requires Inv(t) && WaitInv(t) && Enabled(t, Exit(c))
    ensures WaitInv(DoExit(t, c))
  {
    hide DoExit, Members, Ages, Once, Complete, NotStranded;
    var u := DoExit(t, c);
    ExitKeeps(t, c);
    ExitInit(t, c);
    forall q, z | 0 <= q < NPROC && 0 <= z < NPROC
      ensures NotStranded(u, q, z)
    {
      ExitStrands(t, c, q, z);
    }
    forall p | 0 <= p < NPROC && p != u.init && Live(u.procs[p])
      ensures u.procs[p].parent != p
    {
      ExitEffect(t, c, p);
    }
  }

  lemma {:induction false} ExitInit(t: Table, c: nat)
    requires Shape(t) && OnCpu(t, c)
    ensures DoExit(t, c).init == t.init
  {
  }

  lemma {:induction false} StepWaiting(t: Table, e: Event)
    requires Inv(t) && WaitInv(t) && Enabled(t, e)
    ensures WaitInv(Apply(t, e))
  {
    hide Members, Ages, Once, Complete, CpuInv, WaitInv, DoExit, DoWait, Calm;
    if e.Exit? {
      ExitKeepsWaiting(t, e.c);
    } else if e.Wait? {
      WaitKeepsWaiting(t, e.c);
    } else {
      StepCalmAll(t, e);
      CalmKeeps(t, Apply(t, e));
    }
  }

  lemma {:induction false} StepCalmAll(t: Table, e: Event)
    requires Inv(t) && Enabled(t, e) && !e.Exit? && !e.Wait?
    ensures var u := Apply(t, e);
            && |u.procs| == |t.procs| == NPROC && u.init == t.init
            && forall p :: 0 <= p < NPROC ==> Calm(t.procs[p], u.procs[p], p)
  {
    hide Calm, Apply, Enabled;
    StepCalm(t, e, 0);
    forall p | 0 <= p < NPROC
      ensures Calm(t.procs[p], Apply(t, e).procs[p], p)
    {
      StepCalm(t, e, p);
    }
  }

  lemma {:induction false} RunWaiting(ts: seq<Table>, es: seq<Event>)
    requires IsRun(ts, es) && Init(ts[0])
    ensures Inv(ts[|es|]) && WaitInv(ts[|es|])
  {
    hide QueueInv, CpuInv, Shape, Members, Enabled, Apply, WaitInv, Init;
    if es == [] {
      InitWaiting(ts[0]);
    } else {
      var n := |es| - 1;
      RunWaiting(ts[..n + 1], es[..n]);
      StepKeeps(ts[n], es[n]);
      StepWaiting(ts[n], es[n]);
    }
  }

  lemma {:induction false} InitWaiting(t: Table)
    requires Init(t)
    ensures Inv(t) && WaitInv(t)
  {
  }

  /** In every state of every run, no process is asleep in wait while a child of it is a zombie. */
  lemma {:induction false} NoLostExit(ts: seq<Table>, es: seq<Event>, q: nat, z: nat)
    requires IsRun(ts, es) && Init(ts[0]) && q < NPROC && z < NPROC
    ensures |ts[|es|].procs| == NPROC && NotStranded(ts[|es|], q, z)
  {
    RunWaiting(ts, es);
  }
}

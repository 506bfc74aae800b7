/** Pids and the mark of kill: no two processes have the same pid, and which slots can be marked while nobody
    uses them. */
module Pids {
  import opened Sched
  import opened LifeCycle

  /** Pids have been given out by allocproc; no two slots have the same one, and 0 is none. */
  ghost predicate PidInv(t: Table)
    requires Shape(t)
  {
    && t.nextpid >= 1 && (forall p :: 0 <= p < NPROC ==> Given(t, p))
    && (forall p, q :: 0 <= p < q < NPROC && t.procs[p].pid == t.procs[q].pid ==> t.procs[p].pid == 0)
  }

  ghost predicate Given(t: Table, p: nat)
    requires |t.procs| == NPROC && p < NPROC
  {
    0 <= t.procs[p].pid < t.nextpid && (t.procs[p].state != Unused ==> t.procs[p].pid > 0)
  }

  lemma {:induction false} AgingPid(t: Table, l: nat)
    requires QueueInv(t, -1) && l <= MLFLEVELS
    ensures DoAging(t, l).nextpid == t.nextpid
    decreases MLFLEVELS - l
  {
    hide Members, Ages, Once, Complete;
    if l < MLFLEVELS {
      AgeLevelKeeps(t, l);
      AgingPid(AgeLevel(t, l), l + 1);
    }
  }

  /** Only allocproc gives out a pid. */
  lemma {:induction false} NextPid(t: Table, e: Event)
    requires Inv(t) && Enabled(t, e) && !e.Alloc?
    ensures Apply(t, e).nextpid == t.nextpid
  {
    hide Members, Ages, Once, Complete, Wake, Orphans, DoKill, DoAging, CpuInv;
    match e
    case Kill(pid) => KillEffect(t, pid, 0, 0);
    case Aging => AgingPid(t, 0);
    case _ =>
  }

  lemma {:induction false} StepPids(t: Table, e: Event)
    requires Inv(t) && PidInv(t) && Enabled(t, e)
    ensures Inv(Apply(t, e)) && PidInv(Apply(t, e))
  {
    hide Members, Ages, Once, Complete, CpuInv, Apply, Enabled, Moves, Given;
    StepKeeps(t, e);
    var u := Apply(t, e);
    forall p | 0 <= p < NPROC
      ensures Given(u, p) && (u.procs[p].pid == t.procs[p].pid || u.procs[p].pid == 0 || New(t, u, p))
    {
      PidMoves(t, e, p);
    }
    forall p, q | 0 <= p < q < NPROC && u.procs[p].pid == u.procs[q].pid
      ensures u.procs[p].pid == 0
    {
      assert Given(t, p) && Given(t, q);
      OneNew(t, u, p, q);
    }
    NextPidGrows(t, e);
  }

  /** p has just been given the next pid. */
  ghost predicate New(t: Table, u: Table, p: nat)
    requires |t.procs| == |u.procs| == NPROC && p < NPROC
  {
    && t.procs[p].state == Unused && u.procs[p].pid == t.nextpid && u.nextpid == t.nextpid + 1
    && forall q :: 0 <= q < p ==> t.procs[q].state != Unused
  }

  lemma {:induction false} OneNew(t: Table, u: Table, p: nat, q: nat)
    requires |t.procs| == |u.procs| == NPROC && p < q < NPROC && u.procs[p].pid == u.procs[q].pid
    requires Given(t, p) && Given(t, q) && (t.procs[p].pid == t.procs[q].pid ==> t.procs[p].pid == 0)
    requires u.procs[p].pid == t.procs[p].pid || u.procs[p].pid == 0 || New(t, u, p)
    requires u.procs[q].pid == t.procs[q].pid || u.procs[q].pid == 0 || New(t, u, q)
    ensures u.procs[p].pid == 0
  {
  }

  lemma {:induction false} NextPidGrows(t: Table, e: Event)
    requires Inv(t) && Enabled(t, e)
    ensures Apply(t, e).nextpid >= t.nextpid
  {
    hide Members, Ages, Once, Complete, CpuInv;
    if !e.Alloc? {
      NextPid(t, e);
    }
  }

  lemma {:induction false} PidMoves(t: Table, e: Event, p: nat)
    requires Inv(t) && PidInv(t) && Enabled(t, e) && p < NPROC
    ensures var u := Apply(t, e);
            && |u.procs| == NPROC && Given(u, p)
            && (u.procs[p].pid == t.procs[p].pid || u.procs[p].pid == 0 || New(t, u, p))
  {
    hide Members, Ages, Once, Complete, CpuInv, Enabled, DoAlloc;
    assert Given(t, p);
    if e.Alloc? {
      AllocEffect(t, p);
      NextPidGrows(t, e);
    } else {
      hide Apply;
      EveryMove(t, e, p);
      NextPid(t, e);
    }
  }

  /** At every moment of a run, different processes have different pids, and none has a pid that allocproc is
      still to give out. */
  lemma {:induction false} PidsDiffer(ts: seq<Table>, es: seq<Event>, k: nat)
    requires IsRun(ts, es) && Init(ts[0]) && k < |ts|
    ensures Inv(ts[k]) && PidInv(ts[k])
    decreases |es|
  {
    hide PidInv, Members, Ages, Once, Complete, CpuInv, Enabled, Apply, Init;
    if es == [] {
      InitPids(ts[0]);
    } else {
      var n := |es| - 1;
      PidsDiffer(ts[..n + 1], es[..n], if k <= n then k else n);
      if k == n + 1 {
        StepPids(ts[n], es[n]);
      }
    }
  }

  lemma {:induction false} InitPids(t: Table)
    requires Init(t)
    ensures Inv(t) && PidInv(t)
  {
  }

  // ------------------------------------------------------------------ marks of kill on slots nobody uses

  /** No UNUSED slot is marked, so that no process is born killed. */
  ghost predicate Unmarked(t: Table)
    requires |t.procs| == NPROC
  {
    forall p :: 0 <= p < NPROC && t.procs[p].state == Unused ==> !t.procs[p].killed
  }

  /** kill finds a slot that nobody uses: with pid 0, or with the pid of a fork that failed. */
  ghost predicate KillsNobody(t: Table, e: Event)
    requires |t.procs| == NPROC
  {
    e.Kill? && exists p :: 0 <= p < NPROC && Victim(t, e.pid, 0, p) && t.procs[p].state == Unused
  }

  /** A fork fails after its child has been killed. */
  ghost predicate AbandonsKilled(t: Table, e: Event)
    requires |t.procs| == NPROC
  {
    e.Abandon? && e.p < NPROC && t.procs[e.p].killed
  }

  /** The UNUSED slots stay unmarked exactly if the event is neither of these. */
  lemma {:induction false} BornKilled(t: Table, e: Event)
    requires Inv(t) && Enabled(t, e) && Unmarked(t)
    ensures |Apply(t, e).procs| == NPROC
    ensures Unmarked(Apply(t, e)) <==> !KillsNobody(t, e) && !AbandonsKilled(t, e)
  {
    hide Members, Ages, Once, Complete, CpuInv, DoKill, Victim;
    EveryMove(t, e, 0);
    var u := Apply(t, e);
    if KillsNobody(t, e) {
      var p :| 0 <= p < NPROC && Victim(t, e.pid, 0, p) && t.procs[p].state == Unused;
      KillEffect(t, e.pid, 0, p);
      assert u.procs[p].state == Unused && u.procs[p].killed;
    } else if AbandonsKilled(t, e) {
      assert u.procs[e.p].state == Unused && u.procs[e.p].killed;
    } else {
      forall p | 0 <= p < NPROC && u.procs[p].state == Unused
        ensures !u.procs[p].killed
      {
        StaysUnmarked(t, e, p);
      }
    }
  }

  lemma {:induction false} StaysUnmarked(t: Table, e: Event, p: nat)
    requires Inv(t) && Enabled(t, e) && Unmarked(t) && !KillsNobody(t, e) && !AbandonsKilled(t, e) && p < NPROC
    ensures |Apply(t, e).procs| == NPROC
    ensures Apply(t, e).procs[p].state == Unused ==> !Apply(t, e).procs[p].killed
  {
    hide Members, Ages, Once, Complete, CpuInv, DoKill, Victim;
    if e.Kill? {
      KillEffect(t, e.pid, 0, p);
    } else if e.Abandon? {
    } else {
      hide Apply;
      EveryMove(t, e, p);
    }
  }

  /** kill(0) in the zeroed table marks a slot, and the first process is born killed. */
  lemma {:induction false} KillZero(t: Table)
    requires Init(t)
    ensures var u := Apply(t, Kill(0)); Shape(u) && DoAlloc(u).procs[0].state == Embryo && DoAlloc(u).procs[0].killed
  {
    KillEffect(t, 0, 0, 0);
    assert Victim(t, 0, 0, 0);
  }
}

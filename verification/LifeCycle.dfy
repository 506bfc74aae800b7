/** What can happen to a process: its states, its priority, and what exit means for its family. */
module LifeCycle {
  import opened Sched

  /** The moves a process can make in an event. */
  predicate Moves(e: Event, a: Proc, b: Proc) {
    || (b.state == a.state && b.priority == a.priority && Same(e, a, b))
    || (e.Alloc? && a.state == Unused && b.state == Embryo && b.priority == 0 && b.killed == a.killed)
    || (e.Abandon? && a.state == Embryo && b.state == Unused && Same(e, a, b))
    || (e.Start? && a.state == Embryo && b.state == Runnable && b.priority == a.priority && Same(e, a, b))
    || (e.Dispatch? && a.state == Runnable && b.state == Running && b.priority == a.priority && Same(e, a, b))
    || (e.Aging? && a.state == b.state == Runnable && a.age + 1 == AGEFORAGINGS && b.age == 0 && Up(a, b)
        && Same(e, a, b))
    || (e.Yield? && a.state == Running && b.state == Runnable && Same(e, a, b)
        && b.priority == if a.priority == MLFLEVELS - 1 then a.priority else a.priority + 1)
    || ((e.Sleep? || e.Wait?) && a.state == Running && b.state == Sleeping && b.priority == a.priority && Same(e, a, b))
    || (e.Exit? && a.state == Running && b.state == Zombie && b.priority == a.priority && Same(e, a, b))
    || (e.SetPriority? && a.state == b.state == Running && b.priority == e.level && Same(e, a, b))
    || ((e.Wakeup? || e.Exit?) && a.state == Sleeping && b.state == Runnable && b.age == 0 && Up(a, b) && Same(e, a, b))
    || (e.Kill? && a.state == Sleeping && b.state == Runnable && b.killed && b.priority == a.priority && b.pid == a.pid)
    || (e.Wait? && a.state == Zombie && b.state == Unused && b.pid == 0 && !b.killed)
  }

  /** It stays the same process, and only kill marks it. */
  predicate Same(e: Event, a: Proc, b: Proc) {
    b.pid == a.pid && (b.killed == a.killed || (e.Kill? && b.killed))
  }

  /** One level up, if there is one. */
  predicate Up(a: Proc, b: Proc) {
    b.priority == if a.priority == 0 then 0 else a.priority - 1
  }

  /** The first process with the pid. */
  ghost predicate Victim(t: Table, pid: int, k: nat, p: nat)
    requires |t.procs| == NPROC && p < NPROC
  {
    k <= p && t.procs[p].pid == pid && forall q :: k <= q < p ==> t.procs[q].pid != pid
  }

  /** kill marks the first process with the pid, whatever its state; if it sleeps, it is made RUNNABLE at the
      tail of its own level. Nothing else changes. */
  lemma {:induction false} KillEffect(t: Table, pid: int, k: nat, p: nat)
    requires Shape(t) && k <= NPROC && p < NPROC
    ensures var a, u := t.procs[p], DoKill(t, pid, k);
            && |u.procs| == NPROC && u.cpus == t.cpus && u.nextpid == t.nextpid && u.init == t.init
            && (!Victim(t, pid, k, p) ==> u.procs[p] == a)
            && (Victim(t, pid, k, p) ==>
                  if a.state == Sleeping then
                    && u.procs[p] == a.(killed := true, state := Runnable, age := 0)
                    && u.queues == t.queues[a.priority := t.queues[a.priority] + [p]]
                  else u.procs[p] == a.(killed := true) && u.queues == t.queues)
    decreases NPROC - k
  {
    if k < NPROC && t.procs[k].pid != pid {
      KillEffect(t, pid, k + 1, p);
    }
  }

  /** yield: RUNNABLE one level down, if there is one, at the tail; the CPU is idle. */
  lemma {:induction false} YieldEffect(t: Table, c: nat, p: nat)
    requires Shape(t) && OnCpu(t, c) && p < NPROC
    ensures var x, u := t.cpus[c], DoYield(t, c);
            var l := if t.procs[x].priority == MLFLEVELS - 1 then t.procs[x].priority else t.procs[x].priority + 1;
            && u.procs[p] == (if p == x then t.procs[p].(state := Runnable, priority := l, age := 0) else t.procs[p])
            && u.queues == t.queues[l := t.queues[l] + [x]] && u.cpus == t.cpus[c := -1] && u.nextpid == t.nextpid
  {
  }

  /** wait reaps the first zombie child of process p: its slot is UNUSED, without pid, parent and mark. Without
      one, wait returns if p has no children or has been killed, and else p sleeps on its own address. Nothing
      else changes. */
  lemma {:induction false} WaitEffect(t: Table, c: nat, z: nat)
    requires |t.procs| == NPROC && OnCpu(t, c) && z <= NPROC
    requires forall q :: 0 <= q < z ==> !(t.procs[q].parent == t.cpus[c] && t.procs[q].state == Zombie)
    requires z < NPROC ==> t.procs[z].parent == t.cpus[c] && t.procs[z].state == Zombie
    ensures var p, u := t.cpus[c], DoWait(t, c);
            if z < NPROC then
              u == t.(procs := t.procs[z := t.procs[z].(state := Unused, pid := 0, parent := -1, killed := false)])
            else if t.procs[p].killed || forall q :: 0 <= q < NPROC ==> t.procs[q].parent != p then u == t
            else
              && u.procs == t.procs[p := t.procs[p].(state := Sleeping, chan := p)] && u.cpus == t.cpus[c := -1]
              && u.queues == t.queues && u.nextpid == t.nextpid && u.init == t.init
  {
    assert FirstZombie(t, t.cpus[c], 0) == z;
  }

  /** A process that has gone to sleep is woken by a wakeup of its channel, and by no other. */
  lemma {:induction false} SleepUntilWoken(t: Table, c: nat, chan: nat, other: nat)
    requires Shape(t) && OnCpu(t, c)
    ensures var p, u := t.cpus[c], DoSleep(t, c, chan);
            && Shape(u) && u.procs[p].state == Sleeping && u.cpus[c] == -1
            && (Wake(u, other, 0).procs[p].state == Runnable <==> other == chan)
            && (other != chan ==> Wake(u, other, 0).procs[p] == u.procs[p])
            && forall q :: 0 <= q < NPROC && q != p ==> u.procs[q] == t.procs[q]
  {
    hide Wake;
    WakeWakes(DoSleep(t, c, chan), other, 0, t.cpus[c]);
  }

  /** The end of fork: the child is RUNNABLE at the tail of its level, and wait of its parent finds it. */
  lemma {:induction false} StartEffect(t: Table, p: nat, parent: int)
    requires Inv(t) && Enabled(t, Start(p, parent))
    ensures var u := Apply(t, Start(p, parent));
            && u.procs == t.procs[p := t.procs[p].(state := Runnable, parent := parent, age := 0)]
            && u.queues == t.queues[t.procs[p].priority := t.queues[t.procs[p].priority] + [p]]
            && u.cpus == t.cpus && u.nextpid == t.nextpid && u.init == t.init
  {
    hide Members, Ages, Once, Complete, CpuInv;
  }

  /** setpriority changes the priority of the caller, and nothing else. */
  lemma {:induction false} PriorityEffect(t: Table, c: nat, level: nat)
    requires Inv(t) && Enabled(t, SetPriority(c, level))
    ensures var p, u := t.cpus[c], Apply(t, SetPriority(c, level));
            u == t.(procs := t.procs[p := t.procs[p].(priority := level)])
  {
    hide Members, Ages, Once, Complete, CpuInv;
  }

  /** allocproc takes the first UNUSED slot, with the next pid, the best priority and age 0; the mark stays. */
  lemma {:induction false} AllocEffect(t: Table, p: nat)
    requires Shape(t) && p < NPROC
    ensures var a, u := t.procs[p], DoAlloc(t);
            && |u.procs| == NPROC && u.queues == t.queues && u.cpus == t.cpus && u.init == t.init
            && if a.state == Unused && forall q :: 0 <= q < p ==> t.procs[q].state != Unused then
                 u.procs[p] == a.(state := Embryo, pid := t.nextpid, priority := 0, age := 0)
                     && u.nextpid == t.nextpid + 1
               else u.procs[p] == a
  {
    FirstUnusedIs(t, 0);
  }

  lemma {:induction false} FirstUnusedIs(t: Table, p: nat)
    requires p <= NPROC == |t.procs|
    ensures forall q :: p <= q < FirstUnused(t, p) ==> t.procs[q].state != Unused
    decreases NPROC - p
  {
    if p < NPROC && t.procs[p].state != Unused {
      FirstUnusedIs(t, p + 1);
    }
  }

  lemma {:induction false} KillMoves(t: Table, pid: int, p: nat)
    requires Shape(t) && p < NPROC
    ensures |DoKill(t, pid, 0).procs| == NPROC && Moves(Kill(pid), t.procs[p], DoKill(t, pid, 0).procs[p])
  {
    hide DoKill, Victim;
    KillEffect(t, pid, 0, p);
  }

  lemma {:induction false} AgeMoves(t: Table, l: nat, p: nat)
    requires QueueInv(t, -1) && l < MLFLEVELS && p < NPROC
    ensures Moves(Aging, t.procs[p], AgeLevel(t, l).procs[p])
    ensures t.queues[l] == [] || t.queues[l][0] != p ==> AgeLevel(t, l).procs[p] == t.procs[p]
    ensures t.queues[l] != [] && t.queues[l][0] == p ==> t.procs[p].state == Runnable && t.procs[p].priority == l
    ensures AgeLevel(t, l).procs[p].priority <= t.procs[p].priority
  {
    if t.queues[l] != [] {
      YoungHead(t, l);
      LevelUpdateKeeps(t, l, t.procs[t.queues[l][0]].(age := t.procs[t.queues[l][0]].age + 1));
    }
  }

  /** A level that is still to come holds p only if p has not been touched. */
  lemma {:induction false} AgingMoves(t: Table, l: nat, p: nat)
    requires QueueInv(t, -1) && l <= MLFLEVELS && p < NPROC
    ensures |DoAging(t, l).procs| == NPROC && Moves(Aging, t.procs[p], DoAging(t, l).procs[p])
    ensures t.procs[p].state == Runnable && t.procs[p].priority < l ==> DoAging(t, l).procs[p] == t.procs[p]
    decreases MLFLEVELS - l
  {
    hide Members, Ages, Once, Complete, AgeLevel;
    if l < MLFLEVELS {
      AgeLevelKeeps(t, l);
      AgeMoves(t, l, p);
      AgingMoves(AgeLevel(t, l), l + 1, p);
      if t.queues[l] != [] && t.queues[l][0] == p {
        AgedStays(t, l, p);
      }
    }
  }

  lemma {:induction false} AgedStays(t: Table, l: nat, p: nat)
    requires QueueInv(t, -1) && l < MLFLEVELS && t.queues[l] != [] && t.queues[l][0] == p && p < NPROC
    ensures AgeLevel(t, l).procs[p].state == Runnable && AgeLevel(t, l).procs[p].priority < l + 1
  {
    YoungHead(t, l);
  }

  lemma {:induction false} OrphansMoves(t: Table, p: nat, q: nat, x: nat)
    requires Shape(t) && q <= NPROC && x < NPROC
    ensures var a, b := t.procs[x], Orphans(t, p, q).procs[x];
            && b.parent == (if x >= q && a.parent == p then t.init else a.parent)
            && b.(parent := a.parent) ==
               (if a.state == Sleeping && a.chan == t.init && ZombieChild(t, p, q)
                then Promoted(a).(age := 0, state := Runnable) else a)
    decreases NPROC - q
  {
    hide Wake, Enqueue;
    if q < NPROC {
      if t.procs[q].parent == p {
        var u := With(t, q, t.procs[q].(parent := t.init));
        if t.procs[q].state == Zombie {
          OrphansMoves(Wake(u, t.init, 0), p, q + 1, x);
          WakeWakes(u, t.init, 0, x);
        } else {
          OrphansMoves(u, p, q + 1, x);
          ZombieStays(t, u, p, q + 1);
        }
      } else {
        OrphansMoves(t, p, q + 1, x);
      }
    }
  }

  /** p has a zombie among its children, from process q of the table on. */
  predicate ZombieChild(t: Table, p: nat, q: nat)
    requires |t.procs| == NPROC && q <= NPROC
    decreases NPROC - q
  {
    q < NPROC && ((t.procs[q].parent == p && t.procs[q].state == Zombie) || ZombieChild(t, p, q + 1))
  }

  lemma {:induction false} ZombieStays(t: Table, u: Table, p: nat, q: nat)
    requires |t.procs| == |u.procs| == NPROC && q <= NPROC
    requires forall x :: q <= x < NPROC ==>
               u.procs[x].parent == t.procs[x].parent && (u.procs[x].state == Zombie <==> t.procs[x].state == Zombie)
    ensures ZombieChild(u, p, q) == ZombieChild(t, p, q)
    decreases NPROC - q
  {
    if q < NPROC {
      ZombieStays(t, u, p, q + 1);
    }
  }

  /** exit: the process is a zombie, init has its children, and exactly the sleepers that wait for it
      are woken: on its parent, and on init if a zombie among the children is passed on. */
  lemma {:induction false} ExitEffect(t: Table, c: nat, x: nat)
    requires Inv(t) && Enabled(t, Exit(c)) && x < NPROC
    ensures var p, u := t.cpus[c], DoExit(t, c);
            var a, b := t.procs[x], u.procs[x];
            && b.parent == (if a.parent == p then t.init else a.parent)
            && (x == p ==> b.state == Zombie)
            && (x != p ==>
                  b.(parent := a.parent) ==
                  if a.state == Sleeping && (a.chan == t.procs[p].parent || (a.chan == t.init && ZombieChild(t, p, 0)))
                  then Promoted(a).(age := 0, state := Runnable) else a)
  {
    hide Members, Ages, Once, Complete, Wake, Orphans, ZombieChild;
    var p := t.cpus[c];
    var w := if t.procs[p].parent >= 0 then Wake(t, t.procs[p].parent, 0) else t;
    if t.procs[p].parent >= 0 {
      WakeWakes(t, t.procs[p].parent, 0, x);
      WakeWakes(t, t.procs[p].parent, 0, p);
    }
    OrphansMoves(w, p, 0, x);
    OrphansMoves(w, p, 0, p);
    forall y | 0 <= y < NPROC
      ensures w.procs[y].parent == t.procs[y].parent && (w.procs[y].state == Zombie <==> t.procs[y].state == Zombie)
    {
      if t.procs[p].parent >= 0 {
        WakeWakes(t, t.procs[p].parent, 0, y);
      }
    }
    ZombieStays(t, w, p, 0);
  }

  lemma {:induction false} ExitMoves(t: Table, c: nat, x: nat)
    requires Inv(t) && Enabled(t, Exit(c)) && x < NPROC
    ensures Moves(Exit(c), t.procs[x], DoExit(t, c).procs[x])
  {
    hide Members, Ages, Once, Complete, Wake, Orphans;
    var p := t.cpus[c];
    var w := if t.procs[p].parent >= 0 then Wake(t, t.procs[p].parent, 0) else t;
    if t.procs[p].parent >= 0 {
      WakeWakes(t, t.procs[p].parent, 0, x);
      WakeWakes(t, t.procs[p].parent, 0, p);
    }
    OrphansMoves(w, p, 0, x);
  }

  /** In every event, every process makes one of the moves. */
  lemma {:induction false} EveryMove(t: Table, e: Event, p: nat)
    requires Inv(t) && Enabled(t, e) && p < NPROC
    ensures |Apply(t, e).procs| == NPROC && Moves(e, t.procs[p], Apply(t, e).procs[p])
  {
    hide Members, Ages, Once, Complete, CpuInv, Wake, Orphans, DoExit, DoKill, DoAging, DoDispatch, Grows, Moves,
         Enabled;
    StepKeeps(t, e);
    match e
    case Dispatch(c) => DispatchMoves(t, c, p);
    case Wakeup(chan) => WakeMoves(t, chan, p);
    case Kill(pid) => KillMoves(t, pid, p);
    case Exit(c) => ExitMoves(t, c, p);
    case Aging => AgingMoves(t, 0, p);
    case _ => OneMoves(t, e, p);
  }

  lemma {:induction false} WakeMoves(t: Table, chan: nat, p: nat)
    requires Shape(t) && p < NPROC
    ensures Moves(Wakeup(chan), t.procs[p], Wake(t, chan, 0).procs[p])
  {
    hide Wake;
    WakeWakes(t, chan, 0, p);
  }

  /** Events that change one process. */
  lemma {:induction false} OneMoves(t: Table, e: Event, p: nat)
    requires Shape(t) && Members(t) && CpuInv(t) && Enabled(t, e) && p < NPROC
    requires e.Yield? || e.Sleep? || e.Alloc? || e.Abandon? || e.Start? || e.SetPriority? || e.Wait?
    ensures Moves(e, t.procs[p], Apply(t, e).procs[p])
  {
    hide Members, Moves, DoWait, DoYield, DoSleep;
    match e
    case Wait(c) => WaitMoves(t, c, p);
    case Yield(c) => YieldMoves(t, c, p);
    case Sleep(c, chan) => SleepMoves(t, c, chan, p);
    case _ => SlotMoves(t, e, p);
  }

  lemma {:induction false} YieldMoves(t: Table, c: nat, p: nat)
    requires Shape(t) && CpuInv(t) && OnCpu(t, c) && p < NPROC
    ensures Moves(Yield(c), t.procs[p], DoYield(t, c).procs[p])
  {
  }

  lemma {:induction false} SleepMoves(t: Table, c: nat, chan: nat, p: nat)
    requires Shape(t) && CpuInv(t) && OnCpu(t, c) && p < NPROC
    ensures Moves(Sleep(c, chan), t.procs[p], DoSleep(t, c, chan).procs[p])
    ensures Moves(Wait(c), t.procs[p], DoSleep(t, c, chan).procs[p])
  {
  }

  lemma {:induction false} WaitMoves(t: Table, c: nat, p: nat)
    requires Shape(t) && CpuInv(t) && OnCpu(t, c) && p < NPROC
    ensures Moves(Wait(c), t.procs[p], DoWait(t, c).procs[p])
  {
    hide DoSleep;
    SleepMoves(t, c, t.cpus[c], p);
  }

  lemma {:induction false} SlotMoves(t: Table, e: Event, p: nat)
    requires Shape(t) && Members(t) && CpuInv(t) && Enabled(t, e) && p < NPROC
    requires e.Alloc? || e.Abandon? || e.Start? || e.SetPriority?
    ensures Moves(e, t.procs[p], Apply(t, e).procs[p])
  {
    hide Members;
  }

  lemma {:induction false} DispatchMoves(t: Table, c: nat, p: nat)
    requires Inv(t) && Enabled(t, Dispatch(c)) && p < NPROC
    ensures Moves(Dispatch(c), t.procs[p], DoDispatch(t, c).procs[p])
  {
    var l := Best(t, 0);
    if l < MLFLEVELS {
      YoungHead(t, l);
    }
  }
}

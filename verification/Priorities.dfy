/** sys_setpriority stores any number in the 16-bit field p->priority. It touches no queue; what can
    go wrong is the index mlf[p->priority] of make_runnable when the process is enqueued next. */
module Priorities {
  import opened Sched

  datatype Outcome = OutOfRange | Done(t: Table)

  /** The table after sys_setpriority(level) by process p. */
  function Raw(t: Table, p: nat, level: int): Table
    requires p < |t.procs|
  {
    With(t, p, t.procs[p].(priority := level % 0x1_0000))
  }

  /** make_runnable of p, whose entry becomes x. */
  function TryEnqueue(t: Table, p: nat, x: Proc): Outcome
    requires p < |t.procs|
  {
    if x.priority >= |t.queues| then OutOfRange else Done(Enqueue(With(t, p, x), p))
  }

  function TryYield(t: Table, c: nat): Outcome
    requires OnCpu(t, c)
  {
    var p := t.cpus[c];
    match TryEnqueue(t, p, Demoted(t.procs[p]))
    case OutOfRange => OutOfRange
    case Done(u) => Done(Idle(u, c))
  }

  /** wakeup1, from process k of the table on. */
  function TryWake(t: Table, chan: nat, k: nat): Outcome
    requires k <= NPROC == |t.procs|
    decreases NPROC - k
  {
    if k == NPROC then Done(t)
    else if t.procs[k].state == Sleeping && t.procs[k].chan == chan then
      match TryEnqueue(t, k, Promoted(t.procs[k]))
      case OutOfRange => OutOfRange
      case Done(u) => TryWake(u, chan, k + 1)
    else TryWake(t, chan, k + 1)
  }

  /** kill, from process k of the table on. */
  function TryKill(t: Table, pid: int, k: nat): Outcome
    requires k <= NPROC == |t.procs|
    decreases NPROC - k
  {
    if k == NPROC then Done(t)
    else if t.procs[k].pid == pid then
      var x := t.procs[k].(killed := true);
      if x.state == Sleeping then TryEnqueue(t, k, x) else Done(With(t, k, x))
    else TryKill(t, pid, k + 1)
  }

  // ------------------------------------------------------------------ yield

  /** yield stays in range, and restores the invariant, exactly for existing levels. */
  lemma {:induction false} YieldExact(t: Table, c: nat, level: int)
    requires Inv(t) && OnCpu(t, c)
    ensures TryYield(Raw(t, t.cpus[c], level), c).Done? <==> level % 0x1_0000 < MLFLEVELS
    ensures var r := TryYield(Raw(t, t.cpus[c], level), c); r.Done? ==> Inv(r.t)
  {
    var p, v := t.cpus[c], level % 0x1_0000;
    if v < MLFLEVELS {
      hide Members, Ages, Once, Complete, CpuInv, DoYield;
      var u := Raw(t, p, level);
      AsideKeeps(t, p, t.procs[p].(priority := v));
      YieldKeeps(u, c);
      YieldIs(u, c);
    }
  }

  lemma {:induction false} YieldIs(t: Table, c: nat)
    requires Shape(t) && OnCpu(t, c)
    ensures TryYield(t, c) == Done(DoYield(t, c))
  {
  }

  // ------------------------------------------------------------------ wakeup

  lemma {:induction false} WakeIs(t: Table, chan: nat, k: nat)
    requires Shape(t) && k <= NPROC
    ensures TryWake(t, chan, k) == Done(Wake(t, chan, k))
    decreases NPROC - k
  {
    if k < NPROC {
      if t.procs[k].state == Sleeping && t.procs[k].chan == chan {
        WakeIs(Enqueue(With(t, k, Promoted(t.procs[k])), k), chan, k + 1);
      } else {
        WakeIs(t, chan, k + 1);
      }
    }
  }

  /** Enqueuing another process does not look at the entry of p. */
  lemma {:induction false} Commutes(t: Table, p: nat, level: int, k: nat)
    requires Shape(t) && p < NPROC && k < NPROC && k != p
    ensures var x := Promoted(t.procs[k]);
            && Raw(t, p, level).procs[k] == t.procs[k]
            && TryEnqueue(Raw(t, p, level), k, x) == Done(Raw(Enqueue(With(t, k, x), k), p, level))
  {
    var x, y := Promoted(t.procs[k]), t.procs[p].(priority := level % 0x1_0000);
    assert t.procs[p := y][k := x] == t.procs[k := x][p := y];
    var e := x.(age := 0, state := Runnable);
    assert t.procs[p := y][k := x][k := e] == t.procs[k := x][k := e][p := y];
  }

  /** wakeup1 of the sleeper: it takes one level off first, so one level more is in range. */
  lemma {:induction false} WakeExact(t: Table, p: nat, level: int, chan: nat, k: nat)
    requires QueueInv(t, -1) && p < NPROC && k <= p && t.procs[p].state == Sleeping && t.procs[p].chan == chan
    ensures TryWake(Raw(t, p, level), chan, k).Done? <==> level % 0x1_0000 <= MLFLEVELS
    ensures var r := TryWake(Raw(t, p, level), chan, k);
            r.Done? ==> QueueInv(r.t, -1) && SameRunning(t, r.t) && r.t.cpus == t.cpus
    decreases NPROC - k
  {
    hide Members, Ages, Once, Complete, Enqueue;
    var u := Raw(t, p, level);
    if k == p {
      WakeRaw(t, p, level, chan);
    } else if t.procs[k].state == Sleeping && t.procs[k].chan == chan {
      var m := Enqueue(With(t, k, Promoted(t.procs[k])), k);
      Commutes(t, p, level, k);
      StartKeeps(t, k, Promoted(t.procs[k]));
      EnqueueOthers(t, k, p);
      WakeExact(m, p, level, chan, k + 1);
    } else {
      WakeExact(t, p, level, chan, k + 1);
    }
  }

  lemma {:induction false} EnqueueOthers(t: Table, k: nat, p: nat)
    requires Shape(t) && k < NPROC && p < NPROC && k != p && t.procs[k].state == Sleeping
    ensures var m := Enqueue(With(t, k, Promoted(t.procs[k])), k);
            m.procs[p] == t.procs[p] && SameRunning(t, m) && m.cpus == t.cpus
  {
  }

  lemma {:induction false} WakeRaw(t: Table, p: nat, level: int, chan: nat)
    requires QueueInv(t, -1) && p < NPROC && t.procs[p].state == Sleeping && t.procs[p].chan == chan
    ensures TryWake(Raw(t, p, level), chan, p).Done? <==> level % 0x1_0000 <= MLFLEVELS
    ensures var r := TryWake(Raw(t, p, level), chan, p);
            r.Done? ==> QueueInv(r.t, -1) && SameRunning(t, r.t) && r.t.cpus == t.cpus
  {
    hide Members, Ages, Once, Complete;
    var u := Raw(t, p, level);
    var x := Promoted(u.procs[p]);
    assert With(u, p, x) == With(t, p, x);
    if level % 0x1_0000 <= MLFLEVELS {
      var m := Enqueue(With(t, p, x), p);
      StartKeeps(t, p, x);
      WakeIs(m, chan, p + 1);
      WakeKeeps(m, chan, p + 1);
    }
  }

  /** The same with the CPUs. */
  lemma {:induction false} WakeupExact(t: Table, p: nat, level: int)
    requires Inv(t) && p < NPROC && t.procs[p].state == Sleeping
    ensures TryWake(Raw(t, p, level), t.procs[p].chan, 0).Done? <==> level % 0x1_0000 <= MLFLEVELS
    ensures var r := TryWake(Raw(t, p, level), t.procs[p].chan, 0); r.Done? ==> Inv(r.t)
  {
    hide Members, Ages, Once, Complete, CpuInv, TryWake;
    WakeExact(t, p, level, t.procs[p].chan, 0);
    var r := TryWake(Raw(t, p, level), t.procs[p].chan, 0);
    if r.Done? {
      CpusStay(t, r.t);
    }
  }

  // ------------------------------------------------------------------ kill

  /** kill takes the priority as it is. p is the process that kill finds. */
  lemma {:induction false} KillExact(t: Table, p: nat, level: int, k: nat)
    requires Inv(t) && k <= p < NPROC && t.procs[p].state == Sleeping
    requires forall q :: 0 <= q < p ==> t.procs[q].pid != t.procs[p].pid
    ensures TryKill(Raw(t, p, level), t.procs[p].pid, k).Done? <==> level % 0x1_0000 < MLFLEVELS
    ensures var r := TryKill(Raw(t, p, level), t.procs[p].pid, k); r.Done? ==> Inv(r.t)
    decreases p - k
  {
    hide Members, Ages, Once, Complete, CpuInv, Enqueue;
    if k < p {
      KillExact(t, p, level, k + 1);
    } else {
      var u := Raw(t, p, level);
      var x := u.procs[p].(killed := true);
      assert With(u, p, x) == With(t, p, x);
      if level % 0x1_0000 < MLFLEVELS {
        StartKeeps(t, p, x);
        KilledCpus(t, p, x);
      }
    }
  }

  lemma {:induction false} KilledCpus(t: Table, p: nat, x: Proc)
    requires Shape(t) && CpuInv(t) && p < NPROC && t.procs[p].state == Sleeping && x.priority < MLFLEVELS
    ensures CpuInv(Enqueue(With(t, p, x), p))
  {
    CpusStay(t, Enqueue(With(t, p, x), p));
  }

  // ------------------------------------------------------------------ the first level that does not exist

  /** setpriority(4): yield indexes beyond the queues; a sleep and a wakeup bring the process back. */
  lemma {:induction false} FirstBadLevel(t: Table, c: nat, chan: nat)
    requires Inv(t) && OnCpu(t, c)
    ensures var p := t.cpus[c];
            && TryYield(Raw(t, p, MLFLEVELS), c) == OutOfRange
            && DoSleep(Raw(t, p, MLFLEVELS), c, chan) == Raw(DoSleep(t, c, chan), p, MLFLEVELS)
            && var r := TryWake(DoSleep(Raw(t, p, MLFLEVELS), c, chan), chan, 0); r.Done? && Inv(r.t)
  {
    hide Members, Ages, Once, Complete, CpuInv, TryWake, TryYield, Raw;
    var p := t.cpus[c];
    RawOn(t, p, MLFLEVELS);
    YieldExact(t, c, MLFLEVELS);
    SleepKeeps(t, c, chan);
    SleepRaw(t, c, chan, MLFLEVELS);
    WakeupExact(DoSleep(t, c, chan), p, MLFLEVELS);
  }

  lemma {:induction false} RawOn(t: Table, p: nat, level: int)
    requires p < |t.procs|
    ensures var u := Raw(t, p, level); |u.procs| == |t.procs| && u.cpus == t.cpus
  {
  }

  lemma {:induction false} SleepRaw(t: Table, c: nat, chan: nat, level: int)
    requires Shape(t) && OnCpu(t, c)
    ensures var p := t.cpus[c]; DoSleep(Raw(t, p, level), c, chan) == Raw(DoSleep(t, c, chan), p, level)
  {
    var p := t.cpus[c];
    var x := t.procs[p].(priority := level % 0x1_0000);
    assert t.procs[p := x][p := x.(state := Sleeping, chan := chan)] ==
           t.procs[p := t.procs[p].(state := Sleeping, chan := chan)][p := x.(state := Sleeping, chan := chan)];
  }
}

/** The code of proc.c that keeps the queues: first, last and next links. Each method changes the
    abstract table as Sched says. -1 stands for a null pointer. */
module SchedCode {
  import opened Sched
  import opened Seqs

  /** The links of one level: q, from first to last. */
  ghost predicate Chain(next: seq<int>, first: int, last: int, q: seq<nat>) {
    if q == [] then first == -1 && last == -1
    else first == q[0] && last == q[|q| - 1] && Linked(next, q)
  }

  ghost predicate Linked(next: seq<int>, q: seq<nat>) {
    forall j :: 0 <= j < |q| ==> Link(next, q, j)
  }

  predicate Link(next: seq<int>, q: seq<nat>, j: nat)
    requires j < |q|
  {
    q[j] < |next| && next[q[j]] == if j + 1 < |q| then q[j + 1] else -1
  }

  lemma {:induction false} ChainFrame(next: seq<int>, other: seq<int>, first: int, last: int, q: seq<nat>)
    requires Chain(next, first, last, q) && |other| == |next|
    requires forall j :: 0 <= j < |q| && q[j] < |next| ==> other[q[j]] == next[q[j]]
    ensures Chain(other, first, last, q)
  {
    if q != [] {
      forall j | 0 <= j < |q|
        ensures Link(other, q, j)
      {
        assert Link(next, q, j);
      }
    }
  }

  /** p goes behind the last element. */
  lemma {:induction false} ChainAppend(next: seq<int>, first: int, last: int, q: seq<nat>, p: nat)
    requires Chain(next, first, last, q) && Distinct(q) && p < |next| && p !in q && -1 <= last < |next|
    ensures Chain((if last == -1 then next else next[last := p])[p := -1], if last == -1 then p else first, p, q + [p])
  {
    var n, r := (if last == -1 then next else next[last := p])[p := -1], q + [p];
    forall j | 0 <= j < |r|
      ensures Link(n, r, j)
    {
      if j < |q| {
        assert Link(next, q, j) && q[j] != p;
      }
    }
  }

  lemma {:induction false} ChainTail(next: seq<int>, first: int, last: int, q: seq<nat>)
    requires Chain(next, first, last, q) && Distinct(q) && q != []
    ensures first == last <==> |q| == 1
    ensures |q| == 1 ==> Chain(next, -1, -1, q[1..])
    ensures |q| > 1 ==> first < |next| && Chain(next, next[first], last, q[1..])
  {
    if |q| > 1 {
      assert q[0] != q[|q| - 1];
      assert Link(next, q, 0);
      var r := q[1..];
      forall j | 0 <= j < |r|
        ensures Link(next, r, j)
      {
        assert Link(next, q, j + 1);
      }
    }
  }

  class PTable {
    var t: Table               // procs, cpus, nextpid, initproc; its queues are the abstract view
    var next: seq<int>         // p->next
    var first: seq<int>        // mlf[l].first
    var last: seq<int>         // mlf[l].last

    ghost predicate Linked()
      reads this
    {
      && |next| == NPROC && |first| == |last| == |t.queues| == MLFLEVELS
      && forall l :: 0 <= l < MLFLEVELS ==> Chain(next, first[l], last[l], t.queues[l])
    }

    /** The table and its links fit, except that process `hole` is RUNNABLE and in no queue. */
    ghost predicate Valid(hole: int)
      reads this
    {
      Sound(t, hole) && Linked()
    }

    /** The zeroed table, on a machine with n CPUs in their schedulers. */
    constructor (n: nat)
      ensures Init(t) && |t.cpus| == n && Valid(-1) && Ages(t) && CpuInv(t)
    {
      t := Table(seq(NPROC, _ => Proc(Unused, 0, 0, 0, 0, false, -1)), [[], [], [], []], seq(n, _ => -1), 1, 0);
      next, first, last := seq(NPROC, _ => -1), [-1, -1, -1, -1], [-1, -1, -1, -1];
    }

    /** make_runnable. */
    method MakeRunnable(p: nat, ghost hole: int)
      requires Valid(hole) && p < NPROC && Out(t, p)
      modifies this
      ensures t == Enqueue(old(t), p) && Valid(if p == hole then -1 else hole)
    {
      hide Members, Ages, Once, Complete, Chain;
      ghost var o, n, f, e := t, next, first, last;
      var l := t.procs[p].priority;
      EnqueueKeeps(t, p, hole);
      LastIn(l);
      if last[l] == -1 {
        first := first[l := p];
      } else {
        next := next[last[l] := p];
      }
      last := last[l := p];
      next := next[p := -1];
      t := Enqueue(t, p);
      AppendLinks(o, n, f, e, p, hole);
      assert first == (if e[l] == -1 then f[l := p] else f);
    }

    lemma {:induction false} LastIn(l: nat)
      requires Shape(t) && Members(t) && Linked() && l < MLFLEVELS
      ensures last[l] == -1 <==> t.queues[l] == []
      ensures t.queues[l] != [] ==> 0 <= last[l] < NPROC && Member(t, l, last[l])
      ensures t.queues[l] != [] ==> 0 <= first[l] < NPROC && Member(t, l, first[l])
      ensures first[l] == -1 <==> t.queues[l] == []
      ensures t.queues[l] != [] ==> first[l] == t.queues[l][0]
    {
      assert Chain(next, first[l], last[l], t.queues[l]);
      if t.queues[l] != [] {
        assert Member(t, l, t.queues[l][0]) && Member(t, l, t.queues[l][|t.queues[l]| - 1]);
      }
    }

    /** unqueue: the head of a level; a panic if the level is empty, or the head not RUNNABLE. */
    method Unqueue(level: nat) returns (p: nat, panicked: bool)
      requires Valid(-1) && level < MLFLEVELS
      modifies this
      ensures panicked <==> old(t).queues[level] == []
      ensures panicked ==> t == old(t) && Valid(-1)
      ensures !panicked ==> p == old(t).queues[level][0] < NPROC && t == Sched.Unqueue(old(t), level)
      ensures !panicked ==> Valid(p) && Out(t, p)
    {
      hide Members, Ages, Once, Complete, Chain;
      LastIn(level);
      if first[level] == -1 {
        return 0, true;
      }
      UnqueueKeeps(t, level);
      TailLinks(t, next, first, last, level);
      p := first[level];
      if first[level] == last[level] {
        first, last := first[level := -1], last[level := -1];
      } else {
        first := first[level := next[p]];
      }
      t := Sched.Unqueue(t, level);
      panicked := t.procs[p].state != Runnable;
    }

    /** levelupdate, for the head of a level. */
    method LevelUpdate(p: nat)
      requires Valid(-1) && p < NPROC && t.queues[t.procs[p].priority] != [] && t.queues[t.procs[p].priority][0] == p
      modifies this
      ensures t == Sched.LevelUpdate(old(t), p) && Valid(-1)
    {
      hide Members, Once, Complete;
      ghost var s := t;
      UnqueueKeeps(t, t.procs[p].priority);
      var q, panicked := Unqueue(t.procs[p].priority);
      if t.procs[p].priority > 0 {
        WithKeeps(t, p, t.procs[p].(priority := t.procs[p].priority - 1), p);
        t := With(t, p, t.procs[p].(priority := t.procs[p].priority - 1));
      }
      assert t.procs == s.procs[p := Promoted(s.procs[p])];
      MakeRunnable(p, p);
    }

    /** One turn of the loop of calculateaging. */
    method AgeHead(l: nat)
      requires Valid(-1) && Ages(t) && l < MLFLEVELS
      modifies this
      ensures t == AgeLevel(old(t), l) && Valid(-1) && Ages(t)
    {
      hide Members, Once, Complete;
      LastIn(l);
      AgeLevelKeeps(t, l);
      if first[l] != -1 {
        var p := first[l];
        SoundOlder(t, p, t.procs[p].age + 1);
        t := With(t, p, t.procs[p].(age := t.procs[p].age + 1));
        if t.procs[p].age == AGEFORAGINGS {
          LevelUpdate(p);
        }
      }
    }

    /** calculateaging. */
    method CalculateAging()
      requires Valid(-1) && Ages(t)
      modifies this
      ensures t == DoAging(old(t), 0) && Valid(-1) && Ages(t)
    {
      hide Members, Once, Complete, Ages;
      for l := 0 to MLFLEVELS
        invariant Valid(-1) && Ages(t) && DoAging(t, l) == DoAging(old(t), 0)
      {
        AgeHead(l);
      }
    }

    /** One pass of the scheduler on CPU c: the process it switches to, or -1. */
    method Scheduler(c: nat) returns (p: int)
      requires Valid(-1) && Ages(t) && CpuInv(t) && Enabled(t, Dispatch(c))
      modifies this
      ensures t == DoDispatch(old(t), c) && Valid(-1) && Ages(t) && CpuInv(t)
      ensures p == t.cpus[c]
    {
      hide Members, Once, Complete, Ages, CpuInv;
      DispatchKeeps(t, c);
      for l := 0 to MLFLEVELS
        invariant t == old(t) && Valid(-1) && Best(t, 0) == Best(t, l)
      {
        LastIn(l);
        if first[l] != -1 {
          var panicked;
          p, panicked := Unqueue(l);
          t := With(t, p, t.procs[p].(state := Running)).(cpus := t.cpus[c := p]);
          return;
        }
      }
      return -1;
    }

    /** The search of allocproc; NPROC if all slots are in use. */
    method FindUnused() returns (p: nat)
      requires |t.procs| == NPROC
      ensures p == FirstUnused(t, 0) && forall q :: 0 <= q < p ==> t.procs[q].state != Unused
    {
      for q := 0 to NPROC
        invariant FirstUnused(t, 0) == FirstUnused(t, q) && forall x :: 0 <= x < q ==> t.procs[x].state != Unused
      {
        if t.procs[q].state == Unused {
          return q;
        }
      }
      return NPROC;
    }

    /** allocproc, up to its release of the lock: the slot it takes, or -1. */
    method AllocProc() returns (p: int)
      requires Valid(-1) && Ages(t) && CpuInv(t)
      modifies this
      ensures t == DoAlloc(old(t)) && Valid(-1) && Ages(t) && CpuInv(t)
      ensures p == -1 <==> forall q :: 0 <= q < NPROC ==> old(t).procs[q].state != Unused
      ensures p != -1 ==> 0 <= p < NPROC && old(t).procs[p].state == Unused && t.procs[p].pid == old(t).nextpid
    {
      hide Members, Once, Complete, Ages, CpuInv, Chain, Grows;
      AllocKeeps(t);
      p := FindUnused();
      if p == NPROC {
        return -1;
      }
      t := With(t, p, t.procs[p].(state := Embryo, pid := t.nextpid, priority := 0, age := 0));
      t := t.(nextpid := t.nextpid + 1);
    }

    /** sleep, of the process on CPU c, up to its switch to the scheduler. */
    method Sleep(c: nat, chan: nat)
      requires Valid(-1) && Ages(t) && CpuInv(t) && OnCpu(t, c)
      modifies this
      ensures t == DoSleep(old(t), c, chan) && Valid(-1) && Ages(t) && CpuInv(t)
    {
      hide Members, Once, Complete, Ages;
      SleepKeeps(t, c, chan);
      var p := t.cpus[c];
      t := With(t, p, t.procs[p].(state := Sleeping, chan := chan));
      t := Idle(t, c);
    }

    /** The loop of wait: the first zombie among the children of p, NPROC if there is none, and then
        whether there are children. */
    method FindZombie(p: nat) returns (z: nat, havekids: bool)
      requires |t.procs| == NPROC
      ensures z == FirstZombie(t, p, 0)
      ensures z == NPROC ==> (havekids <==> exists x :: 0 <= x < NPROC && t.procs[x].parent == p)
    {
      havekids := false;
      for q := 0 to NPROC
        invariant FirstZombie(t, p, 0) == FirstZombie(t, p, q)
        invariant havekids <==> exists x :: 0 <= x < q && t.procs[x].parent == p
      {
        if t.procs[q].parent == p {
          havekids := true;
          if t.procs[q].state == Zombie {
            return q, havekids;
          }
        }
      }
      z := NPROC;
    }

    /** One scan of wait, of the process on CPU c: the pid of the zombie it reaps, -1 if there is nothing
        to wait for, else sleep. */
    method Wait(c: nat) returns (pid: int, asleep: bool)
      requires Valid(-1) && Ages(t) && CpuInv(t) && OnCpu(t, c)
      modifies this
      ensures t == DoWait(old(t), c) && Valid(-1) && Ages(t) && CpuInv(t)
      ensures var z := FirstZombie(old(t), old(t).cpus[c], 0);
              if z < NPROC then !asleep && pid == old(t).procs[z].pid
              else pid == -1 && (!asleep ==> t == old(t))
    {
      hide Members, Once, Complete, Ages, CpuInv, DoSleep;
      WaitKeeps(t, c);
      var p := t.cpus[c];
      var q, havekids := FindZombie(p);
      if q < NPROC {
        pid := t.procs[q].pid;
        t := With(t, q, t.procs[q].(state := Unused, pid := 0, parent := -1, killed := false));
        return pid, false;
      }
      if !havekids || t.procs[p].killed {
        return -1, false;
      }
      Sleep(c, p);
      return -1, true;
    }

    /** yield, of the process on CPU c. */
    method Yield(c: nat)
      requires Valid(-1) && Ages(t) && CpuInv(t) && Enabled(t, Event.Yield(c))
      modifies this
      ensures t == DoYield(old(t), c) && Valid(-1) && Ages(t) && CpuInv(t)
    {
      hide Members, Once, Complete, Ages;
      YieldKeeps(t, c);
      ghost var s := t;
      var p := t.cpus[c];
      NotRunnableOut(t, p);
      WithKeeps(t, p, Demoted(t.procs[p]), -1);
      if t.procs[p].priority < MLFLEVELS - 1 {
        t := With(t, p, t.procs[p].(priority := t.procs[p].priority + 1));
      }
      assert t.procs == s.procs[p := Demoted(s.procs[p])];
      MakeRunnable(p, -1);
      t := Idle(t, c);
    }

    /** The body of the loop of wakeup1, for a sleeper on the channel. */
    method WakeOne(p: nat)
      requires Valid(-1) && Ages(t) && p < NPROC && t.procs[p].state == Sleeping
      modifies this
      ensures t == Enqueue(With(old(t), p, Promoted(old(t).procs[p])), p) && Valid(-1) && Ages(t)
    {
      hide Members, Once, Complete, Ages, Chain, Grows;
      ghost var s := t;
      StartKeeps(t, p, Promoted(t.procs[p]));
      NotRunnableOut(t, p);
      WithKeeps(t, p, Promoted(t.procs[p]), -1);
      if t.procs[p].priority > 0 {
        t := With(t, p, t.procs[p].(priority := t.procs[p].priority - 1));
      }
      assert t.procs == s.procs[p := Promoted(s.procs[p])];
      MakeRunnable(p, -1);
    }

    /** wakeup1. */
    method Wakeup1(chan: nat)
      requires Valid(-1) && Ages(t)
      modifies this
      ensures t == Wake(old(t), chan, 0) && Valid(-1) && Ages(t)
    {
      hide Members, Once, Complete, Ages, Chain, Out;
      for p := 0 to NPROC
        invariant Valid(-1) && Ages(t) && Wake(t, chan, p) == Wake(old(t), chan, 0)
      {
        if t.procs[p].state == Sleeping && t.procs[p].chan == chan {
          WakeOne(p);
        }
      }
    }

    /** kill. */
    method Kill(pid: int) returns (r: int)
      requires Valid(-1) && Ages(t)
      modifies this
      ensures t == DoKill(old(t), pid, 0) && Valid(-1) && Ages(t)
      ensures r == if exists p :: 0 <= p < NPROC && old(t).procs[p].pid == pid then 0 else -1
    {
      hide Members, Once, Complete, Ages, Chain, Grows, SameRunning, Out;
      for p := 0 to NPROC
        invariant t == old(t) && Valid(-1) && DoKill(t, pid, p) == DoKill(t, pid, 0)
        invariant forall q :: 0 <= q < p ==> t.procs[q].pid != pid
      {
        if t.procs[p].pid == pid {
          KillKeeps(t, pid, p);
          WithQuiet(t, p, t.procs[p].(killed := true));
          t := With(t, p, t.procs[p].(killed := true));
          if t.procs[p].state == Sleeping {
            NotRunnableOut(t, p);
            MakeRunnable(p, -1);
          }
          return 0;
        }
      }
      return -1;
    }

    /** The body of the loop of exit, for a child. */
    method PassChild(q: nat)
      requires Valid(-1) && Ages(t) && q < NPROC
      modifies this
      ensures Valid(-1) && Ages(t)
      ensures var u := With(old(t), q, old(t).procs[q].(parent := old(t).init));
              Shape(u) && t == if old(t).procs[q].state == Zombie then Wake(u, u.init, 0) else u
    {
      hide Members, Once, Complete, Ages, Wake, Chain;
      WithQuiet(t, q, t.procs[q].(parent := t.init));
      t := With(t, q, t.procs[q].(parent := t.init));
      if t.procs[q].state == Zombie {
        Wakeup1(t.init);
      }
    }

    /** The loop of exit: the children of p go to init. */
    method PassChildren(p: nat)
      requires Valid(-1) && Ages(t)
      modifies this
      ensures Valid(-1) && Ages(t) && t == Orphans(old(t), p, 0)
    {
      hide Members, Once, Complete, Ages, Wake, Linked;
      for q := 0 to NPROC
        invariant Valid(-1) && Ages(t) && Orphans(t, p, q) == Orphans(old(t), p, 0)
      {
        if t.procs[q].parent == p {
          PassChild(q);
        }
      }
    }

    /** The part of exit under ptable.lock, for the process on CPU c. */
    method Exit(c: nat)
      requires Valid(-1) && Ages(t) && CpuInv(t) && Enabled(t, Event.Exit(c))
      modifies this
      ensures t == DoExit(old(t), c) && Valid(-1) && Ages(t) && CpuInv(t)
    {
      hide Members, Once, Complete, Ages, CpuInv, Wake, Orphans, Chain, Grows;
      ExitKeeps(t, c);
      var p := t.cpus[c];
      if t.procs[p].parent >= 0 {
        Wakeup1(t.procs[p].parent);
      }
      PassChildren(p);
      t := Idle(With(t, p, t.procs[p].(state := Zombie)), c);
    }
  }

  /** A change of age only. */
  lemma {:induction false} SoundOlder(t: Table, p: nat, age: nat)
    requires Sound(t, -1) && p < NPROC
    ensures Sound(With(t, p, t.procs[p].(age := age)), -1)
  {
    var u := With(t, p, t.procs[p].(age := age));
    forall l, j | 0 <= l < MLFLEVELS && 0 <= j < |u.queues[l]|
      ensures Member(u, l, u.queues[l][j])
    {
      assert Member(t, l, t.queues[l][j]);
    }
  }

  lemma {:induction false} AppendLinks(o: Table, n: seq<int>, f: seq<int>, e: seq<int>, p: nat, hole: int)
    requires Sound(o, hole) && p < NPROC && Out(o, p)
    requires |n| == NPROC && |f| == |e| == MLFLEVELS
    requires forall k :: 0 <= k < MLFLEVELS ==> Chain(n, f[k], e[k], o.queues[k])
    ensures var l := o.procs[p].priority;
            && -1 <= e[l] < NPROC
            && var m := (if e[l] == -1 then n else n[e[l] := p])[p := -1];
               var g, h := if e[l] == -1 then f[l := p] else f, e[l := p];
               forall k :: 0 <= k < MLFLEVELS ==> Chain(m, g[k], h[k], Enqueue(o, p).queues[k])
  {
    var l := o.procs[p].priority;
    assert Chain(n, f[l], e[l], o.queues[l]);
    if o.queues[l] != [] {
      assert Member(o, l, o.queues[l][|o.queues[l]| - 1]);
    }
    var m := (if e[l] == -1 then n else n[e[l] := p])[p := -1];
    var g, h := if e[l] == -1 then f[l := p] else f, e[l := p];
    forall k | 0 <= k < MLFLEVELS
      ensures Chain(m, g[k], h[k], Enqueue(o, p).queues[k])
    {
      if k == l {
        assert Distinct(o.queues[l]);
        ChainAppend(n, f[l], e[l], o.queues[l], p);
      } else {
        OtherChain(o, n, m, f[k], e[k], k, l, p, e[l]);
      }
    }
  }

  /** Links of other levels are not touched. */
  lemma {:induction false} OtherChain(o: Table, n: seq<int>, m: seq<int>, first: int, last: int, k: nat, l: nat,
                                      p: nat, e: int)
    requires Shape(o) && Members(o) && k < MLFLEVELS && l < MLFLEVELS && k != l && Out(o, p) && p < NPROC
    requires Chain(n, first, last, o.queues[k]) && |n| == |m| == NPROC
    requires e == -1 || (0 <= e < NPROC && Member(o, l, e))
    requires forall j :: 0 <= j < NPROC && j != p && j != e ==> m[j] == n[j]
    ensures Chain(m, first, last, o.queues[k])
  {
    forall j | 0 <= j < |o.queues[k]| && o.queues[k][j] < |n|
      ensures m[o.queues[k][j]] == n[o.queues[k][j]]
    {
      assert Member(o, k, o.queues[k][j]);
    }
    ChainFrame(n, m, first, last, o.queues[k]);
  }

  lemma {:induction false} TailLinks(o: Table, n: seq<int>, f: seq<int>, e: seq<int>, l: nat)
    requires Sound(o, -1) && l < MLFLEVELS && o.queues[l] != []
    requires |n| == NPROC && |f| == |e| == MLFLEVELS
    requires forall k :: 0 <= k < MLFLEVELS ==> Chain(n, f[k], e[k], o.queues[k])
    ensures 0 <= f[l] < NPROC && f[l] == o.queues[l][0]
    ensures var g, h := if f[l] == e[l] then f[l := -1] else f[l := n[f[l]]], if f[l] == e[l] then e[l := -1] else e;
            forall k :: 0 <= k < MLFLEVELS ==> Chain(n, g[k], h[k], Sched.Unqueue(o, l).queues[k])
  {
    assert Chain(n, f[l], e[l], o.queues[l]) && Distinct(o.queues[l]) && Member(o, l, o.queues[l][0]);
    ChainTail(n, f[l], e[l], o.queues[l]);
  }
}

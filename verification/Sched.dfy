/** The process table and the multi-level feedback queues of proc.c, as a state machine: one event is
    one critical section under ptable.lock. Queues are sequences here; SchedCode has the links. */
module Sched {
  import opened Seqs

  const NPROC := 64
  const MLFLEVELS := 4
  const AGEFORAGINGS := 5

  datatype PState = Unused | Embryo | Sleeping | Runnable | Running | Zombie

  datatype Proc = Proc(state: PState, priority: nat, age: nat, chan: nat, pid: int, killed: bool, parent: int)

  /** cpus[c] is the process CPU c runs, -1 for its scheduler; init is the index of initproc. The
      address of process p, as a channel, is p. */
  datatype Table = Table(procs: seq<Proc>, queues: seq<seq<nat>>, cpus: seq<int>, nextpid: int, init: nat)

  // ------------------------------------------------------------------ the invariant

  ghost predicate Shape(t: Table) {
    && |t.procs| == NPROC && |t.queues| == MLFLEVELS && t.init < NPROC
    && forall p :: 0 <= p < NPROC ==> t.procs[p].priority < MLFLEVELS
  }

  /** Level l holds RUNNABLE processes of priority l only. */
  ghost predicate Members(t: Table)
    requires Shape(t)
  {
    forall l, j :: 0 <= l < MLFLEVELS && 0 <= j < |t.queues[l]| ==> Member(t, l, t.queues[l][j])
  }

  predicate Member(t: Table, l: nat, p: nat)
    requires |t.procs| == NPROC
  {
    p < NPROC && t.procs[p].state == Runnable && t.procs[p].priority == l
  }

  /** It holds all of them, except the process `hole`, if any. */
  ghost predicate Complete(t: Table, hole: int)
    requires Shape(t)
  {
    forall p :: 0 <= p < NPROC && p != hole && t.procs[p].state == Runnable ==> p in t.queues[t.procs[p].priority]
  }

  /** It holds each of them once. */
  ghost predicate Once(t: Table)
    requires Shape(t)
  {
    forall l :: 0 <= l < MLFLEVELS ==> Distinct(t.queues[l])
  }

  /** Only the head of a queue has a non-zero age, and it has not reached AGEFORAGINGS. */
  ghost predicate Ages(t: Table)
    requires Shape(t) && Members(t)
  {
    forall l, j :: 0 <= l < MLFLEVELS && 0 <= j < |t.queues[l]| ==> Young(t, t.queues[l][j], j)
  }

  predicate Young(t: Table, p: nat, j: nat)
    requires p < |t.procs|
  {
    t.procs[p].age < AGEFORAGINGS && (j > 0 ==> t.procs[p].age == 0)
  }

  ghost predicate Sound(t: Table, hole: int) {
    Shape(t) && Members(t) && Complete(t, hole) && Once(t)
  }

  ghost predicate QueueInv(t: Table, hole: int) {
    Sound(t, hole) && Ages(t)
  }

  /** The process is in no queue. */
  ghost predicate Out(t: Table, p: nat) {
    forall l, j :: 0 <= l < |t.queues| && 0 <= j < |t.queues[l]| ==> t.queues[l][j] != p
  }

  /** Every RUNNING process is on exactly one CPU, and CPUs run nothing else. */
  ghost predicate CpuInv(t: Table) {
    && (forall c :: 0 <= c < |t.cpus| && t.cpus[c] != -1 ==>
          0 <= t.cpus[c] < |t.procs| && t.procs[t.cpus[c]].state == Running)
    && (forall c, d :: 0 <= c < d < |t.cpus| && t.cpus[c] != -1 ==> t.cpus[c] != t.cpus[d])
    && (forall p :: 0 <= p < |t.procs| && t.procs[p].state == Running ==> p in t.cpus)
  }

  ghost predicate Inv(t: Table) {
    QueueInv(t, -1) && CpuInv(t)
  }

  // ------------------------------------------------------------------ queue operations

  /** make_runnable. */
  function Enqueue(t: Table, p: nat): Table
    requires p < |t.procs| && t.procs[p].priority < |t.queues|
  {
    var l := t.procs[p].priority;
    t.(procs := t.procs[p := t.procs[p].(age := 0, state := Runnable)], queues := t.queues[l := t.queues[l] + [p]])
  }

  /** unqueue: the head of level l leaves its queue. */
  function Unqueue(t: Table, l: nat): Table
    requires l < |t.queues| && t.queues[l] != []
  {
    t.(queues := t.queues[l := t.queues[l][1..]])
  }

  /** A change of process p that does not involve the queues. */
  function With(t: Table, p: nat, x: Proc): Table
    requires p < |t.procs|
  {
    t.(procs := t.procs[p := x])
  }

  lemma {:induction false} NotRunnableOut(t: Table, p: nat)
    requires Shape(t) && Members(t) && p < NPROC && t.procs[p].state != Runnable
    ensures Out(t, p)
  {
    forall l, j | 0 <= l < |t.queues| && 0 <= j < |t.queues[l]|
      ensures t.queues[l][j] != p
    {
      assert Member(t, l, t.queues[l][j]);
    }
  }

  lemma {:induction false} EnqueueMembers(t: Table, p: nat)
    requires Shape(t) && Members(t) && p < NPROC && Out(t, p)
    ensures var u := Enqueue(t, p); Shape(u) && Members(u) && (Ages(t) ==> Ages(u))
  {
    var u := Enqueue(t, p);
    forall l, j | 0 <= l < MLFLEVELS && 0 <= j < |u.queues[l]|
      ensures Member(u, l, u.queues[l][j]) && (Ages(t) ==> Young(u, u.queues[l][j], j))
    {
      if j < |t.queues[l]| {
        assert u.queues[l][j] == t.queues[l][j] && Member(t, l, t.queues[l][j]);
        assert Ages(t) ==> Young(t, t.queues[l][j], j);
      }
    }
  }

  lemma {:induction false} EnqueueOnce(t: Table, p: nat)
    requires Shape(t) && Once(t) && p < NPROC && Out(t, p)
    ensures Shape(Enqueue(t, p)) && Once(Enqueue(t, p))
  {
    var u := Enqueue(t, p);
    forall l | 0 <= l < MLFLEVELS
      ensures Distinct(u.queues[l])
    {
      assert Distinct(t.queues[l]);
    }
  }

  lemma {:induction false} EnqueueComplete(t: Table, p: nat, hole: int)
    requires Shape(t) && Complete(t, hole) && p < NPROC
    ensures Shape(Enqueue(t, p)) && Complete(Enqueue(t, p), if p == hole then -1 else hole)
  {
    var u := Enqueue(t, p);
    forall q | 0 <= q < NPROC && q != (if p == hole then -1 else hole) && u.procs[q].state == Runnable
      ensures q in u.queues[u.procs[q].priority]
    {
      var k := u.procs[q].priority;
      if q == p {
        assert u.queues[k][|t.queues[k]|] == p;
      } else {
        assert q in t.queues[k];
      }
    }
  }

  lemma {:induction false} EnqueueKeeps(t: Table, p: nat, hole: int)
    requires Sound(t, hole) && p < NPROC && Out(t, p)
    ensures var u := Enqueue(t, p); Sound(u, if p == hole then -1 else hole) && (Ages(t) ==> Ages(u))
  {
    hide Members, Ages, Once, Complete;
    EnqueueMembers(t, p);
    EnqueueOnce(t, p);
    EnqueueComplete(t, p, hole);
  }

  lemma {:induction false} UnqueueMembers(t: Table, l: nat)
    requires Shape(t) && Members(t) && l < MLFLEVELS && t.queues[l] != []
    ensures var u := Unqueue(t, l); Shape(u) && Members(u) && (Ages(t) ==> Ages(u))
  {
    var u := Unqueue(t, l);
    forall k, j | 0 <= k < MLFLEVELS && 0 <= j < |u.queues[k]|
      ensures Member(u, k, u.queues[k][j]) && (Ages(t) ==> Young(u, u.queues[k][j], j))
    {
      var i := if k == l then j + 1 else j;
      assert u.queues[k][j] == t.queues[k][i] && Member(t, k, t.queues[k][i]);
      assert Ages(t) ==> Young(t, t.queues[k][i], i);
    }
  }

  lemma {:induction false} UnqueueComplete(t: Table, l: nat)
    requires Shape(t) && Complete(t, -1) && l < MLFLEVELS && t.queues[l] != []
    ensures Shape(Unqueue(t, l)) && Complete(Unqueue(t, l), t.queues[l][0])
  {
    var u := Unqueue(t, l);
    forall q | 0 <= q < NPROC && q != t.queues[l][0] && u.procs[q].state == Runnable
      ensures q in u.queues[u.procs[q].priority]
    {
      var k := u.procs[q].priority;
      assert q in t.queues[k];
      var j :| 0 <= j < |t.queues[k]| && t.queues[k][j] == q;
      if k == l {
        assert u.queues[k][j - 1] == q;
      }
    }
  }

  lemma {:induction false} UnqueueOut(t: Table, l: nat)
    requires Shape(t) && Members(t) && Once(t) && l < MLFLEVELS && t.queues[l] != []
    ensures Shape(Unqueue(t, l)) && Once(Unqueue(t, l)) && Out(Unqueue(t, l), t.queues[l][0])
  {
    var u := Unqueue(t, l);
    forall k | 0 <= k < MLFLEVELS
      ensures Distinct(u.queues[k])
    {
      assert Distinct(t.queues[k]);
    }
    forall k, j | 0 <= k < |u.queues| && 0 <= j < |u.queues[k]|
      ensures u.queues[k][j] != t.queues[l][0]
    {
      assert Distinct(t.queues[l]) && Member(t, l, t.queues[l][0]);
      if k == l {
        assert u.queues[k][j] == t.queues[l][j + 1];
      } else {
        assert Member(t, k, t.queues[k][j]);
      }
    }
  }

  lemma {:induction false} UnqueueKeeps(t: Table, l: nat)
    requires Sound(t, -1) && l < MLFLEVELS && t.queues[l] != []
    ensures var p, u := t.queues[l][0], Unqueue(t, l);
            Member(t, l, p) && Sound(u, p) && Out(u, p) && (Ages(t) ==> Ages(u))
  {
    UnqueueMembers(t, l);
    UnqueueComplete(t, l);
    UnqueueOut(t, l);
    assert Member(t, l, t.queues[l][0]);
  }

  /** Changing a process that is in no queue, to something that is not RUNNABLE or stays the hole. */
  lemma {:induction false} WithKeeps(t: Table, p: nat, x: Proc, hole: int)
    requires Sound(t, hole) && p < NPROC && Out(t, p) && x.priority < MLFLEVELS
    requires x.state != Runnable || p == hole
    ensures var u := With(t, p, x);
            && Sound(u, if x.state != Runnable && p == hole then -1 else hole) && Out(u, p)
            && (Ages(t) ==> Ages(u))
  {
    var u := With(t, p, x);
    forall l, j | 0 <= l < MLFLEVELS && 0 <= j < |u.queues[l]|
      ensures Member(u, l, u.queues[l][j]) && (Ages(t) ==> Young(u, u.queues[l][j], j))
    {
      assert Member(t, l, t.queues[l][j]) && (Ages(t) ==> Young(t, t.queues[l][j], j));
    }
  }

  /** The queues do not depend on the CPUs. */
  lemma {:induction false} SameQueues(t: Table, u: Table)
    requires QueueInv(t, -1) && u.procs == t.procs && u.queues == t.queues && u.init == t.init
    ensures QueueInv(u, -1)
  {
    forall l, j | 0 <= l < MLFLEVELS && 0 <= j < |u.queues[l]|
      ensures Member(u, l, u.queues[l][j]) && Young(u, u.queues[l][j], j)
    {
      assert Member(t, l, t.queues[l][j]) && Young(t, t.queues[l][j], j);
    }
  }

  /** Changing what the queues do not depend on. */
  lemma {:induction false} WithQuiet(t: Table, p: nat, x: Proc)
    requires QueueInv(t, -1) && p < NPROC
    requires x.state == t.procs[p].state && x.priority == t.procs[p].priority && x.age == t.procs[p].age
    ensures QueueInv(With(t, p, x), -1)
  {
    var u := With(t, p, x);
    forall l, j | 0 <= l < MLFLEVELS && 0 <= j < |u.queues[l]|
      ensures Member(u, l, u.queues[l][j]) && Young(u, u.queues[l][j], j)
    {
      assert Member(t, l, t.queues[l][j]) && Young(t, t.queues[l][j], j);
    }
  }

  // ------------------------------------------------------------------ the events

  datatype Event =
    | Dispatch(c: nat)                 // one pass of scheduler() on CPU c
    | Yield(c: nat)
    | Sleep(c: nat, chan: nat)
    | Wakeup(chan: nat)
    | Kill(pid: int)
    | Alloc                            // allocproc, up to its release of the lock
    | Abandon(p: nat)                  // allocproc or fork gives the slot back
    | Start(p: nat, parent: int)       // the end of fork and of userinit
    | Exit(c: nat)
    | Wait(c: nat)                     // one scan of wait(), and what it does then
    | SetPriority(c: nat, level: nat)
    | Aging

  predicate OnCpu(t: Table, c: nat) {
    c < |t.cpus| && 0 <= t.cpus[c] < |t.procs|
  }

  /** What callers owe: Sleep, Yield, Wait and Exit are calls of the running process; only wait sleeps
      on the address of a process; a process is not its own parent; init does not exit;
      sys_setpriority is called with a level that exists. */
  predicate Enabled(t: Table, e: Event) {
    match e
    case Dispatch(c) => c < |t.cpus| && t.cpus[c] == -1
    case Yield(c) => OnCpu(t, c)
    case Sleep(c, chan) => OnCpu(t, c) && chan >= NPROC
    case Wakeup(_) => true
    case Kill(_) => true
    case Alloc => true
    case Abandon(p) => p < |t.procs| && t.procs[p].state == Embryo
    case Start(p, parent) => p < |t.procs| && t.procs[p].state == Embryo && parent != p
    case Exit(c) => OnCpu(t, c) && t.cpus[c] != t.init
    case Wait(c) => OnCpu(t, c)
    case SetPriority(c, level) => OnCpu(t, c) && level < MLFLEVELS
    case Aging => true
  }

  /** The best non-empty level from l on; MLFLEVELS if there is none. */
  function Best(t: Table, l: nat): (r: nat)
    requires l <= MLFLEVELS == |t.queues|
    ensures l <= r <= MLFLEVELS && (r < MLFLEVELS ==> t.queues[r] != [])
    ensures forall k :: l <= k < r ==> t.queues[k] == []
    decreases MLFLEVELS - l
  {
    if l == MLFLEVELS || t.queues[l] != [] then l else Best(t, l + 1)
  }

  function DoDispatch(t: Table, c: nat): Table
    requires Shape(t) && Members(t) && c < |t.cpus|
  {
    var l := Best(t, 0);
    if l == MLFLEVELS then t
    else
      var p := t.queues[l][0];
      assert Member(t, l, p);
      With(Unqueue(t, l), p, t.procs[p].(state := Running)).(cpus := t.cpus[c := p])
  }

  /** The CPU goes back to its scheduler. */
  function Idle(t: Table, c: nat): Table
    requires c < |t.cpus|
  {
    t.(cpus := t.cpus[c := -1])
  }

  function Demoted(x: Proc): Proc {
    x.(priority := if x.priority < MLFLEVELS - 1 then x.priority + 1 else x.priority)
  }

  function Promoted(x: Proc): Proc {
    x.(priority := if x.priority > 0 then x.priority - 1 else 0)
  }

  function DoYield(t: Table, c: nat): Table
    requires Shape(t) && OnCpu(t, c)
  {
    var p := t.cpus[c];
    Idle(Enqueue(With(t, p, Demoted(t.procs[p])), p), c)
  }

  function DoSleep(t: Table, c: nat, chan: nat): Table
    requires OnCpu(t, c)
  {
    var p := t.cpus[c];
    Idle(With(t, p, t.procs[p].(state := Sleeping, chan := chan)), c)
  }

  /** The first zombie among the children of p, from process q of the table on; NPROC if there is none. */
  function FirstZombie(t: Table, p: nat, q: nat): (r: nat)
    requires q <= NPROC == |t.procs|
    ensures q <= r <= NPROC && (r < NPROC ==> t.procs[r].parent == p && t.procs[r].state == Zombie)
    ensures forall z :: q <= z < r ==> !(t.procs[z].parent == p && t.procs[z].state == Zombie)
    decreases NPROC - q
  {
    if q == NPROC || (t.procs[q].parent == p && t.procs[q].state == Zombie) then q else FirstZombie(t, p, q + 1)
  }

  /** wait: reap a zombie child, or return because there are no children or the process has been
      killed, or sleep on the own address. */
  function DoWait(t: Table, c: nat): Table
    requires |t.procs| == NPROC && OnCpu(t, c)
  {
    var p := t.cpus[c];
    var z := FirstZombie(t, p, 0);
    if z < NPROC then With(t, z, t.procs[z].(state := Unused, pid := 0, parent := -1, killed := false))
    else if !(exists q :: 0 <= q < NPROC && t.procs[q].parent == p) || t.procs[p].killed then t
    else DoSleep(t, c, p)
  }

  /** wakeup1, from process p of the table on. */
  function Wake(t: Table, chan: nat, p: nat): (r: Table)
    requires Shape(t) && p <= NPROC
    ensures Shape(r) && r.cpus == t.cpus && r.nextpid == t.nextpid && r.init == t.init
    decreases NPROC - p
  {
    if p == NPROC then t
    else if t.procs[p].state == Sleeping && t.procs[p].chan == chan then
      Wake(Enqueue(With(t, p, Promoted(t.procs[p])), p), chan, p + 1)
    else Wake(t, chan, p + 1)
  }

  /** kill, from process p of the table on. */
  function DoKill(t: Table, pid: int, p: nat): Table
    requires Shape(t) && p <= NPROC
    decreases NPROC - p
  {
    if p == NPROC then t
    else if t.procs[p].pid == pid then
      var u := With(t, p, t.procs[p].(killed := true));
      if t.procs[p].state == Sleeping then Enqueue(u, p) else u
    else DoKill(t, pid, p + 1)
  }

  /** The first UNUSED slot from p on; NPROC if there is none. */
  function FirstUnused(t: Table, p: nat): (r: nat)
    requires p <= NPROC == |t.procs|
    ensures p <= r <= NPROC && (r < NPROC ==> t.procs[r].state == Unused)
    decreases NPROC - p
  {
    if p == NPROC || t.procs[p].state == Unused then p else FirstUnused(t, p + 1)
  }

  function DoAlloc(t: Table): Table
    requires Shape(t)
  {
    var p := FirstUnused(t, 0);
    if p == NPROC then t
    else With(t, p, t.procs[p].(state := Embryo, pid := t.nextpid, priority := 0, age := 0)).(nextpid := t.nextpid + 1)
  }

  /** exit passes the children of process p to init, from process q of the table on. */
  function Orphans(t: Table, p: nat, q: nat): (r: Table)
    requires Shape(t) && q <= NPROC
    ensures Shape(r) && r.cpus == t.cpus && r.nextpid == t.nextpid && r.init == t.init
    decreases NPROC - q
  {
    if q == NPROC then t
    else if t.procs[q].parent == p then
      var u := With(t, q, t.procs[q].(parent := t.init));
      Orphans(if t.procs[q].state == Zombie then Wake(u, t.init, 0) else u, p, q + 1)
    else Orphans(t, p, q + 1)
  }

  function DoExit(t: Table, c: nat): Table
    requires Shape(t) && OnCpu(t, c)
  {
    var p := t.cpus[c];
    var woken := if t.procs[p].parent >= 0 then Wake(t, t.procs[p].parent, 0) else t;
    var u := Orphans(woken, p, 0);
    Idle(With(u, p, u.procs[p].(state := Zombie)), c)
  }

  /** One turn of calculateaging's loop. */
  function AgeLevel(t: Table, l: nat): Table
    requires Shape(t) && Members(t) && l < MLFLEVELS
  {
    if t.queues[l] == [] then t
    else
      var p := t.queues[l][0];
      assert Member(t, l, p);
      var u := With(t, p, t.procs[p].(age := t.procs[p].age + 1));
      if u.procs[p].age != AGEFORAGINGS then u else LevelUpdate(u, p)
  }

  /** levelupdate. */
  function LevelUpdate(t: Table, p: nat): Table
    requires |t.queues| == MLFLEVELS && p < |t.procs| && t.procs[p].priority < MLFLEVELS
    requires t.queues[t.procs[p].priority] != []
  {
    Enqueue(With(Unqueue(t, t.procs[p].priority), p, Promoted(t.procs[p])), p)
  }

  /** calculateaging, from level l on. */
  ghost function DoAging(t: Table, l: nat): Table
    requires Shape(t) && Members(t) && l <= MLFLEVELS
    decreases MLFLEVELS - l
  {
    if l == MLFLEVELS then t
    else
      var u := AgeLevel(t, l);
      if Shape(u) && Members(u) then DoAging(u, l + 1) else u
  }

  ghost function Apply(t: Table, e: Event): Table
    requires Shape(t) && Members(t) && Enabled(t, e)
  {
    match e
    case Dispatch(c) => DoDispatch(t, c)
    case Yield(c) => DoYield(t, c)
    case Sleep(c, chan) => DoSleep(t, c, chan)
    case Wakeup(chan) => Wake(t, chan, 0)
    case Kill(pid) => DoKill(t, pid, 0)
    case Alloc => DoAlloc(t)
    case Abandon(p) => With(t, p, t.procs[p].(state := Unused))
    case Start(p, parent) => Enqueue(With(t, p, t.procs[p].(parent := parent)), p)
    case Exit(c) => DoExit(t, c)
    case Wait(c) => DoWait(t, c)
    case SetPriority(c, level) => With(t, t.cpus[c], t.procs[t.cpus[c]].(priority := level))
    case Aging => DoAging(t, 0)
  }

  // ------------------------------------------------------------------ what events have in common

  /** No RUNNABLE process has been touched, and the queues have grown at the tail only. */
  ghost predicate Grows(t: Table, u: Table) {
    && |t.procs| == |u.procs| && |t.queues| == |u.queues|
    && (forall l :: 0 <= l < |t.queues| ==> t.queues[l] <= u.queues[l])
    && (forall p :: 0 <= p < |t.procs| && t.procs[p].state == Runnable ==>
          && u.procs[p].state == Runnable && u.procs[p].priority == t.procs[p].priority
          && u.procs[p].age == t.procs[p].age)
  }

  ghost predicate SameRunning(t: Table, u: Table) {
    && |t.procs| == |u.procs|
    && forall p :: 0 <= p < |t.procs| ==> (u.procs[p].state == Running <==> t.procs[p].state == Running)
  }

  lemma {:induction false} GrowsTrans(t: Table, u: Table, v: Table)
    requires Grows(t, u) && Grows(u, v)
    ensures Grows(t, v)
  {
  }

  lemma {:induction false} CpusStay(t: Table, u: Table)
    requires CpuInv(t) && SameRunning(t, u) && u.cpus == t.cpus
    ensures CpuInv(u)
  {
    forall p | 0 <= p < |u.procs| && u.procs[p].state == Running
      ensures p in u.cpus
    {
      assert t.procs[p].state == Running;
    }
  }

  /** The process on CPU c stops running. */
  lemma {:induction false} CpuLeaves(t: Table, u: Table, c: nat)
    requires CpuInv(t) && OnCpu(t, c) && |t.procs| == |u.procs| && u.cpus == t.cpus[c := -1]
    requires u.procs[t.cpus[c]].state != Running
    requires forall p :: 0 <= p < |t.procs| && p != t.cpus[c] ==>
               (u.procs[p].state == Running <==> t.procs[p].state == Running)
    ensures CpuInv(u)
  {
    forall p | 0 <= p < |u.procs| && u.procs[p].state == Running
      ensures p in u.cpus
    {
      assert t.procs[p].state == Running && p in t.cpus;
      var d :| 0 <= d < |t.cpus| && t.cpus[d] == p;
      assert u.cpus[d] == p;
    }
  }

  // ------------------------------------------------------------------ every event keeps the invariant

  /** A sleeper is made RUNNABLE. */
  lemma {:induction false} StartKeeps(t: Table, p: nat, x: Proc)
    requires QueueInv(t, -1) && p < NPROC && t.procs[p].state != Runnable
    requires x.state != Runnable && x.priority < MLFLEVELS
    ensures QueueInv(Enqueue(With(t, p, x), p), -1) && Grows(t, Enqueue(With(t, p, x), p))
  {
    hide Members, Ages, Once, Complete;
    NotRunnableOut(t, p);
    WithKeeps(t, p, x, -1);
    EnqueueKeeps(With(t, p, x), p, -1);
  }

  lemma {:induction false} DispatchKeeps(t: Table, c: nat)
    requires Inv(t) && Enabled(t, Dispatch(c))
    ensures Inv(DoDispatch(t, c))
  {
    hide Members, Ages, Once, Complete;
    var l := Best(t, 0);
    if l < MLFLEVELS {
      UnqueueKeeps(t, l);
      var p := t.queues[l][0];
      WithKeeps(Unqueue(t, l), p, t.procs[p].(state := Running), p);
      SameQueues(With(Unqueue(t, l), p, t.procs[p].(state := Running)), DoDispatch(t, c));
      DispatchCpus(t, c);
    }
  }

  lemma {:induction false} DispatchCpus(t: Table, c: nat)
    requires Inv(t) && Enabled(t, Dispatch(c))
    ensures CpuInv(DoDispatch(t, c))
  {
    var l := Best(t, 0);
    if l < MLFLEVELS {
      var p := t.queues[l][0];
      assert Member(t, l, p);
      var u := DoDispatch(t, c);
      forall q | 0 <= q < |u.procs| && u.procs[q].state == Running
        ensures q in u.cpus
      {
        if q == p {
          assert u.cpus[c] == p;
        } else {
          assert q in t.cpus;
          var d :| 0 <= d < |t.cpus| && t.cpus[d] == q;
          assert u.cpus[d] == q;
        }
      }
    }
  }

  lemma {:induction false} YieldKeeps(t: Table, c: nat)
    requires Inv(t) && Enabled(t, Yield(c))
    ensures Inv(DoYield(t, c)) && Grows(t, DoYield(t, c))
  {
    hide Members, Ages, Once, Complete;
    var p := t.cpus[c];
    StartKeeps(t, p, Demoted(t.procs[p]));
    SameQueues(Enqueue(With(t, p, Demoted(t.procs[p])), p), DoYield(t, c));
    CpuLeaves(t, DoYield(t, c), c);
  }

  lemma {:induction false} SleepKeeps(t: Table, c: nat, chan: nat)
    requires Inv(t) && OnCpu(t, c)
    ensures Inv(DoSleep(t, c, chan)) && Grows(t, DoSleep(t, c, chan))
  {
    hide Members, Ages, Once, Complete;
    var p := t.cpus[c];
    NotRunnableOut(t, p);
    WithKeeps(t, p, t.procs[p].(state := Sleeping, chan := chan), -1);
    SameQueues(With(t, p, t.procs[p].(state := Sleeping, chan := chan)), DoSleep(t, c, chan));
    CpuLeaves(t, DoSleep(t, c, chan), c);
  }

  lemma {:induction false} WaitKeeps(t: Table, c: nat)
    requires Inv(t) && OnCpu(t, c)
    ensures Inv(DoWait(t, c)) && Grows(t, DoWait(t, c))
  {
    hide Members, Ages, Once, Complete, CpuInv, DoSleep;
    var z := FirstZombie(t, t.cpus[c], 0);
    if z < NPROC {
      AsideKeeps(t, z, t.procs[z].(state := Unused, pid := 0, parent := -1, killed := false));
    } else {
      SleepKeeps(t, c, t.cpus[c]);
    }
  }

  lemma {:induction false} WakeKeeps(t: Table, chan: nat, p: nat)
    requires QueueInv(t, -1) && p <= NPROC
    ensures var r := Wake(t, chan, p); QueueInv(r, -1) && Grows(t, r) && SameRunning(t, r)
    decreases NPROC - p
  {
    hide Members, Ages, Once, Complete;
    if p < NPROC {
      if t.procs[p].state == Sleeping && t.procs[p].chan == chan {
        var u := Enqueue(With(t, p, Promoted(t.procs[p])), p);
        StartKeeps(t, p, Promoted(t.procs[p]));
        WakeKeeps(u, chan, p + 1);
        GrowsTrans(t, u, Wake(t, chan, p));
      } else {
        WakeKeeps(t, chan, p + 1);
      }
    }
  }

  /** wakeup makes exactly the sleepers on its channel RUNNABLE, one level better. */
  lemma {:induction false} WakeWakes(t: Table, chan: nat, p: nat, q: nat)
    requires Shape(t) && p <= NPROC && q < NPROC
    ensures Wake(t, chan, p).procs[q] ==
            if q >= p && t.procs[q].state == Sleeping && t.procs[q].chan == chan
            then Promoted(t.procs[q]).(age := 0, state := Runnable) else t.procs[q]
    decreases NPROC - p
  {
    if p < NPROC {
      if t.procs[p].state == Sleeping && t.procs[p].chan == chan {
        WakeWakes(Enqueue(With(t, p, Promoted(t.procs[p])), p), chan, p + 1, q);
      } else {
        WakeWakes(t, chan, p + 1, q);
      }
    }
  }

  lemma {:induction false} KillKeeps(t: Table, pid: int, p: nat)
    requires QueueInv(t, -1) && p <= NPROC
    ensures var r := DoKill(t, pid, p); QueueInv(r, -1) && Grows(t, r) && SameRunning(t, r) && r.cpus == t.cpus
    decreases NPROC - p
  {
    hide Members, Ages, Once, Complete;
    if p < NPROC {
      if t.procs[p].pid == pid {
        var x := t.procs[p].(killed := true);
        WithQuiet(t, p, x);
        if t.procs[p].state == Sleeping {
          StartKeeps(t, p, x);
        }
      } else {
        KillKeeps(t, pid, p + 1);
      }
    }
  }

  lemma {:induction false} OrphansKeeps(t: Table, p: nat, q: nat)
    requires QueueInv(t, -1) && q <= NPROC
    ensures var r := Orphans(t, p, q); QueueInv(r, -1) && Grows(t, r) && SameRunning(t, r)
    decreases NPROC - q
  {
    hide Members, Ages, Once, Complete;
    if q < NPROC {
      if t.procs[q].parent == p {
        var u := With(t, q, t.procs[q].(parent := t.init));
        WithQuiet(t, q, t.procs[q].(parent := t.init));
        if t.procs[q].state == Zombie {
          WakeKeeps(u, t.init, 0);
          GrowsTrans(t, u, Wake(u, t.init, 0));
          OrphansKeeps(Wake(u, t.init, 0), p, q + 1);
          GrowsTrans(t, Wake(u, t.init, 0), Orphans(t, p, q));
        } else {
          OrphansKeeps(u, p, q + 1);
          GrowsTrans(t, u, Orphans(t, p, q));
        }
      } else {
        OrphansKeeps(t, p, q + 1);
      }
    }
  }

  lemma {:induction false} ExitKeeps(t: Table, c: nat)
    requires Inv(t) && Enabled(t, Exit(c))
    ensures Inv(DoExit(t, c)) && Grows(t, DoExit(t, c))
  {
    hide Members, Ages, Once, Complete, Wake, Orphans;
    var p := t.cpus[c];
    var woken := if t.procs[p].parent >= 0 then Wake(t, t.procs[p].parent, 0) else t;
    if t.procs[p].parent >= 0 {
      WakeKeeps(t, t.procs[p].parent, 0);
    }
    OrphansKeeps(woken, p, 0);
    var u := Orphans(woken, p, 0);
    NotRunnableOut(u, p);
    WithKeeps(u, p, u.procs[p].(state := Zombie), -1);
    SameQueues(With(u, p, u.procs[p].(state := Zombie)), DoExit(t, c));
    CpuLeaves(t, DoExit(t, c), c);
    GrowsTrans(t, woken, u);
    GrowsTrans(t, u, DoExit(t, c));
  }

  lemma {:induction false} AllocKeeps(t: Table)
    requires Inv(t)
    ensures Inv(DoAlloc(t)) && Grows(t, DoAlloc(t))
  {
    hide Members, Ages, Once, Complete, FirstUnused, CpuInv, Out;
    var p := FirstUnused(t, 0);
    if p < NPROC {
      NotRunnableOut(t, p);
      var x := t.procs[p].(state := Embryo, pid := t.nextpid, priority := 0, age := 0);
      WithKeeps(t, p, x, -1);
      SameQueues(With(t, p, x), DoAlloc(t));
      CpusStay(t, DoAlloc(t));
    }
  }

  /** Events that change one process which is neither RUNNABLE before nor after. */
  lemma {:induction false} AsideKeeps(t: Table, p: nat, x: Proc)
    requires Inv(t) && p < NPROC && t.procs[p].state != Runnable && x.state != Runnable && x.priority < MLFLEVELS
    requires x.state == Running <==> t.procs[p].state == Running
    ensures Inv(With(t, p, x)) && Grows(t, With(t, p, x))
  {
    hide Members, Ages, Once, Complete;
    NotRunnableOut(t, p);
    WithKeeps(t, p, x, -1);
    CpusStay(t, With(t, p, x));
  }

  // ------------------------------------------------------------------ aging

  /** The head gets older. */
  lemma {:induction false} OlderKeeps(t: Table, l: nat)
    requires QueueInv(t, -1) && l < MLFLEVELS && t.queues[l] != []
    requires Member(t, l, t.queues[l][0]) && t.procs[t.queues[l][0]].age + 1 < AGEFORAGINGS
    ensures var p := t.queues[l][0]; QueueInv(With(t, p, t.procs[p].(age := t.procs[p].age + 1)), -1)
  {
    var p := t.queues[l][0];
    var u := With(t, p, t.procs[p].(age := t.procs[p].age + 1));
    forall k, j | 0 <= k < MLFLEVELS && 0 <= j < |u.queues[k]|
      ensures Member(u, k, u.queues[k][j]) && Young(u, u.queues[k][j], j)
    {
      assert Member(t, k, t.queues[k][j]) && Young(t, t.queues[k][j], j) && Distinct(t.queues[l]);
    }
  }

  /** The head is moved one level up; levelupdate on a process whose age has just reached 5. */
  lemma {:induction false} LevelUpdateKeeps(t: Table, l: nat, x: Proc)
    requires QueueInv(t, -1) && l < MLFLEVELS && t.queues[l] != [] && Member(t, l, t.queues[l][0])
    requires x.priority == l && x.state == Runnable
    ensures var p := t.queues[l][0];
            && LevelUpdate(With(t, p, x), p) == Enqueue(With(Unqueue(t, l), p, Promoted(x)), p)
            && QueueInv(LevelUpdate(With(t, p, x), p), -1)
  {
    hide Members, Ages, Once, Complete;
    var p := t.queues[l][0];
    UnqueueKeeps(t, l);
    WithKeeps(Unqueue(t, l), p, Promoted(x), p);
    EnqueueKeeps(With(Unqueue(t, l), p, Promoted(x)), p, p);
    assert t.procs[p := x][p := Promoted(x)] == t.procs[p := Promoted(x)];
  }

  lemma {:induction false} AgeLevelKeeps(t: Table, l: nat)
    requires QueueInv(t, -1) && l < MLFLEVELS
    ensures var u := AgeLevel(t, l); QueueInv(u, -1) && SameRunning(t, u) && u.cpus == t.cpus
  {
    hide Members, Ages, Once, Complete;
    if t.queues[l] != [] {
      var p := t.queues[l][0];
      UnqueueKeeps(t, l);
      YoungHead(t, l);
      if t.procs[p].age + 1 < AGEFORAGINGS {
        OlderKeeps(t, l);
      } else {
        LevelUpdateKeeps(t, l, t.procs[p].(age := t.procs[p].age + 1));
      }
    }
  }

  lemma {:induction false} YoungHead(t: Table, l: nat)
    requires QueueInv(t, -1) && l < MLFLEVELS && t.queues[l] != []
    ensures Member(t, l, t.queues[l][0]) && t.procs[t.queues[l][0]].age < AGEFORAGINGS
  {
    assert Member(t, l, t.queues[l][0]) && Young(t, t.queues[l][0], 0);
  }

  lemma {:induction false} AgingKeeps(t: Table, l: nat)
    requires QueueInv(t, -1) && l <= MLFLEVELS
    ensures var u := DoAging(t, l); QueueInv(u, -1) && SameRunning(t, u) && u.cpus == t.cpus
    decreases MLFLEVELS - l
  {
    hide Members, Ages, Once, Complete;
    if l < MLFLEVELS {
      AgeLevelKeeps(t, l);
      AgingKeeps(AgeLevel(t, l), l + 1);
    }
  }

  // ------------------------------------------------------------------ runs

  /** The end of fork. */
  lemma {:induction false} ForkKeeps(t: Table, p: nat, parent: int)
    requires Inv(t) && p < NPROC && t.procs[p].state == Embryo
    ensures var u := Enqueue(With(t, p, t.procs[p].(parent := parent)), p); Inv(u) && Grows(t, u)
  {
    hide Members, Ages, Once, Complete, CpuInv, Grows;
    StartKeeps(t, p, t.procs[p].(parent := parent));
    CpusStay(t, Enqueue(With(t, p, t.procs[p].(parent := parent)), p));
  }

  lemma {:induction false} StepKeeps(t: Table, e: Event)
    requires Inv(t) && Enabled(t, e)
    ensures Inv(Apply(t, e))
    ensures !e.Dispatch? && !e.Aging? ==> Grows(t, Apply(t, e))
  {
    hide Members, Ages, Once, Complete, CpuInv, Grows, Wake, Orphans, DoKill, DoExit, DoWait, DoYield, DoSleep,
         DoAlloc, DoDispatch, DoAging, Enqueue;
    match e
    case Dispatch(c) => DispatchKeeps(t, c);
    case Yield(c) => YieldKeeps(t, c);
    case Sleep(c, chan) => SleepKeeps(t, c, chan);
    case Wakeup(chan) => WakeKeeps(t, chan, 0); CpusStay(t, Wake(t, chan, 0));
    case Kill(pid) => KillKeeps(t, pid, 0); CpusStay(t, DoKill(t, pid, 0));
    case Alloc => AllocKeeps(t);
    case Abandon(p) => AsideKeeps(t, p, t.procs[p].(state := Unused));
    case Start(p, parent) => ForkKeeps(t, p, parent);
    case Exit(c) => ExitKeeps(t, c);
    case Wait(c) => WaitKeeps(t, c);
    case SetPriority(c, level) => PriorityKeeps(t, c, level);
    case Aging => AgingKeeps(t, 0); CpusStay(t, DoAging(t, 0));
  }

  lemma {:induction false} PriorityKeeps(t: Table, c: nat, level: nat)
    requires Inv(t) && Enabled(t, SetPriority(c, level))
    ensures Inv(Apply(t, SetPriority(c, level))) && Grows(t, Apply(t, SetPriority(c, level)))
  {
    AsideKeeps(t, t.cpus[c], t.procs[t.cpus[c]].(priority := level));
  }

  ghost predicate IsRun(ts: seq<Table>, es: seq<Event>) {
    && |ts| == |es| + 1
    && (es != [] ==>
          var n := |es| - 1;
          && IsRun(ts[..n + 1], es[..n]) && Shape(ts[n]) && Members(ts[n]) && Enabled(ts[n], es[n])
          && ts[n + 1] == Apply(ts[n], es[n]))
  }

  /** pinit and an idle machine. */
  ghost predicate Init(t: Table) {
    && Shape(t) && t.nextpid == 1
    && (forall p :: 0 <= p < NPROC ==> t.procs[p].state == Unused && t.procs[p].pid == 0 && !t.procs[p].killed)
    && (forall l :: 0 <= l < MLFLEVELS ==> t.queues[l] == [])
    && (forall c :: 0 <= c < |t.cpus| ==> t.cpus[c] == -1)
  }

  lemma {:induction false} RunInv(ts: seq<Table>, es: seq<Event>)
    requires IsRun(ts, es) && Inv(ts[0])
    ensures forall k :: 0 <= k < |ts| ==> Inv(ts[k])
  {
    hide QueueInv, CpuInv, Shape, Members, Enabled, Apply;
    if es != [] {
      var n := |es| - 1;
      RunInv(ts[..n + 1], es[..n]);
      assert Inv(ts[..n + 1][n]);
      StepKeeps(ts[n], es[n]);
      forall k | 0 <= k < |ts|
        ensures Inv(ts[k])
      {
        if k <= n {
          assert ts[k] == ts[..n + 1][k];
        }
      }
    }
  }
}

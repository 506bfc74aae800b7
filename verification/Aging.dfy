/** Aging bounds waiting: how long a RUNNABLE process can stay behind, counted in calls of
    calculateaging, whatever other events happen in between. */
module Aging {
  import opened Sched
  import opened Seqs

  // ------------------------------------------------------------------ positions

  function Pos(q: seq<nat>, p: nat): (j: nat)
    requires p in q
    ensures j < |q| && q[j] == p
  {
    if q[0] == p then 0 else 1 + Pos(q[1..], p)
  }

  /** Growing at the tail leaves positions alone. */
  lemma {:induction false} PosPrefix(q: seq<nat>, r: seq<nat>, p: nat)
    requires p in q && q <= r
    ensures p in r && Pos(r, p) == Pos(q, p)
  {
    assert r[0] == q[0];
    if q[0] != p {
      PosPrefix(q[1..], r[1..], p);
    }
  }

  lemma {:induction false} PosLast(q: seq<nat>, p: nat)
    requires p !in q
    ensures Pos(q + [p], p) == |q|
  {
    if q != [] {
      PosLast(q[1..], p);
      assert (q + [p])[1..] == q[1..] + [p];
    }
  }

  function Range(n: nat): (s: set<nat>)
    ensures |s| == n && forall x: nat :: x in s <==> x < n
  {
    if n == 0 then {} else Range(n - 1) + {n - 1}
  }

  lemma {:induction false} Pigeons(q: seq<nat>, s: set<nat>)
    requires Distinct(q) && forall j :: 0 <= j < |q| ==> q[j] in s
    ensures |q| <= |s|
  {
    if q != [] {
      var n := |q| - 1;
      Pigeons(q[..n], s - {q[n]});
    }
  }

  /** A level never holds more than NPROC processes. */
  lemma {:induction false} QueueBound(t: Table, l: nat)
    requires QueueInv(t, -1) && l < MLFLEVELS
    ensures |t.queues[l]| <= NPROC
  {
    forall j | 0 <= j < |t.queues[l]|
      ensures t.queues[l][j] in Range(NPROC)
    {
      assert Member(t, l, t.queues[l][j]);
    }
    assert Distinct(t.queues[l]);
    Pigeons(t.queues[l], Range(NPROC));
  }

  // ------------------------------------------------------------------ the measure

  /** RUNNABLE below the best level. */
  predicate Waiting(t: Table, p: nat)
    requires |t.procs| == NPROC
  {
    p < NPROC && t.procs[p].state == Runnable && t.procs[p].priority > 0
  }

  /** Calls of calculateaging left: AGEFORAGINGS for each process ahead in the queue, what the head
      still needs, and AGEFORAGINGS * NPROC for each level in between. */
  ghost function Measure(t: Table, p: nat): int
    requires QueueInv(t, -1) && Waiting(t, p)
  {
    var l := t.procs[p].priority;
    var q := t.queues[l];
    assert p in q && Member(t, l, q[0]);
    320 * (l - 1) + 5 * Pos(q, p) + 5 - t.procs[q[0]].age
  }

  lemma {:induction false} MeasureRange(t: Table, p: nat)
    requires QueueInv(t, -1) && Waiting(t, p)
    ensures 320 * (t.procs[p].priority - 1) < Measure(t, p) <= 320 * t.procs[p].priority
  {
    var l := t.procs[p].priority;
    assert p in t.queues[l];
    QueueBound(t, l);
    YoungHead(t, l);
  }

  lemma {:induction false} GrowsMeasure(t: Table, u: Table, p: nat)
    requires QueueInv(t, -1) && QueueInv(u, -1) && Waiting(t, p)
    requires GrowsAt(t, u, t.procs[p].priority) && u.procs[p].state == Runnable
    requires u.procs[p].priority == t.procs[p].priority
    ensures Measure(u, p) == Measure(t, p)
  {
    var l := t.procs[p].priority;
    assert p in t.queues[l];
    YoungHead(t, l);
    PosPrefix(t.queues[l], u.queues[l], p);
  }

  /** Level l has grown at the tail only, and its head is as old as before. */
  ghost predicate GrowsAt(t: Table, u: Table, l: nat)
    requires QueueInv(t, -1) && QueueInv(u, -1) && l < MLFLEVELS
  {
    && t.queues[l] <= u.queues[l]
    && (t.queues[l] != [] ==> t.queues[l][0] < NPROC && u.procs[t.queues[l][0]].age == t.procs[t.queues[l][0]].age)
  }

  lemma {:induction false} DispatchMeasure(t: Table, c: nat, p: nat)
    requires Inv(t) && Enabled(t, Dispatch(c)) && Waiting(t, p)
    ensures var u := DoDispatch(t, c);
            Inv(u) && (u.procs[p].state == Runnable ==> Waiting(u, p) && Measure(u, p) <= Measure(t, p))
  {
    hide Members, Ages, Once, Complete, CpuInv;
    DispatchKeeps(t, c);
    var u, l, k := DoDispatch(t, c), t.procs[p].priority, Best(t, 0);
    if u.procs[p].state == Runnable && k < MLFLEVELS {
      YoungHead(t, k);
      if k == l {
        DispatchedHead(t, u, p);
      } else {
        Queued(t, p);
        YoungHead(t, l);
        OtherLevel(t, k, l);
        GrowsMeasure(t, u, p);
      }
    }
  }

  lemma {:induction false} Queued(t: Table, p: nat)
    requires QueueInv(t, -1) && p < NPROC && t.procs[p].state == Runnable
    ensures p in t.queues[t.procs[p].priority]
  {
  }

  lemma {:induction false} OtherLevel(t: Table, k: nat, l: nat)
    requires QueueInv(t, -1) && k < MLFLEVELS && l < MLFLEVELS && k != l && t.queues[k] != [] && t.queues[l] != []
    ensures t.queues[k][0] != t.queues[l][0]
  {
    YoungHead(t, k);
    YoungHead(t, l);
  }

  /** The head of p's level has left, and it was not p. */
  lemma {:induction false} DispatchedHead(t: Table, u: Table, p: nat)
    requires QueueInv(t, -1) && QueueInv(u, -1) && Waiting(t, p) && Waiting(u, p)
    requires u.procs[p].priority == t.procs[p].priority
    requires var l := t.procs[p].priority; t.queues[l] != [] && t.queues[l][0] != p && u.queues[l] == t.queues[l][1..]
    ensures Measure(u, p) < Measure(t, p)
  {
    var l := t.procs[p].priority;
    assert p in t.queues[l];
    YoungHead(t, l);
  }

  // ------------------------------------------------------------------ one call of calculateaging

  /** At p's own level: the head gets older, or leaves; p itself may move up. */
  lemma {:induction false} AgeOwnLevel(t: Table, p: nat)
    requires QueueInv(t, -1) && Waiting(t, p)
    ensures var u := AgeLevel(t, t.procs[p].priority);
            && QueueInv(u, -1) && u.procs[p].state == Runnable && u.procs[p].priority <= t.procs[p].priority
            && (u.procs[p].priority > 0 ==> Measure(u, p) < Measure(t, p))
  {
    hide Members, Ages, Once, Complete;
    var l := t.procs[p].priority;
    var u := AgeLevel(t, l);
    AgeLevelKeeps(t, l);
    Queued(t, p);
    YoungHead(t, l);
    var h := t.queues[l][0];
    if t.procs[h].age + 1 == AGEFORAGINGS {
      LevelUpdateKeeps(t, l, t.procs[h].(age := AGEFORAGINGS));
      if h == p {
        MeasureRange(t, p);
        if l > 1 {
          MeasureRange(u, p);
        }
      } else {
        DispatchedHead(t, u, p);
      }
    } else {
      OlderHead(t, u, p);
    }
  }

  lemma {:induction false} OlderHead(t: Table, u: Table, p: nat)
    requires QueueInv(t, -1) && QueueInv(u, -1) && Waiting(t, p) && Waiting(u, p)
    requires u.procs[p].priority == t.procs[p].priority && u.queues == t.queues
    requires var l := t.procs[p].priority;
             && t.queues[l] != [] && Member(t, l, t.queues[l][0])
             && u.procs[t.queues[l][0]].age == t.procs[t.queues[l][0]].age + 1
    ensures Measure(u, p) < Measure(t, p)
  {
  }

  /** At another level nothing happens to p. */
  lemma {:induction false} AgeOtherLevel(t: Table, k: nat, p: nat)
    requires QueueInv(t, -1) && p < NPROC && t.procs[p].state == Runnable && k < MLFLEVELS && k != t.procs[p].priority
    ensures var u := AgeLevel(t, k);
            && QueueInv(u, -1) && u.procs[p].state == Runnable && u.procs[p].priority == t.procs[p].priority
            && (t.procs[p].priority > 0 ==> Measure(u, p) == Measure(t, p))
  {
    hide Members, Ages, Once, Complete;
    var l := t.procs[p].priority;
    var u := AgeLevel(t, k);
    AgeLevelKeeps(t, k);
    Queued(t, p);
    YoungHead(t, l);
    if t.queues[k] != [] {
      OtherLevel(t, k, l);
      YoungHead(t, k);
      var h := t.queues[k][0];
      if t.procs[h].age + 1 == AGEFORAGINGS {
        LevelUpdateKeeps(t, k, t.procs[h].(age := AGEFORAGINGS));
      }
    }
    if l > 0 {
      GrowsMeasure(t, u, p);
    }
  }

  lemma {:induction false} AgingBelow(t: Table, k: nat, p: nat)
    requires QueueInv(t, -1) && p < NPROC && t.procs[p].state == Runnable && t.procs[p].priority < k <= MLFLEVELS
    ensures var u := DoAging(t, k);
            && QueueInv(u, -1) && u.procs[p].state == Runnable && u.procs[p].priority == t.procs[p].priority
            && (t.procs[p].priority > 0 ==> Measure(u, p) == Measure(t, p))
    decreases MLFLEVELS - k
  {
    hide Members, Ages, Once, Complete, Measure;
    if k < MLFLEVELS {
      AgeOtherLevel(t, k, p);
      AgingBelow(AgeLevel(t, k), k + 1, p);
    }
  }

  /** Each call of calculateaging brings p closer to the best level. */
  lemma {:induction false} AgingMeasure(t: Table, k: nat, p: nat)
    requires QueueInv(t, -1) && Waiting(t, p) && k <= t.procs[p].priority
    ensures var u := DoAging(t, k);
            && QueueInv(u, -1) && u.procs[p].state == Runnable
            && (u.procs[p].priority > 0 ==> Measure(u, p) < Measure(t, p))
    decreases MLFLEVELS - k
  {
    hide Members, Ages, Once, Complete, Measure;
    if k < t.procs[p].priority {
      AgeOtherLevel(t, k, p);
      AgingMeasure(AgeLevel(t, k), k + 1, p);
    } else {
      AgeOwnLevel(t, p);
      AgingBelow(AgeLevel(t, k), k + 1, p);
    }
  }

  // ------------------------------------------------------------------ runs

  lemma {:induction false} StepMeasure(t: Table, e: Event, p: nat)
    requires Inv(t) && Enabled(t, e) && Waiting(t, p)
    ensures Inv(Apply(t, e))
    ensures Waiting(Apply(t, e), p) ==>
              Measure(Apply(t, e), p) <= Measure(t, p) - (if e.Aging? then 1 else 0)
  {
    hide Members, Ages, Once, Complete, CpuInv, Measure, DoAging, DoDispatch, Enabled;
    StepKeeps(t, e);
    if e.Aging? {
      AgingMeasure(t, 0, p);
    } else if e.Dispatch? {
      DispatchStep(t, e, p);
    } else {
      GrowsAll(t, Apply(t, e), p);
    }
  }

  lemma {:induction false} DispatchStep(t: Table, e: Event, p: nat)
    requires Inv(t) && Enabled(t, e) && Waiting(t, p) && e.Dispatch?
    ensures var u := Apply(t, e);
            Inv(u) && (u.procs[p].state == Runnable ==> Waiting(u, p) && Measure(u, p) <= Measure(t, p))
  {
    hide Members, Ages, Once, Complete, CpuInv, Measure, DoDispatch;
    DispatchMeasure(t, e.c, p);
  }

  lemma {:induction false} GrowsAll(t: Table, u: Table, p: nat)
    requires QueueInv(t, -1) && QueueInv(u, -1) && Waiting(t, p) && Grows(t, u)
    ensures Waiting(u, p) && Measure(u, p) == Measure(t, p)
  {
    hide Members, Ages, Once, Complete;
    Queued(t, p);
    YoungHead(t, t.procs[p].priority);
    GrowsMeasure(t, u, p);
  }

  function Agings(es: seq<Event>): nat {
    if es == [] then 0 else Agings(es[..|es| - 1]) + if es[|es| - 1].Aging? then 1 else 0
  }

  lemma {:induction false} RunMeasure(ts: seq<Table>, es: seq<Event>, p: nat)
    requires IsRun(ts, es) && Inv(ts[0])
    requires forall k :: 0 <= k < |ts| ==> |ts[k].procs| == NPROC && Waiting(ts[k], p)
    ensures Inv(ts[|es|]) && Agings(es) + Measure(ts[|es|], p) <= Measure(ts[0], p)
  {
    hide QueueInv, CpuInv, Shape, Members, Enabled, Apply, Measure, Waiting;
    if es != [] {
      var n := |es| - 1;
      assert forall k :: 0 <= k <= n ==> ts[..n + 1][k] == ts[k];
      RunMeasure(ts[..n + 1], es[..n], p);
      StepMeasure(ts[n], es[n], p);
    }
  }

  /** Bounded waiting: in a run during which p stays RUNNABLE below the best level, calculateaging is
      called less than AGEFORAGINGS * NPROC times for each level p started away from it. */
  lemma {:induction false} BoundedWaiting(ts: seq<Table>, es: seq<Event>, p: nat)
    requires IsRun(ts, es) && Inv(ts[0]) && p < NPROC
    requires forall k :: 0 <= k < |ts| ==> |ts[k].procs| == NPROC && Waiting(ts[k], p)
    ensures Agings(es) < AGEFORAGINGS * NPROC * ts[0].procs[p].priority
  {
    RunMeasure(ts, es, p);
    MeasureRange(ts[0], p);
    MeasureRange(ts[|es|], p);
  }

  // ------------------------------------------------------------------ what the scheduler takes

  /** The scheduler takes the head of the best non-empty level; it leaves the CPU idle only if
      no process is RUNNABLE. */
  lemma {:induction false} TakesBest(t: Table, c: nat)
    requires Inv(t) && Enabled(t, Dispatch(c))
    ensures var u := DoDispatch(t, c);
            if forall p :: 0 <= p < NPROC ==> t.procs[p].state != Runnable then u == t
            else
              var p := u.cpus[c];
              && 0 <= p < NPROC && t.procs[p].state == Runnable && u.procs[p].state == Running
              && t.queues[t.procs[p].priority] == [p] + u.queues[t.procs[p].priority]
              && (forall q :: 0 <= q < NPROC && t.procs[q].state == Runnable ==>
                   t.procs[q].priority >= t.procs[p].priority)
              && (forall q :: 0 <= q < NPROC && q != p ==> u.procs[q] == t.procs[q])
  {
    var l := Best(t, 0);
    if l < MLFLEVELS {
      YoungHead(t, l);
    }
    forall q | 0 <= q < NPROC && t.procs[q].state == Runnable
      ensures l <= t.procs[q].priority
    {
      assert q in t.queues[t.procs[q].priority];
    }
  }

  /** Every reachable table satisfies the invariant. */
  lemma {:induction false} ReachableInv(ts: seq<Table>, es: seq<Event>)
    requires IsRun(ts, es) && Init(ts[0])
    ensures forall k :: 0 <= k < |ts| ==> Inv(ts[k])
  {
    assert Inv(ts[0]);
    RunInv(ts, es);
  }
}

/** What a semaphore is for: its value is the initial value, and one more for every semup and one less for
    every completed semdown of a run since it was created. Counted over the events of the run. */
module SemCounts {
  import opened Semaphores

  /** semget(-1, value) with an empty slot takes the first semaphore that nobody has open. */
  predicate Creates(st: State, e: Event, s: nat)
    requires |st.slots| == |st.phases|
  {
    && e.SemGet? && e.semid == -1 && e.p < |st.slots| && -1 in st.slots[e.p]
    && s < |st.sems| && st.sems[s].references == 0 && forall j :: 0 <= j < s ==> st.sems[j].references != 0
  }

  /** semup finds s: the caller has it open, and its id is its index. */
  predicate Ups(st: State, e: Event, s: nat)
    requires |st.slots| == |st.phases|
  {
    e.Up? && e.semid == s && e.p < |st.slots| && s in st.slots[e.p]
  }

  /** semdown of s comes to its end, at once or after a sleep. */
  predicate Downs(st: State, e: Event, u: State, s: nat)
    requires |st.slots| == |st.phases| == |u.phases|
  {
    || (e.Down? && e.semid == s && e.p < |st.slots| && s in st.slots[e.p] && u.phases[e.p] == Out)
    || (e.Retry? && e.p < |st.phases| && st.phases[e.p] == Woken(s) && u.phases[e.p] == Out)
  }

  // ------------------------------------------------------------------ counting over a run

  ghost predicate Counts(ss: seq<State>, es: seq<Event>) {
    |ss| == |es| + 1 && forall k :: 0 <= k < |ss| ==> |ss[k].slots| == |ss[k].phases| == |ss[0].phases|
  }

  /** Some event of the run has created s. */
  ghost predicate Created(ss: seq<State>, es: seq<Event>, s: nat)
    requires Counts(ss, es)
  {
    es != [] && var n := |es| - 1; Creates(ss[n], es[n], s) || Created(ss[..n + 1], es[..n], s)
  }

  /** The initial value that the last creating semget was given. */
  ghost function InitOf(ss: seq<State>, es: seq<Event>, s: nat): int
    requires Counts(ss, es)
  {
    if es == [] then 0
    else
      var n := |es| - 1;
      if Creates(ss[n], es[n], s) then es[n].value else InitOf(ss[..n + 1], es[..n], s)
  }

  /** The semups that have found s since. */
  ghost function UpsOf(ss: seq<State>, es: seq<Event>, s: nat): nat
    requires Counts(ss, es)
  {
    if es == [] then 0
    else
      var n := |es| - 1;
      if Creates(ss[n], es[n], s) then 0
      else UpsOf(ss[..n + 1], es[..n], s) + if Ups(ss[n], es[n], s) then 1 else 0
  }

  /** The semdowns of s that have come to their end since. */
  ghost function DownsOf(ss: seq<State>, es: seq<Event>, s: nat): nat
    requires Counts(ss, es)
  {
    if es == [] then 0
    else
      var n := |es| - 1;
      if Creates(ss[n], es[n], s) then 0
      else DownsOf(ss[..n + 1], es[..n], s) + if Downs(ss[n], es[n], ss[n + 1], s) then 1 else 0
  }

  // ------------------------------------------------------------------ one event

  lemma {:induction false} FindIs(st: State, p: nat, semid: int, s: nat)
    requires Inv(st) && p < |st.slots| && s < MAXSEM
    ensures var k := FindSlot(st.sems, st.slots[p], semid, 0);
            (k != -1 && st.slots[p][k] == s) <==> (semid == s && s in st.slots[p])
  {
    FindExact(st, p, semid, 0);
  }

  lemma {:induction false} GetCreates(st: State, p: nat, semid: int, value: int, s: nat)
    requires Inv(st) && Idle(st, p) && s < MAXSEM
    ensures var u, e := Get(st, p, semid, value).0, SemGet(p, semid, value);
            && |u.sems| == |u.created| == MAXSEM
            && u.created[s] == (st.created[s] || Creates(st, e, s))
            && u.sems[s].value == if Creates(st, e, s) then value else st.sems[s].value
  {
    var k := EmptySlot(st.slots[p], 0);
    assert k != -1 <==> -1 in st.slots[p];
  }

  /** What an event does to the value of s: only a creating semget sets it, a semup that finds s adds one,
      a semdown that ends takes one, which was there. */
  lemma {:induction false} StepCounts(st: State, e: Event, s: nat)
    requires Inv(st) && Enabled(st, e) && s < MAXSEM
    ensures var u := Apply(st, e);
            && |u.sems| == |u.created| == MAXSEM && |u.slots| == |u.phases| == |st.phases|
            && u.created[s] == (st.created[s] || Creates(st, e, s))
            && (Creates(st, e, s) ==> u.sems[s].value == e.value && !Ups(st, e, s) && !Downs(st, e, u, s))
            && (!Creates(st, e, s) ==> u.sems[s].value == st.sems[s].value + (if Ups(st, e, s) then 1 else 0)
                                                          - (if Downs(st, e, u, s) then 1 else 0))
            && (Downs(st, e, u, s) ==> u.sems[s].value >= 0)
  {
    hide Counted, Named, Held, NoneLost, Get, Free;
    match e
    case SemGet(p, semid, value) => GetCreates(st, p, semid, value, s); GetSizes(st, p, semid, value);
    case SemFree(p, semid) => FreeValues(st, p, semid, s);
    case Down(p, semid) => FindIs(st, p, semid, s);
    case Up(p, semid) => FindIs(st, p, semid, s);
    case _ =>
  }

  lemma {:induction false} GetSizes(st: State, p: nat, semid: int, value: int)
    requires Shape(st) && p < |st.slots|
    ensures var u := Get(st, p, semid, value).0; |u.slots| == |u.phases| == |st.phases|
  {
  }

  lemma {:induction false} FreeValues(st: State, p: nat, semid: int, s: nat)
    requires Shape(st) && p < |st.slots| && s < MAXSEM
    ensures var u := Free(st, p, semid).0;
            && |u.slots| == |u.phases| == |st.phases| && u.created == st.created
            && |u.sems| == MAXSEM && u.sems[s].value == st.sems[s].value
  {
  }

  // ------------------------------------------------------------------ the whole run

  lemma {:induction false} RunSizes(ss: seq<State>, es: seq<Event>)
    requires IsRun(ss, es) && Init(ss[0])
    ensures Counts(ss, es)
  {
    hide Apply, Enabled, Init;
    if es == [] {
      RunInv(ss, es);
    } else {
      var n := |es| - 1;
      RunSizes(ss[..n + 1], es[..n]);
      RunInv(ss[..n + 1], es[..n]);
      StepCounts(ss[n], es[n], 0);
      forall k | 0 <= k < |ss|
        ensures |ss[k].slots| == |ss[k].phases| == |ss[0].phases|
      {
        if k <= n {
          assert ss[..n + 1][k] == ss[k];
        }
      }
    }
  }

  /** In every state of every run: value is the initial value given to the last creating semget, plus the
      later semups that found the semaphore, minus the later semdowns of it that have come to an end. And
      permits are never overdrawn. */
  lemma {:induction false} ValueCounts(ss: seq<State>, es: seq<Event>, s: nat)
    requires IsRun(ss, es) && Init(ss[0]) && s < MAXSEM
    ensures Counts(ss, es) && |ss[|es|].sems| == |ss[|es|].created| == MAXSEM
    ensures ss[|es|].created[s] <==> Created(ss, es, s)
    ensures Created(ss, es, s) ==> ss[|es|].sems[s].value == InitOf(ss, es, s) + UpsOf(ss, es, s) - DownsOf(ss, es, s)
    ensures InitOf(ss, es, s) >= 0 || DownsOf(ss, es, s) > 0 ==>
              Created(ss, es, s) ==> DownsOf(ss, es, s) <= InitOf(ss, es, s) + UpsOf(ss, es, s)
  {
    hide Apply, Enabled, Inv, Creates, Ups, Downs;
    RunSizes(ss, es);
    RunInv(ss, es);
    InvSizes(ss[|es|]);
    if es != [] {
      var n := |es| - 1;
      ValueCounts(ss[..n + 1], es[..n], s);
      RunInv(ss[..n + 1], es[..n]);
      StepCounts(ss[n], es[n], s);
    }
  }

  lemma {:induction false} InvSizes(st: State)
    requires Inv(st)
    ensures |st.sems| == |st.created| == MAXSEM
  {
  }

  /** Never more semdowns than there are permits. */
  lemma {:induction false} NeverOverdrawn(ss: seq<State>, es: seq<Event>, s: nat)
    requires IsRun(ss, es) && Init(ss[0]) && s < MAXSEM
    ensures Counts(ss, es)
    ensures Created(ss, es, s) && (InitOf(ss, es, s) >= 0 || DownsOf(ss, es, s) > 0) ==>
              DownsOf(ss, es, s) <= InitOf(ss, es, s) + UpsOf(ss, es, s)
  {
    ValueCounts(ss, es, s);
  }
}

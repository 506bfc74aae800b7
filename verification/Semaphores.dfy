/** semaphore.c as a state machine: one event is one critical section under stable.lock, or the
    wakeup that semup issues after it has released that lock. Any number of processes. */
module Semaphores {

  const MAXSEM := 64
  const MAXPROCSEM := 5

  datatype Sem = Sem(id: int, references: int, value: int)

  /** Where a process is: outside, asleep in semdown, awake again but not back under the lock, or in
      semup between the release of the lock and its wakeup. */
  datatype Phase = Out | Asleep(s: nat) | Woken(s: nat) | Pending(s: nat)

  /** slots[p][k] is the semaphore in proc->osemaphore[k] of process p, -1 for none. created is history:
      which semaphores semget has ever created. */
  datatype State = State(sems: seq<Sem>, slots: seq<seq<int>>, phases: seq<Phase>, created: seq<bool>)

  // ------------------------------------------------------------------ counting references

  function Occurs(row: seq<int>, s: int): nat {
    if row == [] then 0 else Occurs(row[1..], s) + if row[0] == s then 1 else 0
  }

  function Holders(slots: seq<seq<int>>, s: int): nat {
    if slots == [] then 0 else Holders(slots[1..], s) + Occurs(slots[0], s)
  }

  lemma {:induction false} OccursUpdate(row: seq<int>, k: nat, v: int, s: int)
    requires k < |row|
    ensures Occurs(row[k := v], s) == Occurs(row, s) - (if row[k] == s then 1 else 0) + (if v == s then 1 else 0)
  {
    if k == 0 {
      assert row[k := v][1..] == row[1..];
    } else {
      OccursUpdate(row[1..], k - 1, v, s);
      assert row[k := v][1..] == row[1..][k - 1 := v];
    }
  }

  lemma {:induction false} HoldersUpdate(slots: seq<seq<int>>, p: nat, row: seq<int>, s: int)
    requires p < |slots|
    ensures Holders(slots[p := row], s) == Holders(slots, s) - Occurs(slots[p], s) + Occurs(row, s)
  {
    if p == 0 {
      assert slots[p := row][1..] == slots[1..];
    } else {
      HoldersUpdate(slots[1..], p - 1, row, s);
      assert slots[p := row][1..] == slots[1..][p - 1 := row];
    }
  }

  lemma {:induction false} OccursIn(row: seq<int>, s: int)
    ensures Occurs(row, s) > 0 <==> s in row
  {
    if row != [] {
      OccursIn(row[1..], s);
      assert row == [row[0]] + row[1..];
    }
  }

  lemma {:induction false} HoldersIn(slots: seq<seq<int>>, p: nat, s: int)
    requires p < |slots|
    ensures Occurs(slots[p], s) <= Holders(slots, s)
  {
    if p > 0 {
      HoldersIn(slots[1..], p - 1, s);
    }
  }

  // ------------------------------------------------------------------ the invariant

  ghost predicate Shape(st: State) {
    && |st.sems| == |st.created| == MAXSEM && |st.slots| == |st.phases|
    && (forall p :: 0 <= p < |st.slots| ==> |st.slots[p]| == MAXPROCSEM)
    && (forall p, k :: 0 <= p < |st.slots| && 0 <= k < MAXPROCSEM ==> -1 <= st.slots[p][k] < MAXSEM)
    && (forall p :: 0 <= p < |st.phases| && !st.phases[p].Out? ==> st.phases[p].s < MAXSEM)
  }

  /** references is the number of slots, over all processes, that hold the semaphore. */
  ghost predicate Counted(st: State)
    requires Shape(st)
  {
    forall s :: 0 <= s < MAXSEM ==> st.sems[s].references == Holders(st.slots, s)
  }

  /** A process inside semdown or semup has the semaphore open. */
  ghost predicate Held(st: State)
    requires Shape(st)
  {
    forall p :: 0 <= p < |st.phases| && !st.phases[p].Out? ==> st.phases[p].s in st.slots[p]
  }

  /** id is the index once the semaphore has been created, and 0 before; open semaphores have been
      created. */
  ghost predicate Named(st: State)
    requires Shape(st)
  {
    forall s :: 0 <= s < MAXSEM ==>
      && st.sems[s].id == (if st.created[s] then s else 0)
      && (!st.created[s] ==> st.sems[s].references == 0)
  }

  /** Some semup has incremented s and not yet done its wakeup. */
  ghost predicate WakeupDue(st: State, s: nat) {
    exists q :: 0 <= q < |st.phases| && st.phases[q] == Pending(s)
  }

  /** No lost wakeup: who sleeps while there is something to take is about to be woken. */
  ghost predicate NoneLost(st: State)
    requires Shape(st)
  {
    forall p :: 0 <= p < |st.phases| && st.phases[p].Asleep? && st.sems[st.phases[p].s].value > 0 ==>
      WakeupDue(st, st.phases[p].s)
  }

  ghost predicate Inv(st: State) {
    Shape(st) && Counted(st) && Held(st) && Named(st) && NoneLost(st)
  }

  // ------------------------------------------------------------------ searches

  /** allocinprocess: the first empty slot from k on, or -1. */
  function EmptySlot(row: seq<int>, k: nat): (r: int)
    requires k <= |row|
    ensures r == -1 || (k <= r < |row| && row[r] == -1)
    ensures forall j :: k <= j < r ==> row[j] != -1
    ensures r == -1 <==> forall j :: k <= j < |row| ==> row[j] != -1
    decreases |row| - k
  {
    if k == |row| then -1 else if row[k] == -1 then k else EmptySlot(row, k + 1)
  }

  /** searchinprocess: the first slot from k on that holds a semaphore with the given id, or -1. */
  function FindSlot(sems: seq<Sem>, row: seq<int>, id: int, k: nat): (r: int)
    requires k <= |row| && forall j :: 0 <= j < |row| ==> -1 <= row[j] < |sems|
    ensures r == -1 || (k <= r < |row| && row[r] != -1 && sems[row[r]].id == id)
    decreases |row| - k
  {
    if k == |row| then -1 else if row[k] != -1 && sems[row[k]].id == id then k else FindSlot(sems, row, id, k + 1)
  }

  /** allocinsystem: the first semaphore from s on that nobody has open, or -1. */
  function FreeSem(sems: seq<Sem>, s: nat): (r: int)
    requires s <= |sems|
    ensures r == -1 || (s <= r < |sems| && sems[r].references == 0)
    ensures forall j :: s <= j < r ==> sems[j].references != 0
    ensures r == -1 <==> forall j :: s <= j < |sems| ==> sems[j].references != 0
    decreases |sems| - s
  {
    if s == |sems| then -1 else if sems[s].references == 0 then s else FreeSem(sems, s + 1)
  }

  /** semget's loop: the first semaphore from s on with the given id, or -1. */
  function NamedSem(sems: seq<Sem>, id: int, s: nat): (r: int)
    requires s <= |sems|
    ensures r == -1 || (s <= r < |sems| && sems[r].id == id)
    ensures forall j :: s <= j < r ==> sems[j].id != id
    ensures r == -1 <==> forall j :: s <= j < |sems| ==> sems[j].id != id
    decreases |sems| - s
  {
    if s == |sems| then -1 else if sems[s].id == id then s else NamedSem(sems, id, s + 1)
  }

  // ------------------------------------------------------------------ the calls

  /** Slot k of process p now holds v; semaphore s has d more references. */
  function Attach(st: State, p: nat, k: nat, v: int, s: nat, d: int): State
    requires p < |st.slots| && k < |st.slots[p]| && s < |st.sems|
  {
    st.(slots := st.slots[p := st.slots[p][k := v]],
        sems := st.sems[s := st.sems[s].(references := st.sems[s].references + d)])
  }

  function Create(st: State, s: nat, value: int): State
    requires s < |st.sems| == |st.created|
  {
    st.(sems := st.sems[s := Sem(s, st.sems[s].references, value)],
        created := st.created[s := true])
  }

  /** semget. */
  function Get(st: State, p: nat, semid: int, value: int): (State, int)
    requires Shape(st) && p < |st.slots|
  {
    if semid < -1 || semid >= MAXSEM then (st, -4)
    else
      var k := EmptySlot(st.slots[p], 0);
      if k == -1 then (st, -2)
      else if semid == -1 then
        var s := FreeSem(st.sems, 0);
        if s == -1 then (st, -3) else (Attach(Create(st, s, value), p, k, s, s, 1), s)
      else
        var s := NamedSem(st.sems, semid, 0);
        if s == -1 then (st, -5)
        else if st.sems[s].references > 0 then (Attach(st, p, k, s, s, 1), st.sems[s].id)
        else (st, -1)
  }

  /** semfree. */
  function Free(st: State, p: nat, semid: int): (State, int)
    requires Shape(st) && p < |st.slots|
  {
    var k := FindSlot(st.sems, st.slots[p], semid, 0);
    if k == -1 then (st, -1)
    else
      var s := st.slots[p][k];
      if st.sems[s].references < 1 then (st, -2) else (Attach(st, p, k, -1, s, -1), 0)
  }

  function AddValue(st: State, s: nat, d: int): State
    requires s < |st.sems|
  {
    st.(sems := st.sems[s := st.sems[s].(value := st.sems[s].value + d)])
  }

  function Move(st: State, p: nat, f: Phase): State
    requires p < |st.phases|
  {
    st.(phases := st.phases[p := f])
  }

  /** semdown's loop, under the lock: take one, or go to sleep. */
  function Take(st: State, p: nat, s: nat): State
    requires p < |st.phases| && s < |st.sems|
  {
    if st.sems[s].value <= 0 then Move(st, p, Asleep(s))
    else Move(AddValue(st, s, -1), p, Out)
  }

  /** semup, under the lock. */
  function Put(st: State, p: nat, s: nat): State
    requires p < |st.phases| && s < |st.sems|
  {
    Move(AddValue(st, s, 1), p, Pending(s))
  }

  /** wakeup(s). */
  function WakeAll(phases: seq<Phase>, s: nat): (r: seq<Phase>)
    ensures |r| == |phases|
    ensures forall p :: 0 <= p < |r| ==> r[p] == if phases[p] == Asleep(s) then Woken(s) else phases[p]
  {
    if phases == [] then [] else [if phases[0] == Asleep(s) then Woken(s) else phases[0]] + WakeAll(phases[1..], s)
  }

  datatype Event =
    | SemGet(p: nat, semid: int, value: int)
    | SemFree(p: nat, semid: int)
    | Down(p: nat, semid: int)            // semdown, up to its first sleep or its end
    | Retry(p: nat)                       // semdown, after sleep has returned
    | Up(p: nat, semid: int)              // semup, up to its release of the lock
    | Wakeup(p: nat)                      // semup's wakeup
    | Kill(p: nat)                        // kill wakes a sleeper for another reason
    | Dup(p: nat, q: nat, k: nat)         // fork copies slot k of p to its child q
    | Close(p: nat, k: nat)               // exit closes slot k and clears it

  predicate Idle(st: State, p: nat) {
    p < |st.phases| && st.phases[p] == Out
  }

  predicate Enabled(st: State, e: Event) {
    match e
    case SemGet(p, _, _) => Idle(st, p)
    case SemFree(p, _) => Idle(st, p)
    case Down(p, _) => Idle(st, p)
    case Retry(p) => p < |st.phases| && st.phases[p].Woken?
    case Up(p, _) => Idle(st, p)
    case Wakeup(p) => p < |st.phases| && st.phases[p].Pending?
    case Kill(p) => p < |st.phases| && st.phases[p].Asleep?
    case Dup(p, q, k) =>
      && Idle(st, p) && Idle(st, q) && |st.slots| == |st.phases| && k < |st.slots[p]| == |st.slots[q]|
      && st.slots[p][k] != -1 && st.slots[q][k] == -1
    case Close(p, k) => Idle(st, p) && |st.slots| == |st.phases| && k < |st.slots[p]| && st.slots[p][k] != -1
  }

  function Apply(st: State, e: Event): State
    requires Shape(st) && Enabled(st, e)
  {
    match e
    case SemGet(p, semid, value) => Get(st, p, semid, value).0
    case SemFree(p, semid) => Free(st, p, semid).0
    case Down(p, semid) =>
      var k := FindSlot(st.sems, st.slots[p], semid, 0);
      if k == -1 then st else Take(st, p, st.slots[p][k])
    case Retry(p) => Take(st, p, st.phases[p].s)
    case Up(p, semid) =>
      var k := FindSlot(st.sems, st.slots[p], semid, 0);
      if k == -1 then st else Put(st, p, st.slots[p][k])
    case Wakeup(p) => Move(st.(phases := WakeAll(st.phases, st.phases[p].s)), p, Out)
    case Kill(p) => Move(st, p, Woken(st.phases[p].s))
    case Dup(p, q, k) => Attach(st, q, k, st.slots[p][k], st.slots[p][k], 1)
    case Close(p, k) => Attach(st, p, k, -1, st.slots[p][k], -1)
  }

  // ------------------------------------------------------------------ references

  /** A process inside semdown or semup keeps the semaphore from being reused. */
  lemma {:induction false} HeldCounts(st: State, p: nat, s: nat)
    requires Shape(st) && Counted(st) && p < |st.slots| && s < MAXSEM && s in st.slots[p]
    ensures st.sems[s].references > 0
  {
    OccursIn(st.slots[p], s);
    HoldersIn(st.slots, p, s);
  }

  /** A slot changes from u to v while one reference is added or dropped accordingly. */
  lemma {:induction false} AttachCounted(st: State, p: nat, k: nat, v: int, s: nat, d: int)
    requires Shape(st) && Counted(st) && p < |st.slots| && k < MAXPROCSEM && s < MAXSEM
    requires (v == s && st.slots[p][k] == -1 && d == 1) || (v == -1 && st.slots[p][k] == s && d == -1)
    ensures var u := Attach(st, p, k, v, s, d); Shape(u) && Counted(u)
  {
    var u := Attach(st, p, k, v, s, d);
    forall x | 0 <= x < MAXSEM
      ensures u.sems[x].references == Holders(u.slots, x)
    {
      OccursUpdate(st.slots[p], k, v, x);
      HoldersUpdate(st.slots, p, st.slots[p][k := v], x);
    }
  }

  lemma {:induction false} AttachKeeps(st: State, p: nat, k: nat, v: int, s: nat, d: int)
    requires Inv(st) && Idle(st, p) && k < MAXPROCSEM && s < MAXSEM
    requires (v == s && st.slots[p][k] == -1 && d == 1) || (v == -1 && st.slots[p][k] == s && d == -1)
    requires v == s ==> st.created[s]
    ensures Inv(Attach(st, p, k, v, s, d))
  {
    hide Holders, Occurs, Counted;
    AttachCounted(st, p, k, v, s, d);
    var u := Attach(st, p, k, v, s, d);
    if v == -1 {
      SlotCounts(st, p, k);
    }
    forall q | 0 <= q < |u.phases| && !u.phases[q].Out?
      ensures u.phases[q].s in u.slots[q]
    {
      assert u.slots[q] == st.slots[q];
    }
    forall q | 0 <= q < |u.phases| && u.phases[q].Asleep? && u.sems[u.phases[q].s].value > 0
      ensures WakeupDue(u, u.phases[q].s)
    {
      assert WakeupDue(st, st.phases[q].s);
    }
  }

  lemma {:induction false} SlotCounts(st: State, p: nat, k: nat)
    requires Shape(st) && Counted(st) && p < |st.slots| && k < MAXPROCSEM && st.slots[p][k] != -1
    ensures st.sems[st.slots[p][k]].references > 0
  {
    assert st.slots[p][k] in st.slots[p];
    HeldCounts(st, p, st.slots[p][k]);
  }

  /** Creating a semaphore that nobody has open disturbs nobody. */
  lemma {:induction false} CreateKeeps(st: State, s: nat, value: int)
    requires Inv(st) && s < MAXSEM && st.sems[s].references == 0
    ensures Inv(Create(st, s, value))
  {
    var u := Create(st, s, value);
    forall q | 0 <= q < |u.phases| && u.phases[q].Asleep? && u.sems[u.phases[q].s].value > 0
      ensures WakeupDue(u, u.phases[q].s)
    {
      HeldCounts(st, q, st.phases[q].s);
      assert WakeupDue(st, st.phases[q].s);
    }
  }

  lemma {:induction false} GetKeeps(st: State, p: nat, semid: int, value: int)
    requires Inv(st) && Idle(st, p)
    ensures Inv(Get(st, p, semid, value).0)
  {
    hide Counted, Held, NoneLost;
    if -1 <= semid < MAXSEM {
      var k := EmptySlot(st.slots[p], 0);
      if k != -1 {
        if semid == -1 {
          var s := FreeSem(st.sems, 0);
          if s != -1 {
            CreateKeeps(st, s, value);
            AttachKeeps(Create(st, s, value), p, k, s, s, 1);
          }
        } else {
          var s := NamedSem(st.sems, semid, 0);
          if s != -1 && st.sems[s].references > 0 {
            AttachKeeps(st, p, k, s, s, 1);
          }
        }
      }
    }
  }

  lemma {:induction false} FreeKeeps(st: State, p: nat, semid: int)
    requires Inv(st) && Idle(st, p)
    ensures Inv(Free(st, p, semid).0)
    ensures Free(st, p, semid).1 == 0 || Free(st, p, semid).1 == -1
  {
    hide Held, NoneLost, Named;
    var k := FindSlot(st.sems, st.slots[p], semid, 0);
    if k != -1 {
      SlotCounts(st, p, k);
      AttachKeeps(st, p, k, -1, st.slots[p][k], -1);
    }
  }

  // ------------------------------------------------------------------ values and sleepers

  /** Changing a value and the phase of one process leaves references alone. */
  lemma {:induction false} ValueKeeps(st: State, p: nat, s: nat, d: int, f: Phase)
    requires Inv(st) && p < |st.phases| && s < MAXSEM && s in st.slots[p] && (f == Out || f.s == s)
    ensures var u := Move(AddValue(st, s, d), p, f); Shape(u) && Counted(u) && Held(u) && Named(u)
  {
    hide Holders, Occurs, WakeupDue;
    var u := Move(AddValue(st, s, d), p, f);
    assert u.slots == st.slots;
    forall x | 0 <= x < MAXSEM
      ensures u.sems[x].references == Holders(u.slots, x)
    {
      assert st.sems[x].references == Holders(st.slots, x);
    }
  }

  lemma {:induction false} SlotCreated(st: State, p: nat, s: nat)
    requires Inv(st) && p < |st.slots| && s < MAXSEM && s in st.slots[p]
    ensures st.created[s]
  {
    HeldCounts(st, p, s);
  }

  /** semdown under the lock. A process that sleeps in it is awake when it does this. */
  lemma {:induction false} TakeKeeps(st: State, p: nat, s: nat)
    requires Inv(st) && p < |st.phases| && s < MAXSEM && s in st.slots[p]
    requires st.phases[p] == Out || st.phases[p] == Woken(s)
    ensures Inv(Take(st, p, s))
  {
    hide Counted, Held, Named;
    var u := Take(st, p, s);
    if st.sems[s].value <= 0 {
      ValueKeeps(st, p, s, 0, Asleep(s));
      assert AddValue(st, s, 0) == st;
    } else {
      ValueKeeps(st, p, s, -1, Out);
    }
    forall q | 0 <= q < |u.phases| && u.phases[q].Asleep? && u.sems[u.phases[q].s].value > 0
      ensures WakeupDue(u, u.phases[q].s)
    {
      assert WakeupDue(st, st.phases[q].s);
      var w :| 0 <= w < |st.phases| && st.phases[w] == Pending(st.phases[q].s);
      assert u.phases[w] == Pending(u.phases[q].s);
    }
  }

  lemma {:induction false} PutKeeps(st: State, p: nat, s: nat)
    requires Inv(st) && Idle(st, p) && s < MAXSEM && s in st.slots[p]
    ensures Inv(Put(st, p, s))
  {
    hide Counted, Held, Named;
    var u := Put(st, p, s);
    ValueKeeps(st, p, s, 1, Pending(s));
    forall q | 0 <= q < |u.phases| && u.phases[q].Asleep? && u.sems[u.phases[q].s].value > 0
      ensures WakeupDue(u, u.phases[q].s)
    {
      if u.phases[q].s == s {
        assert u.phases[p] == Pending(s);
      } else {
        assert WakeupDue(st, st.phases[q].s);
        var w :| 0 <= w < |st.phases| && st.phases[w] == Pending(st.phases[q].s);
        assert u.phases[w] == Pending(u.phases[q].s);
      }
    }
  }

  /** Only phases change, and no process changes its semaphore. */
  lemma {:induction false} PhasesKeep(st: State, phases: seq<Phase>)
    requires Inv(st) && |phases| == |st.phases|
    requires forall p :: 0 <= p < |phases| && !phases[p].Out? ==> !st.phases[p].Out? && phases[p].s == st.phases[p].s
    ensures var u := st.(phases := phases); Shape(u) && Counted(u) && Held(u) && Named(u)
  {
    hide Holders, Occurs;
    var u := st.(phases := phases);
    forall x | 0 <= x < MAXSEM
      ensures u.sems[x].references == Holders(u.slots, x)
    {
      assert st.sems[x].references == Holders(st.slots, x);
    }
  }

  lemma {:induction false} WakeupKeeps(st: State, p: nat)
    requires Inv(st) && p < |st.phases| && st.phases[p].Pending?
    ensures Inv(Apply(st, Wakeup(p)))
  {
    hide Counted, Held, Named;
    var u := Apply(st, Wakeup(p));
    PhasesKeep(st, u.phases);
    assert u == st.(phases := u.phases);
    forall q | 0 <= q < |u.phases| && u.phases[q].Asleep? && u.sems[u.phases[q].s].value > 0
      ensures WakeupDue(u, u.phases[q].s)
    {
      assert WakeupDue(st, st.phases[q].s);
      var w :| 0 <= w < |st.phases| && st.phases[w] == Pending(st.phases[q].s);
      assert u.phases[w] == Pending(u.phases[q].s);
    }
  }

  lemma {:induction false} KillKeeps(st: State, p: nat)
    requires Inv(st) && p < |st.phases| && st.phases[p].Asleep?
    ensures Inv(Apply(st, Kill(p)))
  {
    hide Counted, Held, Named;
    var u := Apply(st, Kill(p));
    PhasesKeep(st, u.phases);
    assert u == st.(phases := u.phases);
    forall q | 0 <= q < |u.phases| && u.phases[q].Asleep? && u.sems[u.phases[q].s].value > 0
      ensures WakeupDue(u, u.phases[q].s)
    {
      assert WakeupDue(st, st.phases[q].s);
      var w :| 0 <= w < |st.phases| && st.phases[w] == Pending(st.phases[q].s);
      assert u.phases[w] == Pending(u.phases[q].s);
    }
  }

  // ------------------------------------------------------------------ runs

  lemma {:induction false} StepKeeps(st: State, e: Event)
    requires Inv(st) && Enabled(st, e)
    ensures Inv(Apply(st, e))
  {
    hide Counted, Named, NoneLost;
    match e
    case SemGet(p, semid, value) => GetKeeps(st, p, semid, value);
    case SemFree(p, semid) => FreeKeeps(st, p, semid);
    case Down(p, semid) =>
      var k := FindSlot(st.sems, st.slots[p], semid, 0);
      if k != -1 {
        TakeKeeps(st, p, st.slots[p][k]);
      }
    case Retry(p) => TakeKeeps(st, p, st.phases[p].s);
    case Up(p, semid) =>
      var k := FindSlot(st.sems, st.slots[p], semid, 0);
      if k != -1 {
        PutKeeps(st, p, st.slots[p][k]);
      }
    case Wakeup(p) => WakeupKeeps(st, p);
    case Kill(p) => KillKeeps(st, p);
    case Dup(p, q, k) =>
      SlotCreated(st, p, st.slots[p][k]);
      AttachKeeps(st, q, k, st.slots[p][k], st.slots[p][k], 1);
    case Close(p, k) => AttachKeeps(st, p, k, -1, st.slots[p][k], -1);
  }

  ghost predicate IsRun(ss: seq<State>, es: seq<Event>) {
    && |ss| == |es| + 1
    && (es != [] ==>
          var n := |es| - 1;
          IsRun(ss[..n + 1], es[..n]) && Shape(ss[n]) && Enabled(ss[n], es[n]) && ss[n + 1] == Apply(ss[n], es[n]))
  }

  /** The zeroed tables, any number of processes. */
  ghost predicate Init(st: State) {
    && |st.sems| == |st.created| == MAXSEM && |st.slots| == |st.phases|
    && (forall s :: 0 <= s < MAXSEM ==> st.sems[s] == Sem(0, 0, 0) && !st.created[s])
    && (forall p :: 0 <= p < |st.slots| ==> st.slots[p] == [-1, -1, -1, -1, -1] && st.phases[p] == Out)
  }

  lemma {:induction false} NoHolders(slots: seq<seq<int>>, s: nat)
    requires forall p :: 0 <= p < |slots| ==> slots[p] == [-1, -1, -1, -1, -1]
    ensures Holders(slots, s) == 0
  {
    if slots != [] {
      NoHolders(slots[1..], s);
      OccursIn(slots[0], s);
    }
  }

  lemma {:induction false} InitInv(st: State)
    requires Init(st)
    ensures Inv(st)
  {
    forall s | 0 <= s < MAXSEM
      ensures st.sems[s].references == Holders(st.slots, s)
    {
      NoHolders(st.slots, s);
    }
  }

  lemma {:induction false} RunInv(ss: seq<State>, es: seq<Event>)
    requires IsRun(ss, es) && Init(ss[0])
    ensures Inv(ss[|es|])
  {
    hide Inv, Init, Shape, Enabled, Apply;
    if es == [] {
      InitInv(ss[0]);
    } else {
      var n := |es| - 1;
      RunInv(ss[..n + 1], es[..n]);
      StepKeeps(ss[n], es[n]);
    }
  }

  // ------------------------------------------------------------------ what users rely on

  /** Semaphores lose no wakeups. */
  lemma {:induction false} NoLostWakeup(ss: seq<State>, es: seq<Event>, p: nat)
    requires IsRun(ss, es) && Init(ss[0]) && p < |ss[|es|].phases| && ss[|es|].phases[p].Asleep?
    ensures var st := ss[|es|]; var s := st.phases[p].s;
            s < |st.sems| && (st.sems[s].value > 0 ==> WakeupDue(st, s))
  {
    RunInv(ss, es);
  }

  /** A semaphore is open in exactly as many slots as it has references; so semfree never returns -2
      and semclose never panics. */
  lemma {:induction false} ReferencesExact(ss: seq<State>, es: seq<Event>, s: nat)
    requires IsRun(ss, es) && Init(ss[0]) && s < MAXSEM
    ensures var st := ss[|es|];
            && |st.sems| == MAXSEM && st.sems[s].references == Holders(st.slots, s)
            && forall p, k :: 0 <= p < |st.slots| && 0 <= k < |st.slots[p]| && st.slots[p][k] == s ==>
                 st.sems[s].references >= 1
  {
    RunInv(ss, es);
    var st := ss[|es|];
    forall p, k | 0 <= p < |st.slots| && 0 <= k < |st.slots[p]| && st.slots[p][k] == s
      ensures st.sems[s].references >= 1
    {
      SlotCounts(st, p, k);
    }
  }

  /** fork gives the child what the parent has open, and exit gives it back: one reference more, one less, and
      nothing else. */
  lemma {:induction false} DupThenClose(st: State, p: nat, q: nat, k: nat)
    requires Inv(st) && Enabled(st, Dup(p, q, k))
    ensures var s, u := st.slots[p][k], Apply(st, Dup(p, q, k));
            && 0 <= s < MAXSEM && Shape(u) && u.slots == st.slots[q := st.slots[q][k := s]]
            && u.sems == st.sems[s := st.sems[s].(references := st.sems[s].references + 1)]
            && u.phases == st.phases && u.created == st.created
            && Enabled(u, Close(q, k)) && Apply(u, Close(q, k)) == st
  {
    var s := st.slots[p][k];
    var u := Apply(st, Dup(p, q, k));
    assert u.slots[q][k := -1] == st.slots[q];
    assert u.slots[q := st.slots[q]] == st.slots;
    assert u.sems[s := st.sems[s]] == st.sems;
  }

  /** What semget answers. */
  lemma {:induction false} GetResults(st: State, p: nat, semid: int, value: int)
    requires Inv(st) && Idle(st, p)
    ensures var (u, r) := Get(st, p, semid, value);
            var full := forall k :: 0 <= k < MAXPROCSEM ==> st.slots[p][k] != -1;
            && (r == -4 <==> semid < -1 || semid >= MAXSEM)
            && (r == -2 <==> -1 <= semid < MAXSEM && full)
            && (r == -3 <==> semid == -1 && !full && forall s :: 0 <= s < MAXSEM ==> Holders(st.slots, s) > 0)
            && (r == -1 <==> 0 <= semid < MAXSEM && !full && Holders(st.slots, semid) == 0
                             && (semid == 0 || st.created[semid]))
            && (r == -5 <==> 0 < semid < MAXSEM && !full && !st.created[semid])
            && (r >= 0 ==> r < MAXSEM && r in u.slots[p] && Holders(u.slots, r) == Holders(st.slots, r) + 1)
            && (r >= 0 && semid != -1 ==> r == semid && u.sems[r].value == st.sems[r].value)
            && (r >= 0 && semid == -1 ==> Holders(st.slots, r) == 0 && u.sems[r].value == value)
  {
    var k := EmptySlot(st.slots[p], 0);
    if 0 <= semid < MAXSEM {
      var s := NamedSem(st.sems, semid, 0);
      NamedExact(st, semid);
    }
    GetKeeps(st, p, semid, value);
    var (u, r) := Get(st, p, semid, value);
    if r >= 0 {
      assert u.slots[p][k] == r;
    }
  }

  /** What semfree does: it drops one slot of the caller with that semaphore, if there is one. */
  lemma {:induction false} FreeResults(st: State, p: nat, semid: int)
    requires Inv(st) && Idle(st, p)
    ensures var (u, r) := Free(st, p, semid);
            && (r == 0 <==> exists k :: 0 <= k < MAXPROCSEM && st.slots[p][k] != -1 && st.slots[p][k] == semid)
            && (r != 0 ==> r == -1 && u == st)
            && (r == 0 ==> 0 <= semid < MAXSEM && Holders(u.slots, semid) == Holders(st.slots, semid) - 1
                           && forall s :: 0 <= s < MAXSEM && s != semid ==> Holders(u.slots, s) == Holders(st.slots, s))
  {
    hide Holders, Occurs, NoneLost, Held;
    FreeKeeps(st, p, semid);
    FindExact(st, p, semid, 0);
    var k := FindSlot(st.sems, st.slots[p], semid, 0);
    if k != -1 {
      assert st.slots[p][k] == semid;
      SlotCounts(st, p, k);
    }
  }

  /** A process finds a semaphore by its index. */
  lemma {:induction false} FindExact(st: State, p: nat, id: int, k: nat)
    requires Shape(st) && Counted(st) && Named(st) && p < |st.slots| && k <= MAXPROCSEM
    ensures var r := FindSlot(st.sems, st.slots[p], id, k);
            && (r != -1 ==> st.slots[p][r] == id)
            && (r == -1 ==> forall j :: k <= j < MAXPROCSEM && st.slots[p][j] != -1 ==> st.slots[p][j] != id)
    decreases MAXPROCSEM - k
  {
    if k < MAXPROCSEM {
      if st.slots[p][k] != -1 {
        SlotCounts(st, p, k);
      }
      FindExact(st, p, id, k + 1);
    }
  }

  /** A semaphore is found by its index, if it has ever been created. */
  lemma {:induction false} NamedExact(st: State, semid: nat)
    requires Shape(st) && Named(st) && semid < MAXSEM
    ensures NamedSem(st.sems, semid, 0) == if semid == 0 || st.created[semid] then semid else -1
  {
    var s := NamedSem(st.sems, semid, 0);
    assert st.sems[semid].id == if st.created[semid] then semid else 0;
    if semid == 0 {
      assert st.sems[0].id == 0;
    }
  }
}

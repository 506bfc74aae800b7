/** The search loops and calls of semaphore.c, each under stable.lock. */
module SemCode {
  import opened Semaphores

  class SemTable {
    var st: State

    /** allocinprocess. */
    method AllocInProcess(p: nat) returns (r: int)
      requires Shape(st) && p < |st.slots|
      ensures r == EmptySlot(st.slots[p], 0)
    {
      for i := 0 to MAXPROCSEM
        invariant EmptySlot(st.slots[p], i) == EmptySlot(st.slots[p], 0)
      {
        if st.slots[p][i] == -1 {
          return i;
        }
      }
      return -1;
    }

    /** searchinprocess. */
    method SearchInProcess(p: nat, id: int) returns (r: int)
      requires Shape(st) && p < |st.slots|
      ensures r == FindSlot(st.sems, st.slots[p], id, 0)
    {
      for i := 0 to MAXPROCSEM
        invariant FindSlot(st.sems, st.slots[p], id, i) == FindSlot(st.sems, st.slots[p], id, 0)
      {
        var s := st.slots[p][i];
        if s != -1 && st.sems[s].id == id {
          return i;
        }
      }
      return -1;
    }

    /** allocinsystem. */
    method AllocInSystem() returns (r: int)
      requires Shape(st)
      ensures r == FreeSem(st.sems, 0)
    {
      for i := 0 to MAXSEM
        invariant FreeSem(st.sems, i) == FreeSem(st.sems, 0)
      {
        if st.sems[i].references == 0 {
          return i;
        }
      }
      return -1;
    }

    /** The end of semget: one more reference, and the slot. */
    method Found(p: nat, position: nat, s: nat)
      requires Shape(st) && p < |st.slots| && position < MAXPROCSEM && s < MAXSEM
      modifies this
      ensures st == Attach(old(st), p, position, s, s, 1)
    {
      st := st.(sems := st.sems[s := st.sems[s].(references := st.sems[s].references + 1)]);
      st := st.(slots := st.slots[p := st.slots[p][position := s]]);
    }

    /** semget, called by process p. */
    method SemGet(p: nat, semid: int, initvalue: int) returns (r: int)
      requires Inv(st) && Idle(st, p)
      modifies this
      ensures (st, r) == Get(old(st), p, semid, initvalue) && Inv(st)
    {
      hide Counted, Held, Named, NoneLost;
      GetKeeps(st, p, semid, initvalue);
      if semid < -1 || semid >= MAXSEM {
        return -4;
      }
      var position := AllocInProcess(p);
      if position == -1 {
        return -2;
      }
      if semid == -1 {
        var s := AllocInSystem();
        if s == -1 {
          return -3;
        }
        st := Create(st, s, initvalue);
        Found(p, position, s);
        return s;
      }
      for s := 0 to MAXSEM
        invariant st == old(st) && NamedSem(st.sems, semid, s) == NamedSem(st.sems, semid, 0)
      {
        if st.sems[s].id == semid && st.sems[s].references > 0 {
          r := st.sems[s].id;
          Found(p, position, s);
          return;
        }
        if st.sems[s].id == semid && st.sems[s].references == 0 {
          Counts(st, s);
          return -1;
        }
        Counts(st, s);
      }
      return -5;
    }

    lemma {:induction false} Counts(st: State, s: nat)
      requires Inv(st) && s < MAXSEM
      ensures st.sems[s].references >= 0
    {
    }

    /** semdown, called by process p, up to its first sleep or its end. */
    method SemDown(p: nat, semid: int) returns (r: int)
      requires Inv(st) && Idle(st, p)
      modifies this
      ensures st == Apply(old(st), Down(p, semid)) && Inv(st)
      ensures r == 0 ==> semid in old(st).slots[p] && 0 <= semid < MAXSEM
      ensures r == 0 ==> if old(st).sems[semid].value <= 0
                         then st == old(st).(phases := st.phases) && st.phases[p] == Asleep(semid)
                         else st.phases[p] == Out && st.sems[semid].value == old(st).sems[semid].value - 1
      ensures r == -1 <==> forall k :: 0 <= k < MAXPROCSEM && st.slots[p][k] != -1 ==> st.slots[p][k] != semid
    {
      hide Counted, Held, Named, NoneLost;
      StepKeeps(st, Down(p, semid));
      FindExact(st, p, semid, 0);
      var pos := SearchInProcess(p, semid);
      if pos == -1 {
        return -1;
      }
      DownLoop(p, st.slots[p][pos]);
      return 0;
    }

    /** semdown, from the test of its loop on. */
    method DownLoop(p: nat, s: nat)
      requires Shape(st) && p < |st.phases| && s < MAXSEM
      modifies this
      ensures st == Take(old(st), p, s)
    {
      if st.sems[s].value <= 0 {
        st := Move(st, p, Asleep(s));
      } else {
        st := AddValue(st, s, -1);
        st := Move(st, p, Out);
      }
    }

    /** semup, called by process p, up to its release of the lock. */
    method SemUp(p: nat, semid: int) returns (r: int)
      requires Inv(st) && Idle(st, p)
      modifies this
      ensures st == Apply(old(st), Up(p, semid)) && Inv(st)
      ensures r == 0 ==> semid in old(st).slots[p] && 0 <= semid < MAXSEM
      ensures r == 0 ==> st.sems[semid].value == old(st).sems[semid].value + 1 && st.phases[p] == Pending(semid)
      ensures r == -1 <==> forall k :: 0 <= k < MAXPROCSEM && st.slots[p][k] != -1 ==> st.slots[p][k] != semid
    {
      hide Counted, Held, Named, NoneLost;
      StepKeeps(st, Up(p, semid));
      FindExact(st, p, semid, 0);
      var pos := SearchInProcess(p, semid);
      if pos == -1 {
        return -1;
      }
      var s := st.slots[p][pos];
      st := AddValue(st, s, 1);
      st := Move(st, p, Pending(s));
      return 0;
    }

    /** semfree, called by process p. */
    method SemFree(p: nat, semid: int) returns (r: int)
      requires Inv(st) && Idle(st, p)
      modifies this
      ensures (st, r) == Free(old(st), p, semid) && Inv(st)
    {
      hide Counted, Held, Named, NoneLost;
      FreeKeeps(st, p, semid);
      var pos := SearchInProcess(p, semid);
      if pos == -1 {
        return -1;
      }
      var s := st.slots[p][pos];
      r := if st.sems[s].references < 1 then -2 else 0;
      if r == 0 {
        st := st.(sems := st.sems[s := st.sems[s].(references := st.sems[s].references - 1)]);
        st := st.(slots := st.slots[p := st.slots[p][pos := -1]]);
      }
    }
  }
}

/** A whole commit on the buffer cache: write_log, write_head, install_trans and write_head, by the only
    process that holds buffers. */
module CacheCommit {
  import opened Blocks
  import opened BufferCache
  import opened CacheProtocol

  /** A commit of fewer than NBUF sectors is under way, and nobody waits for a buffer. */
  ghost predicate Under(s: State) {
    && Reached(s) && Shape(s) && !s.panicked && s.committing && s.asleep == map[] && |s.lh| < NBUF
  }

  /** What the calls of a commit leave alone. */
  ghost predicate Kept(s: State, t: State) {
    t.lh == s.lh && t.disk.Keys == s.disk.Keys
  }

  predicate OnDisk(s: State, key: Key) {
    key in s.disk && key.dev != NODEV
  }

  /** Process p has buffer b for this sector, as bread returns it. */
  ghost predicate Has(s: State, p: nat, b: nat, key: Key)
    requires Shape(s)
  {
    b < NBUF && s.holder[b] == Some(p) && KeyOf(s.bufs[b]) == key && s.bufs[b].valid && !s.touched[b]
  }

  ghost predicate NobodyHolds(s: State)
    requires Shape(s)
  {
    forall b :: 0 <= b < NBUF ==> s.holder[b] == None
  }

  // ------------------------------------------------------------------ bread, bwrite, brelse

  /** What bread returns, before its data is read. */
  ghost predicate Gets(s: State, t: State, p: nat, b: nat, key: Key)
    requires Shape(s) && Shape(t)
  {
    && b < NBUF && s.holder[b] == None && t.holder == s.holder[b := Some(p)] && KeyOf(t.bufs[b]) == key && !t.touched[b]
    && Kept(s, t) && t.installed == s.installed
    && (forall c :: 0 <= c < NBUF && c != b ==> t.bufs[c] == s.bufs[c] && t.touched[c] == s.touched[c])
  }

  lemma {:induction false} GetBuffer(s: State, p: nat, key: Key) returns (t: State, b: nat)
    requires Under(s) && OnDisk(s, key) && CommitCalls(s, p, key)
    ensures Under(t) && Gets(s, t, p, b, key)
  {
    hide Reached, First, Victim, IsOrder;
    CommitBreads(s, p, key);
    ReachedStep(s, Get(p, key));
    t := DoGet(s, p, key);
    ReachedShape(t);
    ReachedInv(s);
    b := GotBuffer(s, p, key);
  }

  lemma {:induction false} GotBuffer(s: State, p: nat, key: Key) returns (b: nat)
    requires Inv(s) && Enabled(s, Get(p, key)) && CommitCalls(s, p, key) && !DoGet(s, p, key).panicked
    ensures b < NBUF && s.holder[b] == None
    ensures var t := DoGet(s, p, key);
            && |t.bufs| == |t.touched| == NBUF && !t.touched[b] && KeyOf(t.bufs[b]) == key
            && t == s.(bufs := t.bufs, holder := s.holder[b := Some(p)], touched := t.touched, place := t.place)
            && forall c :: 0 <= c < NBUF && c != b ==> t.bufs[c] == s.bufs[c] && t.touched[c] == s.touched[c]
  {
    hide DataInv, LogInv, ListInv, Covers, First, Victim;
    NotBusy(s, p, key);
    var f := First(s.bufs, s.order, key.dev, key.sector, 0);
    b := s.order[if f < NBUF then f else Victim(s.bufs, s.order, NBUF - 1)];
    assert BufOk(s, b, s.bufs[b], s.holder[b], s.touched[b]);
    if f < NBUF {
      CachesKey(s.bufs[b], key);
    }
  }

  lemma {:induction false} Bread(s: State, p: nat, key: Key) returns (t: State, b: nat)
    requires Under(s) && OnDisk(s, key) && CommitCalls(s, p, key)
    ensures Under(t) && Gets(s, t, p, b, key) && Has(t, p, b, key)
  {
    hide Reached, IsOrder;
    t, b := GetBuffer(s, p, key);
    if !t.bufs[b].valid {
      ReachedStep(t, Read(p, b));
      t := Do(t, Read(p, b));
    }
  }

  /** memmove and bwrite. */
  lemma {:induction false} Store(s: State, p: nat, b: nat, key: Key, data: Block) returns (t: State)
    requires Under(s) && Has(s, p, b, key)
    ensures Under(t) && Has(t, p, b, key) && Kept(s, t) && t.holder == s.holder && t.installed == s.installed + {key}
    ensures forall c :: 0 <= c < NBUF && c != b ==> t.bufs[c] == s.bufs[c] && t.touched[c] == s.touched[c]
  {
    hide Reached, IsOrder;
    ReachedInv(s);
    BufKey(s, b);
    ReachedStep(s, Modify(p, b, data));
    var m := DoModify(s, b, data);
    ReachedStep(m, Bwrite(p, b));
    t := Do(m, Bwrite(p, b));
  }

  lemma {:induction false} BufKey(s: State, b: nat)
    requires Inv(s) && b < NBUF && s.bufs[b].valid
    ensures KeyOf(s.bufs[b]) in s.disk
  {
    assert BufOk(s, b, s.bufs[b], s.holder[b], s.touched[b]);
  }

  lemma {:induction false} Release(s: State, p: nat, b: nat, key: Key) returns (t: State)
    requires Under(s) && Has(s, p, b, key)
    ensures Under(t) && Kept(s, t) && t.holder == s.holder[b := None] && t.installed == s.installed
    ensures forall c :: 0 <= c < NBUF && c != b ==> t.bufs[c] == s.bufs[c] && t.touched[c] == s.touched[c]
  {
    hide Reached, Inv, ToFront;
    ReachedInv(s);
    var i := PositionOf(s, b);
    ReachedStep(s, Brelse(p, i));
    t := DoBrelse(s, i);
    ReachedShape(t);
    assert t.asleep == map[];
  }

  // ------------------------------------------------------------------ the loops

  /** One turn of write_log, which writes the first buffer, or of install_trans, which writes the second. */
  lemma {:induction false} Copy(s: State, p: nat, first: Key, second: Key, log: bool, data: Block) returns (t: State)
    requires Under(s) && NobodyHolds(s) && OnDisk(s, first) && OnDisk(s, second) && first != second && second in Due(s)
    ensures Under(t) && NobodyHolds(t) && Kept(s, t) && t.installed == s.installed + {if log then first else second}
  {
    hide Under, Reached, CommitCalls, Due;
    Calls(s, p, first);
    var m, a := Bread(s, p, first);
    CallsSecond(s, m, p, a, first, second);
    var n, b := Bread(m, p, second);
    UnderShape(n);
    if log {
      t := Store(n, p, a, first, data);
    } else {
      t := Store(n, p, b, second, data);
    }
    UnderShape(t);
    t := Release(t, p, a, first);
    UnderShape(t);
    t := Release(t, p, b, second);
    UnderShape(t);
  }

  lemma {:induction false} UnderShape(s: State)
    requires Under(s)
    ensures Shape(s)
  {
  }

  lemma {:induction false} Calls(s: State, p: nat, key: Key)
    requires Under(s) && NobodyHolds(s)
    ensures Shape(s) && CommitCalls(s, p, key)
  {
  }

  lemma {:induction false} CallsSecond(s: State, t: State, p: nat, b: nat, first: Key, second: Key)
    requires Under(s) && Under(t) && NobodyHolds(s) && Gets(s, t, p, b, first) && first != second
    requires second in Due(s)
    ensures Shape(t) && CommitCalls(t, p, second)
  {
  }

  /** write_head. */
  lemma {:induction false} WriteHead(s: State, p: nat, head: Key, data: Block) returns (t: State)
    requires Under(s) && NobodyHolds(s) && OnDisk(s, head)
    ensures Under(t) && NobodyHolds(t) && Kept(s, t) && t.installed == s.installed + {head}
  {
    hide Under, Reached, CommitCalls;
    Calls(s, p, head);
    var m, b := Bread(s, p, head);
    t := Store(m, p, b, head, data);
    UnderShape(t);
    t := Release(t, p, b, head);
    UnderShape(t);
  }

  /** h is log.lh; logs[i] is log block i, and not a sector of the header. */
  ghost predicate Plan(s: State, h: seq<Key>, logs: seq<Key>, head: Key) {
    && |logs| == |h| && OnDisk(s, head) && head !in s.lh
    && (forall i :: 0 <= i < |h| ==> OnDisk(s, h[i]) && OnDisk(s, logs[i]) && logs[i] !in s.lh)
    && (forall key :: key in s.lh <==> key in h)
    && (forall i, j :: 0 <= i < j < |h| ==> h[i] != h[j])
  }

  lemma {:induction false} PlanKept(s: State, t: State, h: seq<Key>, logs: seq<Key>, head: Key)
    requires Plan(s, h, logs, head) && Kept(s, t)
    ensures Plan(t, h, logs, head)
  {
    assert forall key :: key in s.disk <==> key in t.disk;
  }

  /** Nothing of the header has been written home. */
  lemma {:induction false} WriteLog(s: State, p: nat, h: seq<Key>, logs: seq<Key>, head: Key, data: Block, n: nat)
    returns (t: State)
    requires Under(s) && NobodyHolds(s) && Plan(s, h, logs, head) && s.installed == {} && n <= |h|
    ensures Under(t) && NobodyHolds(t) && Kept(s, t) && t.installed !! t.lh
  {
    hide Under, Reached;
    if n == 0 {
      t := s;
    } else {
      t := WriteLog(s, p, h, logs, head, data, n - 1);
      PlanKept(s, t, h, logs, head);
      IsDue(t, h[n - 1]);
      t := Copy(t, p, logs[n - 1], h[n - 1], true, data);
    }
  }

  lemma {:induction false} IsDue(s: State, key: Key)
    requires Under(s) && key in s.lh && key !in s.installed
    ensures key in Due(s)
  {
  }

  lemma {:induction false} InstallTrans(s: State, p: nat, h: seq<Key>, logs: seq<Key>, head: Key, data: Block, n: nat)
    returns (t: State)
    requires Under(s) && NobodyHolds(s) && Plan(s, h, logs, head) && s.installed !! s.lh && n <= |h|
    ensures Under(t) && NobodyHolds(t) && Kept(s, t)
    ensures forall i :: 0 <= i < |h| ==> (h[i] in t.installed <==> i < n)
  {
    hide Under, Reached;
    if n == 0 {
      t := s;
      forall i | 0 <= i < |h|
        ensures h[i] !in t.installed
      {
        assert h[i] in s.lh;
      }
    } else {
      t := InstallTrans(s, p, h, logs, head, data, n - 1);
      PlanKept(s, t, h, logs, head);
      IsDue(t, h[n - 1]);
      t := Copy(t, p, logs[n - 1], h[n - 1], false, data);
    }
  }

  /** From begin to end, whatever the data: with no other holder, the commit of fewer than NBUF sectors
      runs through all its calls of bread without a panic, and can end. */
  lemma {:induction false} WholeCommit(s: State, p: nat, h: seq<Key>, logs: seq<Key>, head: Key, data: Block)
    returns (t: State)
    requires Reached(s) && Shape(s) && Enabled(s, BeginCommit) && s.asleep == map[] && NobodyHolds(s)
    requires |s.lh| < NBUF && Plan(s, h, logs, head)
    ensures Reached(t) && Shape(t) && Kept(s, t) && NobodyHolds(t) && Enabled(t, EndCommit)
  {
    hide Reached;
    ReachedStep(s, BeginCommit);
    var b := Do(s, BeginCommit);
    PlanKept(s, b, h, logs, head);
    t := WriteLog(b, p, h, logs, head, data, |h|);
    PlanKept(b, t, h, logs, head);
    t := WriteHead(t, p, head, data);
    PlanKept(b, t, h, logs, head);
    t := InstallTrans(t, p, h, logs, head, data, |h|);
    PlanKept(b, t, h, logs, head);
    t := WriteHead(t, p, head, data);
  }
}

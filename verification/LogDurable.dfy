/** Durability: what a committed transaction has written stays, through all later crashes, until a later
    committed transaction writes the same sector. */
module LogDurable {
  import opened Blocks
  import opened Log
  import opened LogProtocol

  // ------------------------------------------------------------------ closed transactions stay closed

  lemma {:induction false} StepGrows(s: State, e: Event)
    requires Enabled(s, e)
    ensures s.closed <= Do(s, e).closed && Do(s, e).initial == s.initial
  {
  }

  lemma {:induction false} RunGrows(ss: seq<State>, es: seq<Event>, limit: nat, i: nat)
    requires IsRun(ss, es, limit) && i <= |es|
    ensures ss[i].closed <= ss[|es|].closed && ss[|es|].initial == ss[i].initial
  {
    if i < |es| {
      var n := |es| - 1;
      RunGrows(ss[..n + 1], es[..n], limit, i);
      StepGrows(ss[n], es[n]);
    }
  }

  // ------------------------------------------------------------------ what they leave in a sector

  predicate Writes(ws: seq<OpWrite>, sector: nat) {
    exists x :: 0 <= x < |ws| && ws[x].sector == sector
  }

  lemma {:induction false} ReplayKeeps(home: seq<Block>, ws: seq<OpWrite>, sector: nat)
    requires sector < |home| && !Writes(ws, sector)
    ensures Replay(home, ws)[sector] == home[sector]
  {
    if ws != [] {
      var n := |ws| - 1;
      assert ws[n].sector != sector;
      assert forall x :: 0 <= x < n ==> ws[..n][x] == ws[x];
      ReplayKeeps(home, ws[..n], sector);
    }
  }

  /** The last write to a sector is what it holds. */
  lemma {:induction false} ReplayLast(home: seq<Block>, ws: seq<OpWrite>, x: nat)
    requires x < |ws| && ws[x].sector < |home| && !Writes(ws[x + 1..], ws[x].sector)
    ensures Replay(home, ws)[ws[x].sector] == ws[x].data
  {
    var n := |ws| - 1;
    if x < n {
      assert ws[x + 1..][n - x - 1] == ws[n];
      var short, rest := ws[..n][x + 1..], ws[x + 1..];
      assert forall y :: 0 <= y < |short| ==> short[y] == rest[y];
      ReplayLast(home, ws[..n], x);
    }
  }

  /** Write x of transaction j is the last durable one to its sector. */
  ghost predicate LastWrite(txns: seq<Txn>, j: nat, x: nat) {
    && j < |txns| && txns[j].durable && x < |txns[j].writes|
    && !Writes(txns[j].writes[x + 1..], txns[j].writes[x].sector)
    && forall m :: j < m < |txns| && txns[m].durable ==> !Writes(txns[m].writes, txns[j].writes[x].sector)
  }

  lemma {:induction false} ReplayAllLast(home: seq<Block>, txns: seq<Txn>, j: nat, x: nat)
    requires LastWrite(txns, j, x) && txns[j].writes[x].sector < |home|
    ensures ReplayAll(home, txns)[txns[j].writes[x].sector] == txns[j].writes[x].data
  {
    var n := |txns| - 1;
    var w := txns[j].writes[x];
    if j == n {
      ReplayLast(ReplayAll(home, txns[..n]), txns[n].writes, x);
    } else {
      assert forall m :: 0 <= m < n ==> txns[..n][m] == txns[m];
      ReplayAllLast(home, txns[..n], j, x);
      if txns[n].durable {
        ReplayKeeps(ReplayAll(home, txns[..n]), txns[n].writes, w.sector);
      }
    }
  }

  // ------------------------------------------------------------------ durability

  /** A transaction that is durable at some point of a run is so at every later point; stop the machine
      there and recover, with any interruptions: each sector it wrote holds what it wrote last, unless a
      later durable transaction has written that sector. */
  lemma {:induction false} Durability(ss: seq<State>, es: seq<Event>, c: Config, i: nat, j: nat, x: nat, cuts: seq<nat>)
    requires IsRun(ss, es, c.limit) && Init(ss[0], c) && c.CrashSafe() && i <= |es|
    requires j < |ss[i].closed| && ss[i].closed[j].durable
    ensures WellFormed(ss[|es|].disk) && j < |ss[|es|].closed| && ss[|es|].closed[j] == ss[i].closed[j]
    ensures LastWrite(ss[|es|].closed, j, x) && ss[i].closed[j].writes[x].sector < |ss[i].initial| ==>
              var e := Reboots(ss[|es|].disk, cuts);
              var w := ss[i].closed[j].writes[x];
              && w.sector < |AfterRecovery(e, RecoveryLength(e)).home|
              && AfterRecovery(e, RecoveryLength(e)).home[w.sector] == w.data
  {
    hide Init, IsRun, Reachable, AfterRecovery, WellFormed, Logical, Replay, ReplayAll;
    RunGrowsTo(ss, es, c, i);
    var s := ss[|es|];
    CrashAnywhere(s, c, cuts);
    if LastWrite(s.closed, j, x) && s.closed[j].writes[x].sector < |s.initial| {
      ReplayAllLast(s.initial, s.closed, j, x);
    }
  }

  lemma {:induction false} RunGrowsTo(ss: seq<State>, es: seq<Event>, c: Config, i: nat)
    requires IsRun(ss, es, c.limit) && Init(ss[0], c) && i <= |es|
    ensures Reachable(ss[|es|], c) && |ss| == |es| + 1
    ensures ss[i].closed <= ss[|es|].closed && ss[|es|].initial == ss[i].initial
  {
    hide Init;
    RunGrows(ss, es, c.limit, i);
  }

  /** The commit makes it durable: after the header write of a commit, the writes of its operations are
      a durable transaction. */
  lemma {:induction false} CommitIsDurable(s: State, c: Config)
    requires Reachable(s, c) && Enabled(s, Event.CommitStep) && s.pc == |s.lh|
    ensures var t := Do(s, Event.CommitStep);
            t.closed == s.closed + [Txn(s.current, true, s.next)] && t.current == [] && t.first == s.next
    ensures s.outstanding == 0
  {
    hide Reachable;
    ReachableAlways(s, c);
  }
}

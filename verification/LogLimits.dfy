/** How large the log must be: for every number of log blocks, of processes and of log_write calls
    per operation, exactly when some run panics and when some run damages the disk. */
module LogLimits {
  import opened Blocks
  import opened Log
  import opened LogProtocol

  // ------------------------------------------------------------------ no panic under the demand

  lemma {:induction false} StepCalm(s: State, c: Config, e: Event)
    requires Always(s, c) && c.NeverPanics() && Enabled(s, e) && Allowed(s, e, c.limit)
    requires !s.mode.Panicked?
    ensures !Do(s, e).mode.Panicked?
  {
    if e.Check? {
      Share(s.ops, c.limit, e.p);
      SumBounds(s.ops, c.limit);
    } else if e.EndOp? {
      EndAlways(s, c, e.p);
    }
  }

  lemma {:induction false} RunCalm(ss: seq<State>, es: seq<Event>, c: Config)
    requires IsRun(ss, es, c.limit) && Init(ss[0], c) && c.NeverPanics()
    ensures !ss[|es|].mode.Panicked?
  {
    hide Always, Do;
    if es != [] {
      var n := |es| - 1;
      RunCalm(ss[..n + 1], es[..n], c);
      RunAlways(ss[..n + 1], es[..n], c);
      StepCalm(ss[n], c, es[n]);
    }
  }

  lemma {:induction false} ReachableCalm(s: State, c: Config)
    requires Reachable(s, c) && c.NeverPanics()
    ensures !s.mode.Panicked?
  {
    hide Init;
    var ss: seq<State>, es: seq<Event> :| IsRun(ss, es, c.limit) && Init(ss[0], c) && ss[|es|] == s;
    RunCalm(ss, es, c);
  }

  // ------------------------------------------------------------------ runs that fill the log

  lemma {:induction false} ReachableStep(s: State, c: Config, e: Event)
    requires Reachable(s, c) && Enabled(s, e) && Allowed(s, e, c.limit)
    ensures Reachable(Do(s, e), c)
  {
    hide Init, Do, Enabled, Allowed;
    var ss: seq<State>, es: seq<Event> :| IsRun(ss, es, c.limit) && Init(ss[0], c) && ss[|es|] == s;
    assert (ss + [Do(s, e)])[..|ss|] == ss && (es + [e])[..|es|] == es;
    assert IsRun(ss + [Do(s, e)], es + [e], c.limit);
    assert (ss + [Do(s, e)])[0] == ss[0];
  }

  function Ascending(k: nat): (r: seq<word>)
    requires k <= LOGSIZE + 1
    ensures |r| == k && forall i :: 0 <= i < k ==> r[i] == i
  {
    if k == 0 then [] else Ascending(k - 1) + [k - 1]
  }

  /** Reached with sectors 0..k in the header, and room for more in every other respect. */
  ghost predicate Stage(s: State, c: Config, k: nat) {
    && k <= LOGSIZE + 1 && Reachable(s, c) && s.mode.Running? && !s.committing && s.sleepers == {}
    && |s.cache| == |s.disk.home| == LOGSIZE + 1 && s.lh == Ascending(k)
    && |s.disk.log| == c.room && |s.ops| == c.procs
  }

  predicate Begun(s: State, p: nat, used: nat) {
    p < |s.ops| && s.ops[p].Active? && s.ops[p].used == used && !s.ops[p].checked
  }

  lemma {:induction false} Start(c: Config) returns (t: State)
    ensures Stage(t, c, 0) && t.outstanding == 0 && |t.ops| == c.procs
    ensures forall p :: 0 <= p < |t.ops| ==> t.ops[p].Idle?
  {
    var b: Block := PutHeader(Sector(seq(BSIZE, _ => 0)), []);
    var home, log := seq(LOGSIZE + 1, _ => b), seq(c.room, _ => b);
    t := State(Disk(home, b, log), home, [], 0, false, seq(c.procs, _ => Idle), {},
               Running, 0, Disk(home, b, log), home, [], [], 0, 0);
    assert IsRun([t], [], c.limit) && Init([t][0], c);
    assert Reachable(t, c);
  }

  lemma {:induction false} Begin(s: State, c: Config, k: nat, p: nat) returns (t: State)
    requires Stage(s, c, k) && p < |s.ops| && s.ops[p].Idle?
    requires k + (s.outstanding + 1) * MAXOPBLOCKS <= LOGSIZE
    ensures Stage(t, c, k) && t.outstanding == s.outstanding + 1 && Begun(t, p, 0)
    ensures |t.ops| == |s.ops| && forall q :: 0 <= q < |s.ops| && q != p ==> t.ops[q] == s.ops[q]
  {
    ReachableStep(s, c, BeginOp(p));
    t := Do(s, BeginOp(p));
  }

  /** A log_write call passes the guard. */
  lemma {:induction false} Pass(s: State, c: Config, k: nat, p: nat, u: nat) returns (t: State)
    requires Stage(s, c, k) && Begun(s, p, u) && u < c.limit && k < c.Capacity() && s.outstanding >= 1
    ensures Stage(t, c, k) && t.outstanding == s.outstanding
    ensures |t.ops| == |s.ops| && t.ops[p] == s.ops[p].(checked := true)
    ensures forall q :: 0 <= q < |s.ops| && q != p ==> t.ops[q] == s.ops[q]
  {
    ReachableStep(s, c, Check(p));
    t := Do(s, Check(p));
  }

  /** It appends the next sector. */
  lemma {:induction false} Append(s: State, c: Config, k: nat, p: nat, u: nat) returns (t: State)
    requires Stage(s, c, k) && k <= LOGSIZE && p < |s.ops|
    requires s.ops[p].Active? && s.ops[p].checked && s.ops[p].used == u
    ensures Stage(t, c, k + 1) && t.outstanding == s.outstanding && Begun(t, p, u + 1)
    ensures |t.ops| == |s.ops| && forall q :: 0 <= q < |s.ops| && q != p ==> t.ops[q] == s.ops[q]
  {
    var e := Put(p, k, s.cache[k]);
    ReachableStep(s, c, e);
    t := Do(s, e);
    assert k !in s.lh;
  }

  lemma {:induction false} Logs(s: State, c: Config, k: nat, p: nat, u: nat) returns (t: State)
    requires Stage(s, c, k) && Begun(s, p, u) && u < c.limit && k < c.Capacity() && s.outstanding >= 1
    ensures Stage(t, c, k + 1) && t.outstanding == s.outstanding && Begun(t, p, u + 1)
    ensures |t.ops| == |s.ops| && forall q :: 0 <= q < |s.ops| && q != p ==> t.ops[q] == s.ops[q]
  {
    hide Stage;
    var m := Pass(s, c, k, p, u);
    t := Append(m, c, k, p, u);
  }

  /** One operation logs n more sectors. */
  lemma {:induction false} LogsMany(s: State, c: Config, k: nat, p: nat, u: nat, n: nat) returns (t: State)
    requires Stage(s, c, k) && Begun(s, p, u) && u + n <= c.limit && k + n <= c.Capacity() && s.outstanding >= 1
    ensures Stage(t, c, k + n) && t.outstanding == s.outstanding && Begun(t, p, u + n)
    ensures |t.ops| == |s.ops| && forall q :: 0 <= q < |s.ops| && q != p ==> t.ops[q] == s.ops[q]
  {
    hide Stage;
    if n == 0 {
      t := s;
    } else {
      var m := LogsMany(s, c, k, p, u, n - 1);
      t := Logs(m, c, k + n - 1, p, u + n - 1);
    }
  }

  /** An operation that is not the last one ends. */
  lemma {:induction false} Ends(s: State, c: Config, k: nat, p: nat, u: nat) returns (t: State)
    requires Stage(s, c, k) && Begun(s, p, u) && s.outstanding >= 2
    ensures Stage(t, c, k) && t.outstanding == s.outstanding - 1
    ensures |t.ops| == |s.ops| && t.ops[p].Idle? && forall q :: 0 <= q < |s.ops| && q != p ==> t.ops[q] == s.ops[q]
  {
    ReachableStep(s, c, EndOp(p));
    t := Do(s, EndOp(p));
  }

  /** Operation 0 stays; operations of process 1 come and go, one sector each. */
  lemma {:induction false} Guests(c: Config, k: nat) returns (t: State)
    requires c.procs >= 2 && c.limit >= 1 && k <= MAXOPBLOCKS && k <= c.Capacity()
    ensures Stage(t, c, k) && t.outstanding == 2 && Begun(t, 0, 0) && Begun(t, 1, 0)
  {
    hide Stage;
    var m: State;
    if k == 0 {
      m := Start(c);
      m := Begin(m, c, 0, 0);
    } else {
      m := Guests(c, k - 1);
      m := Logs(m, c, k - 1, 1, 0);
      m := Ends(m, c, k, 1, 1);
    }
    t := Begin(m, c, k, 1);
  }

  /** One entry short of what the guard admits, with two operations that may both log one more. */
  lemma {:induction false} NearlyFull(c: Config) returns (t: State, u: nat, v: nat)
    requires c.procs >= 2 && c.limit >= 1 && 1 <= c.Capacity() < MAXOPBLOCKS + 2 * c.limit
    ensures Stage(t, c, c.Capacity() - 1) && t.outstanding == 2
    ensures Begun(t, 0, u) && Begun(t, 1, v) && u < c.limit && v < c.limit
  {
    hide Stage;
    u, v := 0, 0;
    var k := c.Capacity() - 1;
    if k <= MAXOPBLOCKS {
      t := Guests(c, k);
    } else {
      t := Guests(c, MAXOPBLOCKS);
      var n := k - MAXOPBLOCKS;
      u := if n < c.limit then n else c.limit - 1;
      v := n - u;
      t := LogsMany(t, c, MAXOPBLOCKS, 0, 0, u);
      t := LogsMany(t, c, MAXOPBLOCKS + u, 1, 0, v);
    }
  }

  // ------------------------------------------------------------------ log_write panics

  lemma {:induction false} Trips(s: State, c: Config, k: nat, p: nat, u: nat) returns (t: State)
    requires Stage(s, c, k) && Begun(s, p, u) && u < c.limit && k == c.Capacity()
    ensures Reachable(t, c) && t.mode.Panicked?
  {
    ReachableStep(s, c, Check(p));
    t := Do(s, Check(p));
  }

  lemma {:induction false} FullAlone(c: Config) returns (t: State)
    requires c.procs >= 1 && c.Capacity() < c.limit
    ensures Stage(t, c, c.Capacity()) && Begun(t, 0, c.Capacity())
  {
    t := Start(c);
    t := Begin(t, c, 0, 0);
    t := LogsMany(t, c, 0, 0, 0, c.Capacity());
  }

  lemma {:induction false} PanicRun(c: Config) returns (t: State)
    requires !c.NeverPanics()
    ensures Reachable(t, c) && t.mode.Panicked?
  {
    hide Stage;
    if c.Capacity() < c.limit {
      t := FullAlone(c);
      t := Trips(t, c, c.Capacity(), 0, c.Capacity());
    } else {
      var u: nat, v: nat;
      t, u, v := NearlyFull(c);
      t := Logs(t, c, c.Capacity() - 1, 0, u);
      t := Trips(t, c, c.Capacity(), 1, v);
    }
  }

  /** Some run panics in log_write or end_op exactly if the operations that begin_op admits at once
      may log more than the log has room for. */
  lemma {:induction false} NoPanicExact(c: Config)
    ensures (forall s :: Reachable(s, c) ==> !s.mode.Panicked?) <==> c.NeverPanics()
  {
    hide Reachable;
    if c.NeverPanics() {
      forall s | Reachable(s, c)
        ensures !s.mode.Panicked?
      {
        ReachableCalm(s, c);
      }
    } else {
      var t := PanicRun(c);
    }
  }

  /** With the MAXOPBLOCKS calls that begin_op reserves for: LOGSIZE blocks behind the header are
      necessary as soon as two processes share the log. (mkfs makes LOGSIZE - 1.) */
  lemma {:induction false} GuardExact(room: nat, procs: nat)
    requires procs >= 2
    ensures (forall s :: Reachable(s, Config(room, procs, MAXOPBLOCKS)) ==> !s.mode.Panicked?) <==> room >= LOGSIZE
  {
    hide Reachable;
    NoPanicExact(Config(room, procs, MAXOPBLOCKS));
  }

  /** With as many calls as a chunk of filewrite may make: safe only for one process at a time. */
  lemma {:induction false} LargeOperations(room: nat, procs: nat)
    ensures (forall s :: Reachable(s, Config(room, procs, LOGSIZE)) ==> !s.mode.Panicked?) <==>
              procs == 0 || (procs == 1 && room >= LOGSIZE)
  {
    hide Reachable;
    NoPanicExact(Config(room, procs, LOGSIZE));
  }

  // ------------------------------------------------------------------ the race past the guard

  /** The disk holds what the durable transactions wrote, and the header fits. */
  ghost predicate Sound(s: State) {
    |s.lh| <= LOGSIZE && WellFormed(s.disk) && Logical(s.disk) == ReplayAll(s.initial, s.closed)
  }

  /** Both operations pass the guard at the last free entry, and both append. */
  lemma {:induction false} Overrun(c: Config) returns (t: State, u: nat, v: nat)
    requires c.procs >= 2 && c.limit >= 1 && 1 <= c.Capacity() < MAXOPBLOCKS + 2 * c.limit
    ensures Stage(t, c, c.Capacity() + 1) && t.outstanding == 2 && Begun(t, 0, u) && Begun(t, 1, v)
  {
    hide Stage;
    t, u, v := NearlyFull(c);
    var k := c.Capacity();
    t := Pass(t, c, k - 1, 0, u);
    t := Pass(t, c, k - 1, 1, v);
    t := Append(t, c, k - 1, 1, v);
    t := Append(t, c, k, 0, u);
    u, v := u + 1, v + 1;
  }

  /** A commit of the first k sectors that has issued i of its writes. */
  ghost predicate Committing(s: State, c: Config, k: nat, i: nat) {
    && k <= LOGSIZE && Reachable(s, c) && s.mode.Running? && s.committing && s.pc == i
    && |s.cache| == |s.disk.home| == LOGSIZE + 1 && s.lh == Ascending(k) && |s.disk.log| == c.room
  }

  lemma {:induction false} LastEnds(s: State, c: Config, k: nat, p: nat, u: nat) returns (t: State)
    requires Stage(s, c, k) && k <= LOGSIZE && Begun(s, p, u) && s.outstanding == 1
    ensures Committing(t, c, k, 0)
  {
    ReachableStep(s, c, EndOp(p));
    t := Do(s, EndOp(p));
  }

  lemma {:induction false} Copies(s: State, c: Config, k: nat, i: nat) returns (t: State)
    requires Committing(s, c, k, 0) && i <= k
    ensures Committing(t, c, k, i)
  {
    if i == 0 {
      t := s;
    } else {
      var m := Copies(s, c, k, i - 1);
      ReachableStep(m, c, Event.CommitStep);
      t := DoCommitStep(m);
    }
  }

  lemma {:induction false} HeaderWritten(s: State, c: Config, k: nat) returns (t: State)
    requires Committing(s, c, k, k) && k > 0
    ensures Reachable(t, c) && t.mode.Running? && Count(t.disk.head) == k && |t.disk.log| == c.room
  {
    ReachableStep(s, c, Event.CommitStep);
    t := DoCommitStep(s);
  }

  /** A commit writes a header with one entry more than the log has blocks, and nothing panics. */
  lemma {:induction false} TornHeader(c: Config) returns (t: State)
    requires !c.CrashSafe() && c.room < LOGSIZE
    ensures Reachable(t, c) && t.mode.Running? && Count(t.disk.head) == |t.disk.log| + 1
  {
    hide Stage, Committing;
    var u: nat, v: nat;
    t, u, v := Overrun(c);
    t := Ends(t, c, c.room + 1, 0, u);
    t := LastEnds(t, c, c.room + 1, 1, v);
    t := Copies(t, c, c.room + 1, c.room + 1);
    t := HeaderWritten(t, c, c.room + 1);
  }

  /** Otherwise the entries overrun the array of the in-memory header. */
  lemma {:induction false} DamageRun(c: Config) returns (t: State)
    requires !c.CrashSafe()
    ensures Reachable(t, c) && t.mode.Running? && !Sound(t)
  {
    if c.room < LOGSIZE {
      t := TornHeader(c);
    } else {
      var u: nat, v: nat;
      t, u, v := Overrun(c);
    }
  }

  /** Crash safety, exactly: the disk stands for the durable transactions in every reachable state if
      and only if nothing is logged, operations never overlap, no call passes the guard, or the
      operations admitted at once fit. */
  lemma {:induction false} CrashSafetyExact(c: Config)
    ensures (forall s :: Reachable(s, c) ==> Sound(s)) <==> c.CrashSafe()
  {
    hide Reachable, Sound, Config.CrashSafe;
    if c.CrashSafe() {
      forall s | Reachable(s, c)
        ensures Sound(s)
      {
        InvSound(s, c);
      }
    } else {
      var t := DamageRun(c);
    }
  }

  lemma {:induction false} InvSound(s: State, c: Config)
    requires Reachable(s, c) && c.CrashSafe()
    ensures Sound(s)
  {
    hide Reachable;
    ReachableInv(s, c);
  }

  /** The log that mkfs makes, LOGSIZE - 1 blocks behind its header, is safe for one process only. */
  lemma {:induction false} ShippedLog(procs: nat)
    ensures (forall s :: Reachable(s, Config(LOGSIZE - 1, procs, MAXOPBLOCKS)) ==> Sound(s)) <==> procs <= 1
  {
    hide Reachable, Sound;
    CrashSafetyExact(Config(LOGSIZE - 1, procs, MAXOPBLOCKS));
  }
}

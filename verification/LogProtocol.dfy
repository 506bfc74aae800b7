/** Group commit (begin_op, log_write, end_op) by any number of processes, interleaved with the
    single-sector writes of commit and recovery and with crashes at any point.

    Every region that log.c runs under log.lock is one event, as is every sector write. The guard
    of log_write, which log.c tests before it takes the lock, is an event of its own. */
module LogProtocol {
  import opened Blocks
  import opened Log

  /** An FS system call, from the view of one process. `checked`: it is inside log_write, past
      the guard. */
  datatype Op = Idle | Active(serial: nat, used: nat, checked: bool)

  datatype OpWrite = OpWrite(op: nat, sector: nat, data: Block)

  /** A closed transaction, either committed to disk or lost in a crash. Its operations have
      serial numbers below `upto`. */
  datatype Txn = Txn(writes: seq<OpWrite>, durable: bool, upto: nat)

  datatype Mode = Running | Recovering | Panicked

  datatype State = State(
    disk: Disk,
    cache: seq<Block>,         // home blocks as bread returns them
    lh: seq<word>,             // log.lh
    outstanding: nat,
    committing: bool,
    ops: seq<Op>,
    sleepers: set<nat>,        // processes asleep in begin_op
    mode: Mode,
    pc: nat,                   // writes already issued by the commit or recovery in progress
    from: Disk,                // the disk when it started
    // history, not part of the kernel's memory
    initial: seq<Block>,
    closed: seq<Txn>,
    current: seq<OpWrite>,     // writes of the open transaction
    first: nat,                // serial number of its first operation
    next: nat)
  {
    /** What commit() reads: cached home blocks, log area as it was when the commit started. */
    function View(): Disk {
      Disk(cache, from.head, from.log)
    }
  }

  datatype Event =
    | BeginOp(p: nat)
    | Check(p: nat)
    | Put(p: nat, sector: word, data: Block)
    | EndOp(p: nat)
    | CommitStep
    | CommitDone
    | Crash
    | RecoverStep
    | RecoverDone

  // ------------------------------------------------------------------ the events

  /** Callers' obligation: an operation logs sectors below log.start. */
  predicate Enabled(s: State, e: Event) {
    match e
    case BeginOp(p) => s.mode.Running? && p < |s.ops| && s.ops[p].Idle? && p !in s.sleepers
    case Check(p) => s.mode.Running? && p < |s.ops| && s.ops[p].Active? && !s.ops[p].checked
    case Put(p, sector, _) =>
      s.mode.Running? && p < |s.ops| && s.ops[p].Active? && s.ops[p].checked && sector < |s.cache|
    case EndOp(p) => s.mode.Running? && p < |s.ops| && s.ops[p].Active? && !s.ops[p].checked
    case CommitStep => s.mode.Running? && s.committing && s.pc < CommitLength(s.lh)
                       && |s.lh| <= LOGSIZE && forall i :: 0 <= i < |s.lh| ==> s.lh[i] < |s.cache|
    case CommitDone => s.mode.Running? && s.committing && s.pc == CommitLength(s.lh)
    case Crash => true
    case RecoverStep => s.mode.Recovering? && Count(s.from.head) <= LOGSIZE
                        && |Header(s.from.head)| <= |s.from.log| && s.pc < RecoveryLength(s.from)
    case RecoverDone => s.mode.Recovering? && Count(s.from.head) <= LOGSIZE && s.pc == RecoveryLength(s.from)
  }

  function Do(s: State, e: Event): State
    requires Enabled(s, e)
  {
    match e
    case BeginOp(p) => DoBegin(s, p)
    case Check(p) => DoCheck(s, p)
    case Put(p, sector, data) => DoPut(s, p, sector, data)
    case EndOp(p) => DoEnd(s, p)
    case CommitStep => DoCommitStep(s)
    case CommitDone => s.(committing := false, lh := [], sleepers := {})
    case Crash => DoCrash(s)
    case RecoverStep => s.(disk := Apply(s.disk, RecoveryWrite(s.from, s.pc)), pc := s.pc + 1)
    case RecoverDone => s.(mode := Running, cache := s.disk.home, lh := [])
  }

  function DoBegin(s: State, p: nat): State
    requires p < |s.ops|
  {
    if s.committing || |s.lh| + (s.outstanding + 1) * MAXOPBLOCKS > LOGSIZE
    then s.(sleepers := s.sleepers + {p})
    else s.(outstanding := s.outstanding + 1, ops := s.ops[p := Active(s.next, 0, false)], next := s.next + 1)
  }

  /** log.size - 1 is the number of log blocks. */
  function DoCheck(s: State, p: nat): State
    requires p < |s.ops| && s.ops[p].Active?
  {
    if GuardFails(|s.lh|, |s.disk.log|) || s.outstanding < 1 then s.(mode := Panicked)
    else s.(ops := s.ops[p := s.ops[p].(checked := true)])
  }

  function DoPut(s: State, p: nat, sector: word, data: Block): State
    requires p < |s.ops| && s.ops[p].Active? && sector < |s.cache|
  {
    var op := s.ops[p];
    s.(lh := Absorb(s.lh, sector), cache := s.cache[sector := data],
       ops := s.ops[p := Active(op.serial, op.used + 1, false)],
       current := s.current + [OpWrite(op.serial, sector, data)])
  }

  function DoEnd(s: State, p: nat): State
    requires p < |s.ops|
  {
    var t := s.(outstanding := if s.outstanding > 0 then s.outstanding - 1 else 0, ops := s.ops[p := Idle]);
    if s.committing then t.(mode := Panicked)
    else if t.outstanding == 0 then t.(committing := true, pc := 0, from := s.disk)
    else t.(sleepers := {})
  }

  /** One sector write of commit(). The header write closes the transaction. */
  function DoCommitStep(s: State): State
    requires Enabled(s, CommitStep)
  {
    var t := s.(disk := Apply(s.disk, CommitWrite(s.View(), s.lh, s.pc)), pc := s.pc + 1);
    if s.pc == |s.lh|
    then t.(closed := s.closed + [Txn(s.current, true, s.next)], current := [], first := s.next)
    else t
  }

  function DoCrash(s: State): State {
    s.(mode := Recovering, pc := 0, from := s.disk, cache := s.disk.home, lh := [], outstanding := 0,
       committing := false, ops := seq(|s.ops|, _ => Idle), sleepers := {},
       closed := s.closed + [Txn(s.current, false, s.next)], current := [], first := s.next)
  }

  // ------------------------------------------------------------------ what the disk should hold

  function Replay(home: seq<Block>, ws: seq<OpWrite>): (r: seq<Block>)
    ensures |r| == |home|
  {
    if ws == [] then home
    else
      var n := |ws| - 1;
      var r := Replay(home, ws[..n]);
      if ws[n].sector < |r| then r[ws[n].sector := ws[n].data] else r
  }

  /** The home blocks after all durable transactions, in order. */
  function ReplayAll(home: seq<Block>, txns: seq<Txn>): (r: seq<Block>)
    ensures |r| == |home|
  {
    if txns == [] then home
    else
      var n := |txns| - 1;
      var r := ReplayAll(home, txns[..n]);
      if txns[n].durable then Replay(r, txns[n].writes) else r
  }

  // ------------------------------------------------------------------ invariants

  function Actives(ops: seq<Op>): nat {
    if ops == [] then 0 else (if ops[0].Active? then 1 else 0) + Actives(ops[1..])
  }

  /** log_write calls that outstanding operations may still make, of `limit` each. */
  function Unused(ops: seq<Op>, limit: nat): int {
    if ops == [] then 0 else (if ops[0].Active? then limit - ops[0].used else 0) + Unused(ops[1..], limit)
  }

  /** Operations inside log_write, past the guard. */
  function Checked(ops: seq<Op>): nat {
    if ops == [] then 0 else (if ops[0].Active? && ops[0].checked then 1 else 0) + Checked(ops[1..])
  }

  /** A system: log blocks behind the header, processes, log_write calls an operation may make. */
  datatype Config = Config(room: nat, procs: nat, limit: nat) {
    /** Header entries for which the guard of log_write lets a call pass. */
    function Capacity(): nat {
      if room < LOGSIZE then room else LOGSIZE
    }

    /** What begin_op admits at once: alone one operation; a second one while the header has at most
        MAXOPBLOCKS entries; a third one only while it is empty. */
    function Demand(): nat {
      if procs == 0 then 0
      else if procs == 1 then limit
      else if procs == 2 || limit <= MAXOPBLOCKS then MAXOPBLOCKS + 2 * limit
      else 3 * limit
    }

    predicate NeverPanics() {
      limit == 0 || Demand() <= Capacity()
    }

    predicate CrashSafe() {
      limit == 0 || procs <= 1 || room == 0 || Demand() <= Capacity()
    }
  }

  /** Outstanding operations and the commit exclude each other. */
  ghost predicate OpsInv(s: State) {
    && s.outstanding == Actives(s.ops)
    && (s.committing ==> s.outstanding == 0)
    && (s.outstanding == 0 && !s.committing ==> s.lh == [])
    && (s.sleepers != {} ==> s.committing || |s.lh| + (s.outstanding + 1) * MAXOPBLOCKS > LOGSIZE)
    && (s.mode.Recovering? ==> s.sleepers == {} && !s.committing && s.outstanding == 0)
  }

  /** The header never holds, and outstanding operations never add, more than the demand. */
  ghost predicate DemandInv(s: State, c: Config) {
    && |s.ops| == c.procs && |s.disk.log| == c.room
    && (forall p :: 0 <= p < |s.ops| && s.ops[p].Active? ==>
          s.ops[p].used <= c.limit && (s.ops[p].checked ==> s.ops[p].used < c.limit))
    && (!s.committing ==> |s.lh| + Unused(s.ops, c.limit) <= c.Demand())
    && |s.lh| <= c.Demand()
  }

  /** There is room for the header's blocks and for those of operations past the guard. */
  ghost predicate RoomInv(s: State, c: Config) {
    |s.lh| + Checked(s.ops) <= c.Capacity()
  }

  ghost predicate DataInv(s: State) {
    && |s.cache| == |s.disk.home| == |s.initial|
    && match s.mode
       case Recovering =>
         && WellFormed(s.from) && s.pc <= RecoveryLength(s.from)
         && s.disk == AfterRecovery(s.from, s.pc)
         && s.lh == [] && !s.committing
       case _ =>
         if s.committing
         then ReadyToCommit(s.from, s.View(), s.lh) && s.pc <= CommitLength(s.lh)
              && s.disk == AfterCommit(s.from, s.View(), s.lh, s.pc)
         else ReadyToCommit(s.disk, s.disk.(home := s.cache), s.lh)
  }

  ghost predicate HistoryInv(s: State) {
    && WellFormed(s.disk)
    && Logical(s.disk) == ReplayAll(s.initial, s.closed)
    && (s.mode.Recovering? ==> s.current == [])
    && (!s.mode.Recovering? ==> s.cache == Replay(ReplayAll(s.initial, s.closed), s.current))
    && (s.lh == [] || (s.committing && s.pc > |s.lh|) ==> s.current == [])
  }

  /** Serial numbers: operations of one transaction all come before those of later ones. */
  ghost predicate SerialInv(s: State) {
    && s.first <= s.next
    && (forall w :: w in s.current ==> s.first <= w.op < s.next)
    && (forall p :: 0 <= p < |s.ops| && s.ops[p].Active? ==> s.first <= s.ops[p].serial < s.next)
    && (forall i :: 0 <= i < |s.closed| ==> s.closed[i].upto <= s.first)
    && (forall i, w :: 0 <= i < |s.closed| && w in s.closed[i].writes ==> w.op < s.closed[i].upto)
    && (forall i, j, w :: 0 <= i < j < |s.closed| && w in s.closed[j].writes ==> s.closed[i].upto <= w.op)
  }

  /** What every reachable state satisfies, whatever the size of the log. */
  ghost predicate Always(s: State, c: Config) {
    OpsInv(s) && DemandInv(s, c) && SerialInv(s)
  }

  ghost predicate Inv(s: State, c: Config) {
    Always(s, c) && RoomInv(s, c) && DataInv(s) && HistoryInv(s)
  }

  /** A freshly booted system on a disk with an empty log. */
  ghost predicate Init(s: State, c: Config) {
    && |s.disk.log| == c.room && |s.ops| == c.procs
    && s.mode.Running? && Count(s.disk.head) == 0 && s.cache == s.initial == s.disk.home
    && s.lh == [] && s.outstanding == 0 && !s.committing && s.sleepers == {}
    && (forall p :: 0 <= p < |s.ops| ==> s.ops[p].Idle?)
    && s.closed == [] && s.current == [] && s.first == s.next
  }

  // ------------------------------------------------------------------ sums over processes

  lemma {:induction false} SumUpdate(ops: seq<Op>, limit: nat, p: nat, op: Op)
    requires p < |ops|
    ensures Actives(ops[p := op]) == Actives(ops) - (if ops[p].Active? then 1 else 0) + (if op.Active? then 1 else 0)
    ensures Unused(ops[p := op], limit) == Unused(ops, limit) - (if ops[p].Active? then limit - ops[p].used else 0)
                                                             + (if op.Active? then limit - op.used else 0)
    ensures Checked(ops[p := op]) == Checked(ops) - (if ops[p].Active? && ops[p].checked then 1 else 0)
                                                  + (if op.Active? && op.checked then 1 else 0)
  {
    if p > 0 {
      assert ops[p := op][1..] == ops[1..][p - 1 := op];
      SumUpdate(ops[1..], limit, p - 1, op);
    }
  }

  /** Operations keep to the limit. */
  ghost predicate WithinLimit(ops: seq<Op>, limit: nat) {
    forall p :: 0 <= p < |ops| && ops[p].Active? ==> ops[p].used <= limit && (ops[p].checked ==> ops[p].used < limit)
  }

  lemma {:induction false} SumBounds(ops: seq<Op>, limit: nat)
    requires WithinLimit(ops, limit)
    ensures Checked(ops) <= Unused(ops, limit) <= limit * Actives(ops) && Actives(ops) <= |ops|
    ensures Actives(ops) == 0 ==> Checked(ops) == 0 && forall p :: 0 <= p < |ops| ==> ops[p].Idle?
  {
    if ops != [] {
      SumBounds(ops[1..], limit);
      forall p | 1 <= p < |ops|
        ensures ops[p] == ops[1..][p - 1]
      {
      }
      assert limit * Actives(ops) == limit * Actives(ops[1..]) + (if ops[0].Active? then limit else 0);
    }
  }

  /** What an outstanding operation contributes. */
  lemma {:induction false} Share(ops: seq<Op>, limit: nat, p: nat)
    requires WithinLimit(ops, limit) && p < |ops| && ops[p].Active?
    ensures limit - ops[p].used <= Unused(ops, limit) && Actives(ops) >= 1
  {
    SumBounds(ops[1..], limit);
    if p > 0 {
      Share(ops[1..], limit, p - 1);
    }
  }

  lemma {:induction false} NoneActive(ops: seq<Op>, limit: nat)
    requires forall p :: 0 <= p < |ops| ==> ops[p].Idle?
    ensures Actives(ops) == Unused(ops, limit) == Checked(ops) == 0
  {
    if ops != [] {
      NoneActive(ops[1..], limit);
    }
  }

  // ------------------------------------------------------------------ each event keeps what always holds

  lemma {:induction false} InitAlways(s: State, c: Config)
    requires Init(s, c)
    ensures Always(s, c)
  {
    NoneActive(s.ops, c.limit);
  }

  /** begin_op admits at most the demand. */
  lemma {:induction false} Admitted(s: State, c: Config, p: nat)
    requires Always(s, c) && Enabled(s, BeginOp(p))
    requires !s.committing && |s.lh| + (s.outstanding + 1) * MAXOPBLOCKS <= LOGSIZE
    ensures |s.lh| + Unused(s.ops, c.limit) + c.limit <= c.Demand()
  {
    SumBounds(s.ops, c.limit);
    SumUpdate(s.ops, c.limit, p, Active(s.next, 0, false));
    SumBounds(s.ops[p := Active(s.next, 0, false)], c.limit);
    if s.outstanding == 1 {
      assert c.limit * 1 == c.limit;
    } else if s.outstanding == 2 {
      assert c.limit * 2 == 2 * c.limit;
    }
  }

  lemma {:induction false} BeginAlways(s: State, c: Config, p: nat)
    requires Always(s, c) && Enabled(s, BeginOp(p))
    ensures Always(DoBegin(s, p), c)
  {
    if !(s.committing || |s.lh| + (s.outstanding + 1) * MAXOPBLOCKS > LOGSIZE) {
      Admitted(s, c, p);
      SumUpdate(s.ops, c.limit, p, Active(s.next, 0, false));
      SumBounds(s.ops, c.limit);
    }
  }

  lemma {:induction false} CheckAlways(s: State, c: Config, p: nat)
    requires Always(s, c) && Enabled(s, Check(p)) && s.ops[p].used < c.limit
    ensures Always(DoCheck(s, p), c)
  {
    SumUpdate(s.ops, c.limit, p, s.ops[p].(checked := true));
  }

  lemma {:induction false} PutAlways(s: State, c: Config, p: nat, sector: word, data: Block)
    requires Always(s, c) && Enabled(s, Put(p, sector, data))
    ensures !s.committing && Always(DoPut(s, p, sector, data), c)
  {
    Share(s.ops, c.limit, p);
    var op := s.ops[p];
    SumUpdate(s.ops, c.limit, p, Active(op.serial, op.used + 1, false));
    SumBounds(s.ops[p := Active(op.serial, op.used + 1, false)], c.limit);
  }

  lemma {:induction false} EndAlways(s: State, c: Config, p: nat)
    requires Always(s, c) && Enabled(s, EndOp(p))
    ensures !s.committing && Always(DoEnd(s, p), c)
  {
    Share(s.ops, c.limit, p);
    SumUpdate(s.ops, c.limit, p, Idle);
    SumBounds(s.ops[p := Idle], c.limit);
  }

  lemma {:induction false} CommitStepAlways(s: State, c: Config)
    requires Always(s, c) && Enabled(s, Event.CommitStep)
    ensures Always(DoCommitStep(s), c)
  {
    hide CommitWrite, Config.Demand, Unused, Actives;
    SumBounds(s.ops, c.limit);
  }

  lemma {:induction false} CommitDoneAlways(s: State, c: Config)
    requires Always(s, c) && Enabled(s, CommitDone)
    ensures Always(Do(s, CommitDone), c)
  {
    SumBounds(s.ops, c.limit);
    NoneActive(s.ops, c.limit);
  }

  lemma {:induction false} CrashAlways(s: State, c: Config)
    requires Always(s, c)
    ensures Always(DoCrash(s), c)
  {
    NoneActive(DoCrash(s).ops, c.limit);
  }

  // ------------------------------------------------------------------ what keeps the disk safe

  /** A call that passes the guard finds room, alone or under the demand. */
  lemma {:induction false} CheckRoom(s: State, c: Config, p: nat)
    requires Always(s, c) && RoomInv(s, c) && c.CrashSafe() && Enabled(s, Check(p)) && s.ops[p].used < c.limit
    ensures RoomInv(DoCheck(s, p), c)
  {
    var op := s.ops[p].(checked := true);
    SumUpdate(s.ops, c.limit, p, op);
    SumBounds(s.ops, c.limit);
    SumBounds(s.ops[p := op], c.limit);
    Share(s.ops, c.limit, p);
    if c.procs == 1 {
      assert s.ops == [s.ops[0]];
    }
  }

  lemma {:induction false} PutRoom(s: State, c: Config, p: nat, sector: word, data: Block)
    requires Always(s, c) && RoomInv(s, c) && Enabled(s, Put(p, sector, data))
    ensures RoomInv(DoPut(s, p, sector, data), c) && |DoPut(s, p, sector, data).lh| <= c.Capacity()
  {
    var op := s.ops[p];
    SumUpdate(s.ops, c.limit, p, Active(op.serial, op.used + 1, false));
  }

  /** The other events add nothing to the header and let nothing past the guard. */
  lemma {:induction false} QuietRoom(s: State, c: Config, e: Event)
    requires Always(s, c) && RoomInv(s, c) && Enabled(s, e) && !e.Check? && !e.Put?
    ensures RoomInv(Do(s, e), c)
  {
    SumBounds(s.ops, c.limit);
    match e
    case BeginOp(p) => SumUpdate(s.ops, c.limit, p, Active(s.next, 0, false));
    case EndOp(p) => SumUpdate(s.ops, c.limit, p, Idle);
    case Crash => NoneActive(DoCrash(s).ops, c.limit);
    case _ =>
  }

  // ------------------------------------------------------------------ data and history

  lemma {:induction false} InitInv(s: State, c: Config)
    requires Init(s, c)
    ensures Inv(s, c)
  {
    InitAlways(s, c);
    NoneActive(s.ops, c.limit);
    EmptyLog(s.disk);
  }

  lemma {:induction false} BeginData(s: State, p: nat)
    requires DataInv(s) && HistoryInv(s) && Enabled(s, BeginOp(p))
    ensures DataInv(DoBegin(s, p)) && HistoryInv(DoBegin(s, p))
  {
  }

  lemma {:induction false} CheckData(s: State, p: nat)
    requires DataInv(s) && HistoryInv(s) && Enabled(s, Check(p))
    ensures DataInv(DoCheck(s, p)) && HistoryInv(DoCheck(s, p))
  {
  }

  lemma {:induction false} PutData(s: State, c: Config, p: nat, sector: word, data: Block)
    requires DataInv(s) && Enabled(s, Put(p, sector, data)) && !s.committing
    requires |s.disk.log| == c.room && |DoPut(s, p, sector, data).lh| <= c.Capacity()
    ensures DataInv(DoPut(s, p, sector, data))
  {
    assert sector in Absorb(s.lh, sector);
  }

  lemma {:induction false} PutHistory(s: State, p: nat, sector: word, data: Block)
    requires DataInv(s) && HistoryInv(s) && Enabled(s, Put(p, sector, data)) && !s.committing
    ensures HistoryInv(DoPut(s, p, sector, data))
  {
    hide WellFormed, Logical, ReplayAll, Replay, ReadyToCommit, AfterCommit, AfterRecovery;
    ReplaySnoc(ReplayAll(s.initial, s.closed), s.current, OpWrite(s.ops[p].serial, sector, data));
  }

  lemma {:induction false} ReplaySnoc(home: seq<Block>, ws: seq<OpWrite>, w: OpWrite)
    requires w.sector < |home|
    ensures Replay(home, ws + [w]) == Replay(home, ws)[w.sector := w.data]
  {
    assert (ws + [w])[..|ws|] == ws;
  }

  lemma {:induction false} PutKeeps(s: State, c: Config, p: nat, sector: word, data: Block)
    requires Inv(s, c) && Enabled(s, Put(p, sector, data))
    ensures Inv(DoPut(s, p, sector, data), c)
  {
    hide DataInv, HistoryInv, SerialInv;
    PutAlways(s, c, p, sector, data);
    PutRoom(s, c, p, sector, data);
    PutData(s, c, p, sector, data);
    PutHistory(s, p, sector, data);
  }

  lemma {:induction false} EndData(s: State, p: nat)
    requires DataInv(s) && HistoryInv(s) && Enabled(s, EndOp(p)) && !s.committing
    ensures DataInv(DoEnd(s, p)) && HistoryInv(DoEnd(s, p))
  {
    if s.lh != [] {
      Log.CommitStep(s.disk, s.disk.(home := s.cache), s.lh, 0);
    }
  }

  lemma {:induction false} CommitStepData(s: State)
    requires DataInv(s) && Enabled(s, Event.CommitStep)
    ensures DataInv(DoCommitStep(s))
  {
    hide ReadyToCommit, AfterCommit, CommitWrite, AfterRecovery;
    Log.CommitStep(s.from, s.View(), s.lh, s.pc);
  }

  lemma {:induction false} ReplayAllSnoc(home: seq<Block>, txns: seq<Txn>, t: Txn)
    ensures ReplayAll(home, txns + [t])
         == if t.durable then Replay(ReplayAll(home, txns), t.writes) else ReplayAll(home, txns)
  {
    assert (txns + [t])[..|txns|] == txns;
  }

  /** Only the header write changes what the disk stands for. */
  lemma {:induction false} CommitWriteMeaning(s: State)
    requires DataInv(s) && Enabled(s, Event.CommitStep)
    ensures WellFormed(s.disk) && Logical(s.disk) == if s.pc <= |s.lh| then s.from.home else s.cache
    ensures var d := DoCommitStep(s).disk;
            WellFormed(d) && Logical(d) == if s.pc < |s.lh| then s.from.home else s.cache
  {
    hide ReadyToCommit, AfterCommit, CommitWrite, AfterRecovery, WellFormed, Logical;
    Log.CommitStep(s.from, s.View(), s.lh, s.pc);
    CommitPrefix(s.from, s.View(), s.lh, s.pc);
    CommitPrefix(s.from, s.View(), s.lh, s.pc + 1);
  }

  lemma {:induction false} CommitStepHistory(s: State)
    requires DataInv(s) && HistoryInv(s) && Enabled(s, Event.CommitStep)
    ensures HistoryInv(DoCommitStep(s))
  {
    CommitWriteMeaning(s);
    ReplayAllSnoc(s.initial, s.closed, Txn(s.current, true, s.next));
  }

  lemma {:induction false} CommitDoneData(s: State)
    requires DataInv(s) && HistoryInv(s) && Enabled(s, CommitDone)
    ensures DataInv(Do(s, CommitDone)) && HistoryInv(Do(s, CommitDone))
  {
    CommitPrefix(s.from, s.View(), s.lh, s.pc);
  }

  lemma {:induction false} CrashData(s: State)
    requires DataInv(s) && HistoryInv(s)
    ensures DataInv(DoCrash(s)) && HistoryInv(DoCrash(s))
  {
    ReplayAllSnoc(s.initial, s.closed, Txn(s.current, false, s.next));
    RecoveryStep(s.disk, 0);
  }

  lemma {:induction false} RecoverStepData(s: State)
    requires DataInv(s) && HistoryInv(s) && Enabled(s, RecoverStep)
    ensures DataInv(Do(s, RecoverStep)) && HistoryInv(Do(s, RecoverStep))
  {
    RecoveryStep(s.from, s.pc);
    RecoveryPrefix(s.from, s.pc);
    RecoveryPrefix(s.from, s.pc + 1);
  }

  lemma {:induction false} RecoverDoneData(s: State)
    requires DataInv(s) && HistoryInv(s) && Enabled(s, RecoverDone)
    ensures DataInv(Do(s, RecoverDone)) && HistoryInv(Do(s, RecoverDone))
  {
    RecoveryPrefix(s.from, s.pc);
    assert Replay(s.disk.home, s.current) == s.disk.home;
  }

  // ------------------------------------------------------------------ runs

  /** An operation makes at most `limit` log_write calls. */
  predicate Allowed(s: State, e: Event, limit: nat)
    requires Enabled(s, e)
  {
    e.Check? ==> s.ops[e.p].used < limit
  }

  ghost predicate IsRun(ss: seq<State>, es: seq<Event>, limit: nat) {
    && |ss| == |es| + 1
    && (es != [] ==>
          var n := |es| - 1;
          && IsRun(ss[..n + 1], es[..n], limit) && Enabled(ss[n], es[n]) && Allowed(ss[n], es[n], limit)
          && ss[n + 1] == Do(ss[n], es[n]))
  }

  /** s is reached by some run of such a system. */
  ghost predicate Reachable(s: State, c: Config) {
    exists ss: seq<State>, es: seq<Event> :: IsRun(ss, es, c.limit) && Init(ss[0], c) && ss[|es|] == s
  }

  lemma {:induction false} StepAlways(s: State, c: Config, e: Event)
    requires Always(s, c) && Enabled(s, e) && Allowed(s, e, c.limit)
    ensures Always(Do(s, e), c)
  {
    match e
    case BeginOp(p) => BeginAlways(s, c, p);
    case Check(p) => CheckAlways(s, c, p);
    case Put(p, sector, data) => PutAlways(s, c, p, sector, data);
    case EndOp(p) => EndAlways(s, c, p);
    case CommitStep => CommitStepAlways(s, c);
    case CommitDone => CommitDoneAlways(s, c);
    case Crash => CrashAlways(s, c);
    case RecoverStep =>
    case RecoverDone => SumBounds(s.ops, c.limit);
  }

  lemma {:induction false} StepKeeps(s: State, c: Config, e: Event)
    requires Inv(s, c) && c.CrashSafe() && Enabled(s, e) && Allowed(s, e, c.limit)
    ensures Inv(Do(s, e), c)
  {
    hide DataInv, HistoryInv, SerialInv, RoomInv;
    StepAlways(s, c, e);
    match e
    case BeginOp(p) => QuietRoom(s, c, e); BeginData(s, p);
    case Check(p) => CheckRoom(s, c, p); CheckData(s, p);
    case Put(p, sector, data) => PutKeeps(s, c, p, sector, data);
    case EndOp(p) => EndAlways(s, c, p); QuietRoom(s, c, e); EndData(s, p);
    case CommitStep => QuietRoom(s, c, e); CommitStepData(s); CommitStepHistory(s);
    case CommitDone => QuietRoom(s, c, e); CommitDoneData(s);
    case Crash => QuietRoom(s, c, e); CrashData(s);
    case RecoverStep => QuietRoom(s, c, e); RecoverStepData(s);
    case RecoverDone => QuietRoom(s, c, e); RecoverDoneData(s);
  }

  lemma {:induction false} RunAlways(ss: seq<State>, es: seq<Event>, c: Config)
    requires IsRun(ss, es, c.limit) && Init(ss[0], c)
    ensures Always(ss[|es|], c)
  {
    hide Always, Init, Do;
    if es == [] {
      InitAlways(ss[0], c);
    } else {
      var n := |es| - 1;
      RunAlways(ss[..n + 1], es[..n], c);
      StepAlways(ss[n], c, es[n]);
    }
  }

  lemma {:induction false} RunKeeps(ss: seq<State>, es: seq<Event>, c: Config)
    requires IsRun(ss, es, c.limit) && Init(ss[0], c) && c.CrashSafe()
    ensures Inv(ss[|es|], c)
  {
    hide Inv, Init, Do;
    if es == [] {
      InitInv(ss[0], c);
    } else {
      var n := |es| - 1;
      RunKeeps(ss[..n + 1], es[..n], c);
      StepKeeps(ss[n], c, es[n]);
    }
  }

  /** In every reachable state, whatever the sizes. */
  lemma {:induction false} ReachableAlways(s: State, c: Config)
    requires Reachable(s, c)
    ensures Always(s, c)
  {
    hide Always, Init;
    var ss: seq<State>, es: seq<Event> :| IsRun(ss, es, c.limit) && Init(ss[0], c) && ss[|es|] == s;
    RunAlways(ss, es, c);
  }

  lemma {:induction false} ReachableInv(s: State, c: Config)
    requires Reachable(s, c) && c.CrashSafe()
    ensures Inv(s, c)
  {
    hide Inv, Init;
    var ss: seq<State>, es: seq<Event> :| IsRun(ss, es, c.limit) && Init(ss[0], c) && ss[|es|] == s;
    RunKeeps(ss, es, c);
  }

  // ------------------------------------------------------------------ theorems about every run

  /** Group commit, for a log of any size: commits run alone, no log_write and no end_op falls into a
      commit, header and outstanding operations keep to the demand, and whoever sleeps in begin_op would
      not be admitted, and is owed a wakeup. */
  lemma {:induction false} GroupCommit(s: State, c: Config)
    requires Reachable(s, c)
    ensures s.committing ==> s.outstanding == 0
    ensures s.committing ==> forall p: nat, b, d :: !Enabled(s, Put(p, b, d))
    ensures s.committing ==> forall p: nat :: !Enabled(s, EndOp(p))
    ensures !s.committing ==> |s.lh| + Unused(s.ops, c.limit) <= c.Demand()
    ensures |s.lh| <= c.Demand()
    ensures s.sleepers != {} ==> s.committing || s.outstanding > 0
    ensures s.sleepers != {} ==> s.committing || |s.lh| + (s.outstanding + 1) * MAXOPBLOCKS > LOGSIZE
  {
    ReachableAlways(s, c);
    if s.committing {
      SumBounds(s.ops, c.limit);
    }
  }

  /** The reservation of begin_op: operations that keep to MAXOPBLOCKS calls never overrun the
      header, whatever the size of the log. */
  lemma {:induction false} ReservationSuffices(s: State, c: Config)
    requires Reachable(s, c) && c.limit <= MAXOPBLOCKS
    ensures |s.lh| <= LOGSIZE && (!s.committing ==> |s.lh| + Unused(s.ops, c.limit) <= LOGSIZE)
  {
    GroupCommit(s, c);
  }

  /** Stop a run at any point and reboot, with recovery interrupted any number of times: the
      home blocks are those of the durable transactions, each applied completely, in order. */
  lemma {:induction false} CrashAnywhere(s: State, c: Config, cuts: seq<nat>)
    requires Reachable(s, c) && c.CrashSafe()
    ensures WellFormed(s.disk)
    ensures var e := Reboots(s.disk, cuts);
            AfterRecovery(e, RecoveryLength(e)).home == ReplayAll(s.initial, s.closed)
  {
    ReachableInv(s, c);
    RecoveryRestores(s.disk, cuts);
  }

  /** No operation has writes in two transactions, committed, lost or open. */
  lemma {:induction false} OperationsAreAtomic(s: State, c: Config, i: nat, j: nat, v: OpWrite, w: OpWrite)
    requires Reachable(s, c)
    requires i < |s.closed| && v in s.closed[i].writes
    requires (j < |s.closed| && j != i && w in s.closed[j].writes) || w in s.current
    ensures v.op != w.op
  {
    ReachableAlways(s, c);
  }

  // ------------------------------------------------------------------ every write is accounted for

  function Flatten(txns: seq<Txn>): seq<OpWrite> {
    if txns == [] then [] else Flatten(txns[..|txns| - 1]) + txns[|txns| - 1].writes
  }

  function Accounted(s: State): seq<OpWrite> {
    Flatten(s.closed) + s.current
  }

  /** The write log_write makes in an event, if any. */
  function Wrote(s: State, e: Event): seq<OpWrite>
    requires Enabled(s, e)
  {
    if e.Put? then [OpWrite(s.ops[e.p].serial, e.sector, e.data)] else []
  }

  /** The writes made by log_write in a run, in order. */
  ghost function Issued(ss: seq<State>, es: seq<Event>, limit: nat): seq<OpWrite>
    requires IsRun(ss, es, limit)
  {
    if es == [] then []
    else
      var n := |es| - 1;
      Issued(ss[..n + 1], es[..n], limit) + Wrote(ss[n], es[n])
  }

  lemma {:induction false} AccountedStep(s: State, e: Event)
    requires Enabled(s, e)
    ensures Accounted(Do(s, e)) == Accounted(s) + Wrote(s, e)
  {
    hide CommitWrite, RecoveryWrite, Absorb, Flatten;
    FlattenSnoc(s.closed, Txn(s.current, true, s.next));
    FlattenSnoc(s.closed, Txn(s.current, false, s.next));
    var all := Flatten(s.closed) + s.current;
    assert all + [] == all;
    assert all + Wrote(s, e) == Flatten(s.closed) + (s.current + Wrote(s, e));
  }

  lemma {:induction false} FlattenSnoc(txns: seq<Txn>, t: Txn)
    ensures Flatten(txns + [t]) == Flatten(txns) + t.writes
  {
    assert (txns + [t])[..|txns|] == txns;
  }

  /** Nothing is dropped or reordered: the transactions and the open one, strung together, are
      exactly the writes the operations made. */
  lemma {:induction false} WritesConserved(ss: seq<State>, es: seq<Event>, limit: nat)
    requires IsRun(ss, es, limit) && Accounted(ss[0]) == []
    ensures Accounted(ss[|es|]) == Issued(ss, es, limit)
  {
    if es != [] {
      var n := |es| - 1;
      WritesConserved(ss[..n + 1], es[..n], limit);
      AccountedStep(ss[n], es[n]);
    }
  }
}

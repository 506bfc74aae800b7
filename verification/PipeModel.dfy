/** pipe.c with any number of readers and writers: one event is what a process does between two
    points where it does not hold the pipe's lock. The pipe itself is a queue of bytes here; PipeCode
    has the ring. */
module PipeModel {
  import opened Blocks
  import opened PipeCode

  /** What a process is doing with the pipe. */
  datatype Activity =
    | Out
    | Reading(n: int, asleep: bool)
    | Writing(addr: seq<byte>, i: nat, asleep: bool)

  /** What a call returns, and the bytes piperead has put into the caller's buffer. */
  datatype Answer = Answer(r: int, bytes: seq<byte>)

  /** answers[p] is what the last call of process p has returned; stored and removed are the streams into
      and out of the pipe. */
  datatype State = State(buffer: seq<byte>, readopen: bool, writeopen: bool, procs: seq<Activity>, killed: seq<bool>,
                         answers: seq<Answer>, stored: seq<byte>, removed: seq<byte>)

  // ------------------------------------------------------------------ steps

  /** wakeup(&p->nread) and wakeup(&p->nwrite). */
  function Awake(a: Activity, readers: bool): Activity {
    match a
    case Reading(n, _) => if readers then Reading(n, false) else a
    case Writing(addr, i, _) => if readers then a else Writing(addr, i, false)
    case Out => Out
  }

  function WakeUp(procs: seq<Activity>, readers: bool): (r: seq<Activity>)
    ensures |r| == |procs| && forall p :: 0 <= p < |r| ==> r[p] == Awake(procs[p], readers)
  {
    if procs == [] then [] else [Awake(procs[0], readers)] + WakeUp(procs[1..], readers)
  }

  function Store(s: State, bytes: seq<byte>): State {
    s.(buffer := s.buffer + bytes, stored := s.stored + bytes)
  }

  function Remove(s: State, k: nat): State
    requires k <= |s.buffer|
  {
    s.(buffer := s.buffer[k..], removed := s.removed + s.buffer[..k])
  }

  /** The call of process p returns. */
  function Return(s: State, procs: seq<Activity>, p: nat, a: Answer): State
    requires p < |procs| && p < |s.answers|
  {
    s.(procs := procs[p := Out], answers := s.answers[p := a])
  }

  /** pipewrite of process p from byte i on, until it sleeps or returns. */
  function RunWrite(s: State, p: nat, addr: seq<byte>, i: nat): State
    requires p < |s.procs| == |s.killed| == |s.answers| && i <= |addr| && |s.buffer| <= PIPESIZE
  {
    var room := PIPESIZE - |s.buffer|;
    if |addr| - i <= room then
      Return(Store(s, addr[i..]), WakeUp(s.procs, true), p, Answer(|addr|, []))
    else
      var t := Store(s, addr[i..i + room]);
      if !s.readopen || s.killed[p] then Return(t, s.procs, p, Answer(-1, []))
      else t.(procs := WakeUp(s.procs, true)[p := Writing(addr, i + room, true)])
  }

  /** piperead of process p, until it sleeps or returns. */
  function RunRead(s: State, p: nat, n: int): State
    requires p < |s.procs| == |s.killed| == |s.answers|
  {
    if s.buffer == [] && s.writeopen then
      if s.killed[p] then Return(s, s.procs, p, Answer(-1, [])) else s.(procs := s.procs[p := Reading(n, true)])
    else
      var k := if n <= 0 then 0 else if n <= |s.buffer| then n else |s.buffer|;
      Return(Remove(s, k), WakeUp(s.procs, false), p, Answer(k, s.buffer[..k]))
  }

  datatype Event =
    | Write(p: nat, addr: seq<byte>)
    | Read(p: nat, n: int)
    | Resume(p: nat)                 // sleep returns, with the lock
    | Close(writable: bool)
    | Kill(p: nat)

  ghost predicate Enabled(s: State, e: Event) {
    match e
    case Write(p, _) => p < |s.procs| && s.procs[p] == Out && s.writeopen
    case Read(p, _) => p < |s.procs| && s.procs[p] == Out && s.readopen
    case Resume(p) => p < |s.procs| && !s.procs[p].Out? && !s.procs[p].asleep
    case Close(writable) =>
      // the file of the closed end is not in use: filewrite and fileread hold a reference to it
      forall p :: 0 <= p < |s.procs| ==> if writable then !s.procs[p].Writing? else !s.procs[p].Reading?
    case Kill(p) => p < |s.procs|
  }

  function Apply(s: State, e: Event): State
    requires Shape(s) && Enabled(s, e)
  {
    match e
    case Write(p, addr) => RunWrite(s, p, addr, 0)
    case Read(p, n) => RunRead(s, p, n)
    case Resume(p) =>
      if s.procs[p].Reading? then RunRead(s, p, s.procs[p].n) else RunWrite(s, p, s.procs[p].addr, s.procs[p].i)
    case Close(writable) =>
      if writable then s.(writeopen := false, procs := WakeUp(s.procs, true))
      else s.(readopen := false, procs := WakeUp(s.procs, false))
    case Kill(p) =>
      s.(killed := s.killed[p := true], procs := s.procs[p := Awake(Awake(s.procs[p], true), false)])
  }

  // ------------------------------------------------------------------ the stream

  ghost predicate Shape(s: State) {
    && |s.buffer| <= PIPESIZE && |s.procs| == |s.killed| == |s.answers|
    && forall p :: 0 <= p < |s.procs| && s.procs[p].Writing? ==> s.procs[p].i <= |s.procs[p].addr|
  }

  /** First in, first out. */
  ghost predicate Stream(s: State) {
    s.removed + s.buffer == s.stored
  }

  /** Processes inside piperead and pipewrite keep their end open. */
  ghost predicate Open(s: State) {
    && (forall p :: 0 <= p < |s.procs| && s.procs[p].Reading? ==> s.readopen)
    && (forall p :: 0 <= p < |s.procs| && s.procs[p].Writing? ==> s.writeopen)
  }

  /** Nobody sleeps for something that is there: readers sleep when the pipe is empty and bytes may
      still come, writers when it is full and someone may still read. */
  ghost predicate Fair(s: State) {
    forall p :: 0 <= p < |s.procs| ==> WellAsleep(s, s.procs[p])
  }

  ghost predicate WellAsleep(s: State, a: Activity) {
    match a
    case Out => true
    case Reading(_, asleep) => asleep ==> s.buffer == [] && s.writeopen
    case Writing(_, _, asleep) => asleep ==> |s.buffer| == PIPESIZE && s.readopen
  }

  ghost predicate Inv(s: State) {
    Shape(s) && Stream(s) && Open(s)
  }

  /** A reader is asleep. */
  ghost predicate ReaderAsleep(s: State) {
    exists q :: 0 <= q < |s.procs| && s.procs[q].Reading? && s.procs[q].asleep
  }

  /** The step of a killed writer that stores some bytes, finds the pipe full, and leaves without a
      wakeup, although a reader sleeps: pipewrite from byte i on with more than PIPESIZE bytes to go. */
  ghost predicate Rude(s: State, e: Event) {
    match e
    case Write(p, addr) => p < |s.killed| && s.killed[p] && |addr| > PIPESIZE && ReaderAsleep(s)
    case Resume(p) =>
      && p < |s.killed| && p < |s.procs| && s.killed[p] && s.procs[p].Writing?
      && |s.procs[p].addr| - s.procs[p].i > PIPESIZE && ReaderAsleep(s)
    case _ => false
  }

  // ------------------------------------------------------------------ steps keep the stream

  lemma {:induction false} WriteKeeps(s: State, p: nat, addr: seq<byte>, i: nat)
    requires Inv(s) && p < |s.procs| && i <= |addr| && s.writeopen
    ensures Inv(RunWrite(s, p, addr, i))
  {
    var room := PIPESIZE - |s.buffer|;
    var bytes := if |addr| - i <= room then addr[i..] else addr[i..i + room];
    assert s.removed + (s.buffer + bytes) == (s.removed + s.buffer) + bytes;
  }

  lemma {:induction false} ReadKeeps(s: State, p: nat, n: int)
    requires Inv(s) && p < |s.procs| && s.readopen
    ensures Inv(RunRead(s, p, n))
  {
    if s.buffer != [] || !s.writeopen {
      var k := if n <= 0 then 0 else if n <= |s.buffer| then n else |s.buffer|;
      assert s.removed + s.buffer[..k] + s.buffer[k..] == s.removed + s.buffer;
    }
  }

  lemma {:induction false} StepKeeps(s: State, e: Event)
    requires Inv(s) && Enabled(s, e)
    ensures Inv(Apply(s, e))
  {
    hide RunWrite, RunRead, Stream;
    match e
    case Write(p, addr) => WriteKeeps(s, p, addr, 0);
    case Read(p, n) => ReadKeeps(s, p, n);
    case Resume(p) =>
      if s.procs[p].Reading? {
        ReadKeeps(s, p, s.procs[p].n);
      } else {
        WriteKeeps(s, p, s.procs[p].addr, s.procs[p].i);
      }
    case Close(_) => QuietKeeps(s, Apply(s, e));
    case Kill(p) => QuietKeeps(s, Apply(s, e));
  }

  lemma {:induction false} QuietKeeps(s: State, t: State)
    requires Stream(s) && t.removed == s.removed && t.buffer == s.buffer && t.stored == s.stored
    ensures Stream(t)
  {
  }

  // ------------------------------------------------------------------ sleepers

  lemma {:induction false} ReadFair(s: State, p: nat, n: int)
    requires Inv(s) && p < |s.procs| && Fair(s)
    ensures Fair(RunRead(s, p, n))
  {
    var t := RunRead(s, p, n);
    forall q | 0 <= q < |t.procs|
      ensures WellAsleep(t, t.procs[q])
    {
      assert WellAsleep(s, s.procs[q]);
    }
  }

  /** A write keeps sleepers in order iff it is not the rude one. */
  lemma {:induction false} WriteFair(s: State, p: nat, addr: seq<byte>, i: nat)
    requires Inv(s) && p < |s.procs| && i <= |addr| && Fair(s)
    requires s.procs[p] == Out || (s.procs[p].Writing? && !s.procs[p].asleep)
    ensures Fair(RunWrite(s, p, addr, i)) <==> !(s.killed[p] && |addr| - i > PIPESIZE && ReaderAsleep(s))
  {
    var t := RunWrite(s, p, addr, i);
    if s.killed[p] && |addr| - i > PIPESIZE && ReaderAsleep(s) {
      var q :| 0 <= q < |s.procs| && s.procs[q].Reading? && s.procs[q].asleep;
      assert WellAsleep(s, s.procs[q]);
      assert t.procs[q] == s.procs[q] && |t.buffer| == PIPESIZE;
      assert !WellAsleep(t, t.procs[q]);
    } else {
      forall q | 0 <= q < |t.procs|
        ensures WellAsleep(t, t.procs[q])
      {
        assert WellAsleep(s, s.procs[q]);
      }
    }
  }

  lemma {:induction false} CloseFair(s: State, writable: bool)
    requires Inv(s) && Fair(s) && Enabled(s, Close(writable))
    ensures Fair(Apply(s, Close(writable)))
  {
    var t := Apply(s, Close(writable));
    forall q | 0 <= q < |t.procs|
      ensures WellAsleep(t, t.procs[q])
    {
      assert WellAsleep(s, s.procs[q]);
    }
  }

  lemma {:induction false} KillFair(s: State, p: nat)
    requires Inv(s) && Fair(s) && Enabled(s, Kill(p))
    ensures Fair(Apply(s, Kill(p)))
  {
    var t := Apply(s, Kill(p));
    forall q | 0 <= q < |t.procs|
      ensures WellAsleep(t, t.procs[q])
    {
      assert WellAsleep(s, s.procs[q]);
    }
  }

  /** Exactly the rude step makes someone oversleep. */
  lemma {:induction false} FairExact(s: State, e: Event)
    requires Inv(s) && Enabled(s, e) && Fair(s)
    ensures Fair(Apply(s, e)) <==> !Rude(s, e)
  {
    hide RunWrite, RunRead, Fair, Stream, ReaderAsleep, Open;
    match e
    case Write(p, addr) => WriteFair(s, p, addr, 0);
    case Read(p, n) => ReadFair(s, p, n);
    case Resume(p) =>
      if s.procs[p].Reading? {
        ReadFair(s, p, s.procs[p].n);
      } else {
        WriteFair(s, p, s.procs[p].addr, s.procs[p].i);
      }
    case Close(writable) => CloseFair(s, writable);
    case Kill(p) => KillFair(s, p);
  }

  // ------------------------------------------------------------------ close and kill

  /** Closing an end wakes everyone asleep at the other one, and changes nothing else. */
  lemma {:induction false} CloseWakes(s: State, writable: bool)
    requires Shape(s) && Enabled(s, Close(writable))
    ensures var u := Apply(s, Close(writable));
            && u.writeopen == (s.writeopen && !writable) && u.readopen == (s.readopen && writable)
            && u == s.(writeopen := u.writeopen, readopen := u.readopen, procs := u.procs) && |u.procs| == |s.procs|
            && forall p :: 0 <= p < |s.procs| ==>
                 var a, b := s.procs[p], u.procs[p];
                 if a.Out? then b == a else if a.Reading? == writable then b == a.(asleep := false) else b == a
  {
  }

  /** kill marks the process and ends its sleep, and changes nothing else. */
  lemma {:induction false} KillWakes(s: State, p: nat)
    requires Shape(s) && Enabled(s, Kill(p))
    ensures var a, u := s.procs[p], Apply(s, Kill(p));
            && u.killed == s.killed[p := true]
            && u == s.(killed := u.killed, procs := s.procs[p := if a.Out? then a else a.(asleep := false)])
  {
  }

  /** A process that has been killed, or whose other end is closed, leaves the call when it goes on. */
  lemma {:induction false} LeavesAtOnce(s: State, p: nat)
    requires Shape(s) && Enabled(s, Resume(p))
    requires s.killed[p] || if s.procs[p].Reading? then !s.writeopen else !s.readopen
    ensures Apply(s, Resume(p)).procs[p] == Out
  {
  }

  // ------------------------------------------------------------------ runs

  ghost predicate IsRun(ss: seq<State>, es: seq<Event>) {
    && |ss| == |es| + 1
    && (es != [] ==>
          var n := |es| - 1;
          IsRun(ss[..n + 1], es[..n]) && Shape(ss[n]) && Enabled(ss[n], es[n]) && ss[n + 1] == Apply(ss[n], es[n]))
  }

  /** The new pipe of pipealloc. */
  ghost predicate Init(s: State) {
    && s.buffer == s.stored == s.removed == [] && s.readopen && s.writeopen
    && |s.procs| == |s.killed| == |s.answers|
    && forall p :: 0 <= p < |s.procs| ==> s.procs[p] == Out
  }

  /** In every run, with any kills: the bytes removed so far followed by the bytes in the pipe are the
      bytes stored, in order. */
  lemma {:induction false} FirstInFirstOut(ss: seq<State>, es: seq<Event>)
    requires IsRun(ss, es) && Init(ss[0])
    ensures Inv(ss[|es|])
  {
    hide Apply, Enabled;
    if es != [] {
      var n := |es| - 1;
      FirstInFirstOut(ss[..n + 1], es[..n]);
      StepKeeps(ss[n], es[n]);
    }
  }

  ghost predicate NoKill(es: seq<Event>) {
    forall k :: 0 <= k < |es| ==> !es[k].Kill?
  }

  lemma {:induction false} KilledStays(s: State, e: Event)
    requires Shape(s) && Enabled(s, e) && !e.Kill?
    ensures Apply(s, e).killed == s.killed
  {
  }

  lemma {:induction false} NobodyKilled(ss: seq<State>, es: seq<Event>, p: nat)
    requires IsRun(ss, es) && NoKill(es) && p < |ss[0].killed| && !ss[0].killed[p]
    ensures p < |ss[|es|].killed| && !ss[|es|].killed[p]
  {
    hide Apply, Enabled, Shape;
    if es != [] {
      var n := |es| - 1;
      NobodyKilled(ss[..n + 1], es[..n], p);
      assert !es[n].Kill?;
      KilledStays(ss[n], es[n]);
    }
  }

  /** In a run without rude steps nobody sleeps for something that is there. */
  lemma {:induction false} NobodyOversleeps(ss: seq<State>, es: seq<Event>)
    requires IsRun(ss, es) && Init(ss[0])
    requires forall k :: 0 <= k < |es| ==> !Rude(ss[k], es[k])
    ensures Fair(ss[|es|])
  {
    hide Apply, Enabled, Rude;
    if es != [] {
      var n := |es| - 1;
      assert forall k :: 0 <= k < n ==> ss[..n + 1][k] == ss[k] && es[..n][k] == es[k];
      NobodyOversleeps(ss[..n + 1], es[..n]);
      FirstInFirstOut(ss[..n + 1], es[..n]);
      assert !Rude(ss[n], es[n]);
      FairExact(ss[n], es[n]);
    }
  }

  lemma {:induction false} RunPrefix(ss: seq<State>, es: seq<Event>, k: nat)
    requires IsRun(ss, es) && k <= |es|
    ensures IsRun(ss[..k + 1], es[..k])
  {
    if k < |es| {
      var n := |es| - 1;
      RunPrefix(ss[..n + 1], es[..n], k);
      assert ss[..n + 1][..k + 1] == ss[..k + 1] && es[..n][..k] == es[..k];
    } else {
      assert ss[..k + 1] == ss && es[..k] == es;
    }
  }

  lemma {:induction false} NoKillNotRude(ss: seq<State>, es: seq<Event>, k: nat)
    requires IsRun(ss, es) && Init(ss[0]) && NoKill(es) && k < |es|
    requires forall p :: 0 <= p < |ss[0].killed| ==> !ss[0].killed[p]
    ensures !Rude(ss[k], es[k])
  {
    RunPrefix(ss, es, k);
    var rs, fs := ss[..k + 1], es[..k];
    assert rs[|fs|] == ss[k];
    SameProcesses(rs, fs);
    forall p | 0 <= p < |ss[k].killed|
      ensures !ss[k].killed[p]
    {
      NobodyKilled(rs, fs, p);
    }
  }

  lemma {:induction false} SameProcesses(ss: seq<State>, es: seq<Event>)
    requires IsRun(ss, es)
    ensures |ss[|es|].killed| == |ss[0].killed|
  {
    hide Apply, Enabled, Shape;
    if es != [] {
      var n := |es| - 1;
      SameProcesses(ss[..n + 1], es[..n]);
      KilledSize(ss[n], es[n]);
    }
  }

  lemma {:induction false} KilledSize(s: State, e: Event)
    requires Shape(s) && Enabled(s, e)
    ensures |Apply(s, e).killed| == |s.killed|
  {
    hide WakeUp;
  }

  /** In a run without kills, in particular. */
  lemma {:induction false} NobodyOversleepsUnkilled(ss: seq<State>, es: seq<Event>)
    requires IsRun(ss, es) && Init(ss[0]) && NoKill(es)
    requires forall p :: 0 <= p < |ss[0].killed| ==> !ss[0].killed[p]
    ensures Fair(ss[|es|])
  {
    forall k | 0 <= k < |es|
      ensures !Rude(ss[k], es[k])
    {
      NoKillNotRude(ss, es, k);
    }
    NobodyOversleeps(ss, es);
  }

  /** With a kill it can happen, on every new pipe: process p reads and sleeps, process q is killed
      and writes more than fits, and p is left asleep in front of a full pipe. */
  lemma {:induction false} KilledWriterStrandsReader(s: State, p: nat, q: nat, n: int, addr: seq<byte>)
    requires Init(s) && p < |s.procs| && q < |s.procs| && p != q && !s.killed[p] && |addr| > PIPESIZE
    ensures Shape(s) && Enabled(s, Read(p, n))
    ensures var t := Apply(s, Read(p, n)); Shape(t) && Enabled(t, Kill(q))
    ensures var t := Apply(Apply(s, Read(p, n)), Kill(q)); Shape(t) && Enabled(t, Write(q, addr))
    ensures var t := Apply(s, Read(p, n));
            var u := Apply(t, Kill(q));
            var v := Apply(u, Write(q, addr));
            && IsRun([s, t, u, v], [Read(p, n), Kill(q), Write(q, addr)])
            && v.procs[p] == Reading(n, true) && v.buffer == addr[..PIPESIZE] && !Fair(v)
  {
    hide RunRead, RunWrite;
    var t := Apply(s, Read(p, n));
    ReadSleeps(s, p, n);
    var u := Apply(t, Kill(q));
    WriteFills(u, q, addr);
    var v := Apply(u, Write(q, addr));
    var ss, es := [s, t, u, v], [Read(p, n), Kill(q), Write(q, addr)];
    assert ss[..1] == [s] && es[..0] == [] && IsRun([s], []);
    assert ss[..2] == [s, t] && es[..1] == [Read(p, n)];
    assert [s, t][..1] == [s] && [Read(p, n)][..0] == [] && IsRun([s, t], [Read(p, n)]);
    assert ss[..3] == [s, t, u] && es[..2] == [Read(p, n), Kill(q)];
    assert [s, t, u][..2] == [s, t] && [Read(p, n), Kill(q)][..1] == [Read(p, n)];
    assert IsRun([s, t, u], [Read(p, n), Kill(q)]);
  }

  lemma {:induction false} ReadSleeps(s: State, p: nat, n: int)
    requires Shape(s) && p < |s.procs| && s.buffer == [] && s.writeopen && !s.killed[p]
    ensures RunRead(s, p, n) == s.(procs := s.procs[p := Reading(n, true)])
  {
  }

  lemma {:induction false} WriteFills(s: State, q: nat, addr: seq<byte>)
    requires Shape(s) && q < |s.procs| && s.buffer == [] && s.killed[q] && |addr| > PIPESIZE
    ensures RunWrite(s, q, addr, 0).procs == s.procs[q := Out] && RunWrite(s, q, addr, 0).buffer == addr[..PIPESIZE]
  {
    assert addr[0..PIPESIZE] == addr[..PIPESIZE];
  }
}

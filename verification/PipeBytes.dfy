/** From caller to caller: what pipewrite's callers pass, in order, is what piperead's callers get. A call
    is known by its first event and the bytes that have gone into the pipe since. */
module PipeBytes {
  import opened Blocks
  import opened PipeCode
  import opened PipeModel

  function Take(bytes: seq<byte>, n: int): seq<byte> {
    if n <= 0 then [] else if n <= |bytes| then bytes[..n] else bytes
  }

  // ------------------------------------------------------------------ calls, from the events of a run

  /** The event of a call of pipewrite or piperead by process p. */
  predicate Calls(e: Event, p: nat) {
    (e.Write? || e.Read?) && e.p == p
  }

  /** The last call of process p; Kill(p) if there is none. */
  function LastCall(es: seq<Event>, p: nat): Event {
    if es == [] then Kill(p)
    else if Calls(es[|es| - 1], p) then es[|es| - 1]
    else LastCall(es[..|es| - 1], p)
  }

  /** What has gone into the pipe in an event. */
  function Stored(s: State, t: State): seq<byte> {
    if |s.stored| <= |t.stored| then t.stored[|s.stored|..] else []
  }

  /** What the last call of process p has put into the pipe so far, piece by piece. */
  ghost function Put(ss: seq<State>, es: seq<Event>, p: nat): seq<byte>
    requires |ss| == |es| + 1
  {
    if es == [] then []
    else
      var n := |es| - 1;
      if Calls(es[n], p) then Stored(ss[n], ss[n + 1])
      else if es[n] == Resume(p) then Put(ss[..n + 1], es[..n], p) + Stored(ss[n], ss[n + 1])
      else Put(ss[..n + 1], es[..n], p)
  }

  /** What event e stores: of the bytes that the call of the process has still to write, as many as fit. */
  ghost function Piece(ss: seq<State>, es: seq<Event>, s: State, e: Event): seq<byte>
    requires |ss| == |es| + 1
  {
    match e
    case Write(_, addr) => Take(addr, PIPESIZE - |s.buffer|)
    case Resume(p) =>
      var c, done := LastCall(es, p), |Put(ss, es, p)|;
      if c.Write? && done <= |c.addr| then Take(c.addr[done..], PIPESIZE - |s.buffer|) else []
    case _ => []
  }

  /** A call that sleeps is the last call of its process. A writer has stored exactly the bytes before i. */
  ghost predicate InCall(ss: seq<State>, es: seq<Event>, p: nat)
    requires |ss| == |es| + 1 && p < |ss[|es|].procs|
  {
    match ss[|es|].procs[p]
    case Out => true
    case Reading(n, _) => LastCall(es, p) == Read(p, n)
    case Writing(addr, i, _) => LastCall(es, p) == Write(p, addr) && i <= |addr| && Put(ss, es, p) == addr[..i]
  }

  // ------------------------------------------------------------------ one stretch of a call

  lemma {:induction false} WriteStretch(s: State, p: nat, addr: seq<byte>, i: nat)
    requires Shape(s) && p < |s.procs| && i <= |addr|
    ensures var t, piece := RunWrite(s, p, addr, i), Take(addr[i..], PIPESIZE - |s.buffer|);
            && t.stored == s.stored + piece && t.removed == s.removed && |t.procs| == |s.procs| == |t.answers|
            && (i + |piece| == |addr| <==> t.procs[p] == Out && t.answers[p].r == |addr|)
            && (i + |piece| < |addr| && (!s.readopen || s.killed[p]) <==> t.procs[p] == Out && t.answers[p].r == -1)
            && (if t.procs[p] == Out then t.answers[p].r == |addr| || t.answers[p].r == -1
                else t.procs[p] == Writing(addr, i + |piece|, true))
            && addr[..i] + piece == addr[..i + |piece|]
            && forall q :: 0 <= q < |s.procs| && q != p ==>
                 SameCall(s.procs[q], t.procs[q]) && t.answers[q] == s.answers[q]
  {
    var room := PIPESIZE - |s.buffer|;
    var piece := Take(addr[i..], room);
    assert |addr| - i <= room ==> piece == addr[i..];
    assert |addr| - i > room ==> piece == addr[i..i + room];
  }

  /** The same call, asleep or not. */
  predicate SameCall(a: Activity, b: Activity) {
    match a
    case Out => b == Out
    case Reading(n, _) => b.Reading? && b.n == n
    case Writing(addr, i, _) => b.Writing? && b.addr == addr && b.i == i
  }

  lemma {:induction false} ReadStretch(s: State, p: nat, n: int)
    requires Shape(s) && p < |s.procs|
    ensures var t := RunRead(s, p, n);
            && t.stored == s.stored && |t.procs| == |s.procs| == |t.answers|
            && (if s.buffer == [] && s.writeopen then
                  && t.removed == s.removed
                  && (if s.killed[p] then t.procs[p] == Out && t.answers[p] == Answer(-1, [])
                      else t.procs[p] == Reading(n, true))
                else
                  && t.procs[p] == Out && t.answers[p] == Answer(|Take(s.buffer, n)|, Take(s.buffer, n))
                  && t.removed == s.removed + Take(s.buffer, n))
            && forall q :: 0 <= q < |s.procs| && q != p ==>
                 SameCall(s.procs[q], t.procs[q]) && t.answers[q] == s.answers[q]
  {
  }

  // ------------------------------------------------------------------ runs

  ghost predicate AllInCall(ss: seq<State>, es: seq<Event>)
    requires |ss| == |es| + 1
  {
    forall p :: 0 <= p < |ss[|es|].procs| ==> InCall(ss, es, p)
  }

  /** What the last event of a run stores. */
  lemma {:induction false} StepStores(ss: seq<State>, es: seq<Event>, e: Event)
    requires |ss| == |es| + 1 && AllInCall(ss, es) && Shape(ss[|es|]) && Enabled(ss[|es|], e)
    ensures var s := ss[|es|]; Apply(s, e).stored == s.stored + Piece(ss, es, s, e)
  {
    hide RunWrite, RunRead, WakeUp;
    var s := ss[|es|];
    match e
    case Write(p, addr) => WriteStretch(s, p, addr, 0); assert addr[0..] == addr;
    case Read(p, n) => ReadStretch(s, p, n);
    case Resume(p) =>
      assert InCall(ss, es, p);
      if s.procs[p].Reading? {
        ReadStretch(s, p, s.procs[p].n);
      } else {
        WriteStretch(s, p, s.procs[p].addr, s.procs[p].i);
      }
    case _ =>
  }

  lemma {:induction false} StepOthers(s: State, e: Event, q: nat)
    requires Shape(s) && Enabled(s, e) && q < |s.procs|
    requires (e.Write? || e.Read? || e.Resume?) ==> e.p != q
    ensures var t := Apply(s, e); |t.procs| == |s.procs| && SameCall(s.procs[q], t.procs[q])
  {
    hide RunWrite, RunRead;
    match e
    case Write(p, addr) => WriteStretch(s, p, addr, 0);
    case Read(p, n) => ReadStretch(s, p, n);
    case Resume(p) =>
      if s.procs[p].Reading? {
        ReadStretch(s, p, s.procs[p].n);
      } else {
        WriteStretch(s, p, s.procs[p].addr, s.procs[p].i);
      }
    case _ =>
  }

  lemma {:induction false} StepInCall(ss: seq<State>, es: seq<Event>, q: nat)
    requires |ss| == |es| + 1 && es != []
    requires var n := |es| - 1;
             && AllInCall(ss[..n + 1], es[..n]) && Shape(ss[n]) && Enabled(ss[n], es[n])
             && ss[n + 1] == Apply(ss[n], es[n]) && q < |ss[n].procs|
    ensures q < |ss[|es|].procs| && InCall(ss, es, q)
  {
    hide RunWrite, RunRead, WakeUp, Apply;
    var n := |es| - 1;
    var s, e := ss[n], es[n];
    assert InCall(ss[..n + 1], es[..n], q);
    StepStores(ss[..n + 1], es[..n], e);
    var piece := Piece(ss[..n + 1], es[..n], s, e);
    assert Stored(s, ss[n + 1]) == piece;
    if (e.Write? || e.Read? || e.Resume?) && e.p == q {
      OwnStep(s, e, q);
    } else {
      StepOthers(s, e, q);
    }
  }

  /** The process whose event it is. */
  lemma {:induction false} OwnStep(s: State, e: Event, p: nat)
    requires Shape(s) && Enabled(s, e) && (e.Write? || e.Read? || e.Resume?) && e.p == p
    ensures var t, room := Apply(s, e), PIPESIZE - |s.buffer|;
            && p < |t.procs| && |t.procs| == |s.procs|
            && (e.Write? ==> t.procs[p] == Out || t.procs[p] == Writing(e.addr, |Take(e.addr, room)|, true))
            && (e.Read? ==> t.procs[p] == Out || t.procs[p] == Reading(e.n, true))
            && (e.Resume? && s.procs[p].Reading? ==> t.procs[p] == Out || t.procs[p] == Reading(s.procs[p].n, true))
            && (e.Resume? && s.procs[p].Writing? ==>
                  var a, i := s.procs[p].addr, s.procs[p].i;
                  && i <= |a|
                  && (t.procs[p] == Out || t.procs[p] == Writing(a, i + |Take(a[i..], room)|, true))
                  && a[..i] + Take(a[i..], room) == a[..i + |Take(a[i..], room)|])
            && (e.Write? ==> Take(e.addr, room) == e.addr[..|Take(e.addr, room)|])
  {
    hide RunWrite, RunRead;
    match e
    case Write(p, addr) => WriteStretch(s, p, addr, 0); assert addr[0..] == addr;
    case Read(p, n) => ReadStretch(s, p, n);
    case Resume(p) =>
      if s.procs[p].Reading? {
        ReadStretch(s, p, s.procs[p].n);
      } else {
        WriteStretch(s, p, s.procs[p].addr, s.procs[p].i);
      }
    case _ =>
  }

  /** In every run, for every process inside pipewrite: the bytes its call has stored are addr[..i]. */
  lemma {:induction false} WritersProgress(ss: seq<State>, es: seq<Event>)
    requires IsRun(ss, es) && Init(ss[0])
    ensures AllInCall(ss, es)
  {
    hide Apply, Enabled, InCall;
    if es == [] {
      NobodyIn(ss);
    } else {
      var n := |es| - 1;
      WritersProgress(ss[..n + 1], es[..n]);
      FirstInFirstOut(ss, es);
      SameNumber(ss[n], es[n]);
      forall q | 0 <= q < |ss[|es|].procs|
        ensures InCall(ss, es, q)
      {
        StepInCall(ss, es, q);
      }
    }
  }

  lemma {:induction false} NobodyIn(ss: seq<State>)
    requires |ss| == 1 && Init(ss[0])
    ensures AllInCall(ss, [])
  {
  }

  lemma {:induction false} SameNumber(s: State, e: Event)
    requires Shape(s) && Enabled(s, e)
    ensures |Apply(s, e).procs| == |s.procs|
  {
  }

  // ------------------------------------------------------------------ what callers rely on

  /** The pieces of all events, in order. */
  ghost function Sent(ss: seq<State>, es: seq<Event>): seq<byte>
    requires |ss| == |es| + 1
  {
    if es == [] then []
    else
      var n := |es| - 1;
      Sent(ss[..n + 1], es[..n]) + Piece(ss[..n + 1], es[..n], ss[n], es[n])
  }

  /** Event e, with state t behind it, is the return of a piperead. */
  predicate Reads(s: State, e: Event, t: State) {
    && (e.Read? || (e.Resume? && e.p < |s.procs| && s.procs[e.p].Reading?))
    && e.p < |t.procs| && e.p < |t.answers| && t.procs[e.p] == Out
  }

  /** What all returns of piperead have handed out, in order. */
  ghost function Received(ss: seq<State>, es: seq<Event>): seq<byte>
    requires |ss| == |es| + 1
  {
    if es == [] then []
    else
      var n := |es| - 1;
      Received(ss[..n + 1], es[..n])
      + if Reads(ss[n], es[n], ss[n + 1]) then ss[n + 1].answers[es[n].p].bytes else []
  }

  /** What the last event of a run takes out of the pipe. */
  lemma {:induction false} StepRemoves(s: State, e: Event)
    requires Shape(s) && Enabled(s, e)
    ensures var t := Apply(s, e);
            t.removed == s.removed + if Reads(s, e, t) then t.answers[e.p].bytes else []
  {
    hide RunWrite, RunRead;
    match e
    case Write(p, addr) => WriteStretch(s, p, addr, 0);
    case Read(p, n) => ReadStretch(s, p, n);
    case Resume(p) =>
      if s.procs[p].Reading? {
        ReadStretch(s, p, s.procs[p].n);
      } else {
        WriteStretch(s, p, s.procs[p].addr, s.procs[p].i);
      }
    case _ =>
  }

  /** What readers have got, followed by what is in the pipe, is what writers have put in, piece by piece,
      each from where its call was. */
  lemma {:induction false} EndToEnd(ss: seq<State>, es: seq<Event>)
    requires IsRun(ss, es) && Init(ss[0])
    ensures ss[|es|].stored == Sent(ss, es) && ss[|es|].removed == Received(ss, es)
    ensures Sent(ss, es) == Received(ss, es) + ss[|es|].buffer
  {
    hide Apply, Enabled, AllInCall;
    FirstInFirstOut(ss, es);
    if es != [] {
      var n := |es| - 1;
      EndToEnd(ss[..n + 1], es[..n]);
      WritersProgress(ss[..n + 1], es[..n]);
      StepStores(ss[..n + 1], es[..n], es[n]);
      StepRemoves(ss[n], es[n]);
    }
  }

  /** How a pipewrite ends: with n, all its bytes stored in order; or with -1, some of them, because the
      pipe is full and nobody will read or the caller has been killed. */
  lemma {:induction false} WriteReturns(ss: seq<State>, es: seq<Event>, p: nat)
    requires IsRun(ss, es) && Init(ss[0]) && es != [] && p < |ss[|es| - 1].procs|
    requires var n := |es| - 1;
             && (es[n].Write? || (es[n].Resume? && ss[n].procs[p].Writing?)) && es[n].p == p
             && p < |ss[n + 1].procs| && ss[n + 1].procs[p] == Out
    ensures var t, c := ss[|es|], LastCall(es, p);
            && c.Write? && p < |t.answers|
            && (t.answers[p].r == |c.addr| || t.answers[p].r == -1)
            && (t.answers[p].r == |c.addr| <==> Put(ss, es, p) == c.addr)
            && (t.answers[p].r == -1 ==>
                  && |Put(ss, es, p)| < |c.addr| && Put(ss, es, p) == c.addr[..|Put(ss, es, p)|]
                  && |t.buffer| == PIPESIZE && (!t.readopen || (p < |t.killed| && t.killed[p])))
  {
    hide Apply, Enabled, AllInCall, RunWrite, RunRead;
    var n := |es| - 1;
    FirstInFirstOut(ss[..n + 1], es[..n]);
    WritersProgress(ss[..n + 1], es[..n]);
    StepStores(ss[..n + 1], es[..n], es[n]);
    ReturnStep(ss[..n + 1], es[..n], es[n], p);
    assert Stored(ss[n], ss[n + 1]) == Piece(ss[..n + 1], es[..n], ss[n], es[n]);
  }

  lemma {:induction false} ReturnStep(ss: seq<State>, es: seq<Event>, e: Event, p: nat)
    requires |ss| == |es| + 1 && AllInCall(ss, es) && Shape(ss[|es|]) && Enabled(ss[|es|], e) && p < |ss[|es|].procs|
    requires (e.Write? || (e.Resume? && ss[|es|].procs[p].Writing?)) && e.p == p
    requires var t := Apply(ss[|es|], e); p < |t.procs| && t.procs[p] == Out
    ensures var s, t := ss[|es|], Apply(ss[|es|], e);
            var c := if e.Write? then e else LastCall(es, p);
            var done := (if e.Write? then [] else Put(ss, es, p)) + Piece(ss, es, s, e);
            && c.Write? && p < |t.answers|
            && (t.answers[p].r == |c.addr| || t.answers[p].r == -1)
            && (t.answers[p].r == |c.addr| <==> done == c.addr)
            && (t.answers[p].r == -1 ==>
                  && |done| < |c.addr| && done == c.addr[..|done|]
                  && |t.buffer| == PIPESIZE && (!t.readopen || (p < |t.killed| && t.killed[p])))
  {
    hide RunWrite, RunRead, WakeUp;
    var s := ss[|es|];
    if e.Write? {
      assert e.addr[0..] == e.addr && e.addr[..0] == [];
      WriteStretch(s, p, e.addr, 0);
      WriteLeaves(s, p, e.addr, 0);
    } else {
      assert InCall(ss, es, p);
      WriteStretch(s, p, s.procs[p].addr, s.procs[p].i);
      WriteLeaves(s, p, s.procs[p].addr, s.procs[p].i);
    }
  }

  lemma {:induction false} WriteLeaves(s: State, p: nat, addr: seq<byte>, i: nat)
    requires Shape(s) && p < |s.procs| && i <= |addr|
    ensures var t := RunWrite(s, p, addr, i);
            && t.readopen == s.readopen && t.killed == s.killed
            && (i + |Take(addr[i..], PIPESIZE - |s.buffer|)| < |addr| ==> |t.buffer| == PIPESIZE)
  {
  }

  /** How a piperead ends: with the oldest min(n, available) bytes of the pipe, if there are some or no more
      will come; with -1 if it was killed while it waited. */
  lemma {:induction false} ReadReturns(ss: seq<State>, es: seq<Event>, p: nat)
    requires IsRun(ss, es) && Init(ss[0]) && es != []
    requires var n := |es| - 1; Reads(ss[n], es[n], ss[n + 1]) && es[n].p == p
    ensures var s, t, c := ss[|es| - 1], ss[|es|], LastCall(es, p);
            && c.Read? && p < |t.answers|
            && (if s.buffer == [] && s.writeopen
                then t.answers[p] == Answer(-1, []) && p < |s.killed| && s.killed[p]
                else t.answers[p] == Answer(|Take(s.buffer, c.n)|, Take(s.buffer, c.n)))
  {
    hide Apply, AllInCall, RunRead, RunWrite;
    var n := |es| - 1;
    var s, e := ss[n], es[n];
    WritersProgress(ss[..n + 1], es[..n]);
    ReadEnd(ss[..n + 1], es[..n], e, p);
  }

  lemma {:induction false} ReadEnd(ss: seq<State>, es: seq<Event>, e: Event, p: nat)
    requires |ss| == |es| + 1 && AllInCall(ss, es) && Shape(ss[|es|]) && Enabled(ss[|es|], e)
    requires Reads(ss[|es|], e, Apply(ss[|es|], e)) && e.p == p
    ensures var s, t := ss[|es|], Apply(ss[|es|], e);
            var c := if e.Read? then e else LastCall(es, p);
            && c.Read? && p < |t.answers|
            && (if s.buffer == [] && s.writeopen
                then t.answers[p] == Answer(-1, []) && p < |s.killed| && s.killed[p]
                else t.answers[p] == Answer(|Take(s.buffer, c.n)|, Take(s.buffer, c.n)))
  {
    hide RunRead, RunWrite, WakeUp;
    var s := ss[|es|];
    if e.Read? {
      ReadStretch(s, p, e.n);
    } else {
      assert InCall(ss, es, p);
      ReadStretch(s, p, s.procs[p].n);
    }
  }
}

/** The calls of pipe.c on the ring: pipewrite and piperead, from their beginning or from where their sleep
    returns up to the next sleep or their end, and pipeclose. */
module PipeCalls {
  import opened Blocks
  import opened PipeCode
  import opened PipeModel

  class Calls {
    const pipe: Pipe
    var procs: seq<Activity>
    var killed: seq<bool>
    ghost var answers: seq<Answer>

    ghost predicate Valid()
      reads this, pipe, pipe.data
    {
      pipe.Valid() && |procs| == |killed| == |answers|
    }

    ghost function View(): State
      reads this, pipe
      requires pipe.removed <= |pipe.stored|
    {
      State(pipe.Buffered(), pipe.readopen, pipe.writeopen, procs, killed, answers, pipe.stored,
            pipe.stored[..pipe.removed])
    }

    /** pipealloc, for processes that do not use the pipe yet. */
    constructor (killed: seq<bool>)
      ensures Valid() && Init(View()) && this.killed == killed
    {
      pipe := new Pipe();
      this.killed := killed;
      procs := seq(|killed|, _ => Out);
      answers := seq(|killed|, _ => Answer(0, []));
    }

    /** pipewrite of process p from byte i on: asleep at byte j, or back with r. */
    method Write(p: nat, addr: seq<byte>, i: nat) returns (asleep: bool, j: nat, r: int)
      requires Valid() && p < |procs| && i <= |addr|
      modifies this, pipe, pipe.data
      ensures Valid() && View() == RunWrite(old(View()), p, addr, i)
      ensures if asleep then procs[p] == Writing(addr, j, true) else procs[p] == Out && answers[p] == Answer(r, [])
    {
      hide Pipe.Valid, WakeUp;
      pipe.Sound();
      ghost var s := View();
      j := pipe.Write(addr, i);
      Streams(s, pipe.stored, pipe.removed, addr[i..j]);
      asleep, r := false, |addr|;
      if j < |addr| {
        if !pipe.readopen || killed[p] {
          r := -1;
          procs, answers := procs[p := Out], answers[p := Answer(r, [])];
          return;
        }
        procs := WakeUp(procs, true)[p := Writing(addr, j, true)];
        asleep := true;
        return;
      }
      procs, answers := WakeUp(procs, true)[p := Out], answers[p := Answer(r, [])];
    }

    /** piperead of process p: asleep, or back with r and the bytes it has read. */
    method Read(p: nat, n: int) returns (asleep: bool, addr: seq<byte>, r: int)
      requires Valid() && p < |procs|
      modifies this, pipe
      ensures Valid() && View() == RunRead(old(View()), p, n)
      ensures if asleep then procs[p] == Reading(n, true) else procs[p] == Out && answers[p] == Answer(r, addr)
    {
      hide Pipe.Valid, WakeUp;
      pipe.Sound();
      asleep, addr, r := false, [], -1;
      if pipe.nread == pipe.nwrite && pipe.writeopen {
        if killed[p] {
          procs, answers := procs[p := Out], answers[p := Answer(r, [])];
          return;
        }
        procs := procs[p := Reading(n, true)];
        asleep := true;
        return;
      }
      ghost var s := View();
      addr := pipe.Read(n);
      Taken(pipe.stored, |s.removed|, |addr|);
      r := |addr|;
      procs, answers := WakeUp(procs, false)[p := Out], answers[p := Answer(r, addr)];
    }

    /** pipeclose, up to the kfree of a pipe that nobody has open. */
    method Close(writable: bool)
      requires Valid() && Shape(View()) && Enabled(View(), Event.Close(writable))
      modifies this, pipe
      ensures Valid() && View() == Apply(old(View()), Event.Close(writable))
    {
      if writable {
        pipe.writeopen := false;
        procs := WakeUp(procs, true);
      } else {
        pipe.readopen := false;
        procs := WakeUp(procs, false);
      }
    }
  }

  /** Bytes at the end of the stream are bytes at the end of the queue. */
  lemma {:induction false} Streams(s: State, stored: seq<byte>, removed: nat, more: seq<byte>)
    requires removed <= |s.stored| && s.buffer == s.stored[removed..] && s.removed == s.stored[..removed]
    requires stored == s.stored + more
    ensures stored[removed..] == s.buffer + more && stored[..removed] == s.removed
  {
  }

  lemma {:induction false} Taken(stored: seq<byte>, removed: nat, k: nat)
    requires removed + k <= |stored|
    ensures stored[..removed + k] == stored[..removed] + stored[removed..][..k]
    ensures stored[removed + k..] == stored[removed..][k..]
  {
  }
}

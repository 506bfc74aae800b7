/** What log.lh lists: the sectors that the open transaction has logged, each once. */
module LogHeader {
  import opened Blocks
  import opened Log
  import opened LogProtocol
  import opened Seqs

  /** The sectors of the writes. */
  function Sectors(ws: seq<OpWrite>): (r: set<nat>)
    ensures forall b :: b in r <==> exists x :: 0 <= x < |ws| && ws[x].sector == b
  {
    if ws == [] then {}
    else
      var n := |ws| - 1;
      var r := Sectors(ws[..n]) + {ws[n].sector};
      assert forall x :: 0 <= x < n ==> ws[..n][x] == ws[x];
      r
  }

  /** The transaction in the header has been closed: its commit has written the header. */
  predicate Closed(s: State) {
    s.committing && s.pc > |s.lh|
  }

  ghost predicate HeaderInv(s: State) {
    && Distinct(s.lh)
    && (s.mode.Recovering? ==> s.lh == [])
    && (s.mode.Recovering? || Closed(s) ==> s.current == [])
    && (!Closed(s) ==> forall b :: b in Sectors(s.current) <==> b in s.lh)
  }

  lemma {:induction false} PutHeader(s: State, p: nat, sector: word, data: Block)
    requires HeaderInv(s) && Enabled(s, Put(p, sector, data)) && !s.committing
    ensures HeaderInv(DoPut(s, p, sector, data))
  {
    hide Sectors;
    var t := DoPut(s, p, sector, data);
    var w := OpWrite(s.ops[p].serial, sector, data);
    SectorsSnoc(s.current, w);
    assert t.current == s.current + [w];
  }

  lemma {:induction false} SectorsSnoc(ws: seq<OpWrite>, w: OpWrite)
    ensures Sectors(ws + [w]) == Sectors(ws) + {w.sector}
  {
    assert (ws + [w])[..|ws|] == ws;
  }

  lemma {:induction false} StepHeader(s: State, c: Config, e: Event)
    requires HeaderInv(s) && Always(s, c) && Enabled(s, e)
    ensures HeaderInv(Do(s, e))
  {
    hide Sectors, DemandInv, SerialInv, CommitWrite, RecoveryWrite;
    if e.Put? {
      PutAlways(s, c, e.p, e.sector, e.data);
      PutHeader(s, e.p, e.sector, e.data);
    }
    assert Sectors([]) == {};
  }

  lemma {:induction false} RunHeader(ss: seq<State>, es: seq<Event>, c: Config)
    requires IsRun(ss, es, c.limit) && Init(ss[0], c)
    ensures HeaderInv(ss[|es|])
  {
    hide Do, Enabled, Always, Sectors;
    if es == [] {
      assert Sectors([]) == {};
    } else {
      var n := |es| - 1;
      RunHeader(ss[..n + 1], es[..n], c);
      RunAlways(ss[..n + 1], es[..n], c);
      StepHeader(ss[n], c, es[n]);
    }
  }

  /** In every reachable state, for a log of any size: the entries of the header are different, and until
      the commit closes the transaction they are the sectors that its operations have logged. */
  lemma {:induction false} HeaderIsLogged(s: State, c: Config)
    requires Reachable(s, c)
    ensures Distinct(s.lh)
    ensures !Closed(s) ==> (forall b :: b in s.lh <==> b in Sectors(s.current)) && |s.lh| == |Sectors(s.current)|
  {
    hide Init;
    var ss: seq<State>, es: seq<Event> :| IsRun(ss, es, c.limit) && Init(ss[0], c) && ss[|es|] == s;
    RunHeader(ss, es, c);
    if !Closed(s) {
      DistinctSize(s.lh, Sectors(s.current));
    }
  }

  /** The guard of log_write fires exactly when the open transaction has logged as many different sectors
      as header and log have room for. */
  lemma {:induction false} GuardMeans(s: State, c: Config, p: nat)
    requires Reachable(s, c) && Enabled(s, Check(p))
    ensures Do(s, Check(p)).mode.Panicked? <==> |Sectors(s.current)| >= c.Capacity()
  {
    hide Reachable, Sectors;
    HeaderIsLogged(s, c);
    ReachableAlways(s, c);
    Share(s.ops, c.limit, p);
  }
}

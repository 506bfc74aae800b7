/** The buffer cache under every interleaving of its clients, compared with a plain array of blocks.

    A region that bio.c runs under bcache.lock is one event, and so is a transfer to or from the
    disk. `latest` is the plain array: only a holder that changes its buffer changes it. */
module CacheProtocol {
  import opened Blocks
  import opened BufferCache

  datatype Key = Key(dev: nat, sector: nat)

  datatype Option<T> = None | Some(value: T)

  datatype State = State(
    bufs: seq<Buf>,
    order: seq<nat>,
    disk: map<Key, Block>,
    asleep: map<nat, nat>,       // process -> buffer it sleeps on in bget
    lh: set<Key>,                // sectors in the log header
    committing: bool,
    panicked: bool,
    // history, not part of the kernel's memory
    holder: seq<Option<nat>>,    // process between bread and brelse
    touched: seq<bool>,          // changed since bread, log_write or bwrite
    released: seq<nat>,          // time of the last brelse
    clock: nat,
    place: map<Key, nat>,        // the buffer last assigned to a sector
    installed: set<Key>,         // sectors written since the commit began
    latest: map<Key, Block>)

  /** b is a buffer index; k a position in the list. */
  datatype Event =
    | Get(p: nat, key: Key)
    | Read(p: nat, b: nat)
    | Modify(p: nat, b: nat, data: Block)
    | LogWrite(p: nat, b: nat)
    | Bwrite(p: nat, b: nat)
    | Brelse(p: nat, k: nat)
    | BeginCommit
    | EndCommit

  function KeyOf(b: Buf): Key {
    Key(b.dev, b.sector)
  }

  predicate Holds(s: State, p: nat, b: nat) {
    b < |s.holder| && s.holder[b] == Some(p)
  }

  ghost predicate Shape(s: State) {
    |s.bufs| == |s.holder| == |s.touched| == |s.released| == NBUF && IsOrder(s.order)
  }

  /** What bio.c asks of its clients: work only on buffers they hold, pass every changed buffer to
      log_write or bwrite before brelse, write logged sectors home only in a commit, and end a
      commit only after a bwrite of each of them. */
  ghost predicate Enabled(s: State, e: Event)
    requires Shape(s)
  {
    && !s.panicked
    && match e
       case Get(p, key) => p !in s.asleep && key in s.disk && key.dev != NODEV
       case Read(p, b) => Holds(s, p, b) && !s.bufs[b].valid && KeyOf(s.bufs[b]) in s.disk
       case Modify(p, b, _) => Holds(s, p, b) && s.bufs[b].valid
       case LogWrite(p, b) => Holds(s, p, b) && s.bufs[b].valid && !s.committing
       case Bwrite(p, b) => Holds(s, p, b) && s.bufs[b].valid && (KeyOf(s.bufs[b]) in s.lh ==> s.committing)
       case Brelse(p, k) => k < NBUF && Holds(s, p, s.order[k]) && s.bufs[s.order[k]].valid && !s.touched[s.order[k]]
       case BeginCommit => !s.committing
       case EndCommit => s.committing && s.lh <= s.installed
  }

  ghost function Do(s: State, e: Event): State
    requires Shape(s) && Enabled(s, e)
  {
    match e
    case Get(p, key) => DoGet(s, p, key)
    case Read(_, b) => s.(bufs := s.bufs[b := s.bufs[b].(valid := true, data := s.disk[KeyOf(s.bufs[b])])])
    case Modify(_, b, data) => DoModify(s, b, data)
    case LogWrite(_, b) => s.(bufs := s.bufs[b := s.bufs[b].(dirty := true)], touched := s.touched[b := false],
                              lh := s.lh + {KeyOf(s.bufs[b])})
    case Bwrite(_, b) => s.(bufs := s.bufs[b := s.bufs[b].(dirty := false)], touched := s.touched[b := false],
                            disk := s.disk[KeyOf(s.bufs[b]) := s.bufs[b].data],
                            installed := s.installed + {KeyOf(s.bufs[b])})
    case Brelse(_, k) => DoBrelse(s, k)
    case BeginCommit => s.(committing := true, installed := {})
    case EndCommit => s.(committing := false, lh := {})
  }

  ghost function DoGet(s: State, p: nat, key: Key): State
    requires Shape(s)
  {
    var (r, bufs) := Lookup(s.bufs, s.order, key.dev, key.sector);
    match r
    case Got(b) => s.(bufs := bufs, holder := s.holder[b := Some(p)], touched := s.touched[b := false],
                      place := s.place[key := b])
    case Sleep(b) => s.(asleep := s.asleep[p := b])
    case NoBuffers => s.(panicked := true)
  }

  function DoModify(s: State, b: nat, data: Block): State
    requires b < |s.bufs| && b < |s.touched|
  {
    s.(bufs := s.bufs[b := s.bufs[b].(data := data)], touched := s.touched[b := true],
       latest := s.latest[KeyOf(s.bufs[b]) := data])
  }

  ghost function DoBrelse(s: State, k: nat): State
    requires Shape(s) && k < NBUF
  {
    var b := s.order[k];
    s.(bufs := s.bufs[b := s.bufs[b].(busy := false)], order := ToFront(s.order, k), holder := s.holder[b := None],
       released := s.released[b := s.clock], clock := s.clock + 1,
       asleep := map p | p in s.asleep && s.asleep[p] != b :: s.asleep[p])
  }

  // ------------------------------------------------------------------ the invariant

  ghost predicate Covers(order: seq<nat>) {
    forall b :: 0 <= b < NBUF ==> b in order
  }

  /** At most one buffer per sector and one holder per buffer; an idle buffer that has been used
      holds valid data. */
  ghost predicate BufsInv(s: State) {
    && Shape(s) && Covers(s.order)
    && forall b :: 0 <= b < NBUF ==> BufOk(s, b, s.bufs[b], s.holder[b], s.touched[b])
  }

  ghost predicate BufOk(s: State, i: nat, b: Buf, holder: Option<nat>, touched: bool) {
    && (b.dev != NODEV ==> KeyOf(b) in s.place && s.place[KeyOf(b)] == i)
    && (b.busy <==> holder.Some?)
    && (b.dev == NODEV ==> !b.busy && !b.valid && !b.dirty)
    && (b.dev != NODEV ==> KeyOf(b) in s.disk && (b.busy || b.valid))
    && (b.dirty ==> b.valid && KeyOf(b) in s.lh)
    && (touched ==> b.busy && b.valid)
  }

  /** The cache and the disk together are the plain array. */
  ghost predicate DataInv(s: State)
    requires Shape(s)
  {
    && s.disk.Keys == s.latest.Keys
    && (forall b :: 0 <= b < NBUF && s.bufs[b].valid ==> DataOk(s, s.bufs[b], s.touched[b]))
    && (forall key :: key in s.disk && !Cached(s, key) ==> s.disk[key] == s.latest[key])
  }

  ghost predicate DataOk(s: State, b: Buf, touched: bool) {
    var key := KeyOf(b);
    && key in s.disk && key in s.latest && b.data == s.latest[key]
    && (!b.dirty && !touched ==> b.data == s.disk[key])
  }

  ghost predicate Cached(s: State, key: Key)
  {
    exists b :: 0 <= b < |s.bufs| && s.bufs[b].valid && KeyOf(s.bufs[b]) == key
  }

  ghost predicate Pinned(s: State, key: Key)
  {
    exists b :: 0 <= b < |s.bufs| && s.bufs[b].dirty && KeyOf(s.bufs[b]) == key
  }

  /** Sectors of the header that have not been written home. */
  function Due(s: State): set<Key> {
    if s.committing then s.lh - s.installed else s.lh
  }

  /** Sectors that are due are pinned; in a commit those written are clean. */
  ghost predicate LogInv(s: State) {
    && (forall key :: key in Due(s) ==> Pinned(s, key))
    && (s.committing ==> forall key :: key in s.installed ==> !Pinned(s, key))
  }

  /** The list is in last-release order, and whoever sleeps on a buffer will be woken. */
  ghost predicate ListInv(s: State)
    requires Shape(s)
  {
    && (forall i, j :: 0 <= i < j < NBUF ==> s.released[s.order[i]] > s.released[s.order[j]])
    && (forall b :: 0 <= b < NBUF ==> s.released[b] < s.clock)
    && (forall p :: p in s.asleep ==> s.asleep[p] < NBUF && s.bufs[s.asleep[p]].busy)
  }

  ghost predicate Inv(s: State) {
    BufsInv(s) && DataInv(s) && LogInv(s) && ListInv(s)
  }

  /** After binit: no buffer used, and the disk is what there is. */
  ghost predicate Init(s: State) {
    && Shape(s) && !s.panicked && !s.committing && s.lh == {} && s.asleep == map[] && s.latest == s.disk
    && (forall k :: 0 <= k < NBUF ==> s.order[k] == NBUF - 1 - k)
    && (forall b :: 0 <= b < NBUF ==>
          && !s.bufs[b].busy && !s.bufs[b].valid && !s.bufs[b].dirty && s.bufs[b].dev == NODEV
          && s.holder[b] == None && !s.touched[b] && s.released[b] == b)
    && s.clock == NBUF
  }

  // ------------------------------------------------------------------ each event keeps it

  lemma {:induction false} InitInv(s: State)
    requires Init(s)
    ensures Inv(s)
  {
    forall b | 0 <= b < NBUF
      ensures b in s.order
    {
      assert s.order[NBUF - 1 - b] == b;
    }
  }

  /** Only buffer b and the blocks of its sector differ. */
  ghost predicate LocalChange(s: State, t: State, b: nat) {
    && Shape(s) && Shape(t) && b < NBUF && KeyOf(t.bufs[b]) == KeyOf(s.bufs[b])
    && (forall c :: 0 <= c < NBUF && c != b ==>
          t.bufs[c] == s.bufs[c] && t.holder[c] == s.holder[c] && t.touched[c] == s.touched[c])
    && t.disk.Keys == s.disk.Keys && t.latest.Keys == s.latest.Keys
    && (forall key :: key in s.disk && key != KeyOf(s.bufs[b]) ==> t.disk[key] == s.disk[key])
    && (forall key :: key in s.latest && key != KeyOf(s.bufs[b]) ==> t.latest[key] == s.latest[key])
    && s.lh <= t.lh <= s.lh + {KeyOf(s.bufs[b])} && t.committing == s.committing && t.place == s.place
    && s.installed <= t.installed <= s.installed + {KeyOf(s.bufs[b])}
  }

  ghost predicate SameList(s: State, t: State) {
    t.order == s.order && t.released == s.released && t.clock == s.clock && t.asleep == s.asleep
  }

  lemma {:induction false} LocalBufs(s: State, t: State, b: nat)
    requires BufsInv(s) && LocalChange(s, t, b) && SameList(s, t)
    requires BufOk(t, b, t.bufs[b], t.holder[b], t.touched[b])
    ensures BufsInv(t)
  {
    forall c | 0 <= c < NBUF && c != b
      ensures BufOk(t, c, t.bufs[c], t.holder[c], t.touched[c])
    {
      assert BufOk(s, c, s.bufs[c], s.holder[c], s.touched[c]);
    }
  }

  lemma {:induction false} LocalData(s: State, t: State, b: nat)
    requires BufsInv(s) && DataInv(s) && LocalChange(s, t, b) && s.bufs[b].dev != NODEV
    requires t.bufs[b].valid && DataOk(t, t.bufs[b], t.touched[b])
    ensures DataInv(t)
  {
    forall c | 0 <= c < NBUF && t.bufs[c].valid
      ensures DataOk(t, t.bufs[c], t.touched[c])
    {
      if c != b {
        assert BufOk(s, c, s.bufs[c], s.holder[c], s.touched[c]) && BufOk(s, b, s.bufs[b], s.holder[b], s.touched[b]);
        assert KeyOf(s.bufs[c]) != KeyOf(s.bufs[b]);
        assert DataOk(s, s.bufs[c], s.touched[c]);
      }
    }
    forall key | Cached(s, key)
      ensures Cached(t, key)
    {
      var c :| 0 <= c < |s.bufs| && s.bufs[c].valid && KeyOf(s.bufs[c]) == key;
      assert t.bufs[c].valid && KeyOf(t.bufs[c]) == key;
    }
    assert Cached(t, KeyOf(s.bufs[b]));
  }

  lemma {:induction false} LocalLog(s: State, t: State, b: nat)
    requires LogInv(s) && LocalChange(s, t, b)
    requires KeyOf(s.bufs[b]) in Due(t) ==> t.bufs[b].dirty
    requires s.committing && t.bufs[b].dirty ==> s.bufs[b].dirty && t.installed == s.installed
    requires s.committing && KeyOf(s.bufs[b]) in t.installed ==> OnlyPlace(s, b)
    ensures LogInv(t)
  {
    forall key | key in Due(t)
      ensures Pinned(t, key)
    {
      if key == KeyOf(s.bufs[b]) {
        assert t.bufs[b].dirty;
      } else {
        assert key in Due(s);
        var c :| 0 <= c < |s.bufs| && s.bufs[c].dirty && KeyOf(s.bufs[c]) == key;
        assert t.bufs[c].dirty;
      }
    }
    if t.committing {
      forall c | 0 <= c < NBUF && t.bufs[c].dirty
        ensures KeyOf(t.bufs[c]) !in t.installed
      {
        assert s.bufs[c].dirty && Pinned(s, KeyOf(s.bufs[c]));
      }
    }
  }

  /** No other buffer caches the sector of buffer b. */
  ghost predicate OnlyPlace(s: State, b: nat)
    requires b < |s.bufs|
  {
    forall c :: 0 <= c < |s.bufs| && KeyOf(s.bufs[c]) == KeyOf(s.bufs[b]) ==> c == b
  }

  lemma {:induction false} Alone(s: State, b: nat)
    requires BufsInv(s) && b < NBUF && s.bufs[b].dev != NODEV
    ensures OnlyPlace(s, b)
  {
    assert BufOk(s, b, s.bufs[b], s.holder[b], s.touched[b]);
    forall c | 0 <= c < NBUF && KeyOf(s.bufs[c]) == KeyOf(s.bufs[b])
      ensures c == b
    {
      assert BufOk(s, c, s.bufs[c], s.holder[c], s.touched[c]);
    }
  }

  /** A sector in the header is pinned by the buffer that caches it. */
  lemma {:induction false} LoggedIsDirty(s: State, b: nat)
    requires BufsInv(s) && LogInv(s) && b < NBUF && KeyOf(s.bufs[b]) in Due(s) && s.bufs[b].dev != NODEV
    ensures s.bufs[b].dirty
  {
    var c :| 0 <= c < |s.bufs| && s.bufs[c].dirty && KeyOf(s.bufs[c]) == KeyOf(s.bufs[b]);
    assert BufOk(s, c, s.bufs[c], s.holder[c], s.touched[c]) && BufOk(s, b, s.bufs[b], s.holder[b], s.touched[b]);
  }

  lemma {:induction false} LocalKeeps(s: State, t: State, b: nat)
    requires Inv(s) && LocalChange(s, t, b) && SameList(s, t) && s.bufs[b].dev != NODEV
    requires BufOk(t, b, t.bufs[b], t.holder[b], t.touched[b]) && t.bufs[b].busy
    requires t.bufs[b].valid && DataOk(t, t.bufs[b], t.touched[b])
    requires KeyOf(s.bufs[b]) in Due(t) ==> t.bufs[b].dirty
    requires s.committing && t.bufs[b].dirty ==> s.bufs[b].dirty && t.installed == s.installed
    ensures Inv(t)
  {
    Alone(s, b);
    LocalBufs(s, t, b);
    LocalData(s, t, b);
    LocalLog(s, t, b);
  }

  lemma {:induction false} ReadKeeps(s: State, p: nat, b: nat)
    requires Inv(s) && Enabled(s, Read(p, b))
    ensures Inv(Do(s, Read(p, b)))
  {
    assert BufOk(s, b, s.bufs[b], s.holder[b], s.touched[b]);
    Alone(s, b);
    assert !Cached(s, KeyOf(s.bufs[b]));
    if KeyOf(s.bufs[b]) in Due(s) {
      LoggedIsDirty(s, b);
    }
    LocalKeeps(s, Do(s, Read(p, b)), b);
  }

  lemma {:induction false} ModifyKeeps(s: State, p: nat, b: nat, data: Block)
    requires Inv(s) && Enabled(s, Modify(p, b, data))
    ensures Inv(DoModify(s, b, data))
  {
    assert BufOk(s, b, s.bufs[b], s.holder[b], s.touched[b]);
    if KeyOf(s.bufs[b]) in Due(s) {
      LoggedIsDirty(s, b);
    }
    LocalKeeps(s, DoModify(s, b, data), b);
  }

  lemma {:induction false} LogWriteKeeps(s: State, p: nat, b: nat)
    requires Inv(s) && Enabled(s, LogWrite(p, b))
    ensures Inv(Do(s, LogWrite(p, b)))
  {
    assert BufOk(s, b, s.bufs[b], s.holder[b], s.touched[b]);
    LocalKeeps(s, Do(s, LogWrite(p, b)), b);
  }

  lemma {:induction false} BwriteKeeps(s: State, p: nat, b: nat)
    requires Inv(s) && Enabled(s, Bwrite(p, b))
    ensures Inv(Do(s, Bwrite(p, b)))
  {
    assert BufOk(s, b, s.bufs[b], s.holder[b], s.touched[b]);
    LocalKeeps(s, Do(s, Bwrite(p, b)), b);
  }

  lemma {:induction false} ToFrontKeeps(order: seq<nat>, k: nat)
    requires IsOrder(order) && Covers(order) && k < NBUF
    ensures IsOrder(ToFront(order, k)) && Covers(ToFront(order, k))
    ensures forall i :: 0 < i < NBUF ==> ToFront(order, k)[i] == order[if i <= k then i - 1 else i]
  {
    var r := ToFront(order, k);
    forall b | 0 <= b < NBUF
      ensures b in r
    {
      assert b in order;
      var i :| 0 <= i < |order| && order[i] == b;
      assert r[if i == k then 0 else if i < k then i + 1 else i] == b;
    }
  }

  /** Buffers and blocks do not depend on the list and on who sleeps. */
  lemma {:induction false} SameBufs(s: State, t: State)
    requires BufsInv(s) && DataInv(s) && LogInv(s) && Shape(t) && Covers(t.order)
    requires t == s.(order := t.order, released := t.released, clock := t.clock, asleep := t.asleep)
    ensures BufsInv(t) && DataInv(t) && LogInv(t)
  {
    hide Covers, IsOrder;
    assert forall key :: Cached(t, key) <==> Cached(s, key);
    assert forall key :: Pinned(t, key) <==> Pinned(s, key);
    forall c | 0 <= c < NBUF
      ensures BufOk(t, c, t.bufs[c], t.holder[c], t.touched[c])
    {
      assert BufOk(s, c, s.bufs[c], s.holder[c], s.touched[c]);
    }
    forall c | 0 <= c < NBUF && t.bufs[c].valid
      ensures DataOk(t, t.bufs[c], t.touched[c])
    {
      assert DataOk(s, s.bufs[c], s.touched[c]);
    }
  }

  /** The buffer itself, before it moves in the list. */
  lemma {:induction false} IdleKeeps(s: State, u: State, b: nat)
    requires Inv(s) && b < NBUF && s.bufs[b].valid && !s.touched[b]
    requires u == s.(bufs := s.bufs[b := s.bufs[b].(busy := false)], holder := s.holder[b := None])
    ensures BufsInv(u) && DataInv(u) && LogInv(u)
  {
    assert BufOk(s, b, s.bufs[b], s.holder[b], s.touched[b]);
    LocalBufs(s, u, b);
    LocalData(s, u, b);
    Alone(s, b);
    if KeyOf(s.bufs[b]) in Due(s) {
      LoggedIsDirty(s, b);
    }
    LocalLog(s, u, b);
  }

  lemma {:induction false} BrelseKeeps(s: State, p: nat, k: nat)
    requires Inv(s) && Enabled(s, Brelse(p, k))
    ensures Inv(DoBrelse(s, k))
  {
    hide ListInv, DataInv, LogInv, BufOk, Covers, ToFront;
    var b := s.order[k];
    var u := s.(bufs := s.bufs[b := s.bufs[b].(busy := false)], holder := s.holder[b := None]);
    ToFrontKeeps(s.order, k);
    IdleKeeps(s, u, b);
    BrelseList(s, k);
    SameBufs(u, DoBrelse(s, k));
  }

  lemma {:induction false} BrelseList(s: State, k: nat)
    requires BufsInv(s) && ListInv(s) && k < NBUF
    ensures var t := DoBrelse(s, k); Shape(t) && ListInv(t)
  {
    ToFrontKeeps(s.order, k);
    var t, b := DoBrelse(s, k), s.order[k];
    forall i, j | 0 <= i < j < NBUF
      ensures t.released[t.order[i]] > t.released[t.order[j]]
    {
      assert t.order[j] == s.order[if j <= k then j - 1 else j] != b;
    }
  }

  // ------------------------------------------------------------------ bget

  lemma {:induction false} CachesKey(b: Buf, key: Key)
    ensures b.Caches(key.dev, key.sector) <==> KeyOf(b) == key
  {
  }

  /** A sector that no position of the list caches is in no buffer. */
  lemma {:induction false} MissedEverywhere(s: State, key: Key)
    requires Shape(s) && Covers(s.order)
    requires First(s.bufs, s.order, key.dev, key.sector, 0) == NBUF
    ensures forall b :: 0 <= b < NBUF ==> KeyOf(s.bufs[b]) != key
  {
    forall b | 0 <= b < NBUF
      ensures KeyOf(s.bufs[b]) != key
    {
      assert b in s.order;
      var i :| 0 <= i < |s.order| && s.order[i] == b;
      CachesKey(s.bufs[s.order[i]], key);
    }
  }

  /** bget finds the sector in a buffer that is idle. */
  lemma {:induction false} HitIdle(s: State, t: State, p: nat, b: nat)
    requires Inv(s) && b < NBUF && s.bufs[b].dev != NODEV && !s.bufs[b].busy
    requires t == s.(bufs := s.bufs[b := s.bufs[b].(busy := true)], holder := s.holder[b := Some(p)],
                     touched := s.touched[b := false])
    ensures Inv(t)
  {
    assert BufOk(s, b, s.bufs[b], s.holder[b], s.touched[b]);
    if KeyOf(s.bufs[b]) in Due(s) {
      LoggedIsDirty(s, b);
    }
    LocalKeeps(s, t, b);
  }

  lemma {:induction false} HitKeeps(s: State, p: nat, key: Key)
    requires Inv(s) && Enabled(s, Get(p, key))
    requires First(s.bufs, s.order, key.dev, key.sector, 0) < NBUF
    ensures Inv(DoGet(s, p, key))
  {
    hide DataInv, LogInv, First;
    var b := s.order[First(s.bufs, s.order, key.dev, key.sector, 0)];
    assert BufOk(s, b, s.bufs[b], s.holder[b], s.touched[b]);
    if s.bufs[b].busy {
      AsleepKeeps(s, DoGet(s, p, key), p, b);
    } else {
      assert s.place[key := b] == s.place;
      HitIdle(s, DoGet(s, p, key), p, b);
    }
  }

  lemma {:induction false} AsleepKeeps(s: State, t: State, p: nat, b: nat)
    requires Inv(s) && b < NBUF && s.bufs[b].busy && t == s.(asleep := s.asleep[p := b])
    ensures Inv(t)
  {
    hide DataInv, LogInv, BufOk, Covers;
    SameBufs(s, t);
  }

  /** What bget does when the sector is not cached: buffer b, free, is now for it. */
  ghost predicate Recycles(s: State, t: State, b: nat, p: nat, key: Key) {
    && Shape(s) && Shape(t) && b < NBUF && s.bufs[b].Free() && key.dev != NODEV && key in s.disk
    && (forall c :: 0 <= c < NBUF ==> KeyOf(s.bufs[c]) != key)
    && t == s.(bufs := s.bufs[b := Buf(key.dev, key.sector, true, false, false, s.bufs[b].data)],
               holder := s.holder[b := Some(p)], touched := s.touched[b := false], place := s.place[key := b])
  }

  lemma {:induction false} RecycleBufs(s: State, t: State, b: nat, p: nat, key: Key)
    requires BufsInv(s) && Recycles(s, t, b, p, key)
    ensures BufsInv(t)
  {
    forall c | 0 <= c < NBUF && c != b
      ensures BufOk(t, c, t.bufs[c], t.holder[c], t.touched[c])
    {
      assert BufOk(s, c, s.bufs[c], s.holder[c], s.touched[c]) && t.bufs[c] == s.bufs[c];
    }
  }

  /** The recycled buffer was clean: what it cached is on the disk, and nothing pinned is lost. */
  lemma {:induction false} RecycleData(s: State, t: State, b: nat, p: nat, key: Key)
    requires BufsInv(s) && DataInv(s) && Recycles(s, t, b, p, key)
    ensures DataInv(t)
  {
    hide IsOrder, Covers;
    assert BufOk(s, b, s.bufs[b], s.holder[b], s.touched[b]);
    forall k | Cached(s, k)
      ensures Cached(t, k) || (k in s.disk && k in s.latest && s.disk[k] == s.latest[k])
    {
      var c :| 0 <= c < |s.bufs| && s.bufs[c].valid && KeyOf(s.bufs[c]) == k;
      if c == b {
        assert DataOk(s, s.bufs[c], s.touched[c]);
      } else {
        assert t.bufs[c] == s.bufs[c];
      }
    }
    forall c | 0 <= c < NBUF && t.bufs[c].valid
      ensures DataOk(t, t.bufs[c], t.touched[c])
    {
      assert t.bufs[c] == s.bufs[c] && DataOk(s, s.bufs[c], s.touched[c]);
    }
  }

  lemma {:induction false} RecycleLog(s: State, t: State, b: nat, p: nat, key: Key)
    requires LogInv(s) && Recycles(s, t, b, p, key)
    ensures LogInv(t)
  {
    hide IsOrder;
    forall k | Pinned(s, k)
      ensures Pinned(t, k)
    {
      var c :| 0 <= c < |s.bufs| && s.bufs[c].dirty && KeyOf(s.bufs[c]) == k;
      assert t.bufs[c] == s.bufs[c];
    }
    forall k | Pinned(t, k)
      ensures Pinned(s, k)
    {
      var c :| 0 <= c < |t.bufs| && t.bufs[c].dirty && KeyOf(t.bufs[c]) == k;
      assert t.bufs[c] == s.bufs[c];
    }
  }

  lemma {:induction false} GetRecycles(s: State, p: nat, key: Key)
    requires BufsInv(s) && Enabled(s, Get(p, key))
    requires First(s.bufs, s.order, key.dev, key.sector, 0) == NBUF
    requires Victim(s.bufs, s.order, NBUF - 1) >= 0
    ensures Recycles(s, DoGet(s, p, key), s.order[Victim(s.bufs, s.order, NBUF - 1)], p, key)
  {
    MissedEverywhere(s, key);
  }

  lemma {:induction false} GetPanics(s: State, p: nat, key: Key)
    requires Shape(s)
    requires First(s.bufs, s.order, key.dev, key.sector, 0) == NBUF
    requires Victim(s.bufs, s.order, NBUF - 1) < 0
    ensures DoGet(s, p, key) == s.(panicked := true)
  {
  }

  lemma {:induction false} MissKeeps(s: State, p: nat, key: Key)
    requires Inv(s) && Enabled(s, Get(p, key))
    requires First(s.bufs, s.order, key.dev, key.sector, 0) == NBUF
    requires Victim(s.bufs, s.order, NBUF - 1) >= 0
    ensures Inv(DoGet(s, p, key))
  {
    GetRecycles(s, p, key);
    RecycleKeeps(s, DoGet(s, p, key), s.order[Victim(s.bufs, s.order, NBUF - 1)], p, key);
  }

  lemma {:induction false} RecycleKeeps(s: State, t: State, b: nat, p: nat, key: Key)
    requires Inv(s) && Recycles(s, t, b, p, key)
    ensures Inv(t)
  {
    RecycleBufs(s, t, b, p, key);
    RecycleData(s, t, b, p, key);
    RecycleLog(s, t, b, p, key);
  }

  lemma {:induction false} PanicKeeps(s: State)
    requires Inv(s)
    ensures Inv(s.(panicked := true))
  {
    var t := s.(panicked := true);
    assert forall key :: Cached(t, key) <==> Cached(s, key);
    assert forall key :: Pinned(s, key) <==> Pinned(t, key);
  }

  lemma {:induction false} GetKeeps(s: State, p: nat, key: Key)
    requires Inv(s) && Enabled(s, Get(p, key))
    ensures Inv(DoGet(s, p, key))
  {
    if First(s.bufs, s.order, key.dev, key.sector, 0) < NBUF {
      HitKeeps(s, p, key);
    } else if Victim(s.bufs, s.order, NBUF - 1) >= 0 {
      MissKeeps(s, p, key);
    } else {
      GetPanics(s, p, key);
      PanicKeeps(s);
    }
  }

  lemma {:induction false} StepKeeps(s: State, e: Event)
    requires Inv(s) && Enabled(s, e)
    ensures Inv(Do(s, e))
  {
    match e
    case Get(p, key) => GetKeeps(s, p, key);
    case Read(p, b) => ReadKeeps(s, p, b);
    case Modify(p, b, data) => ModifyKeeps(s, p, b, data);
    case LogWrite(p, b) => LogWriteKeeps(s, p, b);
    case Bwrite(p, b) => BwriteKeeps(s, p, b);
    case Brelse(p, k) => BrelseKeeps(s, p, k);
    case BeginCommit => CommitKeeps(s, e);
    case EndCommit => CommitKeeps(s, e);
  }

  /** The sectors of the header have been written, so no buffer is dirty when the commit ends. */
  lemma {:induction false} InstalledClean(s: State)
    requires BufsInv(s) && LogInv(s) && Enabled(s, EndCommit)
    ensures forall b :: 0 <= b < NBUF ==> !s.bufs[b].dirty
  {
    forall b | 0 <= b < NBUF && s.bufs[b].dirty
      ensures false
    {
      assert BufOk(s, b, s.bufs[b], s.holder[b], s.touched[b]);
      assert Pinned(s, KeyOf(s.bufs[b]));
    }
  }

  lemma {:induction false} CommitKeeps(s: State, e: Event)
    requires Inv(s) && Enabled(s, e) && (e.BeginCommit? || e.EndCommit?)
    ensures Inv(Do(s, e))
  {
    if e.EndCommit? {
      InstalledClean(s);
    }
    var t := Do(s, e);
    assert forall key :: Cached(t, key) <==> Cached(s, key);
    assert forall key :: Pinned(t, key) <==> Pinned(s, key);
    forall b | 0 <= b < NBUF
      ensures BufOk(t, b, t.bufs[b], t.holder[b], t.touched[b])
    {
      assert BufOk(s, b, s.bufs[b], s.holder[b], s.touched[b]);
    }
    assert forall b :: 0 <= b < NBUF && t.bufs[b].valid ==> DataOk(s, s.bufs[b], s.touched[b]);
  }

  // ------------------------------------------------------------------ runs

  ghost predicate IsRun(ss: seq<State>, es: seq<Event>) {
    && |ss| == |es| + 1
    && (es == [] ==> Init(ss[0]))
    && (es != [] ==>
          var n := |es| - 1;
          IsRun(ss[..n + 1], es[..n]) && Shape(ss[n]) && Enabled(ss[n], es[n]) && ss[n + 1] == Do(ss[n], es[n]))
  }

  lemma {:induction false} RunInv(ss: seq<State>, es: seq<Event>)
    requires IsRun(ss, es)
    ensures Inv(ss[|es|])
  {
    if es == [] {
      InitInv(ss[0]);
    } else {
      var n := |es| - 1;
      RunInv(ss[..n + 1], es[..n]);
      StepKeeps(ss[n], es[n]);
    }
  }

  /** In every state of every run: a held buffer whose data bread has delivered shows what the
      plain array holds; nobody else holds it, and no other buffer caches its sector. */
  lemma {:induction false} BreadReturnsLatest(ss: seq<State>, es: seq<Event>, p: nat, b: nat)
    requires IsRun(ss, es)
    requires var s := ss[|es|]; Shape(s) && Holds(s, p, b) && s.bufs[b].valid
    ensures var s := ss[|es|];
            && KeyOf(s.bufs[b]) in s.latest && s.bufs[b].data == s.latest[KeyOf(s.bufs[b])]
            && forall c :: 0 <= c < NBUF && c != b ==> KeyOf(s.bufs[c]) != KeyOf(s.bufs[b])
  {
    RunInv(ss, es);
    var s := ss[|es|];
    assert BufOk(s, b, s.bufs[b], s.holder[b], s.touched[b]);
    forall c | 0 <= c < NBUF && c != b
      ensures KeyOf(s.bufs[c]) != KeyOf(s.bufs[b])
    {
      assert BufOk(s, c, s.bufs[c], s.holder[c], s.touched[c]);
    }
  }

  /** Outside commits the dirty buffers are exactly the sectors in the log header, and every
      other sector of the plain array that no client is changing is on the disk. */
  lemma {:induction false} DirtyMeansLogged(ss: seq<State>, es: seq<Event>, key: Key)
    requires IsRun(ss, es)
    requires !ss[|es|].committing
    ensures var s := ss[|es|];
            && (key in s.lh <==> Pinned(s, key))
            && (key in s.disk && key in s.latest && key !in s.lh && s.disk[key] != s.latest[key] ==>
                  exists b :: 0 <= b < |s.bufs| && b < |s.touched| && s.touched[b] && KeyOf(s.bufs[b]) == key)
  {
    RunInv(ss, es);
    var s := ss[|es|];
    if key in s.disk && key in s.latest && key !in s.lh && s.disk[key] != s.latest[key] {
      assert Cached(s, key);
      var b :| 0 <= b < |s.bufs| && s.bufs[b].valid && KeyOf(s.bufs[b]) == key;
      assert s.touched[b];
    }
  }

  /** bget recycles the free buffer that has been released longest ago. */
  lemma {:induction false} RecyclesLeastRecent(ss: seq<State>, es: seq<Event>, b: nat)
    requires IsRun(ss, es) && b < NBUF
    requires var s := ss[|es|]; Shape(s) && s.bufs[b].Free()
    ensures var s := ss[|es|];
            var v := Victim(s.bufs, s.order, NBUF - 1);
            && v >= 0 && s.bufs[s.order[v]].Free()
            && s.released[s.order[v]] <= s.released[b]
  {
    RunInv(ss, es);
    var s := ss[|es|];
    assert b in s.order;
    var i :| 0 <= i < |s.order| && s.order[i] == b;
    assert i <= Victim(s.bufs, s.order, NBUF - 1);
  }

  // ------------------------------------------------------------------ when bget panics

  ghost predicate Reached(s: State) {
    exists ss: seq<State>, es: seq<Event> :: IsRun(ss, es) && ss[|es|] == s
  }

  lemma {:induction false} ReachedStep(s: State, e: Event)
    requires Reached(s) && Shape(s) && Enabled(s, e)
    ensures Reached(Do(s, e))
  {
    hide Do, Enabled, Shape, Init;
    var ss: seq<State>, es: seq<Event> :| IsRun(ss, es) && ss[|es|] == s;
    assert (ss + [Do(s, e)])[..|ss|] == ss && (es + [e])[..|es|] == es;
    assert IsRun(ss + [Do(s, e)], es + [e]);
  }

  lemma {:induction false} ReachedInv(s: State)
    requires Reached(s)
    ensures Inv(s)
  {
    hide Inv;
    var ss: seq<State>, es: seq<Event> :| IsRun(ss, es) && ss[|es|] == s;
    RunInv(ss, es);
  }

  lemma {:induction false} NoVictim(s: State)
    requires Shape(s) && Covers(s.order)
    ensures Victim(s.bufs, s.order, NBUF - 1) < 0 <==> forall b :: 0 <= b < NBUF ==> !s.bufs[b].Free()
  {
    forall b | 0 <= b < NBUF && Victim(s.bufs, s.order, NBUF - 1) < 0
      ensures !s.bufs[b].Free()
    {
      assert b in s.order;
      var i :| 0 <= i < |s.order| && s.order[i] == b;
    }
  }

  /** bget panics exactly if the sector is not cached and every buffer is busy or dirty. */
  lemma {:induction false} BgetPanicsExact(s: State, p: nat, key: Key)
    requires Shape(s) && Covers(s.order) && !s.panicked
    ensures DoGet(s, p, key).panicked <==>
              && (forall b :: 0 <= b < NBUF ==> KeyOf(s.bufs[b]) != key)
              && (forall b :: 0 <= b < NBUF ==> !s.bufs[b].Free())
  {
    hide Covers, First, Victim, Buf.Free;
    var f := First(s.bufs, s.order, key.dev, key.sector, 0);
    NoVictim(s);
    if f < NBUF {
      assert KeyOf(s.bufs[s.order[f]]) == key;
    } else {
      MissedEverywhere(s, key);
    }
  }

  /** The sectors of the first n buffers that are dirty. */
  function DirtyKeys(bufs: seq<Buf>, n: nat): set<Key>
    requires n <= |bufs|
  {
    if n == 0 then {} else DirtyKeys(bufs, n - 1) + if bufs[n - 1].dirty then {KeyOf(bufs[n - 1])} else {}
  }

  lemma {:induction false} DirtyKeysIn(bufs: seq<Buf>, n: nat, key: Key)
    requires n <= |bufs|
    ensures key in DirtyKeys(bufs, n) <==> exists b :: 0 <= b < n && bufs[b].dirty && KeyOf(bufs[b]) == key
  {
    if n > 0 {
      DirtyKeysIn(bufs, n - 1, key);
    }
  }

  lemma {:induction false} DirtyKeysSize(bufs: seq<Buf>, n: nat)
    requires n <= |bufs|
    requires forall b, c :: 0 <= b < c < |bufs| && bufs[b].dirty && bufs[c].dirty ==> KeyOf(bufs[b]) != KeyOf(bufs[c])
    ensures |DirtyKeys(bufs, n)| <= n
    ensures |DirtyKeys(bufs, n)| == n <==> forall b :: 0 <= b < n ==> bufs[b].dirty
  {
    if n > 0 {
      DirtyKeysSize(bufs, n - 1);
      DirtyKeysIn(bufs, n - 1, KeyOf(bufs[n - 1]));
    }
  }

  /** Outside a commit the header fills the cache exactly if every buffer is dirty. */
  lemma {:induction false} HeaderFillsCache(s: State)
    requires BufsInv(s) && LogInv(s) && !s.committing
    ensures |s.lh| <= NBUF && (|s.lh| == NBUF <==> forall b :: 0 <= b < NBUF ==> s.bufs[b].dirty)
  {
    forall b | 0 <= b < NBUF && s.bufs[b].dirty
      ensures KeyOf(s.bufs[b]) in s.lh && OnlyPlace(s, b)
    {
      assert BufOk(s, b, s.bufs[b], s.holder[b], s.touched[b]);
      Alone(s, b);
    }
    DirtyKeysSize(s.bufs, NBUF);
    forall key
      ensures key in DirtyKeys(s.bufs, NBUF) <==> key in s.lh
    {
      DirtyKeysIn(s.bufs, NBUF, key);
      assert key in Due(s) ==> Pinned(s, key);
    }
    assert DirtyKeys(s.bufs, NBUF) == s.lh;
  }

  /** The first bread of a commit, write_log's of the first log block, panics exactly if the
      transaction has NBUF sectors, when nobody else holds a buffer: NBUF is LOGSIZE. */
  lemma {:induction false} CommitPanicsExact(s: State, p: nat, key: Key)
    requires Reached(s) && Shape(s) && Enabled(s, BeginCommit) && Enabled(s, Get(p, key)) && key !in s.lh
    requires forall b :: 0 <= b < NBUF ==> s.holder[b] == None
    ensures Do(Do(s, BeginCommit), Get(p, key)).panicked <==> |s.lh| == NBUF
  {
    hide Reached;
    ReachedInv(s);
    var t := Do(s, BeginCommit);
    StepKeeps(s, BeginCommit);
    HeaderFillsCache(s);
    BgetPanicsExact(t, p, key);
    forall b | 0 <= b < NBUF
      ensures !s.bufs[b].busy && (s.bufs[b].dirty ==> KeyOf(s.bufs[b]) != key)
    {
      assert BufOk(s, b, s.bufs[b], s.holder[b], s.touched[b]);
    }
  }

  /** A header smaller than the cache leaves a buffer that is not dirty. */
  lemma {:induction false} CleanBuffer(s: State)
    requires BufsInv(s) && |s.lh| < NBUF
    ensures exists b :: 0 <= b < NBUF && !s.bufs[b].dirty
  {
    forall b | 0 <= b < NBUF && s.bufs[b].dirty
      ensures KeyOf(s.bufs[b]) in s.lh && OnlyPlace(s, b)
    {
      assert BufOk(s, b, s.bufs[b], s.holder[b], s.touched[b]);
      Alone(s, b);
    }
    DirtyKeysSize(s.bufs, NBUF);
    var d := DirtyKeys(s.bufs, NBUF);
    forall key | key in d
      ensures key in s.lh
    {
      DirtyKeysIn(s.bufs, NBUF, key);
    }
    assert d + (s.lh - d) == s.lh;
  }

  /** Where write_log, write_head and install_trans call bread: nobody holds a buffer; or the process
      holds the buffer of a log block, and reads a sector of the header that it has not written home. */
  ghost predicate CommitCalls(s: State, p: nat, key: Key)
    requires Shape(s)
  {
    || (forall b :: 0 <= b < NBUF ==> s.holder[b] == None)
    || (key in Due(s) && forall b :: 0 <= b < NBUF && s.holder[b].Some? ==> Holds(s, p, b) && KeyOf(s.bufs[b]) != key)
  }

  /** With no other holder, no bread of a commit of fewer than NBUF sectors panics or sleeps. */
  lemma {:induction false} CommitBreads(s: State, p: nat, key: Key)
    requires Reached(s) && Shape(s) && s.committing && |s.lh| < NBUF && Enabled(s, Get(p, key))
    requires CommitCalls(s, p, key)
    ensures !DoGet(s, p, key).panicked && exists b :: 0 <= b < NBUF && Holds(DoGet(s, p, key), p, b)
  {
    hide Reached, First, Victim;
    ReachedInv(s);
    CleanBuffer(s);
    CommitBuffer(s, p, key);
    BgetPanicsExact(s, p, key);
    NotBusy(s, p, key);
    var f := First(s.bufs, s.order, key.dev, key.sector, 0);
    if f < NBUF {
      assert Holds(DoGet(s, p, key), p, s.order[f]);
    } else {
      assert Holds(DoGet(s, p, key), p, s.order[Victim(s.bufs, s.order, NBUF - 1)]);
    }
  }

  lemma {:induction false} CommitBuffer(s: State, p: nat, key: Key)
    requires Inv(s) && CommitCalls(s, p, key) && exists b :: 0 <= b < NBUF && !s.bufs[b].dirty
    ensures exists b :: 0 <= b < NBUF && (KeyOf(s.bufs[b]) == key || s.bufs[b].Free())
  {
    if key in Due(s) {
      var b :| 0 <= b < |s.bufs| && s.bufs[b].dirty && KeyOf(s.bufs[b]) == key;
      assert KeyOf(s.bufs[b]) == key;
    } else {
      var b :| 0 <= b < NBUF && !s.bufs[b].dirty;
      assert BufOk(s, b, s.bufs[b], s.holder[b], s.touched[b]);
      assert s.bufs[b].Free();
    }
  }

  lemma {:induction false} NotBusy(s: State, p: nat, key: Key)
    requires Inv(s) && CommitCalls(s, p, key)
    ensures forall b :: 0 <= b < NBUF && KeyOf(s.bufs[b]) == key ==> !s.bufs[b].busy
  {
    forall b | 0 <= b < NBUF && KeyOf(s.bufs[b]) == key
      ensures !s.bufs[b].busy
    {
      assert BufOk(s, b, s.bufs[b], s.holder[b], s.touched[b]);
    }
  }

  // ------------------------------------------------------------------ a run that fills the cache

  function Sectors(k: nat): (r: set<Key>)
    ensures |r| == k && forall key :: key in r <==> key.dev == 1 && key.sector < k
  {
    if k == 0 then {} else Sectors(k - 1) + {Key(1, k - 1)}
  }

  lemma {:induction false} SectorsNext(k: nat)
    ensures Sectors(k + 1) == Sectors(k) + {Key(1, k)}
  {
    assert forall key :: key in Sectors(k) ==> key in Sectors(k + 1);
  }

  predicate HasSectors(disk: map<Key, Block>) {
    forall k :: 0 <= k <= NBUF ==> Key(1, k) in disk
  }

  /** The first k sectors are in the header, nothing else is cached, and nobody holds a buffer. */
  ghost predicate Logged(s: State, k: nat) {
    && Reached(s) && Shape(s) && !s.panicked && !s.committing && s.asleep == map[] && s.lh == Sectors(k)
    && HasSectors(s.disk)
    && (forall b :: 0 <= b < NBUF ==> s.holder[b] == None)
    && (forall b :: 0 <= b < NBUF && s.bufs[b].dev != NODEV ==> KeyOf(s.bufs[b]) in s.lh)
  }

  lemma {:induction false} LoggedStart(data: Block) returns (t: State)
    ensures Logged(t, 0)
  {
    var disk := map k | 0 <= k <= NBUF :: Key(1, k) := data;
    t := State(seq(NBUF, _ => Buf(NODEV, 0, false, false, false, data)),
               seq(NBUF, k requires 0 <= k < NBUF => NBUF - 1 - k), disk, map[], {}, false, false,
               seq(NBUF, _ => None), seq(NBUF, _ => false), seq(NBUF, b requires b >= 0 => b), NBUF, map[], {}, disk);
    assert IsRun([t], []);
  }

  /** bread of the next sector takes a fresh buffer. */
  lemma {:induction false} FetchNext(s: State, k: nat) returns (t: State, b: nat)
    requires Logged(s, k) && k < NBUF
    ensures Reached(t) && Recycles(s, t, b, 0, Key(1, k))
  {
    hide Recycles, Inv, Do;
    var key := Key(1, k);
    ReachedInv(s);
    HasFree(s, k);
    assert Enabled(s, Get(0, key));
    GetFresh(s, key);
    ReachedStep(s, Get(0, key));
    DoesGet(s, key);
    b := s.order[Victim(s.bufs, s.order, NBUF - 1)];
    t := DoGet(s, 0, key);
  }

  lemma {:induction false} DoesGet(s: State, key: Key)
    requires Shape(s) && Enabled(s, Get(0, key))
    ensures Do(s, Get(0, key)) == DoGet(s, 0, key)
  {
  }

  lemma {:induction false} HasFree(s: State, k: nat)
    requires Inv(s) && Logged(s, k) && k < NBUF
    ensures Covers(s.order) && exists b :: 0 <= b < NBUF && s.bufs[b].Free()
  {
    HeaderFillsCache(s);
    var b :| 0 <= b < NBUF && !s.bufs[b].dirty;
    assert BufOk(s, b, s.bufs[b], s.holder[b], s.touched[b]);
    assert s.bufs[b].Free();
  }

  lemma {:induction false} GetFresh(s: State, key: Key)
    requires Inv(s) && Shape(s) && Enabled(s, Get(0, key)) && key !in s.lh
    requires forall b :: 0 <= b < NBUF && s.bufs[b].dev != NODEV ==> KeyOf(s.bufs[b]) in s.lh
    requires exists b :: 0 <= b < NBUF && s.bufs[b].Free()
    ensures Victim(s.bufs, s.order, NBUF - 1) >= 0
    ensures Recycles(s, DoGet(s, 0, key), s.order[Victim(s.bufs, s.order, NBUF - 1)], 0, key)
  {
    hide BufOk, DataInv, LogInv, ListInv, Recycles;
    NoVictim(s);
    assert First(s.bufs, s.order, key.dev, key.sector, 0) == NBUF;
    GetRecycles(s, 0, key);
  }

  /** Like Logged, but process 0 holds buffer b, for the next sector. */
  ghost predicate Holding(s: State, k: nat, b: nat) {
    && Reached(s) && Shape(s) && b < NBUF && !s.panicked && !s.committing && s.asleep == map[]
    && (s.lh == Sectors(k) || s.lh == Sectors(k + 1)) && HasSectors(s.disk)
    && KeyOf(s.bufs[b]) == Key(1, k) && s.holder[b] == Some(0) && !s.touched[b]
    && (forall c :: 0 <= c < NBUF && c != b ==> s.holder[c] == None)
    && (forall c :: 0 <= c < NBUF && c != b && s.bufs[c].dev != NODEV ==> KeyOf(s.bufs[c]) in s.lh)
  }

  lemma {:induction false} Fetched(s: State, k: nat, m: State, b: nat)
    requires Logged(s, k) && k < NBUF && Reached(m) && Recycles(s, m, b, 0, Key(1, k))
    ensures Holding(m, k, b) && m.lh == Sectors(k) && !m.bufs[b].valid
  {
    hide Reached;
  }

  lemma {:induction false} ReadNext(s: State, k: nat, b: nat) returns (t: State)
    requires Holding(s, k, b) && k < NBUF && s.lh == Sectors(k) && !s.bufs[b].valid
    ensures Holding(t, k, b) && t.lh == Sectors(k) && t.bufs[b].valid
  {
    hide Reached;
    ReachedStep(s, Read(0, b));
    t := Do(s, Read(0, b));
  }

  lemma {:induction false} LogNext(s: State, k: nat, b: nat) returns (t: State)
    requires Holding(s, k, b) && k < NBUF && s.lh == Sectors(k) && s.bufs[b].valid
    ensures Holding(t, k, b) && t.lh == Sectors(k + 1) && t.bufs[b].valid
  {
    hide Reached, Sectors;
    ReachedStep(s, LogWrite(0, b));
    t := Do(s, LogWrite(0, b));
    SectorsNext(k);
  }

  lemma {:induction false} ReleaseNext(s: State, k: nat, b: nat) returns (t: State)
    requires Holding(s, k, b) && k < NBUF && s.lh == Sectors(k + 1) && s.bufs[b].valid
    ensures Logged(t, k + 1)
  {
    hide Reached, Inv, ToFront, Sectors;
    ReachedInv(s);
    var i := PositionOf(s, b);
    ReachedStep(s, Brelse(0, i));
    t := DoBrelse(s, i);
    ReachedShape(t);
  }

  lemma {:induction false} ReachedShape(s: State)
    requires Reached(s)
    ensures Shape(s)
  {
    ReachedInv(s);
  }

  lemma {:induction false} PositionOf(s: State, b: nat) returns (i: nat)
    requires Inv(s) && b < NBUF
    ensures i < NBUF && s.order[i] == b
  {
    assert b in s.order;
    i :| 0 <= i < |s.order| && s.order[i] == b;
  }

  lemma {:induction false} LoggedRun(data: Block, k: nat) returns (t: State)
    requires k <= NBUF
    ensures Logged(t, k)
  {
    hide Logged, Recycles, Holding, Reached, Sectors;
    if k == 0 {
      t := LoggedStart(data);
    } else {
      var s := LoggedRun(data, k - 1);
      var b: nat;
      t, b := FetchNext(s, k - 1);
      Fetched(s, k - 1, t, b);
      t := ReadNext(t, k - 1, b);
      t := LogNext(t, k - 1, b);
      t := ReleaseNext(t, k - 1, b);
    }
  }

  lemma {:induction false} FullEnabled(s: State)
    requires Logged(s, NBUF)
    ensures Enabled(s, BeginCommit) && Enabled(s, Get(0, Key(1, NBUF))) && Key(1, NBUF) !in s.lh
    ensures var t := Do(s, BeginCommit); Shape(t) && Enabled(t, Get(0, Key(1, NBUF)))
    ensures Do(Do(s, BeginCommit), Get(0, Key(1, NBUF))).lh == s.lh
    ensures Do(Do(s, BeginCommit), Get(0, Key(1, NBUF))).committing
  {
    hide Reached, Lookup, Sectors;
  }

  /** A run in which the first bread of a commit panics. */
  lemma {:induction false} CommitPanics(data: Block) returns (t: State)
    ensures Reached(t) && t.panicked && t.committing && |t.lh| == NBUF
  {
    hide Do, Enabled, Reached, Sectors;
    var s := LoggedRun(data, NBUF);
    var key := Key(1, NBUF);
    FullEnabled(s);
    CommitPanicsExact(s, 0, key);
    ReachedStep(s, BeginCommit);
    ReachedStep(Do(s, BeginCommit), Get(0, key));
    t := Do(Do(s, BeginCommit), Get(0, key));
  }
}

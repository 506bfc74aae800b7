/** Physical memory as 4096-byte frames of 1024 words, the free list that kalloc.c threads through
    it, and two-level page tables (vm.c) stored in it. */
module PageTables {
  import opened Seqs

  const NFRAMES := 57344            // PHYSTOP / PGSIZE
  const NPDENTRIES := 1024
  const UPAGES := 524288            // KERNBASE / PGSIZE
  const VPAGES := 1048576           // 4 GB / PGSIZE

  type Frames = seq<seq<nat>>

  predicate Sized(m: Frames) {
    |m| == NFRAMES && forall f :: 0 <= f < NFRAMES ==> |m[f]| == 1024
  }

  // ------------------------------------------------------------------ the free list

  /** p2v of a frame. */
  function Ptr(f: nat): nat {
    0x8000_0000 + 4096 * f
  }

  /** The frame of a kernel pointer: v2p, in pages. */
  function FrameOf(p: nat): int {
    (p - 0x8000_0000) / 4096
  }

  /** What the pointer to the k'th element of the list is; 0 behind the end. */
  function Head(free: seq<nat>, k: nat): nat {
    if k < |free| then Ptr(free[k]) else 0
  }

  /** freelist leads through exactly the frames of `free`, in order. */
  ghost predicate FreeList(m: Frames, freelist: nat, free: seq<nat>)
    requires Sized(m)
  {
    && Distinct(free) && freelist == Head(free, 0)
    && forall j :: 0 <= j < |free| ==> 0 < free[j] < NFRAMES && m[free[j]][0] == Head(free, j + 1)
  }

  lemma {:induction false} FreeListPop(m: Frames, freelist: nat, free: seq<nat>)
    requires Sized(m) && FreeList(m, freelist, free) && free != []
    ensures FreeList(m, m[free[0]][0], free[1..]) && free[0] !in free[1..]
  {
    var r := free[1..];
    forall j | 0 <= j < |r|
      ensures 0 < r[j] < NFRAMES && m[r[j]][0] == Head(r, j + 1)
    {
      assert r[j] == free[j + 1];
    }
  }

  lemma {:induction false} FreeListPush(m: Frames, freelist: nat, free: seq<nat>, f: nat, x: seq<nat>)
    requires Sized(m) && FreeList(m, freelist, free) && 0 < f < NFRAMES && f !in free && |x| == 1024 && x[0] == freelist
    ensures Sized(m[f := x]) && FreeList(m[f := x], Ptr(f), [f] + free)
  {
    hide Ptr;
    var n, r := m[f := x], [f] + free;
    forall j | 0 <= j < |r|
      ensures 0 < r[j] < NFRAMES && n[r[j]][0] == Head(r, j + 1)
    {
      if j > 0 {
        assert r[j] == free[j - 1] && Head(r, j + 1) == Head(free, j);
      }
    }
  }

  // ------------------------------------------------------------------ entries

  predicate Present(e: nat) {
    e % 2 == 1
  }

  /** PTE_ADDR, as a frame number. */
  function Target(e: nat): nat {
    e / 4096
  }

  function Flags(e: nat): nat {
    e % 4096
  }

  /** pa | perm | PTE_P. */
  function Entry(f: nat, perm: nat): nat
    requires perm < 4096
  {
    4096 * f + perm + if perm % 2 == 1 then 0 else 1
  }

  lemma {:induction false} EntryIs(f: nat, perm: nat)
    requires perm < 4096
    ensures Present(Entry(f, perm)) && Target(Entry(f, perm)) == f
    ensures Flags(Entry(f, perm)) == perm + if perm % 2 == 1 then 0 else 1
  {
    var p := perm + if perm % 2 == 1 then 0 else 1;
    Parts(f, p);
    Odd(2048 * f + p / 2);
  }

  lemma {:induction false} Parts(f: nat, p: nat)
    requires p < 4096
    ensures (4096 * f + p) / 4096 == f && (4096 * f + p) % 4096 == p
  {
  }

  lemma {:induction false} Odd(h: nat)
    ensures (2 * h + 1) % 2 == 1
  {
  }

  /** The page-table entry of virtual page vp in page directory d; 0 without a page table. */
  function Pte(m: Frames, d: nat, vp: nat): nat
    requires Sized(m) && d < NFRAMES && vp < VPAGES
  {
    var e := m[d][vp / 1024];
    if Present(e) && Target(e) < NFRAMES then m[Target(e)][vp % 1024] else 0
  }

  // ------------------------------------------------------------------ address spaces

  /** What a frame is for. */
  datatype Place = Root | Table(i: nat) | Leaf(vp: nat)

  ghost predicate Has(own: map<nat, Place>, f: nat, p: Place) {
    f in own && own[f] == p
  }

  ghost predicate Back(m: Frames, d: nat, f: nat, p: Place)
    requires Sized(m) && d < NFRAMES
  {
    match p
    case Root => f == d
    case Table(i) => i < NPDENTRIES && Present(m[d][i]) && Target(m[d][i]) == f
    case Leaf(vp) => vp < UPAGES && Present(Pte(m, d, vp)) && Target(Pte(m, d, vp)) == f
  }

  /** Directory entries allow everything: PTE_P | PTE_W | PTE_U. */
  ghost predicate Tables(m: Frames, d: nat, own: map<nat, Place>)
    requires Sized(m) && d < NFRAMES
  {
    forall i :: 0 <= i < NPDENTRIES && Present(m[d][i]) ==>
                  Has(own, Target(m[d][i]), Table(i)) && Flags(m[d][i]) == 7
  }

  ghost predicate Leaves(m: Frames, d: nat, own: map<nat, Place>)
    requires Sized(m) && d < NFRAMES
  {
    forall vp :: 0 <= vp < UPAGES && Present(Pte(m, d, vp)) ==> Has(own, Target(Pte(m, d, vp)), Leaf(vp))
  }

  ghost predicate Places(m: Frames, d: nat, own: map<nat, Place>)
    requires Sized(m) && d < NFRAMES
  {
    forall f :: f in own ==> 0 < f < NFRAMES && Back(m, d, f, own[f])
  }

  /** The frames of `own` are the directory d, its page tables and the pages mapped below KERNBASE,
      each of them at one place only. */
  ghost predicate Tree(m: Frames, d: nat, own: map<nat, Place>)
    requires Sized(m)
  {
    d < NFRAMES && Has(own, d, Root) && Tables(m, d, own) && Leaves(m, d, own) && Places(m, d, own)
  }

  ghost predicate Apart(own: map<nat, Place>, free: seq<nat>) {
    forall f :: f in own ==> f !in free
  }

  /** The directory and page tables are as before. */
  ghost predicate SameTables(m: Frames, n: Frames, d: nat, own: map<nat, Place>)
    requires Sized(m) && Sized(n)
  {
    forall f :: f in own && !own[f].Leaf? && f < NFRAMES ==> n[f] == m[f]
  }

  lemma {:induction false} PteFrame(m: Frames, n: Frames, d: nat, own: map<nat, Place>, vp: nat)
    requires Sized(m) && Sized(n) && Tree(m, d, own) && SameTables(m, n, d, own) && vp < VPAGES
    ensures Pte(n, d, vp) == Pte(m, d, vp)
  {
    var e := m[d][vp / 1024];
    if Present(e) {
      assert Has(own, Target(e), Table(vp / 1024));
    }
  }

  /** An address space does not notice changes elsewhere. */
  lemma {:induction false} TreeFrame(m: Frames, n: Frames, d: nat, own: map<nat, Place>)
    requires Sized(m) && Sized(n) && Tree(m, d, own) && SameTables(m, n, d, own)
    ensures Tree(n, d, own)
  {
    hide Pte;
    forall vp | 0 <= vp < UPAGES
      ensures Pte(n, d, vp) == Pte(m, d, vp)
    {
      PteFrame(m, n, d, own, vp);
    }
    assert n[d] == m[d];
    forall f | f in own
      ensures 0 < f < NFRAMES && Back(n, d, f, own[f])
    {
      assert Back(m, d, f, own[f]);
    }
  }

  // ------------------------------------------------------------------ changing an address space

  /** memset: n words that all are w. */
  function Filled(n: nat, w: nat): (r: seq<nat>)
    ensures |r| == n && forall i :: 0 <= i < n ==> r[i] == w
  {
    if n == 0 then [] else Filled(n - 1, w) + [w]
  }

  /** A fresh, zeroed directory. */
  lemma {:induction false} NewTree(m: Frames, d: nat)
    requires Sized(m) && 0 < d < NFRAMES && m[d] == Filled(1024, 0)
    ensures Tree(m, d, map[d := Root])
  {
  }

  /** A zeroed page table in frame t for entry i of the directory. */
  function WithTable(m: Frames, d: nat, i: nat, t: nat): Frames
    requires Sized(m) && d < NFRAMES && i < NPDENTRIES && t < NFRAMES
  {
    var row: seq<nat> := m[d][i := Entry(t, 7)];
    m[t := Filled(1024, 0)][d := row]
  }

  lemma {:induction false} WithTablePte(m: Frames, d: nat, own: map<nat, Place>, i: nat, t: nat, vp: nat)
    requires Sized(m) && Tree(m, d, own) && i < NPDENTRIES && 0 < t < NFRAMES && t !in own && !Present(m[d][i])
    requires vp < VPAGES
    ensures Sized(WithTable(m, d, i, t)) && Pte(WithTable(m, d, i, t), d, vp) == Pte(m, d, vp)
  {
    hide Entry, Leaves, Places;
    EntryIs(t, 7);
    var n := WithTable(m, d, i, t);
    if vp / 1024 != i {
      var e := m[d][vp / 1024];
      assert n[d][vp / 1024] == e;
      if Present(e) {
        assert Has(own, Target(e), Table(vp / 1024));
        assert Has(own, d, Root);
      }
    }
  }

  lemma {:induction false} WithTableTree(m: Frames, d: nat, own: map<nat, Place>, i: nat, t: nat)
    requires Sized(m) && Tree(m, d, own) && i < NPDENTRIES && 0 < t < NFRAMES && t !in own && !Present(m[d][i])
    ensures Sized(WithTable(m, d, i, t)) && Tree(WithTable(m, d, i, t), d, own[t := Table(i)])
  {
    hide Pte, WithTable, Entry;
    var n, o := WithTable(m, d, i, t), own[t := Table(i)];
    WithTableRow(m, d, own, i, t);
    forall vp | 0 <= vp < UPAGES
      ensures Pte(n, d, vp) == Pte(m, d, vp)
    {
      WithTablePte(m, d, own, i, t, vp);
    }
    forall k | 0 <= k < NPDENTRIES && Present(n[d][k])
      ensures Has(o, Target(n[d][k]), Table(k)) && Flags(n[d][k]) == 7
    {
      if k != i {
        assert Has(own, Target(m[d][k]), Table(k));
      }
    }
    forall f | f in o
      ensures 0 < f < NFRAMES && Back(n, d, f, o[f])
    {
      if f != t {
        assert Back(m, d, f, own[f]);
      }
    }
  }

  /** The directory with the new table. */
  lemma {:induction false} WithTableRow(m: Frames, d: nat, own: map<nat, Place>, i: nat, t: nat)
    requires Sized(m) && d < NFRAMES && Has(own, d, Root) && i < NPDENTRIES && 0 < t < NFRAMES && t !in own
    ensures Sized(WithTable(m, d, i, t)) && Present(WithTable(m, d, i, t)[d][i])
    ensures Target(WithTable(m, d, i, t)[d][i]) == t && Flags(WithTable(m, d, i, t)[d][i]) == 7
    ensures forall k :: 0 <= k < NPDENTRIES && k != i ==> WithTable(m, d, i, t)[d][k] == m[d][k]
  {
    EntryIs(t, 7);
  }

  /** Entry vp of the page table that is there for it. */
  function WithPte(m: Frames, d: nat, vp: nat, e: nat): Frames
    requires Sized(m) && d < NFRAMES && vp < VPAGES && Target(m[d][vp / 1024]) < NFRAMES
  {
    var t := Target(m[d][vp / 1024]);
    var row: seq<nat> := m[t][vp % 1024 := e];
    m[t := row]
  }

  lemma {:induction false} WithPtePte(m: Frames, d: nat, own: map<nat, Place>, vp: nat, e: nat, v: nat)
    requires Sized(m) && Tree(m, d, own) && vp < VPAGES && Present(m[d][vp / 1024]) && v < VPAGES
    ensures Has(own, Target(m[d][vp / 1024]), Table(vp / 1024)) && Target(m[d][vp / 1024]) < NFRAMES
    ensures var n := WithPte(m, d, vp, e);
            Sized(n) && n[d] == m[d] && Pte(n, d, v) == if v == vp then e else Pte(m, d, v)
  {
    var t := Target(m[d][vp / 1024]);
    assert Has(own, t, Table(vp / 1024)) && Has(own, d, Root) && Back(m, d, t, own[t]);
    if Present(m[d][v / 1024]) {
      assert Has(own, Target(m[d][v / 1024]), Table(v / 1024));
    }
  }

  lemma {:induction false} WithPteTables(m: Frames, d: nat, own: map<nat, Place>, vp: nat, e: nat)
    requires Sized(m) && Tree(m, d, own) && vp < VPAGES && Present(m[d][vp / 1024])
    ensures Target(m[d][vp / 1024]) < NFRAMES
    ensures var n := WithPte(m, d, vp, e);
            && Sized(n) && n[d] == m[d]
            && (forall v :: 0 <= v < VPAGES ==> Pte(n, d, v) == if v == vp then e else Pte(m, d, v))
  {
    hide Pte;
    WithPtePte(m, d, own, vp, e, vp);
    var n := WithPte(m, d, vp, e);
    forall v | 0 <= v < VPAGES
      ensures Pte(n, d, v) == if v == vp then e else Pte(m, d, v)
    {
      WithPtePte(m, d, own, vp, e, v);
    }
  }

  /** A page is mapped where none was. */
  lemma {:induction false} MapTree(m: Frames, d: nat, own: map<nat, Place>, vp: nat, f: nat, perm: nat)
    requires Sized(m) && Tree(m, d, own) && vp < UPAGES && Present(m[d][vp / 1024]) && !Present(Pte(m, d, vp))
    requires 0 < f < NFRAMES && f !in own && perm < 4096
    ensures Target(m[d][vp / 1024]) < NFRAMES && Sized(WithPte(m, d, vp, Entry(f, perm)))
    ensures Tree(WithPte(m, d, vp, Entry(f, perm)), d, own[f := Leaf(vp)])
  {
    hide Pte, Entry, WithPte;
    WithPteTables(m, d, own, vp, Entry(f, perm));
    EntryIs(f, perm);
    var n, o := WithPte(m, d, vp, Entry(f, perm)), own[f := Leaf(vp)];
    forall v | 0 <= v < UPAGES && Present(Pte(n, d, v))
      ensures Has(o, Target(Pte(n, d, v)), Leaf(v))
    {
      if v != vp {
        assert Has(own, Target(Pte(m, d, v)), Leaf(v));
      }
    }
    forall i | 0 <= i < NPDENTRIES && Present(n[d][i])
      ensures Has(o, Target(n[d][i]), Table(i)) && Flags(n[d][i]) == 7
    {
      assert Has(own, Target(m[d][i]), Table(i));
    }
    forall g | g in o
      ensures 0 < g < NFRAMES && Back(n, d, g, o[g])
    {
      if g != f {
        assert Back(m, d, g, own[g]);
      }
    }
  }

  /** A kernel page: nobody's frame. */
  lemma {:induction false} KernelTree(m: Frames, d: nat, own: map<nat, Place>, vp: nat, e: nat)
    requires Sized(m) && Tree(m, d, own) && UPAGES <= vp < VPAGES && Present(m[d][vp / 1024])
    ensures Target(m[d][vp / 1024]) < NFRAMES && Sized(WithPte(m, d, vp, e)) && Tree(WithPte(m, d, vp, e), d, own)
  {
    hide Pte, WithPte;
    WithPteTables(m, d, own, vp, e);
    var n := WithPte(m, d, vp, e);
    forall f | f in own
      ensures 0 < f < NFRAMES && Back(n, d, f, own[f])
    {
      assert Back(m, d, f, own[f]);
    }
  }

  function Without(own: map<nat, Place>, f: nat): map<nat, Place> {
    map g | g in own && g != f :: own[g]
  }

  /** A page is unmapped. */
  lemma {:induction false} UnmapTree(m: Frames, d: nat, own: map<nat, Place>, vp: nat)
    requires Sized(m) && Tree(m, d, own) && vp < UPAGES && Present(m[d][vp / 1024]) && Present(Pte(m, d, vp))
    ensures Target(m[d][vp / 1024]) < NFRAMES && Sized(WithPte(m, d, vp, 0))
    ensures Has(own, Target(Pte(m, d, vp)), Leaf(vp))
    ensures Tree(WithPte(m, d, vp, 0), d, Without(own, Target(Pte(m, d, vp))))
  {
    hide Pte, WithPte;
    WithPteTables(m, d, own, vp, 0);
    var f, n := Target(Pte(m, d, vp)), WithPte(m, d, vp, 0);
    var o := Without(own, f);
    assert Has(own, f, Leaf(vp));
    forall v | 0 <= v < UPAGES && Present(Pte(n, d, v))
      ensures Has(o, Target(Pte(n, d, v)), Leaf(v))
    {
      assert Has(own, Target(Pte(m, d, v)), Leaf(v));
    }
    forall i | 0 <= i < NPDENTRIES && Present(n[d][i])
      ensures Has(o, Target(n[d][i]), Table(i)) && Flags(n[d][i]) == 7
    {
      assert Has(own, Target(m[d][i]), Table(i));
    }
    forall g | g in o
      ensures 0 < g < NFRAMES && Back(n, d, g, o[g])
    {
      assert Back(m, d, g, own[g]);
    }
  }

  // ------------------------------------------------------------------ permissions

  /** PTE_W. */
  predicate Writable(e: nat) {
    e / 2 % 2 == 1
  }

  /** PTE_U. */
  predicate User(e: nat) {
    e / 4 % 2 == 1
  }

  /** What the processor lets a user program do with virtual page vp: both levels have to allow it. */
  predicate MayUse(m: Frames, d: nat, vp: nat, write: bool)
    requires Sized(m) && d < NFRAMES && vp < VPAGES
  {
    var dir, e := m[d][vp / 1024], Pte(m, d, vp);
    Present(dir) && Present(e) && User(dir) && User(e) && (write ==> Writable(dir) && Writable(e))
  }

  lemma {:induction false} FlagBits(e: nat)
    ensures Present(e) == Present(Flags(e)) && User(e) == User(Flags(e)) && Writable(e) == Writable(Flags(e))
  {
    hide Target, Flags;
    var a, b := Target(e), Flags(e);
    Whole(e);
    Halves(2048 * a, b);
    Halves(1024 * a, b / 2);
    Quarters(1024 * a, b);
    Halves(512 * a, b / 4);
  }

  lemma {:induction false} Whole(e: nat)
    ensures e == 4096 * Target(e) + Flags(e)
  {
  }

  lemma {:induction false} Halves(a: nat, b: nat)
    ensures (2 * a + b) % 2 == b % 2 && (2 * a + b) / 2 == a + b / 2
  {
  }

  lemma {:induction false} Quarters(a: nat, b: nat)
    ensures (4 * a + b) / 4 == a + b / 4
  {
  }

  /** The page-table entry alone decides. */
  lemma {:induction false} EntryDecides(m: Frames, d: nat, own: map<nat, Place>, vp: nat, write: bool)
    requires Sized(m) && Tree(m, d, own) && vp < VPAGES
    ensures var e := Pte(m, d, vp); MayUse(m, d, vp, write) <==> Present(e) && User(e) && (write ==> Writable(e))
  {
    hide Leaves, Places;
    FlagBits(m[d][vp / 1024]);
  }
}

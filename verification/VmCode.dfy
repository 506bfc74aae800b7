/** The code of kalloc.c and vm.c on the memory of PageTables. Virtual addresses are given by page
    where the code only uses the page; frame 0 stands for a null pointer. */
module VmCode {
  import opened PageTables
  import Seqs

  /** `own` has become `o` by taking frames from the free list, and the free list has lost no others. */
  ghost predicate Grew(own: map<nat, Place>, o: map<nat, Place>, before: seq<nat>, after: seq<nat>) {
    && (forall f :: f in own ==> f in o && o[f] == own[f])
    && (forall f :: f in o ==> f in own || f in before)
    && (forall f :: f in before ==> f in after || f in o)
    && (forall f :: f in after ==> f in before)
  }

  lemma {:induction false} GrewTrans(own: map<nat, Place>, o: map<nat, Place>, q: map<nat, Place>, a: seq<nat>,
                                     b: seq<nat>, c: seq<nat>)
    requires Grew(own, o, a, b) && Grew(o, q, b, c)
    ensures Grew(own, q, a, c)
  {
  }

  /** `own` with n frames from `start` on given to the pages from `first` on, as far as these are below
      KERNBASE. */
  ghost function Given(own: map<nat, Place>, first: nat, start: nat, n: nat): map<nat, Place> {
    if n == 0 then own
    else
      var o := Given(own, first, start, n - 1);
      if first + n - 1 < UPAGES then o[start + n - 1 := Leaf(first + n - 1)] else o
  }

  lemma {:induction false} GivenIn(own: map<nat, Place>, first: nat, start: nat, n: nat, f: nat)
    ensures f in Given(own, first, start, n) ==> f in own || start <= f < start + n
  {
    if n > 0 {
      GivenIn(own, first, start, n - 1, f);
    }
  }

  lemma {:induction false} GivenKernel(own: map<nat, Place>, first: nat, start: nat, n: nat)
    requires first >= UPAGES
    ensures Given(own, first, start, n) == own
    ensures forall free, last :: Unused(own, free, first, last, start)
  {
    if n > 0 {
      GivenKernel(own, first, start, n - 1);
    }
  }

  lemma {:induction false} GivenOne(own: map<nat, Place>, first: nat, start: nat)
    requires first < UPAGES
    ensures Given(own, first, start, 1) == own[start := Leaf(first)] && Given(own, first, start, 0) == own
    ensures forall free :: Spare(own, free, start, 0) ==> Unused(own, free, first, first, start)
  {
    assert Given(own, first, start, 0) == own;
  }

  /** One more page has been mapped. */
  lemma {:induction false} GivenStep(own: map<nat, Place>, first: nat, start: nat, n: nat,
                                     o: map<nat, Place>, q: map<nat, Place>, a: seq<nat>, b: seq<nat>, c: seq<nat>)
    requires Grew(Given(own, first, start, n), o, a, b)
    requires first + n < UPAGES ==> start + n !in a
    requires Grew(if first + n < UPAGES then o[start + n := Leaf(first + n)] else o, q, b, c)
    ensures Grew(Given(own, first, start, n + 1), q, a, c)
  {
    var m := Given(own, first, start, n);
    if first + n < UPAGES {
      var g := m[start + n := Leaf(first + n)];
      assert Given(own, first, start, n + 1) == g;
      assert forall f :: f in g ==> f in q && q[f] == g[f];
    }
  }

  /** Frames that a range below KERNBASE may be mapped to. */
  ghost predicate Unused(own: map<nat, Place>, free: seq<nat>, first: nat, last: nat, start: nat) {
    forall j :: 0 <= j <= last - first && first + j < UPAGES ==> Spare(own, free, start, j)
  }

  ghost predicate Spare(own: map<nat, Place>, free: seq<nat>, start: nat, j: nat) {
    0 < start + j < NFRAMES && start + j !in own && start + j !in free
  }

  /** The next frame of the range is still spare. */
  lemma {:induction false} StillSpare(own: map<nat, Place>, o: map<nat, Place>, before: seq<nat>, free: seq<nat>,
                                      first: nat, last: nat, start: nat, n: nat)
    requires Unused(own, before, first, last, start) && first + n <= last && first + n < UPAGES
    requires Grew(Given(own, first, start, n), o, before, free)
    ensures Spare(o, free, start, n) && start + n !in before
  {
    assert Spare(own, before, start, n);
    GivenIn(own, first, start, n, start + n);
  }

  /** Frames outside `o`, and pages of it, are as before. */
  ghost predicate Untouched(m: Frames, n: Frames, o: map<nat, Place>)
    requires Sized(m) && Sized(n)
  {
    forall f :: 0 <= f < NFRAMES && (f !in o || o[f].Leaf?) ==> n[f] == m[f]
  }

  ghost predicate SamePtes(m: Frames, n: Frames, d: nat)
    requires Sized(m) && Sized(n) && d < NFRAMES
  {
    forall v :: 0 <= v < VPAGES ==> Pte(n, d, v) == Pte(m, d, v)
  }

  class Machine {
    var mem: Frames
    var freelist: nat
    ghost var free: seq<nat>

    ghost predicate Valid()
      reads this
    {
      Sized(mem) && FreeList(mem, freelist, free)
    }

    /** kalloc. */
    method Kalloc() returns (f: nat)
      requires Valid()
      modifies `freelist, `free
      ensures Valid() && (f == 0 <==> old(free) == [])
      ensures f == 0 ==> free == old(free)
      ensures f != 0 ==> f == old(free)[0] && free == old(free)[1..] && f < NFRAMES && f !in free
    {
      if freelist == 0 {
        return 0;
      }
      hide Seqs.Distinct, Ptr, FrameOf;
      FreeListPop(mem, freelist, free);
      PtrFrame(free[0]);
      f := FrameOf(freelist);
      freelist := mem[f][0];
      free := free[1..];
    }

    /** kfree of a frame that is not free. */
    method Kfree(f: nat)
      requires Valid() && 0 < f < NFRAMES && f !in free
      modifies this
      ensures Valid() && free == [f] + old(free) && mem == old(mem)[f := mem[f]]
    {
      var page: seq<nat> := Filled(1024, 0x0101_0101)[0 := freelist];
      FreeListPush(mem, freelist, free, f, page);
      mem := mem[f := page];
      freelist := Ptr(f);
      free := [f] + free;
    }

    /** freerange, by frames: kinit's way to fill the free list. */
    method FreeRange(first: nat, end: nat)
      requires Valid() && 0 < first <= end <= NFRAMES && forall f :: first <= f < end ==> f !in free
      modifies this
      ensures Valid() && forall f :: f in free <==> f in old(free) || first <= f < end
    {
      hide FreeList;
      for f := first to end
        invariant Valid() && forall g :: g in free <==> g in old(free) || first <= g < f
      {
        Kfree(f);
      }
    }

    /** memset or memmove of a whole frame that is not free. */
    method SetFrame(f: nat, page: seq<nat>)
      requires Valid() && f < NFRAMES && f !in free && |page| == 1024
      modifies `mem
      ensures Valid() && mem == old(mem)[f := page]
    {
      mem := mem[f := page];
    }

    /** walkpgdir: the page table for page vp, made if it is missing and alloc is set; 0 if not. */
    method WalkPgdir(d: nat, vp: nat, alloc: bool, ghost own: map<nat, Place>)
      returns (t: nat, ghost o: map<nat, Place>)
      requires Valid() && vp < VPAGES && Tree(mem, d, own) && Apart(own, free)
      modifies this
      ensures Valid() && Tree(mem, d, o) && Apart(o, free) && Grew(own, o, old(free), free)
      ensures t == 0 ==> mem == old(mem) && free == old(free) && o == own
      ensures t == 0 ==> !Present(mem[d][vp / 1024]) && (alloc ==> free == [])
      ensures t != 0 ==> Present(mem[d][vp / 1024]) && t == Target(mem[d][vp / 1024]) < NFRAMES
      ensures Untouched(old(mem), mem, o) && SamePtes(old(mem), mem, d)
      ensures !alloc ==> mem == old(mem) && free == old(free) && o == own
    {
      hide Pte, FreeList, Leaves;
      o := own;
      var e := mem[d][vp / 1024];
      if Present(e) {
        t := Target(e);
        assert Has(own, t, Table(vp / 1024)) && Back(mem, d, t, own[t]);
        return;
      }
      if !alloc {
        return 0, o;
      }
      t := Kalloc();
      if t == 0 {
        return;
      }
      ghost var m := mem;
      TableTree(m, d, own, vp, t, free);
      o := own[t := Table(vp / 1024)];
      SetFrame(t, Filled(1024, 0));
      SetFrame(d, mem[d][vp / 1024 := Entry(t, 7)]);
    }

    /** One turn of the loop of mappages; a panic if the page is mapped already. */
    method MapPage(d: nat, vp: nat, f: nat, perm: nat, ghost own: map<nat, Place>)
      returns (r: int, panicked: bool, ghost o: map<nat, Place>)
      requires Valid() && vp < VPAGES && Tree(mem, d, own) && Apart(own, free) && perm < 4096
      requires vp < UPAGES ==> 0 < f < NFRAMES && f !in own && f !in free
      modifies this
      ensures Valid() && Tree(mem, d, o) && Apart(o, free)
      ensures panicked <==> Present(Pte(old(mem), d, vp))
      ensures r == 0 || r == -1
      ensures panicked ==> r == 0 && Grew(own, o, old(free), free)
      ensures r == -1 ==> Grew(own, o, old(free), free) && SamePtes(old(mem), mem, d) && free == []
      ensures !panicked && r == 0 ==> Grew(if vp < UPAGES then own[f := Leaf(vp)] else own, o, old(free), free)
      ensures !panicked && r == 0 ==>
                forall v :: 0 <= v < VPAGES ==>
                    Pte(mem, d, v) == if v == vp then Entry(f, perm) else Pte(old(mem), d, v)
      ensures Untouched(old(mem), mem, o)
    {
      hide Pte, FreeList, Leaves, Places, Tables, Entry;
      var t;
      t, o := WalkPgdir(d, vp, true, own);
      if t == 0 {
        AbsentPte(mem, d, vp);
        return -1, false, o;
      }
      PteAt(mem, d, o, vp);
      if Present(mem[t][vp % 1024]) {
        return 0, true, o;
      }
      ghost var m, q := mem, o;
      WithPteTables(mem, d, o, vp, Entry(f, perm));
      if vp < UPAGES {
        MapTree(mem, d, o, vp, f, perm);
        o := o[f := Leaf(vp)];
      } else {
        KernelTree(mem, d, o, vp, Entry(f, perm));
      }
      SetFrame(t, mem[t][vp % 1024 := Entry(f, perm)]);
      assert mem == WithPte(m, d, vp, Entry(f, perm));
      return 0, false, o;
    }

    /** mappages: pages from va to va + size - 1 to frames from pa on, `done` of them before it returns,
        runs out of memory, or panics at a page that is mapped already. Pages below KERNBASE get frames
        that nobody else has. */
    method MapPages(d: nat, va: nat, size: nat, pa: nat, perm: nat, ghost own: map<nat, Place>)
      returns (r: int, panicked: bool, ghost done: nat, ghost o: map<nat, Place>)
      requires Valid() && Tree(mem, d, own) && Apart(own, free) && perm < 4096
      requires 0 < size && va + size <= 4096 * VPAGES
      requires Unused(own, free, va / 4096, (va + size - 1) / 4096, pa / 4096)
      modifies this
      ensures Valid() && Tree(mem, d, o) && Apart(o, free) && Untouched(old(mem), mem, o)
      ensures (r == 0 || r == -1) && (panicked ==> r == 0) && (r == -1 ==> free == [])
      ensures va / 4096 + done <= (va + size - 1) / 4096 + 1
      ensures r == 0 && !panicked <==> va / 4096 + done == (va + size - 1) / 4096 + 1
      ensures panicked ==> Present(Pte(old(mem), d, va / 4096 + done))
      ensures forall v :: va / 4096 <= v < va / 4096 + done ==> !Present(Pte(old(mem), d, v))
      ensures Grew(Given(own, va / 4096, pa / 4096, done), o, old(free), free)
      ensures !panicked ==>
                forall v :: 0 <= v < VPAGES ==>
                  Pte(mem, d, v) == if va / 4096 <= v < va / 4096 + done then Entry(pa / 4096 + (v - va / 4096), perm)
                                    else Pte(old(mem), d, v)
    {
      hide Pte, FreeList, Leaves, Places, Tables, Entry, Grew, Given, Unused, Untouched;
      var a, last, f := va / 4096, (va + size - 1) / 4096, pa / 4096;
      o, r, panicked, done := own, 0, false, 0;
      ghost var first, start := a, f;
      GivenStart(mem, own, first, start, free);
      while true
        invariant first <= a <= last && f == start + done && a == first + done
        invariant Valid() && Tree(mem, d, o) && Apart(o, free) && Untouched(old(mem), mem, o)
        invariant Grew(Given(own, first, start, done), o, old(free), free)
        invariant forall v :: first <= v < a ==> !Present(Pte(old(mem), d, v))
        invariant forall v :: 0 <= v < VPAGES ==>
                    Pte(mem, d, v) == if first <= v < a then Entry(start + (v - first), perm) else Pte(old(mem), d, v)
        decreases last - a
      {
        ghost var p, before, m := o, free, mem;
        if a < UPAGES {
          StillSpare(own, o, old(free), free, first, last, start, done);
        }
        r, panicked, o := MapPage(d, a, f, perm, o);
        UntouchedStep(old(mem), m, mem, p, o, before, free, a, f);
        if panicked || r < 0 {
          GrewTrans(Given(own, first, start, done), p, o, old(free), before, free);
          return;
        }
        GivenStep(own, first, start, done, p, o, old(free), before, free);
        done := done + 1;
        if a == last {
          return;
        }
        a, f := a + 1, f + 1;
      }
    }

    /** setupkvm. `data` is the frame where the kernel's data starts. */
    method SetupKvm(data: nat) returns (d: nat, ghost o: map<nat, Place>)
      requires Valid() && 256 < data < NFRAMES
      modifies this
      ensures Valid() && (d == 0 || (d < NFRAMES && Tree(mem, d, o) && Apart(o, free)))
      ensures (forall f :: f in free ==> f in old(free)) && (d != 0 ==> Grew(map[], o, old(free), free))
      ensures d != 0 ==> forall v :: 0 <= v < VPAGES ==> Pte(mem, d, v) == KernelPte(data, v)
      ensures forall f :: 0 <= f < NFRAMES && f !in old(free) ==> mem[f] == old(mem)[f]
      ensures d == 0 ==> free == []
    {
      hide Pte, FreeList, Leaves, Places, Tables, Entry, Given, Unused, Kmap;
      o := map[];
      d := Kalloc();
      if d == 0 {
        return;
      }
      SetFrame(d, Filled(1024, 0));
      NewTree(mem, d);
      NewPtes(mem, d);
      o := map[d := Root];
      for k := 0 to 4
        invariant Valid() && d != 0 && Tree(mem, d, o) && Apart(o, free) && Grew(map[], o, old(free), free)
        invariant forall v :: 0 <= v < VPAGES ==>
                    Pte(mem, d, v) == if v < MappedTo(data, k) then KernelPte(data, v) else 0
        invariant forall f :: 0 <= f < NFRAMES && f !in old(free) ==> mem[f] == old(mem)[f]
      {
        ghost var p, before := o, free;
        var e := Kmap(data, k);
        Kmapped(data, k);
        var r, panicked;
        ghost var done;
        GivenKernel(o, e.virt / 4096, e.phys / 4096, 0);
        r, panicked, done, o := MapPages(d, e.virt, e.size, e.phys, e.perm, o);
        GivenKernel(p, e.virt / 4096, e.phys / 4096, done);
        GrewTrans(map[], p, o, old(free), before, free);
        if r < 0 {
          return 0, o;
        }
      }
    }

    /** One turn of the loop of deallocuvm, at a page with a page table. */
    method UnmapPage(d: nat, vp: nat, ghost own: map<nat, Place>) returns (ghost o: map<nat, Place>)
      requires Valid() && Tree(mem, d, own) && Apart(own, free) && vp < UPAGES && Present(mem[d][vp / 1024])
      modifies this
      ensures Valid() && Tree(mem, d, o) && Apart(o, free) && Shrunk(own, o, old(free), free)
      ensures mem[d] == old(mem)[d]
      ensures forall v :: 0 <= v < VPAGES ==>
                Pte(mem, d, v) == if v == vp && Present(Pte(old(mem), d, v)) then 0 else Pte(old(mem), d, v)
      ensures forall f :: 0 <= f < NFRAMES && f !in own ==> mem[f] == old(mem)[f]
    {
      hide Pte, FreeList, Leaves, Places, Tables;
      o := own;
      var t := Target(mem[d][vp / 1024]);
      PteAt(mem, d, own, vp);
      var e := mem[t][vp % 1024];
      if Present(e) {
        ghost var m := mem;
        var f := Target(e);
        UnmapTree(m, d, own, vp);
        WithPteTables(m, d, own, vp, 0);
        LeafFrame(m, d, own, f, vp);
        Kfree(f);
        SetFrame(t, mem[t][vp % 1024 := 0]);
        o := Without(own, f);
        PagesAside(WithPte(m, d, vp, 0), mem, d, o, f);
        assert Shrunk(own, o, old(free), free);
      }
    }

    /** deallocuvm: unmaps the pages from newsz, rounded up, to oldsz, and no others, except those its
        4 MB step passes over. */
    method DeallocUvm(d: nat, oldsz: nat, newsz: nat, ghost own: map<nat, Place>)
      returns (r: nat, ghost o: map<nat, Place>)
      requires Valid() && Tree(mem, d, own) && Apart(own, free) && oldsz <= 4096 * UPAGES
      modifies this
      ensures r == if newsz >= oldsz then oldsz else newsz
      ensures Valid() && Tree(mem, d, o) && Apart(o, free) && Shrunk(own, o, old(free), free)
      ensures mem[d] == old(mem)[d]
      ensures forall v :: 0 <= v < UPAGES ==>
                if newsz <= 4096 * v < oldsz && !Missed(old(mem), d, (newsz + 4095) / 4096, v)
                then !Present(Pte(mem, d, v)) else Pte(mem, d, v) == Pte(old(mem), d, v)
      ensures forall f :: 0 <= f < NFRAMES && f !in own ==> mem[f] == old(mem)[f]
    {
      hide Pte, FreeList, Leaves, Places, Tables, Visits, Missed;
      o, r := own, oldsz;
      if newsz >= oldsz {
        return;
      }
      ghost var m := mem;
      var first := (newsz + 4095) / 4096;
      var a := first;
      while 4096 * a < oldsz
        invariant first <= a && Valid() && Tree(mem, d, o) && Apart(o, free) && Shrunk(own, o, old(free), free)
        invariant mem[d] == m[d] && Unmapped(m, mem, d, first, a, oldsz)
        invariant forall f :: 0 <= f < NFRAMES && f !in own ==> mem[f] == old(mem)[f]
        decreases oldsz - 4096 * a
      {
        ghost var n := mem;
        if !Present(mem[d][a / 1024]) {
          SkipStep(m, mem, d, first, a, oldsz);
          a := a + 1023;
        } else {
          ghost var p, before := o, free;
          o := UnmapPage(d, a, o);
          ShrunkTrans(own, p, o, old(free), before, free);
          PageStep(m, n, mem, d, first, a, oldsz);
        }
        a := a + 1;
      }
      UnmappedExact(m, mem, d, first, a, oldsz);
      r := newsz;
    }

    /** The loop of freevm over the page tables. */
    method FreeTables(d: nat, ghost own: map<nat, Place>)
      requires Valid() && Tree(mem, d, own) && Apart(own, free)
      requires forall f :: f in own ==> !own[f].Leaf?
      modifies this
      ensures Valid() && d !in free
      ensures forall f :: f in free <==> f in old(free) || (f in own && f != d)
      ensures forall f :: 0 <= f < NFRAMES && f !in own ==> mem[f] == old(mem)[f]
    {
      hide Pte, FreeList, Leaves;
      ghost var m := mem;
      for i := 0 to NPDENTRIES
        invariant Valid() && mem[d] == m[d] && d !in free
        invariant forall f :: f in free <==> f in old(free) || (f in own && own[f].Table? && own[f].i < i)
        invariant forall f :: 0 <= f < NFRAMES && f !in own ==> mem[f] == old(mem)[f]
      {
        if Present(mem[d][i]) {
          var t := Target(mem[d][i]);
          assert Has(own, t, Table(i)) && Back(m, d, t, own[t]);
          OneTable(m, d, own, i);
          Kfree(t);
        } else {
          NoTable(m, d, own, i);
        }
      }
      AllTables(m, d, own);
    }

    /** freevm: every frame of the address space, and nothing else, goes back to the free list. */
    method FreeVm(d: nat, ghost own: map<nat, Place>)
      requires Valid() && Tree(mem, d, own) && Apart(own, free)
      modifies this
      ensures Valid() && forall f :: f in free <==> f in old(free) || f in own
      ensures forall f :: 0 <= f < NFRAMES && f !in own ==> mem[f] == old(mem)[f]
    {
      hide Pte, FreeList, Leaves;
      ghost var o;
      var r;
      ghost var m := mem;
      r, o := DeallocUvm(d, 0x8000_0000, 0, own);
      forall v | 0 <= v < UPAGES
        ensures !Present(Pte(mem, d, v))
      {
        NoneMissed(m, d, 0, v);
      }
      NoLeaves(mem, d, o);
      FreeTables(d, o);
      Kfree(d);
    }

    /** One turn of the loop of copyuvm, for a page that is present: a copy of it in a new frame. */
    method CopyPage(e: nat, d: nat, vp: nat, ghost own: map<nat, Place>) returns (r: int, ghost o: map<nat, Place>)
      requires Valid() && Tree(mem, d, own) && Apart(own, free) && vp < UPAGES && !Present(Pte(mem, d, vp))
      requires Present(e) && Target(e) < NFRAMES && Target(e) !in own && Target(e) !in free
      modifies this
      ensures Valid() && Tree(mem, d, o) && Apart(o, free) && (r == 0 || r == -1)
      ensures forall f :: f in o ==> f in own || f in old(free)
      ensures forall f :: f in free ==> f in old(free)
      ensures forall f :: 0 <= f < NFRAMES && f !in own && f !in old(free) ==> mem[f] == old(mem)[f]
      ensures r == 0 ==> Grew(own, o, old(free), free)
      ensures r == 0 ==> forall v :: 0 <= v < VPAGES && v != vp ==> Pte(mem, d, v) == Pte(old(mem), d, v)
      ensures r == 0 ==> var c := Pte(mem, d, vp);
                         && Present(c) && Flags(c) == Flags(e) && Target(c) < NFRAMES
                         && mem[Target(c)] == mem[Target(e)]
      ensures r == 0 ==> forall f :: f in own && own[f].Leaf? && f < NFRAMES ==> mem[f] == old(mem)[f]
      ensures r == -1 ==> (forall f :: f in own ==> f in o) && exists g :: AllBut(old(free), free, o, g)
    {
      hide Pte, FreeList, Leaves, Places, Tables, Given, Unused;
      o := own;
      var f := Kalloc();
      if f == 0 {
        assert AllBut(old(free), free, o, f);
        return -1, o;
      }
      Popped(own, old(free), free, f);
      ghost var m := mem;
      SetFrame(f, mem[Target(e)]);
      PagesAside(m, mem, d, own, f);
      ghost var n := mem;
      var panicked;
      EntryFlags(e, f);
      GivenOne(own, vp, f);
      ghost var done, was := 0, free;
      r, panicked, done, o := MapPages(d, 4096 * vp, 4096, 4096 * f, Flags(e), own);
      assert r == -1 ==> AllBut(old(free), free, o, f);
    }

    /** copyuvm: Ok(d) for the copy, NoMemory, or the panic of a page without a page table. Without
        memory, all frames that were free are so again, except the page that could not be mapped; but
        if setupkvm fails, none is: it has used them all for a directory it drops. */
    method CopyUvm(pgdir: nat, sz: nat, data: nat, ghost own: map<nat, Place>)
      returns (r: Copied, ghost o: map<nat, Place>)
      requires Valid() && Tree(mem, pgdir, own) && Apart(own, free) && sz <= 4096 * UPAGES && 256 < data < NFRAMES
      modifies this
      ensures Valid() && Tree(mem, pgdir, own) && Apart(own, free)
      ensures forall f :: 0 <= f < NFRAMES && f !in old(free) ==> mem[f] == old(mem)[f]
      ensures r.Panic? ==> exists v :: 0 <= v < UPAGES && 4096 * v < sz && !Present(mem[pgdir][v / 1024])
      ensures r.Ok? ==> forall v :: 0 <= v < UPAGES && 4096 * v < sz ==> Present(mem[pgdir][v / 1024])
      ensures r.Ok? ==> Tree(mem, r.d, o) && Grew(map[], o, old(free), free) && Apart(o, free)
      ensures r.Ok? ==> forall f :: f in o ==> f !in own
      ensures r.Ok? ==> Copies(mem, pgdir, r.d, (sz + 4095) / 4096)
      ensures r.Ok? ==> forall v :: UPAGES <= v < VPAGES ==> Pte(mem, r.d, v) == KernelPte(data, v)
      ensures r.NoMemory? ==> free == [] || LosesOne(old(free), free)
    {
      hide Pte, FreeList, Leaves, Places, Tables, KernelPte;
      ghost var before, m := free, mem;
      var d;
      d, o := SetupKvm(data);
      Aside(m, mem, pgdir, own, before);
      if d == 0 {
        return NoMemory, o;
      }
      NoUserPages(data);
      var i := 0;
      while 4096 * i < sz
        invariant i <= (sz + 4095) / 4096 && Valid() && Tree(mem, pgdir, own) && Apart(own, before) && d < NFRAMES
        invariant Tree(mem, d, o) && Apart(o, free) && Grew(map[], o, before, free)
        invariant forall f :: 0 <= f < NFRAMES && f !in before ==> mem[f] == m[f]
        invariant forall v :: 0 <= v < i ==> Present(mem[pgdir][v / 1024])
        invariant Copies(mem, pgdir, d, i)
        invariant forall v :: UPAGES <= v < VPAGES ==> Pte(mem, d, v) == KernelPte(data, v)
      {
        if !Present(mem[pgdir][i / 1024]) {
          return Panic, o;
        }
        PteAt(mem, pgdir, own, i);
        var e := mem[Target(mem[pgdir][i / 1024])][i % 1024];
        assert CopyOf(mem, pgdir, d, i, i);
        if Present(e) {
          LeafAside(mem, pgdir, own, i, o, before, free);
          ghost var p, q, was := mem, o, free;
          var ok;
          ok, o := CopyPage(e, d, i, o);
          Aside(m, mem, pgdir, own, before);
          if ok < 0 {
            ghost var mid := free;
            FreeVm(d, o);
            Aside(m, mem, pgdir, own, before);
            AllButOne(before, was, mid, free, q, o);
            return NoMemory, o;
          }
          GrewTrans(map[], q, o, before, was, free);
          PtesStay(p, mem, pgdir, own, before);
          CopiesStay(p, mem, pgdir, d, own, q, before, i, i + 1);
        } else {
          CopiesSkip(mem, pgdir, d, i, i + 1);
        }
        i := i + 1;
      }
      return Ok(d), o;
    }

    /** fork and exit, as far as memory is concerned: freeing the copy restores the free pages. */
    method CopyThenFree(pgdir: nat, sz: nat, data: nat, ghost own: map<nat, Place>) returns (r: Copied)
      requires Valid() && Tree(mem, pgdir, own) && Apart(own, free) && sz <= 4096 * UPAGES && 256 < data < NFRAMES
      modifies this
      ensures Valid() && Tree(mem, pgdir, own)
      ensures forall f :: f in own ==> mem[f] == old(mem)[f]
      ensures r.Ok? ==> forall f :: f in free <==> f in old(free)
      ensures r.NoMemory? ==> free == [] || LosesOne(old(free), free)
    {
      hide Pte, FreeList, Leaves, Tables, KernelPte;
      ghost var o;
      r, o := CopyUvm(pgdir, sz, data, own);
      if r.Ok? {
        ghost var m := mem;
        FreeVm(r.d, o);
        TreeFrame(m, mem, pgdir, own);
      }
    }
  }

  datatype Copied = Ok(d: nat) | NoMemory | Panic

  /** The same frames are free, but for at most one. */
  ghost predicate LosesOne(before: seq<nat>, after: seq<nat>) {
    && (forall f :: f in after ==> f in before)
    && exists g :: AllBut(before, after, map[], g)
  }

  ghost predicate AllBut(before: seq<nat>, after: seq<nat>, o: map<nat, Place>, g: nat) {
    forall f :: f in before ==> f in after || f in o || f == g
  }

  /** What copyuvm frees when it gives up: all it has taken, but for the page at hand. */
  lemma {:induction false} AllButOne(before: seq<nat>, was: seq<nat>, mid: seq<nat>, after: seq<nat>,
                                     q: map<nat, Place>, o: map<nat, Place>)
    requires Grew(map[], q, before, was) && (forall f :: f in mid ==> f in was)
    requires forall f :: f in o ==> f in q || f in was
    requires forall f :: f in q ==> f in o
    requires exists g :: AllBut(was, mid, o, g)
    requires forall f :: f in after <==> f in mid || f in o
    ensures LosesOne(before, after)
  {
    var g :| AllBut(was, mid, o, g);
    assert AllBut(before, after, map[], g);
  }

  lemma {:induction false} GivenStart(m: Frames, own: map<nat, Place>, first: nat, start: nat, free: seq<nat>)
    requires Sized(m)
    ensures Grew(Given(own, first, start, 0), own, free, free) && Untouched(m, m, own)
  {
    assert Given(own, first, start, 0) == own;
  }

  /** One turn of the loop of mappages, which may have given frame f to page a. */
  lemma {:induction false} UntouchedStep(m: Frames, n: Frames, u: Frames, p: map<nat, Place>, o: map<nat, Place>,
                                         before: seq<nat>, free: seq<nat>, a: nat, f: nat)
    requires Sized(m) && Sized(n) && Sized(u) && Untouched(m, n, p) && Untouched(n, u, o) && (a < UPAGES ==> f !in p)
    requires Grew(p, o, before, free) || Grew(if a < UPAGES then p[f := Leaf(a)] else p, o, before, free)
    ensures Untouched(m, u, o)
  {
    assert forall g :: g in p ==> g in o && o[g] == p[g];
  }

  /** Page v of the copy of n pages: like the original below n, with its flags and contents in another
      frame; absent above. */
  ghost predicate CopyOf(m: Frames, pgdir: nat, d: nat, v: nat, n: nat)
    requires Sized(m) && pgdir < NFRAMES && d < NFRAMES && v < UPAGES
  {
    var e, c := Pte(m, pgdir, v), Pte(m, d, v);
    if v < n && Present(e) then
      Present(c) && Flags(c) == Flags(e) && Target(c) < NFRAMES && Target(e) < NFRAMES && m[Target(c)] == m[Target(e)]
    else !Present(c)
  }

  ghost predicate Copies(m: Frames, pgdir: nat, d: nat, n: nat)
    requires Sized(m) && pgdir < NFRAMES && d < NFRAMES
  {
    forall v :: 0 <= v < UPAGES ==> CopyOf(m, pgdir, d, v, n)
  }

  /** A program may use its copy of a page exactly as its parent may use the page. */
  lemma {:induction false} CopyAccess(m: Frames, pgdir: nat, own: map<nat, Place>, d: nat, o: map<nat, Place>, n: nat,
                                      v: nat, write: bool)
    requires Sized(m) && Tree(m, pgdir, own) && Tree(m, d, o) && v < n && v < UPAGES && Copies(m, pgdir, d, n)
    ensures MayUse(m, d, v, write) <==> MayUse(m, pgdir, v, write)
  {
    hide Pte, Leaves, Places, Tables, MayUse, Writable, User;
    assert CopyOf(m, pgdir, d, v, n);
    EntryDecides(m, d, o, v, write);
    EntryDecides(m, pgdir, own, v, write);
    FlagBits(Pte(m, d, v));
    FlagBits(Pte(m, pgdir, v));
  }

  lemma {:induction false} CopiesSkip(m: Frames, pgdir: nat, d: nat, i: nat, k: nat)
    requires Sized(m) && pgdir < NFRAMES && d < NFRAMES && i < UPAGES && k == i + 1
    requires Copies(m, pgdir, d, i) && !Present(Pte(m, pgdir, i))
    ensures Copies(m, pgdir, d, k)
  {
    hide Pte;
    forall v | 0 <= v < UPAGES
      ensures CopyOf(m, pgdir, d, v, k)
    {
      assert CopyOf(m, pgdir, d, v, i);
    }
  }

  lemma {:induction false} Popped(own: map<nat, Place>, before: seq<nat>, after: seq<nat>, f: nat)
    requires Apart(own, before) && before != [] && f == before[0] && after == before[1..]
    ensures f !in own && Apart(own, after) && f in before && forall g :: g in after ==> g in before
    ensures forall g :: g in before ==> g == f || g in after
  {
    forall g | g in before
      ensures g == f || g in after
    {
      var j :| 0 <= j < |before| && before[j] == g;
      if j > 0 {
        assert after[j - 1] == g;
      }
    }
  }

  lemma {:induction false} EntryFlags(e: nat, f: nat)
    requires Present(e)
    ensures Flags(e) < 4096 && Flags(Entry(f, Flags(e))) == Flags(e) && Present(Entry(f, Flags(e)))
    ensures Target(Entry(f, Flags(e))) == f
  {
    EntryIs(f, Flags(e));
  }

  /** What is not free is not disturbed. */
  lemma {:induction false} Aside(m: Frames, n: Frames, d: nat, own: map<nat, Place>, before: seq<nat>)
    requires Sized(m) && Sized(n) && Tree(m, d, own) && Apart(own, before)
    requires forall f :: 0 <= f < NFRAMES && f !in before ==> n[f] == m[f]
    ensures Tree(n, d, own)
  {
    TreeFrame(m, n, d, own);
  }

  lemma {:induction false} PtesStay(m: Frames, n: Frames, d: nat, own: map<nat, Place>, before: seq<nat>)
    requires Sized(m) && Sized(n) && Tree(m, d, own) && Apart(own, before)
    requires forall f :: 0 <= f < NFRAMES && f !in before ==> n[f] == m[f]
    ensures SamePtes(m, n, d)
  {
    hide Pte;
    forall v | 0 <= v < VPAGES
      ensures Pte(n, d, v) == Pte(m, d, v)
    {
      PteFrame(m, n, d, own, v);
    }
  }

  lemma {:induction false} NoUserPages(data: nat)
    requires 256 < data < NFRAMES
    ensures forall v :: 0 <= v < UPAGES ==> KernelPte(data, v) == 0
  {
  }

  /** The parent's page is not the child's, and not free. */
  lemma {:induction false} LeafAside(m: Frames, d: nat, own: map<nat, Place>, vp: nat, o: map<nat, Place>,
                                     before: seq<nat>, after: seq<nat>)
    requires Sized(m) && Tree(m, d, own) && vp < UPAGES && Present(Pte(m, d, vp)) && Apart(own, before)
    requires Grew(map[], o, before, after)
    ensures var f := Target(Pte(m, d, vp)); f < NFRAMES && f in own && f !in o && f !in after && f !in before
  {
    var f := Target(Pte(m, d, vp));
    assert Has(own, f, Leaf(vp)) && Back(m, d, f, own[f]);
  }

  /** The pages copied so far stay, on both sides. */
  lemma {:induction false} CopiesStay(m: Frames, n: Frames, pgdir: nat, d: nat, own: map<nat, Place>,
                                      o: map<nat, Place>, before: seq<nat>, i: nat, k: nat)
    requires Sized(m) && Sized(n) && Tree(m, pgdir, own) && Tree(m, d, o) && Apart(own, before) && SamePtes(m, n, pgdir)
    requires forall f :: 0 <= f < NFRAMES && f !in before ==> n[f] == m[f]
    requires forall f :: f in o && o[f].Leaf? && f < NFRAMES ==> n[f] == m[f]
    requires i < UPAGES && forall v :: 0 <= v < VPAGES && v != i ==> Pte(n, d, v) == Pte(m, d, v)
    requires Copies(m, pgdir, d, i) && k == i + 1 && CopyOf(n, pgdir, d, i, k)
    ensures Copies(n, pgdir, d, k)
  {
    hide Pte, Flags, Target;
    forall v | 0 <= v < UPAGES && v != i
      ensures CopyOf(n, pgdir, d, v, k)
    {
      assert CopyOf(m, pgdir, d, v, i);
      var e, c := Pte(m, pgdir, v), Pte(m, d, v);
      if Present(e) {
        assert Has(own, Target(e), Leaf(v));
      }
      if Present(c) {
        assert Has(o, Target(c), Leaf(v));
      }
    }
  }

  /** `own` has become `o` by giving frames back. */
  ghost predicate Shrunk(own: map<nat, Place>, o: map<nat, Place>, before: seq<nat>, after: seq<nat>) {
    && (forall f :: f in o ==> f in own && o[f] == own[f])
    && (forall f :: f in own ==> f in o || (f in after && own[f].Leaf?))
    && (forall f :: f in before ==> f in after)
    && (forall f :: f in after ==> f in before || f in own)
  }

  lemma {:induction false} ShrunkTrans(own: map<nat, Place>, o: map<nat, Place>, q: map<nat, Place>, a: seq<nat>,
                                       b: seq<nat>, c: seq<nat>)
    requires Shrunk(own, o, a, b) && Shrunk(o, q, b, c)
    ensures Shrunk(own, q, a, c)
  {
  }

  /** A mapped page is neither the directory nor a page table. */
  lemma {:induction false} LeafFrame(m: Frames, d: nat, own: map<nat, Place>, f: nat, vp: nat)
    requires Sized(m) && Tree(m, d, own) && Has(own, f, Leaf(vp)) && vp < VPAGES && Present(m[d][vp / 1024])
    ensures 0 < f < NFRAMES && f != d && f != Target(m[d][vp / 1024])
  {
    assert Has(own, Target(m[d][vp / 1024]), Table(vp / 1024)) && Has(own, d, Root);
    assert Back(m, d, f, own[f]);
  }

  /** The freed frame is no longer part of the address space. */
  lemma {:induction false} PagesAside(m: Frames, n: Frames, d: nat, o: map<nat, Place>, f: nat)
    requires Sized(m) && Sized(n) && Tree(m, d, o) && f !in o
    requires forall g :: 0 <= g < NFRAMES && g != f ==> n[g] == m[g]
    ensures Tree(n, d, o) && SamePtes(m, n, d)
  {
    hide Pte;
    TreeFrame(m, n, d, o);
    forall v | 0 <= v < VPAGES
      ensures Pte(n, d, v) == Pte(m, d, v)
    {
      PteFrame(m, n, d, o, v);
    }
  }

  /** deallocuvm, at page a, will come to page v: it goes page by page where there is a page table, and
      1024 pages on where there is none. */
  ghost predicate Visits(m: Frames, d: nat, a: nat, v: nat)
    requires Sized(m) && d < NFRAMES && v < UPAGES
    decreases v - a
  {
    a <= v && (a == v || Visits(m, d, if Present(m[d][a / 1024]) then a + 1 else a + 1024, v))
  }

  /** Page v lies in the first page table behind page a, which has none, and before the place where
      the 4 MB step from a comes down. */
  ghost predicate Missed(m: Frames, d: nat, a: nat, v: nat)
    requires Sized(m) && d < NFRAMES && v < UPAGES
  {
    v % 1024 < a % 1024 && forall k :: a / 1024 <= k < v / 1024 ==> !Present(m[d][k])
  }

  /** A page with a page table is passed over exactly if it is missed. */
  lemma {:induction false} VisitsExact(m: Frames, d: nat, a: nat, v: nat)
    requires Sized(m) && d < NFRAMES && a <= v < UPAGES && Present(m[d][v / 1024])
    ensures Visits(m, d, a, v) <==> !Missed(m, d, a, v)
    decreases v - a
  {
    if a < v {
      if Present(m[d][a / 1024]) {
        VisitsExact(m, d, a + 1, v);
      } else if a + 1024 <= v {
        VisitsExact(m, d, a + 1024, v);
        assert (a + 1024) / 1024 == a / 1024 + 1 && (a + 1024) % 1024 == a % 1024;
      }
    }
  }

  /** Such pages exist: an address space whose only page is v, wherever v lies lower in its page table
      than a does. */
  lemma {:induction false} PassedOver(a: nat, v: nat) returns (m: Frames, d: nat, own: map<nat, Place>)
    requires a <= v < UPAGES && v % 1024 < a % 1024
    ensures Sized(m) && Tree(m, d, own) && Present(Pte(m, d, v)) && Missed(m, d, a, v)
  {
    hide Pte, Entry, Tables, Leaves, Places;
    var z: Frames := seq(NFRAMES, _ => Filled(1024, 0));
    d, own := 1, map[1 := Root];
    NewTree(z, d);
    NewPtes(z, d);
    var i := v / 1024;
    WithTableTree(z, d, own, i, 2);
    WithTablePte(z, d, own, i, 2, v);
    EntryIs(2, 7);
    var n := WithTable(z, d, i, 2);
    own := own[2 := Table(i)];
    MapTree(n, d, own, v, 3, 6);
    WithPteTables(n, d, own, v, Entry(3, 6));
    EntryIs(3, 6);
    m := WithPte(n, d, v, Entry(3, 6));
    own := own[3 := Leaf(v)];
  }

  /** deallocuvm, which started at page `first`, is at page a. */
  ghost predicate Unmapped(m: Frames, n: Frames, d: nat, first: nat, a: nat, oldsz: nat)
    requires Sized(m) && Sized(n) && d < NFRAMES
  {
    && (forall v {:trigger Pte(n, d, v)} ::
          0 <= v < UPAGES && first <= v < a && 4096 * v < oldsz
          && Present(m[d][v / 1024]) && Visits(m, d, first, v) ==>
          !Present(Pte(n, d, v)))
    && (forall v {:trigger Pte(n, d, v)} ::
          0 <= v < UPAGES && (v < first || 4096 * v >= oldsz || v >= a || !Visits(m, d, first, v)) ==>
            Pte(n, d, v) == Pte(m, d, v))
    && (forall v {:trigger Pte(n, d, v)} :: a <= v < UPAGES ==> Visits(m, d, first, v) == Visits(m, d, a, v))
  }

  lemma {:induction false} SkipStep(m: Frames, n: Frames, d: nat, first: nat, a: nat, oldsz: nat)
    requires Sized(m) && Sized(n) && d < NFRAMES && first <= a < UPAGES && n[d] == m[d] && !Present(m[d][a / 1024])
    requires Unmapped(m, n, d, first, a, oldsz)
    ensures Unmapped(m, n, d, first, a + 1024, oldsz)
  {
    hide Pte;
    forall v | a <= v < UPAGES
      ensures Visits(m, d, first, v) == (v == a || Visits(m, d, a + 1024, v))
    {
      assert Pte(n, d, v) == Pte(m, d, v);
    }
  }

  lemma {:induction false} PageStep(m: Frames, n: Frames, u: Frames, d: nat, first: nat, a: nat, oldsz: nat)
    requires Sized(m) && Sized(n) && Sized(u) && d < NFRAMES && first <= a < UPAGES && n[d] == m[d]
    requires Present(m[d][a / 1024])
    requires Unmapped(m, n, d, first, a, oldsz) && 4096 * a < oldsz
    requires forall v :: 0 <= v < VPAGES ==> Pte(u, d, v) == if v == a && Present(Pte(n, d, v)) then 0 else Pte(n, d, v)
    ensures Unmapped(m, u, d, first, a + 1, oldsz)
  {
    hide Pte;
    forall v | a <= v < UPAGES
      ensures Visits(m, d, first, v) == (v == a || Visits(m, d, a + 1, v))
    {
      assert Pte(n, d, v) == Pte(m, d, v);
    }
  }

  lemma {:induction false} UnmappedExact(m: Frames, n: Frames, d: nat, first: nat, a: nat, oldsz: nat)
    requires Sized(m) && Sized(n) && d < NFRAMES && oldsz <= 4096 * UPAGES && 4096 * a >= oldsz
    requires n[d] == m[d] && Unmapped(m, n, d, first, a, oldsz)
    ensures forall v :: 0 <= v < UPAGES ==>
              if first <= v && 4096 * v < oldsz && !Missed(m, d, first, v)
              then !Present(Pte(n, d, v)) else Pte(n, d, v) == Pte(m, d, v)
  {
    hide Pte, Visits, Missed;
    forall v | 0 <= v < UPAGES
      ensures if first <= v && 4096 * v < oldsz && !Missed(m, d, first, v)
              then !Present(Pte(n, d, v)) else Pte(n, d, v) == Pte(m, d, v)
    {
      assert Pte(n, d, v) == Pte(n, d, v);
      if first <= v && 4096 * v < oldsz {
        if Present(m[d][v / 1024]) {
          VisitsExact(m, d, first, v);
        } else {
          AbsentPte(m, d, v);
          AbsentPte(n, d, v);
        }
      }
    }
  }

  /** From a 4 MB boundary, or from a page with a page table, no page is missed. */
  lemma {:induction false} NoneMissed(m: Frames, d: nat, a: nat, v: nat)
    requires Sized(m) && d < NFRAMES && a <= v < UPAGES && (a % 1024 == 0 || Present(m[d][a / 1024]))
    ensures !Missed(m, d, a, v)
  {
  }

  lemma {:induction false} NoLeaves(m: Frames, d: nat, o: map<nat, Place>)
    requires Sized(m) && Tree(m, d, o) && forall v :: 0 <= v < UPAGES ==> !Present(Pte(m, d, v))
    ensures forall f :: f in o ==> !o[f].Leaf?
  {
    hide Pte;
    forall f | f in o
      ensures !o[f].Leaf?
    {
      assert Back(m, d, f, o[f]);
    }
  }

  lemma {:induction false} OneTable(m: Frames, d: nat, own: map<nat, Place>, i: nat)
    requires Sized(m) && Tree(m, d, own) && i < NPDENTRIES && Present(m[d][i])
    ensures forall f :: f in own && own[f] == Table(i) ==> f == Target(m[d][i])
  {
    forall f | f in own && own[f] == Table(i)
      ensures f == Target(m[d][i])
    {
      assert Back(m, d, f, own[f]);
    }
  }

  lemma {:induction false} NoTable(m: Frames, d: nat, own: map<nat, Place>, i: nat)
    requires Sized(m) && Tree(m, d, own) && i < NPDENTRIES && !Present(m[d][i])
    ensures forall f :: f in own ==> own[f] != Table(i)
  {
    forall f | f in own
      ensures own[f] != Table(i)
    {
      assert Back(m, d, f, own[f]);
    }
  }

  lemma {:induction false} AllTables(m: Frames, d: nat, own: map<nat, Place>)
    requires Sized(m) && Tree(m, d, own) && forall f :: f in own ==> !own[f].Leaf?
    ensures forall f :: f in own ==> f == d || (own[f].Table? && own[f].i < NPDENTRIES)
    ensures own[d] == Root
  {
    forall f | f in own
      ensures f == d || (own[f].Table? && own[f].i < NPDENTRIES)
    {
      assert Back(m, d, f, own[f]);
    }
  }

  /** The rows of kmap. */
  datatype KRange = KRange(virt: nat, phys: nat, size: nat, perm: nat)

  function Kmap(data: nat, k: nat): KRange
    requires 256 < data < NFRAMES
  {
    if k == 0 then KRange(0x8000_0000, 0, 0x10_0000, 2)
    else if k == 1 then KRange(0x8010_0000, 0x10_0000, 4096 * data - 0x10_0000, 0)
    else if k == 2 then KRange(0x8000_0000 + 4096 * data, 4096 * data, 0xE00_0000 - 4096 * data, 2)
    else KRange(0xFE00_0000, 0xFE00_0000, 0x200_0000, 2)
  }

  lemma {:induction false} Kmapped(data: nat, k: nat)
    requires 256 < data < NFRAMES && k < 4
    ensures var e := Kmap(data, k);
            var first, last := e.virt / 4096, (e.virt + e.size - 1) / 4096;
            && 0 < e.size && e.virt + e.size <= 4096 * VPAGES && e.perm < 4096
            && UPAGES <= MappedTo(data, k) <= first && last + 1 == MappedTo(data, k + 1)
            && forall v :: MappedTo(data, k) <= v < MappedTo(data, k + 1) ==>
                 KernelPte(data, v) == if first <= v <= last then Entry(e.phys / 4096 + (v - first), e.perm) else 0
  {
    hide Entry;
  }

  /** Where the first k ranges of kmap end. */
  function MappedTo(data: nat, k: nat): nat {
    if k == 0 then UPAGES else if k == 1 then UPAGES + 256 else if k == 2 then UPAGES + data
    else if k == 3 then UPAGES + NFRAMES else VPAGES
  }

  /** The kernel's part of every page table: physical memory from KERNBASE on, read-only where the
      kernel's text is, and the devices at the top. */
  function KernelPte(data: nat, v: nat): nat {
    if UPAGES <= v < UPAGES + NFRAMES then Entry(v - UPAGES, if 256 <= v - UPAGES < data then 0 else 2)
    else if 0xFE000 <= v < VPAGES then Entry(v, 2)
    else 0
  }

  lemma {:induction false} NewPtes(m: Frames, d: nat)
    requires Sized(m) && d < NFRAMES && m[d] == Filled(1024, 0)
    ensures forall v :: 0 <= v < VPAGES ==> Pte(m, d, v) == 0
  {
    forall v | 0 <= v < VPAGES
      ensures Pte(m, d, v) == 0
    {
      AbsentPte(m, d, v);
    }
  }

  lemma {:induction false} PtrFrame(f: nat)
    ensures FrameOf(Ptr(f)) == f
  {
  }

  lemma {:induction false} AbsentPte(m: Frames, d: nat, vp: nat)
    requires Sized(m) && d < NFRAMES && vp < VPAGES && !Present(m[d][vp / 1024])
    ensures Pte(m, d, vp) == 0
  {
  }

  lemma {:induction false} PteAt(m: Frames, d: nat, own: map<nat, Place>, vp: nat)
    requires Sized(m) && Tree(m, d, own) && vp < VPAGES && Present(m[d][vp / 1024])
    ensures var t := Target(m[d][vp / 1024]);
            && Has(own, t, Table(vp / 1024)) && 0 < t < NFRAMES && t != d
            && Pte(m, d, vp) == m[t][vp % 1024]
  {
    var t := Target(m[d][vp / 1024]);
    assert Has(own, t, Table(vp / 1024)) && Back(m, d, t, own[t]);
  }

  lemma {:induction false} TableTree(m: Frames, d: nat, own: map<nat, Place>, vp: nat, t: nat, free: seq<nat>)
    requires Sized(m) && vp < VPAGES && Tree(m, d, own) && Apart(own, [t] + free)
    requires 0 < t < NFRAMES && t !in free && !Present(m[d][vp / 1024])
    ensures var n, o := WithTable(m, d, vp / 1024, t), own[t := Table(vp / 1024)];
            && t !in own && d !in free && Sized(n) && Tree(n, d, o) && Apart(o, free) && SamePtes(m, n, d)
            && Present(n[d][vp / 1024]) && Target(n[d][vp / 1024]) == t
  {
    hide Pte, Leaves;
    assert t in [t] + free && forall f :: f in free ==> f in [t] + free;
    WithTableTree(m, d, own, vp / 1024, t);
    EntryIs(t, 7);
    forall v | 0 <= v < VPAGES
      ensures Pte(WithTable(m, d, vp / 1024, t), d, v) == Pte(m, d, v)
    {
      WithTablePte(m, d, own, vp / 1024, t, v);
    }
  }
}

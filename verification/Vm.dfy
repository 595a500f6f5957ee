/** vm.c: walkpgdir, mappages, setupkvm, allocuvm, deallocuvm, freevm and copyuvm over the
    frames of kalloc.c. A directory is named by its frame. */
module Vm {
  import opened Kalloc
  import opened Options
  import opened Param
  import opened VmCount
  import opened VmKernel
  import opened VmSpec
  import opened VmSteps

  /** A `pte_t *`: entry idx of the page table in a frame. */
  datatype Ptr = Null | At(frame: nat, idx: nat)

  ghost function Now(k: Kmem): Mem
    reads k
  {
    Mem(k.pages, k.free)
  }

  /** walkpgdir: where the entry for address a stands, with a new page table if alloc asks for one. */
  method Walkpgdir(k: Kmem, d: nat, a: nat, alloc: bool, ghost tabs: map<nat, Use>)
    returns (p: Ptr, ghost tabs': map<nat, Use>)
    requires k.Valid() && a / PGSIZE < NPAGES && Safe(k.lo, Now(k), d, tabs)
    modifies k
    ensures k.Valid() && Walked(k.lo, old(Now(k)), Now(k), d, tabs, tabs')
    ensures p == Null ==> !P(k.pages[d].w[a / PGSIZE / 1024]) && (alloc ==> k.free == [])
    ensures p == Null || !alloc ==> Now(k) == old(Now(k)) && tabs' == tabs
    ensures p != Null ==> P(k.pages[d].w[a / PGSIZE / 1024])
                          && p == At(Fr(k.pages[d].w[a / PGSIZE / 1024]), a / PGSIZE % 1024)
    ensures p != Null && !P(old(k.pages)[d].w[a / PGSIZE / 1024]) ==>
              Flags(k.pages[d].w[a / PGSIZE / 1024]) == PTE_W + PTE_U + 1
    ensures d < |k.pages| == |old(k.pages)|
    ensures p != Null ==> Slots(k.pages[d]) == Slots(old(k.pages)[d]) + {a / PGSIZE / 1024}
    ensures p != Null ==> |old(k.free)| == |k.free| + if a / PGSIZE / 1024 in Slots(old(k.pages)[d]) then 0 else 1
  {
    hide Slots, Kept, SameMap, SlotOk, UseOk, Frames, Walked;
    tabs' := tabs;
    ghost var m := Now(k);
    WalkedNone(k.lo, m, d, tabs);
    SlotHas(k.pages[d], a / PGSIZE / 1024);
    var pde := k.pages[d].w[a / PGSIZE / 1024];
    var pgtab: nat;
    if P(pde) {
      pgtab := Fr(pde);
    } else {
      if !alloc {
        return Null, tabs;
      }
      var v := k.Kalloc();
      if v == 0 {
        return Null, tabs;
      }
      pgtab := FrameAt(v);
      WalkedNew(k.lo, m, d, tabs, a / PGSIZE / 1024);
      k.SetPage(pgtab, Filled(0));
      tabs' := tabs[pgtab := Table(a / PGSIZE / 1024)];
      EntryIs(pgtab, PTE_W + PTE_U);
      SlotNew(m.pages[d], a / PGSIZE / 1024, Entry(pgtab, PTE_W + PTE_U));
      k.SetPage(d, SetW(k.pages[d], a / PGSIZE / 1024, Entry(pgtab, PTE_W + PTE_U)));
    }
    return At(pgtab, a / PGSIZE % 1024), tabs';
  }

  /** How mappages ends: 0, -1 or a panic. */
  datatype MapResult = Mapped | NoMemory | Remap

  /** A turn of the loop in mappages: one entry, after n others. */
  method MapPage(k: Kmem, d: nat, a: nat, pa: nat, perm: nat, ghost m: Mem, ghost tabs0: map<nat, Use>,
                 ghost tabs: map<nat, Use>, ghost q: nat, ghost n: nat, ghost f: nat)
    returns (r: MapResult, ghost tabs': map<nat, Use>, ghost n': nat)
    requires k.Valid() && MappedRun(k.lo, m, Now(k), d, tabs0, tabs, q, n, f, perm)
    requires a / PGSIZE == q + n < NPAGES && pa / PGSIZE == f + n < NPAGES && RunTally(m, Now(k), d, q, n)
    modifies k
    ensures k.Valid() && n' == (if r == Mapped then n + 1 else n)
    ensures MappedRun(k.lo, m, Now(k), d, tabs0, tabs', q, n', f, perm)
    ensures d < |m.pages| && (r == Remap <==> Look(m.pages, d, q + n).Some?)
    ensures r == NoMemory ==> k.free == []
    ensures r != Remap ==> RunTally(m, Now(k), d, q, n')
    ensures r == NoMemory ==> d < |k.pages| && (q + n) / 1024 !in Slots(k.pages[d])
  {
    hide RunTally, MappedRun, Walked, Safe, Tables, Apart, Kept, Frames, SlotOk, UseOk, RunPte, Pte, Look;
    ghost var m1 := Now(k);
    RunHas(k.lo, m, m1, d, tabs0, tabs, q, n, f, perm);
    var pte;
    pte, tabs' := Walkpgdir(k, d, a, true, tabs);
    n' := n;
    RunWalked(k.lo, m, m1, Now(k), d, tabs0, tabs, tabs', q, n, f, perm);
    if pte == Null {
      r := NoMemory;
    } else if P(k.pages[pte.frame].w[pte.idx]) {
      r := Remap;
    } else {
      RunHas(k.lo, m, Now(k), d, tabs0, tabs', q, n, f, perm);
      TableIsNotDir(k.lo, Now(k), d, tabs', (q + n) / 1024);
      k.SetPage(pte.frame, SetW(k.pages[pte.frame], pte.idx, Entry(pa / PGSIZE, perm)));
      RunTallyNext(m, m1, Now(k), d, q, n);
      r, n' := Mapped, n + 1;
    }
  }

  /** mappages, and how many entries it writes before it ends. */
  method Mappages(k: Kmem, d: nat, va: nat, size: nat, pa: nat, perm: nat, ghost tabs: map<nat, Use>)
    returns (r: MapResult, ghost tabs': map<nat, Use>, ghost n: nat)
    requires k.Valid() && Safe(k.lo, Now(k), d, tabs)
    requires 0 < size && va + size <= NPAGES * PGSIZE && perm < PGSIZE
    requires pa % PGSIZE == 0 && pa / PGSIZE + Span(va, size) <= NPAGES
    modifies k
    ensures k.Valid() && MappedRun(k.lo, old(Now(k)), Now(k), d, tabs, tabs', va / PGSIZE, n, pa / PGSIZE, perm)
    ensures n <= Span(va, size) && (r == Mapped <==> n == Span(va, size))
    ensures d < |old(k.pages)| && (n < Span(va, size) ==> va / PGSIZE + n < NPAGES)
    ensures n < Span(va, size) ==> (r == Remap <==> Look(old(k.pages), d, va / PGSIZE + n).Some?)
    ensures r == NoMemory ==> k.free == [] && d < |k.pages| && (va / PGSIZE + n) / 1024 !in Slots(k.pages[d])
    ensures r != Remap ==> RunTally(old(Now(k)), Now(k), d, va / PGSIZE, n)
  {
    hide MappedRun, Safe, Tables, Apart, Kept, Frames, SlotOk, UseOk, RunPte, Pte, Look, PgRoundDown, Span, PageAt,
         RunTally, Slots;
    ghost var m, q, f := Now(k), va / PGSIZE, pa / PGSIZE;
    MappedNone(k.lo, m, d, tabs, q, f, perm);
    FirstPage(va, size, pa);
    var a := PgRoundDown(va);
    var last := PgRoundDown(va + size - 1);
    var p := pa;
    tabs', n := tabs, 0;
    SafeDir(k.lo, m, d, tabs);
    RunTallyNone(m, d, q);
    while true
      invariant k.Valid() && n < Span(va, size) && a == PageAt(PgRoundDown(va), n) && p == PageAt(pa, n)
      invariant MappedRun(k.lo, m, Now(k), d, tabs, tabs', q, n, f, perm) && RunTally(m, Now(k), d, q, n)
      decreases Span(va, size) - n
    {
      LoopPages(va, size, pa, n);
      r, tabs', n := MapPage(k, d, a, p, perm, m, tabs, tabs', q, n, f);
      if r != Mapped || a == last {
        break;
      }
      a := a + PGSIZE;
      p := p + PGSIZE;
    }
  }

  /** What deallocuvm does at a page that is present: its frame is freed and its entry cleared. */
  method DropPage(k: Kmem, d: nat, pte: Ptr, ghost m: Mem, ghost tabs: map<nat, Use>, ghost users: map<nat, nat>,
                  ghost users1: map<nat, nat>, ghost from: nat, ghost q: nat)
    returns (ghost users': map<nat, nat>)
    requires k.Valid() && Space(k.lo, m, d, tabs, users) && from <= q < UPAGES
    requires Dropped(k.lo, m, Now(k), d, tabs, users, users1, from, q)
    requires pte.At? && pte.frame < NFRAMES && pte.frame !in k.free && pte.idx == q % 1024
    requires d < |m.pages| == |k.pages| && pte.frame == Fr(k.pages[d].w[q / 1024]) && pte.frame < |k.pages|
    requires var e := k.pages[pte.frame].w[pte.idx];
             && e == Pte(m.pages, d, q) && P(e)
             && 0 < k.lo <= Fr(e) < NFRAMES && Fr(e) !in k.free && Fr(e) != pte.frame && Fr(e) != d
    modifies k
    ensures k.Valid() && Dropped(k.lo, m, Now(k), d, tabs, users, users', from, q + 1)
  {
    hide Dropped, Space, FreeList, Look, Pte;
    ghost var m1 := Now(k);
    var f := Fr(k.pages[pte.frame].w[pte.idx]);
    var panic := k.Kfree(Virt(f));
    assert f != 0 && !panic;
    DropPresent(k.lo, m, m1, d, tabs, users, users1, from, q, f, k.pages[f]);
    k.SetPage(pte.frame, SetW(k.pages[pte.frame], pte.idx, 0));
    users' := users1 - {f};
  }

  /** deallocuvm: skips directory slots without a page table, but frees what a page-by-page walk
      would, in the same order. */
  method Deallocuvm(k: Kmem, d: nat, oldsz: nat, newsz: nat, ghost tabs: map<nat, Use>, ghost users: map<nat, nat>)
    returns (r: nat, ghost users': map<nat, nat>)
    requires k.Valid() && Space(k.lo, Now(k), d, tabs, users) && oldsz <= KERNBASE
    modifies k
    ensures k.Valid() && r == if newsz >= oldsz then oldsz else newsz
    ensures newsz >= oldsz ==> Now(k) == old(Now(k)) && users' == users
    ensures newsz < oldsz ==> Dropped(k.lo, old(Now(k)), Now(k), d, tabs, users, users', UpPage(newsz), UpPage(oldsz))
  {
    hide Dropped, Space, Safe, Tables, Users, Apart, Kept, SlotOk, UseOk, PageOk, FrameOk, SameOn, Walked, SameMap,
         Drop, Keep, FreeList, Frames, NextDir, Look;
    users' := users;
    if newsz >= oldsz {
      return oldsz, users;
    }
    ghost var m, q := Now(k), UpPage(newsz);
    DroppedNone(k.lo, m, d, tabs, users, q);
    var a := PgRoundUp(newsz);
    while a < oldsz
      invariant k.Valid() && a == q * PGSIZE && UpPage(newsz) <= q <= UPAGES
      invariant Dropped(k.lo, m, Now(k), d, tabs, users, users', UpPage(newsz), q)
      invariant d < |m.pages| && forall r: nat :: UpPage(oldsz) <= r < q ==> Look(m.pages, d, r).None?
    {
      ghost var m1 := Now(k);
      DropTurn(k.lo, m, m1, d, tabs, users, users', UpPage(newsz), q);
      var pte, tabs' := Walkpgdir(k, d, a, false, tabs);
      if pte == Null {
        NextDirIs(a, q);
        a := (a / 0x40_0000 + 1) * 0x40_0000 - PGSIZE;
        q := NextDir(q) - 1;
      } else if P(k.pages[pte.frame].w[pte.idx]) {
        users' := DropPage(k, d, pte, m, tabs, users, users', UpPage(newsz), q);
      }
      a := a + PGSIZE;
      q := q + 1;
    }
    DropEnds(k.lo, m, Now(k), d, tabs, users, users', oldsz, newsz, q);
    return newsz, users';
  }

  /** A turn of the loop in allocuvm: a page more, or everything undone. */
  method AllocPage(k: Kmem, d: nat, a: nat, oldsz: nat, newsz: nat, ghost m: Mem,
                   ghost tabs: map<nat, Use>, ghost tabs1: map<nat, Use>,
                   ghost users: map<nat, nat>, ghost users1: map<nat, nat>, ghost q: nat)
    returns (ok: bool, ghost tabs': map<nat, Use>, ghost users': map<nat, nat>)
    requires k.Valid() && Space(k.lo, m, d, tabs, users) && d < |m.pages| && oldsz <= a < newsz < KERNBASE
    requires forall r: nat :: UpPage(oldsz) <= r < UpPage(newsz) ==> Look(m.pages, d, r).None?
    requires Grown(k.lo, m, Now(k), d, tabs, tabs1, users, users1, UpPage(oldsz), q, {})
    requires a == q * PGSIZE && UpPage(oldsz) <= q < UpPage(newsz) && Given(m, Now(k), d, UpPage(oldsz), q)
    modifies k
    ensures k.Valid()
    ensures if ok then Given(m, Now(k), d, UpPage(oldsz), q + 1)
            else |m.free| < FramesFor(m.pages[d], UpPage(oldsz), UpPage(newsz))
    ensures ok ==> Grown(k.lo, m, Now(k), d, tabs, tabs', users, users', UpPage(oldsz), q + 1, {})
    ensures !ok ==> users' == users && SameUser(k.lo, m, Now(k), d, tabs, tabs', users)
                    && Kept(m, tabs.Keys, Now(k), tabs'.Keys)
  {
    hide Dropped, Space, Safe, Tables, Users, Apart, Kept, SlotOk, UseOk, PageOk, FrameOk, SameOn, MappedRun, RunPte,
         SameMap, FreeList, Frames, Look, Grown, MoreUsers, GrownPage, SameUser, Filled, Span, Given,
         RunTally, Slots, FramesFor;
    ghost var m1, from, upto := Now(k), UpPage(oldsz), UpPage(newsz);
    GrownTurn(k.lo, m, m1, d, tabs, tabs1, users, users1, from, q, upto);
    var mem := k.Kalloc();
    if mem == 0 {
      NotGiven(m, m1, d, from, q, upto);
      var r, u := Deallocuvm(k, d, newsz, oldsz, tabs1, users1);
      GrownUndone(k.lo, m, m1, Now(k), d, tabs, tabs1, users, users1, u, from, q, upto, {});
      assert tabs1.Keys + {} == tabs1.Keys;
      return false, tabs1, users;
    }
    var f := FrameAt(mem);
    GrownHolds(k.lo, m, m1, d, tabs, tabs1, users, users1, from, q);
    k.SetPage(f, Filled(0));
    ghost var m2 := Now(k);
    HoldTurn(k.lo, m, m2, d, tabs, tabs1, users, users1, from, q, f);
    OnePage(a, q, f);
    var mr;
    ghost var n;
    mr, tabs', n := Mappages(k, d, a, PGSIZE, mem - KERNBASE, PTE_W + PTE_U, tabs1);
    assert mr != Remap;
    ghost var m3 := Now(k);
    GrownMaps(k.lo, m, m2, m3, d, tabs, tabs1, tabs', users, users1, from, q, n, f);
    GivenNext(m, m1, m2, m3, d, from, q, n, upto);
    if mr != Mapped {
      GrownSpace(k.lo, m, m3, d, tabs, tabs', users, users1, from, q, {f});
      var r, u := Deallocuvm(k, d, newsz, oldsz, tabs', users1);
      ghost var m4 := Now(k);
      GrownUndone(k.lo, m, m3, m4, d, tabs, tabs', users, users1, u, from, q, upto, {f});
      HeldIsKept(m, m4, tabs.Keys, tabs'.Keys, f);
      var panic := k.Kfree(mem);
      UndoneFree(k.lo, m, m4, d, tabs, tabs', users, f, k.pages[f]);
      return false, tabs', users;
    }
    return true, tabs', users1[f := q];
  }

  /** allocuvm, from oldsz up to newsz, where nothing is mapped yet; `ok` tells a return of newsz
      from a failure when newsz is 0. */
  method Allocuvm(k: Kmem, d: nat, oldsz: nat, newsz: nat, ghost tabs: map<nat, Use>, ghost users: map<nat, nat>)
    returns (r: nat, ghost ok: bool, ghost tabs': map<nat, Use>, ghost users': map<nat, nat>)
    requires k.Valid() && Space(k.lo, Now(k), d, tabs, users) && d < |k.pages|
    requires forall q: nat :: UpPage(oldsz) <= q < UpPage(newsz) && q < UPAGES ==> Look(k.pages, d, q).None?
    modifies k
    ensures k.Valid()
    ensures newsz >= KERNBASE ==> r == 0
    ensures newsz < KERNBASE && newsz < oldsz ==> r == oldsz
    ensures newsz >= KERNBASE || newsz < oldsz ==> Now(k) == old(Now(k)) && tabs' == tabs && users' == users
    ensures oldsz <= newsz < KERNBASE && ok ==>
              r == newsz && Grown(k.lo, old(Now(k)), Now(k), d, tabs, tabs', users, users', UpPage(oldsz),
                  UpPage(newsz), {})
    ensures oldsz <= newsz < KERNBASE && !ok ==>
              r == 0 && users' == users && SameUser(k.lo, old(Now(k)), Now(k), d, tabs, tabs', users)
              && Kept(old(Now(k)), tabs.Keys, Now(k), tabs'.Keys)
    ensures oldsz <= newsz < KERNBASE ==>
              (ok <==> FramesFor(old(k.pages)[d], UpPage(oldsz), UpPage(newsz)) <= |old(k.free)|)
  {
    hide Dropped, Space, Safe, Tables, Users, Apart, Kept, SlotOk, UseOk, PageOk, FrameOk, SameOn, MappedRun, RunPte,
         SameMap, FreeList, Frames, Look, Grown, MoreUsers, GrownPage, SameUser, Filled,
         Given, FramesFor;
    tabs', users', ok := tabs, users, true;
    if newsz >= KERNBASE {
      return 0, false, tabs, users;
    }
    if newsz < oldsz {
      return oldsz, true, tabs, users;
    }
    ghost var m, from, q := Now(k), UpPage(oldsz), UpPage(oldsz);
    GrownNone(k.lo, m, d, tabs, users, q);
    GivenNone(m, d, q);
    var a := PgRoundUp(oldsz);
    while a < newsz
      invariant k.Valid() && a == q * PGSIZE && from <= q <= UpPage(newsz)
      invariant Grown(k.lo, m, Now(k), d, tabs, tabs', users, users', from, q, {}) && Given(m, Now(k), d, from, q)
    {
      var more;
      more, tabs', users' := AllocPage(k, d, a, oldsz, newsz, m, tabs, tabs', users, users', q);
      if !more {
        return 0, false, tabs', users';
      }
      a := a + PGSIZE;
      q := q + 1;
    }
    GivenAll(m, Now(k), d, from, q);
    return newsz, true, tabs', users';
  }

  /** freevm: every frame of the address space back on the free list, and no other. */
  method Freevm(k: Kmem, d: nat, ghost tabs: map<nat, Use>, ghost users: map<nat, nat>)
    requires k.Valid() && Space(k.lo, Now(k), d, tabs, users)
    modifies k
    ensures k.Valid() && Kept(old(Now(k)), tabs.Keys + users.Keys, Now(k), {})
  {
    hide Dropped, Space, Safe, Tables, Users, Apart, Kept, SlotOk, UseOk, PageOk, FrameOk, FreeList, Frames, Freeing,
         Below, Drop, Keep;
    ghost var m := Now(k);
    var r, users1 := Deallocuvm(k, d, KERNBASE, 0, tabs, users);
    ghost var m1 := Now(k);
    NoUsersLeft(k.lo, m, m1, d, tabs, users, users1);
    FreeingNone(k.lo, m1, d, tabs);
    var i := 0;
    while i < NPDENTRIES
      invariant k.Valid() && i <= NPDENTRIES && Freeing(k.lo, m1, Now(k), d, tabs, i)
    {
      ghost var m2 := Now(k);
      FreeingAt(k.lo, m1, m2, d, tabs, i);
      var pde := k.pages[d].w[i];
      if P(pde) {
        var panic := k.Kfree(Virt(Fr(pde)));
        assert !panic;
        FreeingTurn(k.lo, m1, m2, d, tabs, i, Fr(pde), k.pages[Fr(pde)]);
      }
      i := i + 1;
    }
    ghost var m3 := Now(k);
    DirLeft(k.lo, m1, m3, d, tabs);
    var panic := k.Kfree(Virt(d));
    assert !panic;
    FreeingEnds(k.lo, m1, m3, d, tabs, k.pages[d]);
    KeptTrans(m, tabs.Keys + users.Keys, m1, tabs.Keys, Now(k), {});
  }

  /** setupkvm: a directory with the kernel's mappings and no user page; or, exactly if there are too
      few frames for it and its page tables, None, with nothing taken. */
  method Setupkvm(k: Kmem, data: nat) returns (r: Option<nat>, ghost tabs: map<nat, Use>)
    requires k.Valid() && DataOk(data)
    modifies k
    ensures k.Valid()
    ensures r.Some? ==> Kernel(k.lo, old(Now(k)), Now(k), r.value, tabs, data, 4)
    ensures r.None? ==> Kept(old(Now(k)), {}, Now(k), {})
    ensures r.Some? <==> KERNELFRAMES <= |old(k.free)|
    ensures r.Some? ==> KernelHas(old(Now(k)), Now(k), r.value, RowSlots(data, 4))
  {
    hide Space, Safe, Tables, Users, Apart, Kept, SlotOk, UseOk, PageOk, FrameOk, FreeList, Frames, Kernel, MappedRun,
         RunPte, KernelPte, Look, Filled, KernelHas, RunTally, Slots, RowSlots, Row.Count;
    ghost var m := Now(k);
    RowSlotsCount(data);
    tabs := map[];
    var v := k.Kalloc();
    if v == 0 {
      NothingKept(m);
      return None, tabs;
    }
    var d := FrameAt(v);
    KernelStart(k.lo, m, data);
    k.SetPage(d, Filled(0));
    tabs := map[d := Dir];
    KernelHasDir(m, Now(k), d);
    NextRow(data, 0);
    var i := 0;
    while i < 4
      invariant k.Valid() && i <= 4 && Kernel(k.lo, m, Now(k), d, tabs, data, i)
      invariant KernelHas(m, Now(k), d, RowSlots(data, i))
    {
      ghost var m1, tabs1 := Now(k), tabs;
      var row := Kmap(data)[i];
      RowFits(data, i);
      KernelIsSafe(k.lo, m, m1, d, tabs, data, i);
      var mr;
      ghost var n;
      mr, tabs, n := Mappages(k, d, row.virt, row.Size(), row.phys, row.perm, tabs);
      KernelRow(k.lo, m, m1, Now(k), d, tabs1, tabs, data, i, n);
      assert mr != Remap;
      KernelHasRow(m, m1, Now(k), d, data, i, n);
      if mr != Mapped {
        ghost var m2 := Now(k);
        Freevm(k, d, tabs, map[]);
        NoneLeft(m, m2, Now(k), tabs.Keys, map[]);
        return None, tabs;
      }
      i := i + 1;
    }
    KernelHasAll(m, Now(k), d, data);
    return Some(d), tabs;
  }

  /** How copyuvm ends: with a child, without one, or in one of its panics. */
  datatype Child = Child(d: nat) | NoChild | ChildPanic

  /** copyuvm: on success the child has the parent's pages below sz; on a failure nothing is taken. It
      panics at the first page q that the parent does not have, unless it runs out of frames before;
      it fails for lack of frames with q pages. */
  method Copyuvm(k: Kmem, parent: nat, sz: nat, data: nat, ghost tabs0: map<nat, Use>, ghost users0: map<nat, nat>)
    returns (r: Child, ghost tabs: map<nat, Use>, ghost users: map<nat, nat>, ghost q: nat)
    requires k.Valid() && DataOk(data) && Space(k.lo, Now(k), parent, tabs0, users0) && sz <= KERNBASE
        && parent < |k.pages|
    modifies k
    ensures k.Valid() && Space(k.lo, Now(k), parent, tabs0, users0)
    ensures SameOn(old(k.pages), k.pages, tabs0.Keys + users0.Keys)
    ensures r.Child? ==> Copied(k.lo, old(Now(k)), Now(k), parent, r.d, tabs, users, data, UpPage(sz), {})
    ensures r.NoChild? ==> Kept(old(Now(k)), {}, Now(k), {})
    ensures q <= UpPage(sz) && (forall p: nat :: p < q ==> Look(old(k.pages), parent, p).Some?)
    ensures !r.NoChild? <==> ChildFrames(q) <= |old(k.free)|
    ensures r.Child? ==> q == UpPage(sz)
    ensures r.ChildPanic? ==> q < UpPage(sz) && Look(old(k.pages), parent, q).None?
  {
    hide Space, Safe, Tables, Users, Apart, Kept, SlotOk, UseOk, PageOk, FrameOk, FreeList, Frames, Kernel, Copied,
         CopiedPage, SameOn, SameMap, Look, Given, FramesFor, RowSlots, Slots;
    ghost var m := Now(k);
    users, q := map[], 0;
    var kvm;
    kvm, tabs := Setupkvm(k, data);
    if kvm.None? {
      ParentKept(k.lo, m, Now(k), parent, tabs0, users0, {});
      return NoChild, tabs, users, q;
    }
    var d := kvm.value;
    ghost var m0 := Now(k);
    CopiedNone(k.lo, m, m0, parent, d, tabs, data);
    GivenNone(m0, d, 0);
    var i := 0;
    while i < sz
      invariant k.Valid() && i == q * PGSIZE && q <= UpPage(sz)
      invariant Copied(k.lo, m, Now(k), parent, d, tabs, users, data, q, {}) && Given(m0, Now(k), d, 0, q)
      invariant forall p: nat :: p < q ==> Look(m.pages, parent, p).Some?
    {
      var c;
      c, tabs, users := CopyPage(k, parent, d, i, data, m, m0, tabs0, users0, tabs, users, q);
      ChildFramesAre(m, m0, d, data, if c == NoFrame then q + 1 else q);
      if c == NotPresent {
        GivenAll(m0, Now(k), d, 0, q);
        CopiedOwns(k.lo, m, Now(k), parent, d, tabs, users, data, q);
        ParentKept(k.lo, m, Now(k), parent, tabs0, users0, tabs.Keys + users.Keys + {});
        return ChildPanic, tabs, users, q;
      }
      if c == NoFrame {
        ParentKept(k.lo, m, Now(k), parent, tabs0, users0, {});
        return NoChild, tabs, users, q + 1;
      }
      i := i + PGSIZE;
      q := q + 1;
    }
    GivenAll(m0, Now(k), d, 0, q);
    ChildFramesAre(m, m0, d, data, q);
    CopiedOwns(k.lo, m, Now(k), parent, d, tabs, users, data, q);
    ParentKept(k.lo, m, Now(k), parent, tabs0, users0, tabs.Keys + users.Keys + {});
    return Child(d), tabs, users, q;
  }

  datatype PageCopy = PageCopied | NoFrame | NotPresent

  /** A turn of the loop in copyuvm: a page more, or the child freed, or a panic. */
  method CopyPage(k: Kmem, parent: nat, d: nat, i: nat, data: nat, ghost m: Mem, ghost m0: Mem,
                  ghost tabs0: map<nat, Use>, ghost users0: map<nat, nat>,
                  ghost tabs1: map<nat, Use>, ghost users1: map<nat, nat>, ghost q: nat)
    returns (r: PageCopy, ghost tabs: map<nat, Use>, ghost users: map<nat, nat>)
    requires k.Valid() && DataOk(data) && Space(k.lo, m, parent, tabs0, users0) && parent < |m.pages|
    requires i == q * PGSIZE && q < UPAGES
    requires Copied(k.lo, m, Now(k), parent, d, tabs1, users1, data, q, {}) && Given(m0, Now(k), d, 0, q)
    modifies k
    ensures k.Valid() && (r == NotPresent <==> Look(m.pages, parent, q).None?)
    ensures r == PageCopied ==> Copied(k.lo, m, Now(k), parent, d, tabs, users, data, q + 1, {})
    ensures r == NoFrame ==> Kept(m, {}, Now(k), {})
    ensures r == NotPresent ==> Copied(k.lo, m, Now(k), parent, d, tabs, users, data, q, {})
                                && Given(m0, Now(k), d, 0, q)
    ensures r == PageCopied ==> Given(m0, Now(k), d, 0, q + 1)
    ensures r == NoFrame ==> |m0.free| < FramesFor(m0.pages[d], 0, q + 1)
  {
    hide Space, Safe, Tables, Users, Apart, Kept, SlotOk, UseOk, PageOk, FrameOk, FreeList, Frames, Copied,
         CopiedPage, Walked, SameMap, Pte, MappedRun, RunPte, Span, FramesFor, Tally, Slots;
    ghost var m1 := Now(k);
    CopyTurn(k.lo, m, m1, parent, tabs0, users0, d, tabs1, users1, data, q);
    OnePage(i, q, 0);
    var pte, tabs0' := Walkpgdir(k, parent, i, false, tabs0);
    if pte == Null {
      return NotPresent, tabs1, users1;
    }
    var e := k.pages[pte.frame].w[pte.idx];
    if !P(e) {
      return NotPresent, tabs1, users1;
    }
    r, tabs, users := CopyFrame(k, parent, d, i, e, data, m, m0, tabs1, users1, q);
  }

  /** The rest of the turn: the page behind entry e copied into a frame of its own and mapped. */
  method CopyFrame(k: Kmem, parent: nat, d: nat, i: nat, e: word, data: nat, ghost m: Mem, ghost m0: Mem,
                   ghost tabs1: map<nat, Use>, ghost users1: map<nat, nat>, ghost q: nat)
    returns (r: PageCopy, ghost tabs: map<nat, Use>, ghost users: map<nat, nat>)
    requires k.Valid() && DataOk(data) && parent < |m.pages| == |k.pages| && i == q * PGSIZE && q < UPAGES
    requires e == Pte(m.pages, parent, q) && P(e) && Fr(e) < |m.pages| && k.pages[Fr(e)] == m.pages[Fr(e)]
    requires Copied(k.lo, m, Now(k), parent, d, tabs1, users1, data, q, {}) && Given(m0, Now(k), d, 0, q)
    modifies k
    ensures k.Valid() && r != NotPresent
    ensures r == PageCopied ==> Copied(k.lo, m, Now(k), parent, d, tabs, users, data, q + 1, {})
    ensures r == NoFrame ==> Kept(m, {}, Now(k), {})
    ensures r == PageCopied ==> Given(m0, Now(k), d, 0, q + 1)
    ensures r == NoFrame ==> |m0.free| < FramesFor(m0.pages[d], 0, q + 1)
  {
    hide Space, Safe, Tables, Users, Apart, Kept, SlotOk, UseOk, PageOk, FrameOk, FreeList, Frames, Copied,
         CopiedPage, SameMap, Look, Pte, MappedRun, RunPte, Span, Given, FramesFor, RunTally, Slots;
    ghost var m1 := Now(k);
    CopiedSafe(k.lo, m, m1, parent, d, tabs1, users1, data, q, {});
    SafeDir(k.lo, m1, d, tabs1);
    var mem := k.Kalloc();
    if mem == 0 {
      NotGiven(m0, m1, d, 0, q, q + 1);
      Freevm(k, d, tabs1, users1);
      AllLeft(m, m1, Now(k), tabs1.Keys + users1.Keys);
      return NoFrame, tabs1, users1;
    }
    var f := FrameAt(mem);
    CopiedHolds(k.lo, m, m1, parent, d, tabs1, users1, data, q, k.pages[Fr(e)]);
    k.SetPage(f, k.pages[Fr(e)]);
    ghost var m2 := Now(k);
    CopiedSafe(k.lo, m, m2, parent, d, tabs1, users1, data, q, {f});
    OnePage(i, q, f);
    var mr;
    ghost var n;
    mr, tabs, n := Mappages(k, d, i, PGSIZE, mem - KERNBASE, Flags(e), tabs1);
    assert mr != Remap;
    ghost var m3 := Now(k);
    CopiedMaps(k.lo, m, m2, m3, parent, d, tabs1, tabs, users1, data, q, n, f);
    GivenNext(m0, m1, m2, m3, d, 0, q, n, q + 1);
    if mr != Mapped {
      HeldLeft(k.lo, m, m3, parent, d, tabs, users1, data, q, f);
      var panic := k.Kfree(mem);
      CopiedFree(k.lo, m, m3, parent, d, tabs, users1, data, q, f, k.pages[f]);
      ghost var m4 := Now(k);
      Freevm(k, d, tabs, users1);
      KeptTrans(m, {}, m4, tabs.Keys + users1.Keys, Now(k), {});
      return NoFrame, tabs, users1;
    }
    return PageCopied, tabs, users1[f := q];
  }
}

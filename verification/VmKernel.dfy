/** setupkvm, freevm and copyuvm of vm.c over values: the kernel's part of an address space, and
    whole address spaces that come and go. */
module VmKernel {
  import opened Kalloc
  import opened Param
  import opened Steps
  import opened VmSpec
  import opened VmSteps

  const EXTMEM: nat := 0x10_0000
  const DEVSPACE: nat := 0xFE00_0000
  const KERNLINK: nat := KERNBASE + EXTMEM

  /** A row of the table kmap; `size` is phys_end - phys_start as a 32-bit number. */
  datatype Row = Row(virt: nat, phys: nat, end: nat, perm: nat) {
    function Size(): nat {
      (end - phys) % (NPAGES * PGSIZE)
    }

    function First(): nat {
      virt / PGSIZE
    }

    function Count(): nat {
      if Size() == 0 then 0 else Span(virt, Size())
    }

    predicate Has(q: nat) {
      First() <= q < First() + Count()
    }
  }

  /** kmap, for the linker's address `data`. */
  function Kmap(data: nat): (rows: seq<Row>)
    requires KERNBASE <= data
    ensures |rows| == 4
  {
    [Row(KERNBASE, 0, EXTMEM, PTE_W), Row(KERNLINK, EXTMEM, data - KERNBASE, 0),
     Row(data, data - KERNBASE, PHYSTOP, PTE_W), Row(DEVSPACE, DEVSPACE, 0, PTE_W)]
  }

  /** Where the linker may put `data`: on a page boundary, after the kernel text. */
  ghost predicate DataOk(data: nat) {
    data % PGSIZE == 0 && KERNLINK < data < Virt(NFRAMES)
  }

  lemma RowFits(data: nat, i: nat)
    requires DataOk(data) && i < 4
    ensures var r := Kmap(data)[i];
            && 0 < r.Size() && r.virt + r.Size() <= NPAGES * PGSIZE && r.perm < PGSIZE && r.phys % PGSIZE == 0
            && r.phys / PGSIZE + r.Count() <= NPAGES && UPAGES <= r.First() && r.Count() == Span(r.virt, r.Size())
  {
  }

  /** The entry for page q once the first i rows are mapped. */
  function KernelPte(data: nat, i: nat, q: nat): word
    requires DataOk(data) && i <= 4
  {
    if i == 0 then 0
    else
      RowFits(data, i - 1);
      var r := Kmap(data)[i - 1];
      if r.Has(q) then Entry(r.phys / PGSIZE + (q - r.First()), r.perm) else KernelPte(data, i - 1, q)
  }

  /** The rows do not overlap, so mappages meets no "remap". */
  lemma RowsApart(data: nat, i: nat, q: nat)
    requires DataOk(data) && i < 4 && Kmap(data)[i].Has(q)
    ensures KernelPte(data, i, q) == 0
  {
    RowsAre(data);
    if i == 3 {
      assert KernelPte(data, 3, q) == KernelPte(data, 2, q) == KernelPte(data, 1, q) == KernelPte(data, 0, q);
    } else if i == 2 {
      assert KernelPte(data, 2, q) == KernelPte(data, 1, q) == KernelPte(data, 0, q);
    }
  }

  /** The kernel's mappings in every address space: I/O space, kernel text read-only, the rest of
      physical memory, the devices; nothing below KERNBASE. */
  lemma KernelMap(data: nat, q: nat)
    requires DataOk(data) && q < NPAGES
    ensures KernelPte(data, 4, q) ==
            if UPAGES <= q < UPAGES + 0x100 then Entry(q - UPAGES, PTE_W)
            else if UPAGES + 0x100 <= q < data / PGSIZE then Entry(q - UPAGES, 0)
            else if data / PGSIZE <= q < UPAGES + NFRAMES then Entry(q - UPAGES, PTE_W)
            else if DEVSPACE / PGSIZE <= q then Entry(q, PTE_W)
            else 0
  {
    RowsAre(data);
    hide Kmap, Row.First, Row.Count, Row.Size;
    assert KernelPte(data, 1, q) == if UPAGES <= q < UPAGES + 0x100 then Entry(q - UPAGES, PTE_W) else 0;
    assert KernelPte(data, 2, q) ==
           if UPAGES + 0x100 <= q < data / PGSIZE then Entry(q - UPAGES, 0) else KernelPte(data, 1, q);
    assert KernelPte(data, 3, q) ==
           if data / PGSIZE <= q < UPAGES + NFRAMES then Entry(q - UPAGES, PTE_W) else KernelPte(data, 2, q);
  }

  lemma RowsAre(data: nat)
    requires DataOk(data)
    ensures Kmap(data)[0].First() == UPAGES && Kmap(data)[0].Count() == 0x100
    ensures Kmap(data)[1].First() == UPAGES + 0x100 && Kmap(data)[1].First() + Kmap(data)[1].Count() == data / PGSIZE
    ensures Kmap(data)[2].First() == data / PGSIZE && data / PGSIZE + Kmap(data)[2].Count() == UPAGES + NFRAMES
    ensures Kmap(data)[3].First() == DEVSPACE / PGSIZE && Kmap(data)[3].First() + Kmap(data)[3].Count() == NPAGES
  {
  }

  lemma {:induction false} NoUserRow(data: nat, i: nat, q: nat)
    requires DataOk(data) && i <= 4 && q < UPAGES
    ensures KernelPte(data, i, q) == 0
  {
    if i > 0 {
      RowFits(data, i - 1);
      NoUserRow(data, i - 1, q);
    }
  }

  // ---------- setupkvm

  /** Where setupkvm stands after i rows of kmap. */
  ghost predicate Kernel(lo: nat, m: Mem, m': Mem, d: nat, tabs: map<nat, Use>, data: nat, i: nat)
    requires DataOk(data) && i <= 4
  {
    && Safe(lo, m', d, tabs) && Kept(m, {}, m', tabs.Keys)
    && forall q: nat :: q < NPAGES ==> Pte(m'.pages, d, q) == KernelPte(data, i, q)
  }

  /** A fresh zeroed directory. */
  lemma KernelStart(lo: nat, m: Mem, data: nat)
    requires DataOk(data) && |m.pages| == NFRAMES && 0 < lo && m.free != [] && lo <= m.free[0] < NFRAMES
    requires m.free[0] !in m.free[1..]
    ensures Kernel(lo, m, Mem(m.pages[m.free[0] := Filled(0)], m.free[1..]), m.free[0], map[m.free[0] := Dir], data, 0)
  {
    KeptPop(m, {}, Filled(0));
    assert map[m.free[0] := Dir].Keys == {} + {m.free[0]};
  }

  /** No user page is mapped, however far setupkvm has got. */
  lemma KernelSpace(lo: nat, m: Mem, d: nat, tabs: map<nat, Use>)
    requires Safe(lo, m, d, tabs) && forall q: nat :: q < UPAGES ==> Pte(m.pages, d, q) == 0
    ensures Space(lo, m, d, tabs, map[])
  {
  }

  /** A row mapped, wholly or up to a failure. */
  lemma KernelRow(lo: nat, m: Mem, m1: Mem, m2: Mem, d: nat, tabs1: map<nat, Use>, tabs2: map<nat, Use>, data: nat,
                  i: nat, n: nat)
    requires DataOk(data) && i < 4 && Kernel(lo, m, m1, d, tabs1, data, i)
    requires var r := Kmap(data)[i];
             MappedRun(lo, m1, m2, d, tabs1, tabs2, r.First(), n, r.phys / PGSIZE, r.perm) && n <= r.Count()
    ensures n == Kmap(data)[i].Count() ==> Kernel(lo, m, m2, d, tabs2, data, i + 1)
    ensures Space(lo, m2, d, tabs2, map[]) && Kept(m, {}, m2, tabs2.Keys)
    ensures d < |m1.pages| && (n < Kmap(data)[i].Count() ==>
                                 Kmap(data)[i].First() + n < NPAGES
                                     && Look(m1.pages, d, Kmap(data)[i].First() + n).None?)
  {
    hide Tables, Users, Apart, SlotOk, UseOk, PageOk, FrameOk, Frames, Pte;
    var r := Kmap(data)[i];
    RowFits(data, i);
    KeptTrans(m, {}, m1, tabs1.Keys, m2, tabs2.Keys);
    var i' := i + 1;
    forall q: nat | q < NPAGES
      ensures n == r.Count() ==> Pte(m2.pages, d, q) == KernelPte(data, i', q)
      ensures q < UPAGES ==> Pte(m2.pages, d, q) == 0
    {
      assert RunPte(m1.pages, m2.pages, d, r.First(), n, r.phys / PGSIZE, r.perm, q);
      if q < UPAGES {
        NoUserRow(data, i, q);
      }
    }
    KernelSpace(lo, m2, d, tabs2);
    if n < r.Count() {
      RowsApart(data, i, r.First() + n);
    }
  }

  // ---------- freevm

  /** The page tables of the first i directory slots. */
  ghost function Below(tabs: map<nat, Use>, i: nat): set<nat> {
    set f | f in tabs && tabs[f].Table? && tabs[f].i < i
  }

  /** Where freevm stands: the page tables of the first i slots are free; m is from before the loop. */
  ghost predicate Freeing(lo: nat, m: Mem, m': Mem, d: nat, tabs: map<nat, Use>, i: nat) {
    && Tables(lo, m.pages, d, tabs) && Kept(m, tabs.Keys, m', tabs.Keys - Below(tabs, i))
    && |m'.pages| == NFRAMES && m'.pages[d] == m.pages[d]
  }

  lemma FreeingNone(lo: nat, m: Mem, d: nat, tabs: map<nat, Use>)
    requires Safe(lo, m, d, tabs)
    ensures Freeing(lo, m, m, d, tabs, 0)
  {
    assert tabs.Keys - Below(tabs, 0) == tabs.Keys;
  }

  lemma FreeingAt(lo: nat, m: Mem, m': Mem, d: nat, tabs: map<nat, Use>, i: nat)
    requires Freeing(lo, m, m', d, tabs, i) && i < NPDENTRIES
    ensures d < |m'.pages| && 0 < lo
    ensures var e := m'.pages[d].w[i];
            if P(e) then
              && lo <= Fr(e) < NFRAMES && Fr(e) !in m'.free && Fr(e) < |m'.pages| && Fr(e) != d
              && tabs.Keys - Below(tabs, i) == tabs.Keys - Below(tabs, i + 1) + {Fr(e)}
              && Fr(e) !in tabs.Keys - Below(tabs, i + 1)
            else Freeing(lo, m, m', d, tabs, i + 1)
  {
    hide Frames;
    var e := m'.pages[d].w[i];
    forall f | f in tabs
      ensures tabs[f] == Table(i) <==> P(e) && f == Fr(e)
    {
      assert UseOk(lo, m.pages, d, tabs[f], f);
      assert SlotOk(m.pages, d, tabs, i);
    }
    if P(e) {
      TableAt(lo, m.pages, d, tabs, i);
      assert Fr(e) in tabs.Keys - Below(tabs, i);
    } else {
      assert Below(tabs, i + 1) == Below(tabs, i);
    }
  }

  lemma FreeingTurn(lo: nat, m: Mem, m': Mem, d: nat, tabs: map<nat, Use>, i: nat, f: nat, x: Page)
    requires Freeing(lo, m, m', d, tabs, i) && i < NPDENTRIES && d < |m'.pages|
    requires P(m'.pages[d].w[i]) && f == Fr(m'.pages[d].w[i]) && f < |m'.pages|
    ensures Freeing(lo, m, Mem(m'.pages[f := x], [f] + m'.free), d, tabs, i + 1)
  {
    hide Frames, SlotOk, UseOk;
    FreeingAt(lo, m, m', d, tabs, i);
    var rest := tabs.Keys - Below(tabs, i + 1);
    KeptPush(m', rest, f, x);
    KeptTrans(m, tabs.Keys, m', rest + {f}, Mem(m'.pages[f := x], [f] + m'.free), rest);
  }

  /** The last kfree, of the directory itself. */
  lemma FreeingEnds(lo: nat, m: Mem, m': Mem, d: nat, tabs: map<nat, Use>, x: Page)
    requires Freeing(lo, m, m', d, tabs, NPDENTRIES)
    ensures lo <= d < NFRAMES && d < |m'.pages| && d !in m'.free
    ensures Kept(m, tabs.Keys, Mem(m'.pages[d := x], [d] + m'.free), {})
  {
    forall f | f in tabs
      ensures f in Below(tabs, NPDENTRIES) || f == d
    {
      assert UseOk(lo, m.pages, d, tabs[f], f);
    }
    assert tabs.Keys - Below(tabs, NPDENTRIES) == {} + {d} by {
      assert UseOk(lo, m.pages, d, tabs[d], d);
    }
    KeptPush(m', {}, d, x);
    KeptTrans(m, tabs.Keys, m', {} + {d}, Mem(m'.pages[d := x], [d] + m'.free), {});
  }

  /** deallocuvm from KERNBASE down to 0 leaves no user page. */
  lemma NoUsersLeft(lo: nat, m: Mem, m1: Mem, d: nat, tabs: map<nat, Use>, users: map<nat, nat>, users1: map<nat, nat>)
    requires Space(lo, m, d, tabs, users) && Dropped(lo, m, m1, d, tabs, users, users1, 0, UPAGES)
    ensures Safe(lo, m1, d, tabs) && Kept(m, tabs.Keys + users.Keys, m1, tabs.Keys)
  {
    hide Tables, Kept, Drop, Pte;
    forall f | f in users
      ensures users[f] < UPAGES
    {
      assert FrameOk(lo, m.pages, d, users[f], f);
    }
    assert users1 == map[];
    assert tabs.Keys + users1.Keys == tabs.Keys;
  }

  // ---------- copyuvm

  /** Page r of the child, once the first q pages are copied: flags and contents as the parent's. */
  ghost predicate CopiedPage(m: Mem, m': Mem, parent: nat, d: nat, q: nat, r: nat)
    requires parent < |m.pages| && d < |m'.pages| && r < NPAGES
  {
    var e0, e := Pte(m.pages, parent, r), Pte(m'.pages, d, r);
    if r < q then
      P(e0) && P(e) && Flags(e) == Flags(e0) && Fr(e0) < |m.pages| && Fr(e) < |m'.pages|
          && m'.pages[Fr(e)] == m.pages[Fr(e0)]
    else !P(e)
  }

  /** Where copyuvm stands after q pages. All that the child has comes from the free list. */
  ghost predicate Copied(lo: nat, m: Mem, m': Mem, parent: nat, d: nat, tabs: map<nat, Use>, users: map<nat, nat>,
                         data: nat, q: nat, held: set<nat>)
    requires DataOk(data)
  {
    && Space(lo, m', d, tabs, users) && parent < |m.pages| && q <= UPAGES
    && (forall r: nat :: r < UPAGES ==> CopiedPage(m, m', parent, d, q, r))
    && (forall r: nat :: UPAGES <= r < NPAGES ==> Pte(m'.pages, d, r) == KernelPte(data, 4, r))
    && held !! tabs.Keys && held !! users.Keys && Kept(m, {}, m', tabs.Keys + users.Keys + held)
  }

  lemma CopiedNone(lo: nat, m: Mem, m': Mem, parent: nat, d: nat, tabs: map<nat, Use>, data: nat)
    requires DataOk(data) && Kernel(lo, m, m', d, tabs, data, 4) && parent < |m.pages|
    ensures Copied(lo, m, m', parent, d, tabs, map[], data, 0, {})
  {
    hide SlotOk, UseOk, Frames, Pte;
    var none: map<nat, nat> := map[];
    NewSpace(lo, m, m', d, tabs, data);
    forall r: nat | r < UPAGES
      ensures Pte(m'.pages, d, r) == 0
    {
      NoUserRow(data, 4, r);
    }
    assert tabs.Keys + none.Keys + {} == tabs.Keys;
  }

  /** The parent does not change: what the child takes was free. */
  lemma ParentKept(lo: nat, m: Mem, m': Mem, parent: nat, tabs0: map<nat, Use>, users0: map<nat, nat>, own: set<nat>)
    requires Space(lo, m, parent, tabs0, users0) && Kept(m, {}, m', own)
    ensures Space(lo, m', parent, tabs0, users0) && SameOn(m.pages, m'.pages, tabs0.Keys + users0.Keys)
    ensures SameMap(m.pages, m'.pages, parent, 0, NPAGES)
  {
    hide SlotOk, UseOk, PageOk, FrameOk, Pte;
    assert forall f :: f in m'.free ==> f in Frames(m.free) + {} by {
      forall f | f in m'.free
        ensures f in Frames(m.free) + {}
      {
        assert f in Frames(m'.free) + own;
      }
    }
    TablesFrame(lo, m.pages, m'.pages, parent, tabs0);
    UsersFrame(lo, m.pages, m'.pages, parent, users0);
  }

  /** kalloc and memmove: a copy of page x in hand. */
  lemma CopiedHolds(lo: nat, m: Mem, m1: Mem, parent: nat, d: nat, tabs: map<nat, Use>, users: map<nat, nat>,
                    data: nat, q: nat, x: Page)
    requires DataOk(data) && Copied(lo, m, m1, parent, d, tabs, users, data, q, {})
    requires m1.free != [] && m1.free[0] < NFRAMES && m1.free[0] !in m1.free[1..]
    ensures m1.free[0] < |m1.pages| && m1.free[0] !in tabs && m1.free[0] !in users
    ensures Copied(lo, m, Mem(m1.pages[m1.free[0] := x], m1.free[1..]), parent, d, tabs, users, data, q, {m1.free[0]})
  {
    hide SlotOk, UseOk, PageOk, FrameOk, Pte;
    var f := m1.free[0];
    var m2 := Mem(m1.pages[f := x], m1.free[1..]);
    TablesFrame(lo, m1.pages, m2.pages, d, tabs);
    UsersFrame(lo, m1.pages, m2.pages, d, users);
    assert tabs.Keys + users.Keys + {} == tabs.Keys + users.Keys;
    KeptPop(m1, tabs.Keys + users.Keys, x);
    KeptTrans(m, {}, m1, tabs.Keys + users.Keys, m2, tabs.Keys + users.Keys + {f});
    forall r: nat | r < UPAGES
      ensures CopiedPage(m, m2, parent, d, q, r)
    {
      assert CopiedPage(m, m1, parent, d, q, r);
      assert Pte(m2.pages, d, r) == Pte(m1.pages, d, r);
      assert PageIn(m1.pages, d, users, r) by { UserPageIn(lo, m1.pages, d, users, r); }
    }
  }

  ghost predicate PageIn(pages: seq<Page>, d: nat, users: map<nat, nat>, r: nat)
    requires d < |pages| && r < NPAGES
  {
    P(Pte(pages, d, r)) ==> Fr(Pte(pages, d, r)) in users
  }

  lemma UserPageIn(lo: nat, pages: seq<Page>, d: nat, users: map<nat, nat>, r: nat)
    requires d < |pages| && Users(lo, pages, d, users) && r < UPAGES
    ensures PageIn(pages, d, users, r)
  {
    assert PageOk(pages, d, users, r);
  }

  /** After the mappages for page q: n is 1, or 0 on a failure. */
  lemma CopiedMaps(lo: nat, m: Mem, m2: Mem, m3: Mem, parent: nat, d: nat, tabs: map<nat, Use>, tabs3: map<nat, Use>,
                   users: map<nat, nat>, data: nat, q: nat, n: nat, f: nat)
    requires DataOk(data) && Copied(lo, m, m2, parent, d, tabs, users, data, q, {f}) && q < UPAGES && n <= 1
    requires P(Pte(m.pages, parent, q)) && Fr(Pte(m.pages, parent, q)) < |m.pages| && lo <= f < NFRAMES
    requires MappedRun(lo, m2, m3, d, tabs, tabs3, q, n, f, Flags(Pte(m.pages, parent, q)))
    requires f < |m2.pages| && m2.pages[f] == m.pages[Fr(Pte(m.pages, parent, q))]
    ensures Copied(lo, m, m3, parent, d, tabs3, if n == 1 then users[f := q] else users, data, q + n,
                   if n == 1 then {} else {f})
  {
    hide SlotOk, UseOk, PageOk, FrameOk, Pte, Frames, P, Fr, Flags, KernelPte, Kept, CopiedPage, DataOk;
    var perm := Flags(Pte(m.pages, parent, q));
    var users3 := if n == 1 then users[f := q] else users;
    HeldIsKept(m, m2, {}, tabs.Keys + users.Keys, f);
    RunApart(lo, m2, m3, d, tabs, tabs3, q, n, f, perm, users.Keys + {f});
    RunUsers(lo, m2, m3, d, tabs, tabs3, users, q, n, f, perm);
    assert tabs.Keys + users.Keys + {f} == tabs.Keys + (users.Keys + {f});
    KeptTrans(m, {}, m2, tabs.Keys + (users.Keys + {f}), m3, tabs3.Keys + (users.Keys + {f}));
    if n == 1 {
      assert tabs3.Keys + (users.Keys + {f}) == tabs3.Keys + users3.Keys + {};
    } else {
      assert tabs3.Keys + (users.Keys + {f}) == tabs3.Keys + users3.Keys + {f};
    }
    CopiedPages(lo, m, m2, m3, parent, d, tabs, tabs3, users, data, q, n, q + n, f, perm);
  }

  lemma CopiedPages(lo: nat, m: Mem, m2: Mem, m3: Mem, parent: nat, d: nat, tabs: map<nat, Use>,
                    tabs3: map<nat, Use>, users: map<nat, nat>, data: nat, q: nat, n: nat, upto: nat, f: nat,
                    perm: nat)
    requires DataOk(data) && Copied(lo, m, m2, parent, d, tabs, users, data, q, {f}) && q < UPAGES && n <= 1
        && upto == q + n
    requires P(Pte(m.pages, parent, q)) && Fr(Pte(m.pages, parent, q)) < |m.pages| && f < NFRAMES
    requires perm == Flags(Pte(m.pages, parent, q)) && MappedRun(lo, m2, m3, d, tabs, tabs3, q, n, f, perm)
    requires f < |m2.pages| && m2.pages[f] == m.pages[Fr(Pte(m.pages, parent, q))]
    requires forall g: nat :: g in users.Keys + {f} && g < |m2.pages| ==> m3.pages[g] == m2.pages[g]
    ensures d < |m3.pages|
    ensures forall r: nat :: r < UPAGES ==> CopiedPage(m, m3, parent, d, upto, r)
    ensures forall r: nat :: UPAGES <= r < NPAGES ==> Pte(m3.pages, d, r) == KernelPte(data, 4, r)
  {
    hide SlotOk, UseOk, PageOk, FrameOk, Pte, Frames, Apart;
    EntryIs(f, perm);
    FlagsOdd(Pte(m.pages, parent, q));
    forall r: nat | r < NPAGES
      ensures r < UPAGES ==> CopiedPage(m, m3, parent, d, upto, r)
      ensures UPAGES <= r ==> Pte(m3.pages, d, r) == KernelPte(data, 4, r)
    {
      assert RunPte(m2.pages, m3.pages, d, q, n, f, perm, r);
      if r < UPAGES {
        assert CopiedPage(m, m2, parent, d, q, r);
        UserPageIn(lo, m2.pages, d, users, r);
      }
    }
  }

  lemma FlagsOdd(e: word)
    requires P(e)
    ensures Flags(e) % 2 == 1
  {
  }

  /** kfree of the copy in hand when its page could not be mapped. */
  lemma CopiedFree(lo: nat, m: Mem, m3: Mem, parent: nat, d: nat, tabs: map<nat, Use>, users: map<nat, nat>,
                   data: nat, q: nat, f: nat, x: Page)
    requires DataOk(data) && Copied(lo, m, m3, parent, d, tabs, users, data, q, {f}) && f < |m3.pages|
    ensures f !in m3.free
    ensures Space(lo, Mem(m3.pages[f := x], [f] + m3.free), d, tabs, users)
    ensures Kept(m, {}, Mem(m3.pages[f := x], [f] + m3.free), tabs.Keys + users.Keys)
  {
    hide SlotOk, UseOk, PageOk, FrameOk, Pte, CopiedPage;
    var m4 := Mem(m3.pages[f := x], [f] + m3.free);
    HeldIsKept(m, m3, {}, tabs.Keys + users.Keys, f);
    KeptPush(m3, tabs.Keys + users.Keys, f, x);
    KeptTrans(m, {}, m3, tabs.Keys + users.Keys + {f}, m4, tabs.Keys + users.Keys);
    TablesFrame(lo, m3.pages, m4.pages, d, tabs);
    UsersFrame(lo, m3.pages, m4.pages, d, users);
  }

  /** What copyuvm knows of the page it is about to copy. */
  lemma CopyTurn(lo: nat, m: Mem, m1: Mem, parent: nat, tabs0: map<nat, Use>, users0: map<nat, nat>, d: nat,
                 tabs: map<nat, Use>, users: map<nat, nat>, data: nat, q: nat)
    requires DataOk(data) && Copied(lo, m, m1, parent, d, tabs, users, data, q, {}) && q < UPAGES
    requires Space(lo, m, parent, tabs0, users0)
    ensures parent < |m.pages| == |m1.pages| && Safe(lo, m1, parent, tabs0)
    ensures var pde := m1.pages[parent].w[q / 1024];
            if P(pde) then Fr(pde) < |m1.pages| && m1.pages[Fr(pde)].w[q % 1024] == Pte(m.pages, parent, q)
            else Look(m.pages, parent, q).None?
    ensures var e := Pte(m.pages, parent, q); P(e) ==> Fr(e) < |m.pages| && m1.pages[Fr(e)] == m.pages[Fr(e)]
  {
    hide SlotOk, UseOk, Frames, CopiedPage;
    ParentKept(lo, m, m1, parent, tabs0, users0, tabs.Keys + users.Keys + {});
    assert Pte(m1.pages, parent, q) == Pte(m.pages, parent, q);
    if P(Pte(m.pages, parent, q)) {
      UserPageIn(lo, m.pages, parent, users0, q);
      assert FrameOk(lo, m.pages, parent, users0[Fr(Pte(m.pages, parent, q))], Fr(Pte(m.pages, parent, q)));
    }
    if P(m1.pages[parent].w[q / 1024]) {
      TableAt(lo, m1.pages, parent, tabs0, q / 1024);
    }
  }

  lemma CopiedSafe(lo: nat, m: Mem, m2: Mem, parent: nat, d: nat, tabs: map<nat, Use>, users: map<nat, nat>,
                   data: nat, q: nat, held: set<nat>)
    requires DataOk(data) && Copied(lo, m, m2, parent, d, tabs, users, data, q, held) && q < UPAGES
    ensures Space(lo, m2, d, tabs, users) && Safe(lo, m2, d, tabs) && d < |m2.pages| && Look(m2.pages, d, q).None?
    ensures Kept(m, {}, m2, tabs.Keys + users.Keys + held)
  {
    hide SlotOk, UseOk, PageOk, FrameOk, Kept;
    assert CopiedPage(m, m2, parent, d, q, q);
  }

  // ---------- whole lives

  /** An address space at one moment: the memory, its directory and page tables, its user frames. */
  datatype Moment = Moment(m: Mem, tabs: map<nat, Use>, users: map<nat, nat>)

  /** What may happen to it: allocuvm, allocuvm that fails, deallocuvm, or that its process writes
      into one of its frames. */
  datatype Happening =
    | Grows(from: nat, upto: nat)
    | FailsToGrow
    | Shrinks(from: nat, upto: nat)
    | Stores(frame: nat, page: Page)

  ghost predicate Happens(lo: nat, d: nat, e: Happening, s: Moment, s': Moment) {
    match e
    case Grows(from, upto) => Grown(lo, s.m, s'.m, d, s.tabs, s'.tabs, s.users, s'.users, from, upto, {})
    case FailsToGrow =>
      && SameUser(lo, s.m, s'.m, d, s.tabs, s'.tabs, s.users) && s'.users == s.users
      && Kept(s.m, s.tabs.Keys, s'.m, s'.tabs.Keys)
    case Shrinks(from, upto) =>
      s'.tabs == s.tabs && Dropped(lo, s.m, s'.m, d, s.tabs, s.users, s'.users, from, upto)
    case Stores(f, x) =>
      f in s.users && f < |s.m.pages| && s' == s.(m := Mem(s.m.pages[f := x], s.m.free))
  }

  /** The address space goes from s0 to s by the happenings es. */
  ghost predicate Life(lo: nat, d: nat, s0: Moment, es: seq<Happening>, s: Moment)
    decreases |es|
  {
    if es == [] then s == s0
    else exists r :: Life(lo, d, s0, Front(es), r) && Happens(lo, d, Last(es), r, s)
  }

  /** All that the address space has was free in m, and no other page has changed since. */
  ghost predicate Balanced(lo: nat, m: Mem, d: nat, s: Moment) {
    Space(lo, s.m, d, s.tabs, s.users) && Kept(m, {}, s.m, s.tabs.Keys + s.users.Keys)
  }

  lemma StoreKeeps(lo: nat, d: nat, s: Moment, f: nat, x: Page)
    requires Space(lo, s.m, d, s.tabs, s.users) && f in s.users && f < |s.m.pages|
    ensures var m' := Mem(s.m.pages[f := x], s.m.free);
            Space(lo, m', d, s.tabs, s.users) && Kept(s.m, s.tabs.Keys + s.users.Keys, m', s.tabs.Keys + s.users.Keys)
  {
    hide SlotOk, UseOk, PageOk, FrameOk, Pte;
    TablesFrame(lo, s.m.pages, s.m.pages[f := x], d, s.tabs);
    UsersFrame(lo, s.m.pages, s.m.pages[f := x], d, s.users);
  }

  lemma HappeningKeeps(lo: nat, d: nat, e: Happening, s: Moment, s': Moment)
    requires Space(lo, s.m, d, s.tabs, s.users) && Happens(lo, d, e, s, s')
    ensures Space(lo, s'.m, d, s'.tabs, s'.users)
    ensures Kept(s.m, s.tabs.Keys + s.users.Keys, s'.m, s'.tabs.Keys + s'.users.Keys)
  {
    hide Tables, Users, Apart, SlotOk, UseOk, PageOk, FrameOk, GrownPage, MoreUsers, Drop, DropEntry, Look, Pte, Keep;
    match e
    case Grows(from, upto) => GrownConserves(lo, s.m, s'.m, d, s.tabs, s'.tabs, s.users, s'.users, from, upto);
    case FailsToGrow => KeptBeside(s.m, s.tabs.Keys, s'.m, s'.tabs.Keys, s.users.Keys);
    case Shrinks(from, upto) =>
    case Stores(f, x) => StoreKeeps(lo, d, s, f, x);
  }

  lemma {:induction false} LifeKeeps(lo: nat, m: Mem, d: nat, s0: Moment, es: seq<Happening>, s: Moment)
    requires Balanced(lo, m, d, s0) && Life(lo, d, s0, es, s)
    ensures Balanced(lo, m, d, s)
    decreases |es|
  {
    hide Space, Kept, Happens;
    if es != [] {
      var r :| Life(lo, d, s0, Front(es), r) && Happens(lo, d, Last(es), r, s);
      LifeKeeps(lo, m, d, s0, Front(es), r);
      HappeningKeeps(lo, d, Last(es), r, s);
      KeptTrans(m, {}, r.m, r.tabs.Keys + r.users.Keys, s.m, s.tabs.Keys + s.users.Keys);
    }
  }

  /** A whole life, from setupkvm through any number of happenings in any order to freevm: the
      frames that are free at the end are those that were free at the start, and no page that was
      not free has been written. */
  lemma LifeBalanced(lo: nat, m: Mem, s0: Moment, d: nat, data: nat, es: seq<Happening>, s: Moment, m': Mem)
    requires DataOk(data) && Kernel(lo, m, s0.m, d, s0.tabs, data, 4) && s0.users == map[]
    requires Life(lo, d, s0, es, s) && Kept(s.m, s.tabs.Keys + s.users.Keys, m', {})
    ensures Space(lo, s.m, d, s.tabs, s.users)
    ensures Frames(m'.free) == Frames(m.free)
    ensures |m'.pages| == |m.pages| && forall f: nat :: f < |m.pages| && f !in m.free ==> m'.pages[f] == m.pages[f]
  {
    hide Life, Happens, Tables, Users, Pte, Frames, SlotOk, UseOk, PageOk, FrameOk;
    NewSpace(lo, m, s0.m, d, s0.tabs, data);
    assert s0.tabs.Keys + s0.users.Keys == s0.tabs.Keys;
    LifeKeeps(lo, m, d, s0, es, s);
    KeptTrans(m, {}, s.m, s.tabs.Keys + s.users.Keys, m', {});
    KeptFrames(m, m');
  }

  lemma NewSpace(lo: nat, m: Mem, m': Mem, d: nat, tabs: map<nat, Use>, data: nat)
    requires DataOk(data) && Kernel(lo, m, m', d, tabs, data, 4)
    ensures Space(lo, m', d, tabs, map[]) && Kept(m, {}, m', tabs.Keys)
  {
    hide SlotOk, UseOk, Frames, Pte;
    forall q: nat | q < UPAGES
      ensures Pte(m'.pages, d, q) == 0
    {
      NoUserRow(data, 4, q);
    }
    KernelSpace(lo, m', d, tabs);
  }

  lemma KeptFrames(m: Mem, m': Mem)
    requires Kept(m, {}, m', {})
    ensures Frames(m'.free) == Frames(m.free)
  {
    assert Frames(m'.free) + {} == Frames(m'.free) && Frames(m.free) + {} == Frames(m.free);
  }

  /** The same for a child that copyuvm made; its frames are none of its parent's. */
  lemma ChildBalanced(lo: nat, m: Mem, s0: Moment, parent: nat, d: nat, data: nat, q: nat, es: seq<Happening>,
                      s: Moment, m': Mem)
    requires DataOk(data) && Copied(lo, m, s0.m, parent, d, s0.tabs, s0.users, data, q, {})
    requires Life(lo, d, s0, es, s) && Kept(s.m, s.tabs.Keys + s.users.Keys, m', {})
    ensures Frames(m'.free) == Frames(m.free)
    ensures forall f :: f in s.tabs.Keys + s.users.Keys ==> f in m.free
    ensures |m'.pages| == |m.pages| && forall f: nat :: f < |m.pages| && f !in m.free ==> m'.pages[f] == m.pages[f]
  {
    hide Life, Happens, Tables, Users, CopiedPage, Pte, SlotOk, UseOk, PageOk, FrameOk;
    assert s0.tabs.Keys + s0.users.Keys + {} == s0.tabs.Keys + s0.users.Keys;
    LifeKeeps(lo, m, d, s0, es, s);
    KeptTrans(m, {}, s.m, s.tabs.Keys + s.users.Keys, m', {});
    KeptFrames(m, m');
    forall f | f in s.tabs.Keys + s.users.Keys
      ensures f in m.free
    {
      assert f in Frames(s.m.free) + (s.tabs.Keys + s.users.Keys);
      assert f in Frames(m.free) + {};
    }
  }

  // ---------- small facts for the methods

  lemma DirLeft(lo: nat, m: Mem, m': Mem, d: nat, tabs: map<nat, Use>)
    requires Freeing(lo, m, m', d, tabs, NPDENTRIES)
    ensures 0 < lo <= d < NFRAMES && d < |m'.pages| && d !in m'.free
  {
    assert UseOk(lo, m.pages, d, tabs[d], d);
    assert d in tabs.Keys - Below(tabs, NPDENTRIES);
  }

  lemma NothingKept(m: Mem)
    ensures Kept(m, {}, m, {})
  {
  }

  lemma NoneLeft(m: Mem, m2: Mem, m3: Mem, own: set<nat>, users: map<nat, nat>)
    requires Kept(m, {}, m2, own) && Kept(m2, own + users.Keys, m3, {}) && users == map[]
    ensures Kept(m, {}, m3, {})
  {
    assert own + users.Keys == own;
    KeptTrans(m, {}, m2, own, m3, {});
  }

  lemma AllLeft(m: Mem, m2: Mem, m3: Mem, own: set<nat>)
    requires Kept(m, {}, m2, own + {}) && Kept(m2, own, m3, {})
    ensures Kept(m, {}, m3, {})
  {
    assert own + {} == own;
    KeptTrans(m, {}, m2, own, m3, {});
  }

  lemma KernelIsSafe(lo: nat, m: Mem, m': Mem, d: nat, tabs: map<nat, Use>, data: nat, i: nat)
    requires DataOk(data) && i <= 4 && Kernel(lo, m, m', d, tabs, data, i)
    ensures Safe(lo, m', d, tabs)
  {
  }

  lemma CopiedOwns(lo: nat, m: Mem, m': Mem, parent: nat, d: nat, tabs: map<nat, Use>, users: map<nat, nat>,
                   data: nat, q: nat)
    requires DataOk(data) && Copied(lo, m, m', parent, d, tabs, users, data, q, {})
    ensures Kept(m, {}, m', tabs.Keys + users.Keys + {})
  {
  }

  lemma HeldLeft(lo: nat, m: Mem, m3: Mem, parent: nat, d: nat, tabs: map<nat, Use>, users: map<nat, nat>, data: nat,
                 q: nat, f: nat)
    requires DataOk(data) && Copied(lo, m, m3, parent, d, tabs, users, data, q, {f})
    ensures f !in m3.free
  {
    HeldIsKept(m, m3, {}, tabs.Keys + users.Keys, f);
  }
}

/** How many frames page tables take: what setupkvm, allocuvm and copyuvm need, and so when they fail. */
module VmCount {
  import opened Kalloc
  import opened Param
  import opened Sets
  import opened VmKernel
  import opened VmSpec
  import opened VmSteps

  /** The slots of a directory that have a page table. */
  ghost function Slots(dir: Page): (s: set<nat>)
    ensures forall i: nat :: i in s <==> i < NPDENTRIES && P(dir.w[i])
  {
    set i: nat | i < NPDENTRIES && P(dir.w[i])
  }

  lemma SlotHas(dir: Page, i: nat)
    requires i < NPDENTRIES
    ensures i in Slots(dir) <==> P(dir.w[i])
    ensures P(dir.w[i]) ==> Slots(dir) + {i} == Slots(dir)
  {
  }

  /** A table put in a slot. */
  lemma SlotNew(dir: Page, i: nat, e: word)
    requires i < NPDENTRIES && P(e)
    ensures Slots(SetW(dir, i, e)) == Slots(dir) + {i}
  {
  }

  /** The directory slots that pages from .. upto-1 lie in. */
  ghost function SlotsOf(from: nat, upto: nat): (s: set<nat>)
    ensures forall i: nat :: i in s <==> from < upto && from / 1024 <= i <= (upto - 1) / 1024
  {
    if upto <= from then {} else Range(from / 1024, (upto - 1) / 1024 + 1)
  }

  /** Frames for pages from .. upto-1: one for each, and a page table where the directory has none. */
  ghost function FramesFor(dir: Page, from: nat, upto: nat): nat {
    if upto <= from then 0 else upto - from + |SlotsOf(from, upto) - Slots(dir)|
  }

  /** Of free0 frames `free` are left: `taken` went to pages, the others to tables for slots of `run`
      that were not among slots0. */
  ghost predicate Tally(free0: nat, slots0: set<nat>, free: nat, slots: set<nat>, taken: nat, run: set<nat>) {
    slots == slots0 + run && free0 == free + taken + |run - slots0|
  }

  lemma TallyStart(n: nat, slots: set<nat>)
    ensures Tally(n, slots, n, slots, 0, {})
  {
    assert {} - slots == {};
  }

  /** walkpgdir for slot i, with a new table if there is none. */
  lemma TallyTable(free0: nat, slots0: set<nat>, free: nat, slots: set<nat>, taken: nat, run: set<nat>, i: nat,
                   free': nat, slots': set<nat>, run': set<nat>)
    requires Tally(free0, slots0, free, slots, taken, run) && free == free' + if i in slots then 0 else 1
    requires slots' == slots + {i} && run' == run + {i}
    ensures Tally(free0, slots0, free', slots', taken, run')
  {
    if i in slots {
      assert run' - slots0 == run - slots0;
    } else {
      assert run' - slots0 == run - slots0 + {i};
    }
  }

  /** kalloc for a page. */
  lemma TallyPage(free0: nat, slots0: set<nat>, free: nat, slots: set<nat>, taken: nat, run: set<nat>)
    requires Tally(free0, slots0, free, slots, taken, run) && free > 0
    ensures Tally(free0, slots0, free - 1, slots, taken + 1, run)
  {
  }

  lemma TallyTrans(free0: nat, slots0: set<nat>, free1: nat, slots1: set<nat>, free2: nat, slots2: set<nat>,
                   taken1: nat, taken2: nat, run1: set<nat>, run2: set<nat>)
    requires Tally(free0, slots0, free1, slots1, taken1, run1) && Tally(free1, slots1, free2, slots2, taken2, run2)
    ensures Tally(free0, slots0, free2, slots2, taken1 + taken2, run1 + run2)
  {
    assert run1 + run2 - slots0 == (run1 - slots0) + (run2 - slots1);
    assert (run1 - slots0) !! (run2 - slots1);
  }

  /** Tables for n pages from page q on, in the directory d. */
  ghost predicate RunTally(m: Mem, m': Mem, d: nat, q: nat, n: nat) {
    && d < |m.pages| == |m'.pages|
    && Tally(|m.free|, Slots(m.pages[d]), |m'.free|, Slots(m'.pages[d]), 0, SlotsOf(q, q + n))
  }

  lemma RunTallyNone(m: Mem, d: nat, q: nat)
    requires d < |m.pages|
    ensures RunTally(m, m, d, q, 0)
  {
    TallyStart(|m.free|, Slots(m.pages[d]));
    SlotsNext(q, q);
  }

  lemma RunTallyNext(m: Mem, m1: Mem, m2: Mem, d: nat, q: nat, n: nat)
    requires RunTally(m, m1, d, q, n) && |m2.pages| == |m1.pages|
    requires Slots(m2.pages[d]) == Slots(m1.pages[d]) + {(q + n) / 1024}
    requires |m1.free| == |m2.free| + if (q + n) / 1024 in Slots(m1.pages[d]) then 0 else 1
    ensures RunTally(m, m2, d, q, n + 1)
  {
    hide Slots, SlotsOf, Tally;
    SlotsNext(q, q + n);
    TallyTable(|m.free|, Slots(m.pages[d]), |m1.free|, Slots(m1.pages[d]), 0, SlotsOf(q, q + n), (q + n) / 1024,
               |m2.free|, Slots(m2.pages[d]), SlotsOf(q, q + n + 1));
  }

  lemma SlotsNext(from: nat, q: nat)
    requires from <= q
    ensures SlotsOf(from, q + 1) == SlotsOf(from, q) + {q / 1024} && SlotsOf(from, from) == {}
  {
  }

  /** No frame is left, and a page is yet to come; or its frame is there and its table is not. */
  lemma Short(free0: nat, dir: Page, slots: set<nat>, from: nat, q: nat, upto: nat, table: bool)
    requires from <= q < upto && (table ==> q / 1024 !in slots)
    requires Tally(free0, Slots(dir), 0, slots, q - from + (if table then 1 else 0), SlotsOf(from, q))
    ensures free0 < FramesFor(dir, from, upto)
  {
    var have, all := SlotsOf(from, q) - Slots(dir), SlotsOf(from, upto) - Slots(dir);
    if table {
      assert have + {q / 1024} <= all;
      Smaller(have + {q / 1024}, all);
    } else {
      assert have <= all;
      Smaller(have, all);
    }
  }

  /** Pages from .. q-1 have been given frames, and tables where there were none. */
  ghost predicate Given(m: Mem, m': Mem, d: nat, from: nat, q: nat) {
    && d < |m.pages| == |m'.pages| && from <= q
    && Tally(|m.free|, Slots(m.pages[d]), |m'.free|, Slots(m'.pages[d]), q - from, SlotsOf(from, q))
  }

  lemma GivenNone(m: Mem, d: nat, from: nat)
    requires d < |m.pages|
    ensures Given(m, m, d, from, from)
  {
    TallyStart(|m.free|, Slots(m.pages[d]));
    SlotsNext(from, from);
  }

  /** kalloc fails with pages q .. upto-1 to come. */
  lemma NotGiven(m: Mem, m1: Mem, d: nat, from: nat, q: nat, upto: nat)
    requires Given(m, m1, d, from, q) && m1.free == [] && q < upto
    ensures |m.free| < FramesFor(m.pages[d], from, upto)
  {
    Short(|m.free|, m.pages[d], Slots(m1.pages[d]), from, q, upto, false);
  }

  /** A page more after kalloc and mappages, or no frame for its table. */
  lemma GivenNext(m: Mem, m1: Mem, m2: Mem, m3: Mem, d: nat, from: nat, q: nat, n: nat, upto: nat)
    requires Given(m, m1, d, from, q) && |m2.pages| == |m1.pages| && m2.pages[d] == m1.pages[d]
    requires |m1.free| == |m2.free| + 1 && RunTally(m2, m3, d, q, n) && n <= 1 && q < upto
    requires n == 0 ==> m3.free == [] && q / 1024 !in Slots(m3.pages[d])
    ensures n == 1 ==> Given(m, m3, d, from, q + 1)
    ensures n == 0 ==> |m.free| < FramesFor(m.pages[d], from, upto)
  {
    hide Slots, SlotsOf, Tally, FramesFor;
    GivenTally(m, m1, m2, m3, d, from, q, n);
    if n == 0 {
      Short(|m.free|, m.pages[d], Slots(m3.pages[d]), from, q, upto, true);
    }
  }

  lemma GivenTally(m: Mem, m1: Mem, m2: Mem, m3: Mem, d: nat, from: nat, q: nat, n: nat)
    requires Given(m, m1, d, from, q) && |m2.pages| == |m1.pages| && m2.pages[d] == m1.pages[d]
    requires |m1.free| == |m2.free| + 1 && RunTally(m2, m3, d, q, n) && n <= 1
    ensures Tally(|m.free|, Slots(m.pages[d]), |m3.free|, Slots(m3.pages[d]), q - from + 1, SlotsOf(from, q + n))
  {
    hide Slots, SlotsOf, Tally;
    var slots0, slots1 := Slots(m.pages[d]), Slots(m1.pages[d]);
    TallyPage(|m.free|, slots0, |m1.free|, slots1, q - from, SlotsOf(from, q));
    TallyTrans(|m.free|, slots0, |m2.free|, slots1, |m3.free|, Slots(m3.pages[d]), q - from + 1, 0,
               SlotsOf(from, q), SlotsOf(q, q + n));
    SlotsNext(from, q);
    SlotsNext(q, q);
    assert SlotsOf(from, q) + SlotsOf(q, q + n) == SlotsOf(from, q + n);
  }

  lemma GivenAll(m: Mem, m': Mem, d: nat, from: nat, upto: nat)
    requires Given(m, m', d, from, upto)
    ensures |m.free| >= FramesFor(m.pages[d], from, upto)
  {
  }

  lemma SafeDir(lo: nat, m: Mem, d: nat, tabs: map<nat, Use>)
    requires Safe(lo, m, d, tabs)
    ensures d < |m.pages| && d !in m.free
  {
  }

  lemma TableIsNotDir(lo: nat, m: Mem, d: nat, tabs: map<nat, Use>, i: nat)
    requires Safe(lo, m, d, tabs) && i < NPDENTRIES && d < |m.pages| && P(m.pages[d].w[i])
    ensures Fr(m.pages[d].w[i]) != d
  {
    TableAt(lo, m.pages, d, tabs, i);
  }

  // ---------- the kernel's part

  /** The slots of the first i rows of kmap. */
  ghost function RowSlots(data: nat, i: nat): set<nat>
    requires DataOk(data) && i <= 4
  {
    if i == 0 then {}
    else
      var r := Kmap(data)[i - 1];
      RowSlots(data, i - 1) + SlotsOf(r.First(), r.First() + r.Count())
  }

  /** A directory, and page tables for physical memory and for the devices. */
  const KERNELFRAMES: nat := 1 + 56 + 8

  lemma RowSlotsAre(data: nat)
    requires DataOk(data)
    ensures RowSlots(data, 4) == Range(512, 568) + Range(1016, 1024) && 1 + |RowSlots(data, 4)| == KERNELFRAMES
  {
    hide Range, SlotsOf, RowSlots;
    RowsJoin(data);
    DeviceRow(data);
    KernelRanges();
    NextRow(data, 3);
    assert Range(512, 568) !! Range(1016, 1024);
  }

  lemma RowSlotsCount(data: nat)
    requires DataOk(data)
    ensures 1 + |RowSlots(data, 4)| == KERNELFRAMES
  {
    hide RowSlots;
    RowSlotsAre(data);
  }

  lemma NextRow(data: nat, i: nat)
    requires DataOk(data) && i < 4
    ensures RowSlots(data, 0) == {}
    ensures var r := Kmap(data)[i];
            RowSlots(data, i + 1) == RowSlots(data, i) + SlotsOf(r.First(), r.First() + r.Count())
  {
  }

  /** The rows for physical memory follow one another. */
  lemma RowsJoin(data: nat)
    requires DataOk(data)
    ensures RowSlots(data, 3) == SlotsOf(UPAGES, UPAGES + NFRAMES)
  {
    hide Range, SlotsOf, RowSlots, Kmap, Row.First, Row.Count;
    RowsAre(data);
    var rows := Kmap(data);
    NextRow(data, 0);
    NextRow(data, 1);
    NextRow(data, 2);
    SlotsJoin(UPAGES, rows[1].First(), rows[2].First());
    SlotsJoin(UPAGES, rows[2].First(), UPAGES + NFRAMES);
  }

  lemma DeviceRow(data: nat)
    requires DataOk(data)
    ensures var r := Kmap(data)[3]; SlotsOf(r.First(), r.First() + r.Count()) == SlotsOf(DEVSPACE / PGSIZE, NPAGES)
  {
    hide Kmap, Row.First, Row.Count;
    RowsAre(data);
  }

  lemma KernelRanges()
    ensures SlotsOf(UPAGES, UPAGES + NFRAMES) == Range(512, 568)
    ensures SlotsOf(DEVSPACE / PGSIZE, NPAGES) == Range(1016, 1024)
  {
    hide Range, SlotsOf;
    SlotsAre(UPAGES, UPAGES + NFRAMES, 512, 568);
    SlotsAre(DEVSPACE / PGSIZE, NPAGES, 1016, 1024);
  }

  /** A directory and tables for the slots in `run`, and nothing else, have been taken. */
  ghost predicate KernelHas(m: Mem, m': Mem, d: nat, run: set<nat>) {
    d < |m'.pages| && |m.free| == |m'.free| + 1 + |run| && Slots(m'.pages[d]) == run
  }

  lemma KernelHasDir(m: Mem, m': Mem, d: nat)
    requires d < |m'.pages| && m'.pages[d] == Filled(0) && |m.free| == |m'.free| + 1
    ensures KernelHas(m, m', d, {})
  {
    assert Slots(Filled(0)) == {};
  }

  lemma KernelHasAll(m: Mem, m': Mem, d: nat, data: nat)
    requires DataOk(data) && KernelHas(m, m', d, RowSlots(data, 4))
    ensures KERNELFRAMES <= |m.free|
  {
    hide RowSlots;
    RowSlotsCount(data);
  }

  /** A row of kmap more, or no frame for a table. */
  lemma KernelHasRow(m: Mem, m1: Mem, m2: Mem, d: nat, data: nat, i: nat, n: nat)
    requires DataOk(data) && i < 4 && KernelHas(m, m1, d, RowSlots(data, i))
    requires RunTally(m1, m2, d, Kmap(data)[i].First(), n) && n <= Kmap(data)[i].Count()
    requires n < Kmap(data)[i].Count() ==>
               m2.free == [] && (Kmap(data)[i].First() + n) / 1024 !in Slots(m2.pages[d])
    ensures n == Kmap(data)[i].Count() ==> KernelHas(m, m2, d, RowSlots(data, i + 1))
    ensures n < Kmap(data)[i].Count() ==> |m.free| < KERNELFRAMES
  {
    hide Slots, SlotsOf, RowSlots, Kmap, Row.First, Row.Count, RunTally, KernelHas;
    var q := Kmap(data)[i].First();
    KernelHasMore(m, m1, m2, d, RowSlots(data, i), q, n);
    NextRow(data, i);
    if n < Kmap(data)[i].Count() {
      RowWithin(data, i, n);
      RowSlotsCount(data);
      KernelShort(m, m2, d, RowSlots(data, i) + SlotsOf(q, q + n), (q + n) / 1024, RowSlots(data, 4));
    }
  }

  lemma KernelHasMore(m: Mem, m1: Mem, m2: Mem, d: nat, run: set<nat>, q: nat, n: nat)
    requires KernelHas(m, m1, d, run) && RunTally(m1, m2, d, q, n)
    ensures KernelHas(m, m2, d, run + SlotsOf(q, q + n))
  {
    hide Slots, SlotsOf;
    var more := SlotsOf(q, q + n);
    assert run + more == run + (more - run);
  }

  lemma KernelShort(m: Mem, m2: Mem, d: nat, run: set<nat>, i: nat, all: set<nat>)
    requires KernelHas(m, m2, d, run) && m2.free == [] && i !in Slots(m2.pages[d]) && run + {i} <= all
    ensures |m.free| < 1 + |all|
  {
    hide Slots;
    Smaller(run + {i}, all);
  }

  lemma RowWithin(data: nat, i: nat, n: nat)
    requires DataOk(data) && i < 4 && n < Kmap(data)[i].Count()
    ensures var q := Kmap(data)[i].First();
            RowSlots(data, i) + SlotsOf(q, q + n) + {(q + n) / 1024} <= RowSlots(data, 4)
  {
    hide RowSlots, Kmap, Row.First, Row.Count, SlotsOf;
    var q, c := Kmap(data)[i].First(), Kmap(data)[i].Count();
    NextRow(data, i);
    RowsWithin(data, i + 1);
    SlotsNext(q, q + n);
    SlotsJoin(q, q + n + 1, q + c);
  }

  lemma {:induction false} RowsWithin(data: nat, i: nat)
    requires DataOk(data) && i <= 4
    ensures RowSlots(data, i) <= RowSlots(data, 4)
    decreases 4 - i
  {
    hide RowSlots, SlotsOf, Kmap, Row.First, Row.Count;
    if i < 4 {
      NextRow(data, i);
      RowsWithin(data, i + 1);
    }
  }

  // ---------- a child

  /** Frames for a child with the pages 0 .. n-1: the kernel's part, the pages and their tables. */
  function ChildFrames(n: nat): nat {
    KERNELFRAMES + n + (n + 1023) / 1024
  }

  lemma ChildFramesAre(m: Mem, m0: Mem, d: nat, data: nat, n: nat)
    requires DataOk(data) && KernelHas(m, m0, d, RowSlots(data, 4)) && n <= UPAGES
    ensures |m.free| >= ChildFrames(n) <==> |m0.free| >= FramesFor(m0.pages[d], 0, n)
    ensures |m.free| >= KERNELFRAMES
  {
    hide Slots, RowSlots, Range, SlotsOf;
    RowSlotsAre(data);
    if n > 0 {
      SlotsAre(0, n, 0, (n - 1) / 1024 + 1);
      assert Range(0, (n - 1) / 1024 + 1) - (Range(512, 568) + Range(1016, 1024)) == Range(0, (n - 1) / 1024 + 1);
    }
  }

  lemma SlotsAre(from: nat, upto: nat, lo: nat, hi: nat)
    requires from < upto && from / 1024 == lo && (upto - 1) / 1024 + 1 == hi
    ensures lo <= hi && SlotsOf(from, upto) == Range(lo, hi)
  {
  }

  lemma SlotsJoin(a: nat, b: nat, c: nat)
    requires a <= b <= c
    ensures SlotsOf(a, b) + SlotsOf(b, c) == SlotsOf(a, c)
  {
  }
}

/** What the steps of vm.c do to the frames: predicates and lemmas over values, against which
    the methods of vm.c are proved. */
module VmSteps {
  import opened Kalloc
  import opened Param
  import opened VmSpec

  datatype Mem = Mem(pages: seq<Page>, free: seq<nat>)

  ghost function Frames(free: seq<nat>): set<nat> {
    set f | f in free
  }

  ghost predicate Apart(free: seq<nat>, s: set<nat>) {
    forall f :: f in free ==> f !in s
  }

  /** No frame is lost: the free ones and those in `own` are the same together as before; and
      no page outside them is written. */
  ghost predicate Kept(m: Mem, own: set<nat>, m': Mem, own': set<nat>) {
    && Frames(m'.free) + own' == Frames(m.free) + own && Apart(m'.free, own') && |m'.pages| == |m.pages|
    && forall f: nat :: f < |m.pages| && f !in own && f !in m.free ==> m'.pages[f] == m.pages[f]
  }

  ghost predicate Safe(lo: nat, m: Mem, d: nat, tabs: map<nat, Use>) {
    Tables(lo, m.pages, d, tabs) && Apart(m.free, tabs.Keys)
  }

  /** walkpgdir leaves the flat map as it is; a page table that it adds comes from the free list. */
  ghost predicate Walked(lo: nat, m: Mem, m': Mem, d: nat, tabs: map<nat, Use>, tabs': map<nat, Use>) {
    && Safe(lo, m', d, tabs') && d < |m.pages| && SameMap(m.pages, m'.pages, d, 0, NPAGES)
    && Kept(m, tabs.Keys, m', tabs'.Keys) && tabs.Keys <= tabs'.Keys
  }

  lemma WalkedNone(lo: nat, m: Mem, d: nat, tabs: map<nat, Use>)
    requires Safe(lo, m, d, tabs)
    ensures Walked(lo, m, m, d, tabs, tabs)
  {
  }

  lemma WalkedNew(lo: nat, m: Mem, d: nat, tabs: map<nat, Use>, i: nat)
    requires Safe(lo, m, d, tabs) && i < NPDENTRIES && !P(m.pages[d].w[i])
    requires m.free != [] && lo <= m.free[0] < NFRAMES && m.free[0] !in m.free[1..]
    ensures d !in m.free
    ensures Walked(lo, m, Mem(WithTable(m.pages, d, i, m.free[0]), m.free[1..]), d, tabs, tabs[m.free[0] := Table(i)])
    ensures var e := WithTable(m.pages, d, i, m.free[0])[d].w[i]; P(e) && Fr(e) == m.free[0]
  {
    AddTable(lo, m.pages, d, tabs, i, m.free[0]);
    var free := m.free;
    assert Frames(free) == Frames(free[1..]) + {free[0]} by {
      assert free == [free[0]] + free[1..];
    }
  }

  // ---------- mappages

  /** Pages that [va, va + size) touches. */
  function Span(va: nat, size: nat): nat
    requires 0 < size
  {
    (va + size - 1) / PGSIZE - va / PGSIZE + 1
  }

  /** n entries from page q on, to the frames from f on; they were not present before. */
  ghost predicate MappedRun(lo: nat, m: Mem, m': Mem, d: nat, tabs: map<nat, Use>, tabs': map<nat, Use>, q: nat,
                            n: nat, f: nat, perm: nat)
  {
    && Safe(lo, m', d, tabs') && d < |m.pages| && q + n <= NPAGES && f + n <= NPAGES && perm < PGSIZE
    && (forall r: nat :: r < NPAGES ==> RunPte(m.pages, m'.pages, d, q, n, f, perm, r))
    && Kept(m, tabs.Keys, m', tabs'.Keys) && tabs.Keys <= tabs'.Keys
  }

  ghost predicate RunPte(pages: seq<Page>, pages': seq<Page>, d: nat, q: nat, n: nat, f: nat, perm: nat, r: nat)
    requires d < |pages| && d < |pages'| && r < NPAGES && f + n <= NPAGES && perm < PGSIZE
  {
    if q <= r < q + n then !P(Pte(pages, d, r)) && Pte(pages', d, r) == Entry(f + (r - q), perm)
    else Pte(pages', d, r) == Pte(pages, d, r)
  }

  lemma MappedNone(lo: nat, m: Mem, d: nat, tabs: map<nat, Use>, q: nat, f: nat, perm: nat)
    requires Safe(lo, m, d, tabs) && q <= NPAGES && f <= NPAGES && perm < PGSIZE
    ensures MappedRun(lo, m, m, d, tabs, tabs, q, 0, f, perm)
  {
  }

  lemma KeptTrans(m: Mem, own: set<nat>, m1: Mem, own1: set<nat>, m2: Mem, own2: set<nat>)
    requires Kept(m, own, m1, own1) && Kept(m1, own1, m2, own2)
    ensures Kept(m, own, m2, own2)
  {
    forall f: nat | f < |m.pages| && f !in own && f !in m.free
      ensures m2.pages[f] == m.pages[f]
    {
      assert f !in Frames(m.free) + own;
      assert f !in Frames(m1.free) + own1;
    }
  }

  lemma WalkedIsRun(lo: nat, m: Mem, m': Mem, d: nat, tabs: map<nat, Use>, tabs': map<nat, Use>, q: nat, f: nat,
                    perm: nat)
    requires Walked(lo, m, m', d, tabs, tabs') && q < NPAGES && f < NPAGES && perm < PGSIZE
    ensures d < |m.pages| == |m'.pages| && MappedRun(lo, m, m', d, tabs, tabs', q, 0, f, perm)
    ensures !P(m'.pages[d].w[q / 1024]) ==> Look(m.pages, d, q).None?
    ensures var pde := m'.pages[d].w[q / 1024];
            P(pde) ==> Fr(pde) < NFRAMES && Fr(pde) < |m'.pages| && Fr(pde) !in m'.free
                       && m'.pages[Fr(pde)].w[q % 1024] == Pte(m.pages, d, q)
  {
    assert Pte(m'.pages, d, q) == Pte(m.pages, d, q);
    if P(m'.pages[d].w[q / 1024]) {
      TableAt(lo, m'.pages, d, tabs', q / 1024);
    }
  }

  /** The entry for page q, not present so far, written. */
  lemma WriteIsRun(lo: nat, m: Mem, m': Mem, d: nat, tabs: map<nat, Use>, tabs': map<nat, Use>, q: nat, f: nat,
                   perm: nat)
    requires Walked(lo, m, m', d, tabs, tabs') && q < NPAGES && f < NPAGES && perm < PGSIZE
    requires d < |m'.pages| && P(m'.pages[d].w[q / 1024]) && d < |m.pages| && !P(Pte(m.pages, d, q))
    ensures Fr(m'.pages[d].w[q / 1024]) < |m'.pages|
    ensures MappedRun(lo, m, Mem(WithPte(m'.pages, d, q, Entry(f, perm)), m'.free), d, tabs, tabs', q, 1, f, perm)
  {
    TableAt(lo, m'.pages, d, tabs', q / 1024);
    WritePte(lo, m'.pages, d, tabs', q, Entry(f, perm));
    var m3 := Mem(WithPte(m'.pages, d, q, Entry(f, perm)), m'.free);
    KeptTrans(m, tabs.Keys, m', tabs'.Keys, m3, tabs'.Keys);
  }

  lemma RunHas(lo: nat, m: Mem, m': Mem, d: nat, tabs: map<nat, Use>, tabs': map<nat, Use>, q: nat, n: nat, f: nat,
               perm: nat)
    requires MappedRun(lo, m, m', d, tabs, tabs', q, n, f, perm)
    ensures Safe(lo, m', d, tabs') && perm < PGSIZE && d < |m.pages| == |m'.pages|
    ensures q + n < NPAGES ==> Pte(m'.pages, d, q + n) == Pte(m.pages, d, q + n)
  {
    if q + n < NPAGES {
      assert RunPte(m.pages, m'.pages, d, q, n, f, perm, q + n);
    }
  }

  lemma RunAppend(lo: nat, m: Mem, m1: Mem, m2: Mem, d: nat, tabs: map<nat, Use>, tabs1: map<nat, Use>,
                  tabs2: map<nat, Use>, q: nat, n: nat, k: nat, f: nat, perm: nat)
    requires MappedRun(lo, m, m1, d, tabs, tabs1, q, n, f, perm)
    requires MappedRun(lo, m1, m2, d, tabs1, tabs2, q + n, k, f + n, perm)
    ensures MappedRun(lo, m, m2, d, tabs, tabs2, q, n + k, f, perm)
  {
    KeptTrans(m, tabs.Keys, m1, tabs1.Keys, m2, tabs2.Keys);
    var n' := n + k;
    forall r: nat | r < NPAGES
      ensures RunPte(m.pages, m2.pages, d, q, n', f, perm, r)
    {
      assert RunPte(m.pages, m1.pages, d, q, n, f, perm, r);
      assert RunPte(m1.pages, m2.pages, d, q + n, k, f + n, perm, r);
    }
  }

  /** After a walkpgdir for the next page: what its pointer leads to, and what writing there does. */
  lemma RunWalked(lo: nat, m: Mem, m1: Mem, m2: Mem, d: nat, tabs: map<nat, Use>, tabs1: map<nat, Use>,
                  tabs2: map<nat, Use>, q: nat, n: nat, f: nat, perm: nat)
    requires MappedRun(lo, m, m1, d, tabs, tabs1, q, n, f, perm) && Walked(lo, m1, m2, d, tabs1, tabs2)
    requires q + n < NPAGES && f + n < NPAGES
    ensures MappedRun(lo, m, m2, d, tabs, tabs2, q, n, f, perm) && d < |m2.pages| == |m.pages| && perm < PGSIZE
    ensures var pde := m2.pages[d].w[(q + n) / 1024];
            if P(pde) then
              Fr(pde) < NFRAMES && Fr(pde) < |m2.pages| && Fr(pde) !in m2.free
              && (P(m2.pages[Fr(pde)].w[(q + n) % 1024]) <==> Look(m.pages, d, q + n).Some?)
              && (Look(m.pages, d, q + n).None? ==>
                    MappedRun(lo, m, Mem(WithPte(m2.pages, d, q + n, Entry(f + n, perm)), m2.free), d, tabs, tabs2,
                              q, n + 1, f, perm))
            else Look(m.pages, d, q + n).None?
  {
    hide MappedRun, Walked, Tables, Apart, Kept, Frames, SlotOk, UseOk, RunPte, Pte;
    RunHas(lo, m, m1, d, tabs, tabs1, q, n, f, perm);
    WalkedIsRun(lo, m1, m2, d, tabs1, tabs2, q + n, f + n, perm);
    RunAppend(lo, m, m1, m2, d, tabs, tabs1, tabs2, q, n, 0, f, perm);
    if P(m2.pages[d].w[(q + n) / 1024]) && !P(Pte(m.pages, d, q + n)) {
      WriteIsRun(lo, m1, m2, d, tabs1, tabs2, q + n, f + n, perm);
      RunAppend(lo, m, m1, Mem(WithPte(m2.pages, d, q + n, Entry(f + n, perm)), m2.free),
                d, tabs, tabs1, tabs2, q, n, 1, f, perm);
    }
  }

  /** The address n pages after x. */
  function PageAt(x: nat, n: nat): nat {
    x + n * PGSIZE
  }

  lemma FirstPage(va: nat, size: nat, pa: nat)
    requires 0 < size && va + size <= NPAGES * PGSIZE && pa / PGSIZE + Span(va, size) <= NPAGES
    ensures 0 < Span(va, size) && va / PGSIZE < NPAGES && pa / PGSIZE < NPAGES
    ensures PageAt(PgRoundDown(va), 0) == PgRoundDown(va) && PageAt(pa, 0) == pa
  {
  }

  /** Addresses of the loop of mappages. */
  lemma LoopPages(va: nat, size: nat, pa: nat, n: nat)
    requires 0 < size && va + size <= NPAGES * PGSIZE && pa % PGSIZE == 0 && n < Span(va, size)
    ensures PageAt(PgRoundDown(va), n) / PGSIZE == va / PGSIZE + n < NPAGES && PageAt(pa, n) / PGSIZE == pa / PGSIZE + n
    ensures PageAt(PgRoundDown(va), n) == PgRoundDown(va + size - 1) <==> n + 1 == Span(va, size)
    ensures PageAt(PgRoundDown(va), n + 1) == PageAt(PgRoundDown(va), n) + PGSIZE
        && PageAt(pa, n + 1) == PageAt(pa, n) + PGSIZE
    ensures PageAt(PgRoundDown(va), 0) == PgRoundDown(va) && PageAt(pa, 0) == pa && 0 < Span(va, size)
  {
    assert pa == pa / PGSIZE * PGSIZE;
  }

  // ---------- deallocuvm

  /** A directory with its page tables and user frames, all of them in use. */
  ghost predicate Space(lo: nat, m: Mem, d: nat, tabs: map<nat, Use>, users: map<nat, nat>) {
    && Tables(lo, m.pages, d, tabs) && Users(lo, m.pages, d, users)
    && Apart(m.free, tabs.Keys) && Apart(m.free, users.Keys) && tabs.Keys !! users.Keys
  }

  /** First page at or above an address. */
  function UpPage(a: nat): nat {
    (a + PGSIZE - 1) / PGSIZE
  }

  /** The free list after the frames of the present pages in [from, to) are freed one by one. */
  ghost function Drop(pages: seq<Page>, d: nat, from: nat, upto: nat, free: seq<nat>): seq<nat>
    requires d < |pages| && upto <= NPAGES
    decreases upto
  {
    if upto <= from then free
    else if P(Pte(pages, d, upto - 1)) then [Fr(Pte(pages, d, upto - 1))] + Drop(pages, d, from, upto - 1, free)
    else Drop(pages, d, from, upto - 1, free)
  }

  ghost function Keep(users: map<nat, nat>, from: nat, upto: nat): map<nat, nat> {
    map f | f in users && !(from <= users[f] < upto) :: users[f]
  }

  ghost function DropEntry(pages: seq<Page>, d: nat, from: nat, upto: nat, q: nat): word
    requires d < |pages| && q < NPAGES
  {
    if from <= q < upto && P(Pte(pages, d, q)) then 0 else Pte(pages, d, q)
  }

  /** The pages in [from, to) are unmapped and their frames freed, as one by one. */
  ghost predicate Dropped(lo: nat, m: Mem, m': Mem, d: nat, tabs: map<nat, Use>, users: map<nat, nat>,
                          users': map<nat, nat>, from: nat, upto: nat)
  {
    && Space(lo, m', d, tabs, users') && d < |m.pages| && upto <= UPAGES
    && users' == Keep(users, from, upto) && m'.free == Drop(m.pages, d, from, upto, m.free)
    && (forall q: nat :: q < NPAGES ==> Pte(m'.pages, d, q) == DropEntry(m.pages, d, from, upto, q))
    && Kept(m, tabs.Keys + users.Keys, m', tabs.Keys + users'.Keys) && SameOn(m.pages, m'.pages, users'.Keys)
  }

  lemma DroppedNone(lo: nat, m: Mem, d: nat, tabs: map<nat, Use>, users: map<nat, nat>, from: nat)
    requires Space(lo, m, d, tabs, users) && from <= UPAGES
    ensures Dropped(lo, m, m, d, tabs, users, users, from, from)
  {
    assert Keep(users, from, from) == users;
  }

  lemma KeepNext(lo: nat, pages: seq<Page>, d: nat, users: map<nat, nat>, from: nat, q: nat)
    requires d < |pages| && Users(lo, pages, d, users) && from <= q < UPAGES
    ensures var e := Pte(pages, d, q);
            if P(e) then Fr(e) in users && users[Fr(e)] == q
                && Keep(users, from, q + 1) == Keep(users, from, q) - {Fr(e)}
            else Keep(users, from, q + 1) == Keep(users, from, q)
  {
    assert PageOk(pages, d, users, q);
    forall f | f in users
      ensures users[f] == q <==> P(Pte(pages, d, q)) && Fr(Pte(pages, d, q)) == f
    {
      assert FrameOk(lo, pages, d, users[f], f);
    }
  }

  /** A page that is not present needs no work. */
  lemma DropSame(lo: nat, m: Mem, m': Mem, d: nat, tabs: map<nat, Use>, users: map<nat, nat>, users': map<nat, nat>,
                 from: nat, q: nat)
    requires d < |m.pages| && Space(lo, m, d, tabs, users) && from <= q < UPAGES && Look(m.pages, d, q).None?
    ensures Dropped(lo, m, m', d, tabs, users, users', from, q) <==>
                Dropped(lo, m, m', d, tabs, users, users', from, q + 1)
  {
    hide Tables, Apart, Kept, SameOn, Pte, PageOk, FrameOk, Keep;
    KeepNext(lo, m.pages, d, users, from, q);
    forall r: nat | r < NPAGES
      ensures DropEntry(m.pages, d, from, q + 1, r) == DropEntry(m.pages, d, from, q, r)
    {
    }
  }

  lemma {:induction false} DropAbsent(lo: nat, m: Mem, m': Mem, d: nat, tabs: map<nat, Use>, users: map<nat, nat>,
                                      users': map<nat, nat>, from: nat, q: nat, q': nat)
    requires Space(lo, m, d, tabs, users) && from <= q <= q' <= UPAGES
    requires d < |m.pages| && forall r: nat :: q <= r < q' ==> Look(m.pages, d, r).None?
    ensures Dropped(lo, m, m', d, tabs, users, users', from, q) <==>
                Dropped(lo, m, m', d, tabs, users, users', from, q')
    decreases q' - q
  {
    hide Dropped, Space, Tables, Users, Apart, SlotOk, UseOk, PageOk, FrameOk;
    if q < q' {
      assert Look(m.pages, d, q).None?;
      DropSame(lo, m, m', d, tabs, users, users', from, q);
      DropAbsent(lo, m, m', d, tabs, users, users', from, q + 1, q');
    }
  }

  /** The frame behind a page that is still mapped. */
  lemma DropFrame(lo: nat, m: Mem, m1: Mem, d: nat, tabs: map<nat, Use>, users: map<nat, nat>, users1: map<nat, nat>,
                  from: nat, q: nat)
    requires Space(lo, m, d, tabs, users) && Dropped(lo, m, m1, d, tabs, users, users1, from, q)
    requires from <= q < UPAGES && P(Pte(m.pages, d, q))
    ensures var f := Fr(Pte(m.pages, d, q));
            && f in users1 && f !in tabs && f !in m1.free && lo <= f < NFRAMES && f < |m1.pages|
            && Keep(users, from, q + 1) == users1 - {f} && Pte(m1.pages, d, q) == Pte(m.pages, d, q)
    ensures P(m1.pages[d].w[q / 1024])
  {
    hide Apart, SlotOk, UseOk, Kept, SameOn, Drop;
    KeepNext(lo, m.pages, d, users, from, q);
    assert FrameOk(lo, m.pages, d, q, Fr(Pte(m.pages, d, q)));
    assert Pte(m1.pages, d, q) == DropEntry(m.pages, d, from, q, q);
    assert Fr(Pte(m.pages, d, q)) in users1.Keys;
    assert Apart(m1.free, users1.Keys) && Apart(m1.free, tabs.Keys);
    ApartIs(m1.free, users1.Keys, Fr(Pte(m.pages, d, q)));
  }

  lemma ApartIs(free: seq<nat>, s: set<nat>, f: nat)
    requires Apart(free, s) && f in s
    ensures f !in free
  {
  }

  /** kfree of a frame outside the tables, then an entry set to 0. */
  lemma DropMap(lo: nat, pages: seq<Page>, d: nat, tabs: map<nat, Use>, q: nat, f: nat, x: Page)
    requires Tables(lo, pages, d, tabs) && f !in tabs && f < |pages| && q < NPAGES && P(pages[d].w[q / 1024])
    ensures Fr(pages[f := x][d].w[q / 1024]) < |pages|
    ensures Tables(lo, WithPte(pages[f := x], d, q, 0), d, tabs)
    ensures forall r: nat :: r < NPAGES ==>
              Pte(WithPte(pages[f := x], d, q, 0), d, r) == if r == q then 0 else Pte(pages, d, r)
    ensures forall g: nat :: g < |pages| && g !in tabs && g != f ==> WithPte(pages[f := x], d, q, 0)[g] == pages[g]
  {
    TablesFrame(lo, pages, pages[f := x], d, tabs);
    TableAt(lo, pages, d, tabs, q / 1024);
    WritePte(lo, pages[f := x], d, tabs, q, 0);
  }

  /** kfree of the frame behind page q, and the entry set to 0. */
  lemma DropPresent(lo: nat, m: Mem, m1: Mem, d: nat, tabs: map<nat, Use>, users: map<nat, nat>,
                    users1: map<nat, nat>, from: nat, q: nat, f: nat, x: Page)
    requires Space(lo, m, d, tabs, users) && Dropped(lo, m, m1, d, tabs, users, users1, from, q)
    requires from <= q < UPAGES && P(Pte(m.pages, d, q)) && f == Fr(Pte(m.pages, d, q)) && f < |m1.pages|
    ensures Fr(m1.pages[f := x][d].w[q / 1024]) < |m1.pages|
    ensures Dropped(lo, m, Mem(WithPte(m1.pages[f := x], d, q, 0), [f] + m1.free), d, tabs, users, users1 - {f},
        from, q + 1)
  {
    hide Kept, SameOn, Drop, SlotOk, UseOk, PageOk, FrameOk, WithPte, Pte, Frames, Users;
    DropFrame(lo, m, m1, d, tabs, users, users1, from, q);
    DropMap(lo, m1.pages, d, tabs, q, f, x);
    var m3 := Mem(WithPte(m1.pages[f := x], d, q, 0), [f] + m1.free);
    forall r: nat | r < NPAGES
      ensures Pte(m3.pages, d, r) == DropEntry(m.pages, d, from, q + 1, r)
    {
      assert Pte(m1.pages, d, r) == DropEntry(m.pages, d, from, q, r);
    }
    DropUsers(lo, m.pages, m3.pages, d, users, from, q + 1);
    DropKept(m, m1, m3, tabs.Keys, users, users1, f);
    assert m3.free == Drop(m.pages, d, from, q + 1, m.free) by {
      DropLast(m.pages, d, from, q, m.free);
    }
  }

  lemma DropLast(pages: seq<Page>, d: nat, from: nat, q: nat, free: seq<nat>)
    requires d < |pages| && from <= q < NPAGES && P(Pte(pages, d, q))
    ensures Drop(pages, d, from, q + 1, free) == [Fr(Pte(pages, d, q))] + Drop(pages, d, from, q, free)
  {
  }

  lemma DropUsers(lo: nat, pages: seq<Page>, pages': seq<Page>, d: nat, users: map<nat, nat>, from: nat, upto: nat)
    requires d < |pages| == |pages'| && Users(lo, pages, d, users) && upto <= UPAGES
    requires forall r: nat :: r < NPAGES ==> Pte(pages', d, r) == DropEntry(pages, d, from, upto, r)
    ensures Users(lo, pages', d, Keep(users, from, upto))
  {
    hide Pte;
    var users' := Keep(users, from, upto);
    forall r: nat | r < UPAGES
      ensures PageOk(pages', d, users', r)
    {
      assert PageOk(pages, d, users, r);
      assert Pte(pages', d, r) == DropEntry(pages, d, from, upto, r);
    }
    forall g | g in users'
      ensures FrameOk(lo, pages', d, users'[g], g)
    {
      assert FrameOk(lo, pages, d, users[g], g);
      assert Pte(pages', d, users[g]) == DropEntry(pages, d, from, upto, users[g]);
    }
  }

  lemma DropKept(m: Mem, m1: Mem, m3: Mem, tabs: set<nat>, users: map<nat, nat>, users1: map<nat, nat>, f: nat)
    requires Kept(m, tabs + users.Keys, m1, tabs + users1.Keys) && SameOn(m.pages, m1.pages, users1.Keys)
    requires Apart(m1.free, tabs) && Apart(m1.free, users1.Keys) && tabs !! users1.Keys
    requires m3.free == [f] + m1.free && f in users1 && |m3.pages| == |m1.pages|
    requires forall g: nat :: g < |m1.pages| && g !in tabs && g != f ==> m3.pages[g] == m1.pages[g]
    ensures Kept(m, tabs + users.Keys, m3, tabs + (users1 - {f}).Keys) && SameOn(m.pages, m3.pages, (users1 - {f}).Keys)
    ensures Apart(m3.free, tabs) && Apart(m3.free, (users1 - {f}).Keys) && tabs !! (users1 - {f}).Keys
  {
    var users3 := users1 - {f};
    assert users3.Keys == users1.Keys - {f};
    assert Frames(m3.free) == Frames(m1.free) + {f};
    assert tabs + users1.Keys == tabs + users3.Keys + {f};
    forall g: nat | g < |m.pages| && g !in tabs + users.Keys && g !in m.free
      ensures m3.pages[g] == m.pages[g]
    {
      assert g !in Frames(m.free) + (tabs + users.Keys);
      assert f in tabs + users1.Keys;
    }
  }

  /** The start of the part of the address space after the directory slot of page q. */
  function NextDir(q: nat): nat {
    (q / 1024 + 1) * 1024
  }

  /** What a turn of deallocuvm finds at page q, and what the turns that free nothing do. */
  lemma DropTurn(lo: nat, m: Mem, m1: Mem, d: nat, tabs: map<nat, Use>, users: map<nat, nat>, users1: map<nat, nat>,
                 from: nat, q: nat)
    requires Space(lo, m, d, tabs, users) && Dropped(lo, m, m1, d, tabs, users, users1, from, q) && from <= q < UPAGES
    ensures Safe(lo, m1, d, tabs) && d < |m.pages| == |m1.pages|
    ensures var pde := m1.pages[d].w[q / 1024];
            if P(pde) then
              && Fr(pde) < NFRAMES && Fr(pde) < |m1.pages| && Fr(pde) !in m1.free
              && m1.pages[Fr(pde)].w[q % 1024] == Pte(m.pages, d, q)
              && var e := Pte(m.pages, d, q);
              (if P(e) then lo <= Fr(e) < NFRAMES && Fr(e) !in m1.free && Fr(e) != Fr(pde) && Fr(e) != d && 0 < lo
               else Look(m.pages, d, q).None? && Dropped(lo, m, m1, d, tabs, users, users1, from, q + 1))
            else
              && NextDir(q) <= UPAGES && Dropped(lo, m, m1, d, tabs, users, users1, from, NextDir(q))
              && forall r: nat :: q <= r < NextDir(q) ==> Look(m.pages, d, r).None?
  {
    hide Kept, SameOn, Drop, PageOk, FrameOk, Keep;
    if P(m1.pages[d].w[q / 1024]) {
      TableAt(lo, m1.pages, d, tabs, q / 1024);
      assert Pte(m1.pages, d, q) == DropEntry(m.pages, d, from, q, q);
      if Look(m.pages, d, q).None? {
        DropAbsent(lo, m, m1, d, tabs, users, users1, from, q, q + 1);
      } else {
        DropFrame(lo, m, m1, d, tabs, users, users1, from, q);
      }
    } else {
      forall r: nat | q <= r < NextDir(q)
        ensures Look(m.pages, d, r).None?
      {
        assert r / 1024 == q / 1024;
        assert Pte(m1.pages, d, r) == DropEntry(m.pages, d, from, q, r);
      }
      DropAbsent(lo, m, m1, d, tabs, users, users1, from, q, NextDir(q));
    }
  }

  lemma NextDirIs(a: nat, q: nat)
    requires a == q * PGSIZE
    ensures (a / 0x40_0000 + 1) * 0x40_0000 - PGSIZE == (NextDir(q) - 1) * PGSIZE && q < NextDir(q)
  {
  }

  lemma DropEnds(lo: nat, m: Mem, m': Mem, d: nat, tabs: map<nat, Use>, users: map<nat, nat>, users': map<nat, nat>,
                 oldsz: nat, newsz: nat, q: nat)
    requires Space(lo, m, d, tabs, users) && Dropped(lo, m, m', d, tabs, users, users', UpPage(newsz), q)
    requires newsz < oldsz <= q * PGSIZE && q <= UPAGES && UpPage(newsz) <= q
    requires forall r: nat :: UpPage(oldsz) <= r < q ==> Look(m.pages, d, r).None?
    ensures Dropped(lo, m, m', d, tabs, users, users', UpPage(newsz), UpPage(oldsz))
  {
    DropAbsent(lo, m, m', d, tabs, users, users', UpPage(newsz), UpPage(oldsz), q);
  }

  // ---------- frames kept, set by set

  /** Frames that no one touches can be left out of the account. */
  lemma KeptWithout(m: Mem, a: set<nat>, m': Mem, b: set<nat>, u: set<nat>)
    requires Kept(m, a + u, m', b + u) && SameOn(m.pages, m'.pages, u)
    requires u !! a && u !! b && Apart(m.free, u) && Apart(m'.free, u)
    ensures Kept(m, a, m', b)
  {
    forall f
      ensures f in Frames(m'.free) + b <==> f in Frames(m.free) + a
    {
      assert f in Frames(m'.free) + (b + u) <==> f in Frames(m.free) + (a + u);
    }
    forall f: nat | f < |m.pages| && f !in a && f !in m.free
      ensures m'.pages[f] == m.pages[f]
    {
      if f !in u {
        assert f !in a + u;
      }
    }
  }

  /** ... or taken into it. */
  lemma KeptBeside(m: Mem, a: set<nat>, m': Mem, b: set<nat>, u: set<nat>)
    requires Kept(m, a, m', b) && u !! a && Apart(m.free, u)
    ensures Kept(m, a + u, m', b + u)
    ensures forall f: nat :: f in u && f < |m.pages| ==> m'.pages[f] == m.pages[f]
  {
    assert Frames(m'.free) + (b + u) == Frames(m.free) + (a + u);
    forall f | f in m'.free
      ensures f !in b + u
    {
      assert f in Frames(m'.free) + b;
      assert f in Frames(m.free) + a;
    }
  }

  /** kalloc, and whatever is stored in the frame. */
  lemma KeptPop(m: Mem, own: set<nat>, x: Page)
    requires m.free != [] && m.free[0] < |m.pages| && m.free[0] !in m.free[1..] && Apart(m.free, own)
    ensures Kept(m, own, Mem(m.pages[m.free[0] := x], m.free[1..]), own + {m.free[0]})
  {
    var free := m.free;
    assert free == [free[0]] + free[1..];
    assert Frames(free) == Frames(free[1..]) + {free[0]};
  }

  /** kfree. */
  lemma KeptPush(m: Mem, own: set<nat>, f: nat, x: Page)
    requires f < |m.pages| && f !in own && f !in m.free && Apart(m.free, own)
    ensures Kept(m, own + {f}, Mem(m.pages[f := x], [f] + m.free), own)
  {
    assert Frames([f] + m.free) == Frames(m.free) + {f};
  }

  // ---------- allocuvm

  /** Page q after the pages in [from, upto) have been given zeroed frames off the free list. */
  ghost predicate GrownPage(m: Mem, m': Mem, d: nat, from: nat, upto: nat, q: nat)
    requires d < |m.pages| && d < |m'.pages| && q < NPAGES
  {
    var e := Pte(m'.pages, d, q);
    if from <= q < upto then
      && Look(m.pages, d, q).None? && P(e) && Flags(e) == PTE_W + PTE_U + 1
      && Fr(e) in m.free && Fr(e) < |m'.pages| && m'.pages[Fr(e)] == Filled(0)
    else e == Pte(m.pages, d, q)
  }

  ghost predicate MoreUsers(free: seq<nat>, users: map<nat, nat>, users': map<nat, nat>, from: nat, upto: nat) {
    && (forall f :: f in users ==> f in users' && users'[f] == users[f])
    && (forall f :: f in users' ==> f in users || (f in free && from <= users'[f] < upto))
  }

  /** Where allocuvm stands: pages [from, upto) are mapped, and the frames `held` are in its hands. */
  ghost predicate Grown(lo: nat, m: Mem, m': Mem, d: nat, tabs: map<nat, Use>, tabs': map<nat, Use>,
                        users: map<nat, nat>, users': map<nat, nat>, from: nat, upto: nat, held: set<nat>)
  {
    && Space(lo, m', d, tabs', users') && d < |m.pages| && upto <= UPAGES
    && (forall q: nat :: q < NPAGES ==> GrownPage(m, m', d, from, upto, q))
    && MoreUsers(m.free, users, users', from, upto) && held !! tabs'.Keys && held !! users'.Keys
    && Kept(m, tabs.Keys, m', tabs'.Keys + (users'.Keys - users.Keys) + held) && tabs.Keys <= tabs'.Keys
  }

  lemma GrownNone(lo: nat, m: Mem, d: nat, tabs: map<nat, Use>, users: map<nat, nat>, from: nat)
    requires Space(lo, m, d, tabs, users) && from <= UPAGES
    ensures Grown(lo, m, m, d, tabs, tabs, users, users, from, from, {})
  {
    assert tabs.Keys + (users.Keys - users.Keys) + {} == tabs.Keys;
  }

  /** kalloc and memset: a zeroed frame in hand. */
  lemma GrownHolds(lo: nat, m: Mem, m1: Mem, d: nat, tabs: map<nat, Use>, tabs1: map<nat, Use>, users: map<nat, nat>,
                   users1: map<nat, nat>, from: nat, q: nat)
    requires Grown(lo, m, m1, d, tabs, tabs1, users, users1, from, q, {})
    requires m1.free != [] && m1.free[0] < NFRAMES && m1.free[0] !in m1.free[1..]
    ensures m1.free[0] < |m1.pages|
    ensures Grown(lo, m, Mem(m1.pages[m1.free[0] := Filled(0)], m1.free[1..]), d, tabs, tabs1, users, users1, from,
        q, {m1.free[0]})
    ensures d < |m.pages| && m1.free[0] in m.free
  {
    hide SlotOk, UseOk, PageOk, FrameOk, MoreUsers;
    var f, new1 := m1.free[0], users1.Keys - users.Keys;
    var m2 := Mem(m1.pages[f := Filled(0)], m1.free[1..]);
    TablesFrame(lo, m1.pages, m2.pages, d, tabs1);
    UsersFrame(lo, m1.pages, m2.pages, d, users1);
    KeptPop(m1, tabs1.Keys + new1, Filled(0));
    assert tabs1.Keys + new1 + {} == tabs1.Keys + new1;
    KeptTrans(m, tabs.Keys, m1, tabs1.Keys + new1, m2, tabs1.Keys + new1 + {f});
    assert f in Frames(m1.free) + (tabs1.Keys + new1 + {});
    forall r: nat | r < NPAGES
      ensures GrownPage(m, m2, d, from, q, r)
    {
      assert GrownPage(m, m1, d, from, q, r);
      assert Pte(m2.pages, d, r) == Pte(m1.pages, d, r);
    }
  }

  /** What a mappages for page q does to the frames: everything in use stays apart. */
  lemma RunApart(lo: nat, m2: Mem, m3: Mem, d: nat, tabs1: map<nat, Use>, tabs3: map<nat, Use>, q: nat, n: nat,
                 f: nat, perm: nat, u: set<nat>)
    requires MappedRun(lo, m2, m3, d, tabs1, tabs3, q, n, f, perm) && u !! tabs1.Keys && Apart(m2.free, u)
    ensures Apart(m3.free, tabs3.Keys + u) && u !! tabs3.Keys && Kept(m2, tabs1.Keys + u, m3, tabs3.Keys + u)
    ensures forall g: nat :: g in u && g < |m2.pages| ==> m3.pages[g] == m2.pages[g]
  {
    KeptBeside(m2, tabs1.Keys, m3, tabs3.Keys, u);
    forall g | g in tabs3.Keys
      ensures g !in u
    {
      assert g in Frames(m3.free) + tabs3.Keys;
      assert g in Frames(m2.free) + tabs1.Keys;
    }
  }

  /** The user pages after a mappages of n pages (0 or 1) at q. */
  lemma RunUsers(lo: nat, m2: Mem, m3: Mem, d: nat, tabs1: map<nat, Use>, tabs3: map<nat, Use>,
                 users1: map<nat, nat>, q: nat, n: nat, f: nat, perm: nat)
    requires MappedRun(lo, m2, m3, d, tabs1, tabs3, q, n, f, perm) && d < |m3.pages| && Users(lo, m2.pages, d, users1)
    requires n <= 1 && q < UPAGES && lo <= f < NFRAMES && f !in users1
    ensures Users(lo, m3.pages, d, if n == 1 then users1[f := q] else users1)
  {
    hide Tables, Kept, Apart;
    var users3 := if n == 1 then users1[f := q] else users1;
    EntryIs(f, perm);
    assert RunPte(m2.pages, m3.pages, d, q, n, f, perm, q);
    forall r: nat | r < UPAGES
      ensures PageOk(m3.pages, d, users3, r)
    {
      assert PageOk(m2.pages, d, users1, r);
      assert RunPte(m2.pages, m3.pages, d, q, n, f, perm, r);
    }
    forall g | g in users3
      ensures FrameOk(lo, m3.pages, d, users3[g], g)
    {
      if g in users1 {
        assert FrameOk(lo, m2.pages, d, users1[g], g);
        assert RunPte(m2.pages, m3.pages, d, q, n, f, perm, users1[g]);
      }
    }
  }

  lemma GrownMaps(lo: nat, m: Mem, m2: Mem, m3: Mem, d: nat, tabs: map<nat, Use>, tabs1: map<nat, Use>,
                  tabs3: map<nat, Use>, users: map<nat, nat>, users1: map<nat, nat>, from: nat, q: nat, n: nat,
                  f: nat)
    requires Grown(lo, m, m2, d, tabs, tabs1, users, users1, from, q, {f}) && from <= q < UPAGES && n <= 1
    requires MappedRun(lo, m2, m3, d, tabs1, tabs3, q, n, f, PTE_W + PTE_U) && f < |m2.pages|
        && m2.pages[f] == Filled(0)
    requires f in m.free && f !in users && lo <= f < NFRAMES && Look(m.pages, d, q).None?
    ensures Grown(lo, m, m3, d, tabs, tabs3, users, if n == 1 then users1[f := q] else users1,
                  from, q + n, if n == 1 then {} else {f})
  {
    hide Tables, SlotOk, UseOk, Users, PageOk, FrameOk, Kept, MappedRun, GrownPage, Look, Pte;
    var users3 := if n == 1 then users1[f := q] else users1;
    RunIsSafe(lo, m2, m3, d, tabs1, tabs3, q, n, f, PTE_W + PTE_U);
    HeldIsKept(m, m2, tabs.Keys, tabs1.Keys + (users1.Keys - users.Keys), f);
    RunApart(lo, m2, m3, d, tabs1, tabs3, q, n, f, PTE_W + PTE_U, users1.Keys + {f});
    RunUsers(lo, m2, m3, d, tabs1, tabs3, users1, q, n, f, PTE_W + PTE_U);
    GrownKept(lo, m, m2, m3, d, tabs.Keys, tabs1, tabs3, users, users1, users3, q, n, f);
    GrownPages(lo, m, m2, m3, d, tabs1, tabs3, users1, from, q, n, q + n, f);
  }

  lemma HeldIsKept(m: Mem, m': Mem, own: set<nat>, own': set<nat>, f: nat)
    requires Kept(m, own, m', own' + {f})
    ensures f !in m'.free
  {
    assert f in own' + {f};
  }

  lemma RunIsSafe(lo: nat, m: Mem, m': Mem, d: nat, tabs: map<nat, Use>, tabs': map<nat, Use>, q: nat, n: nat,
                  f: nat, perm: nat)
    requires MappedRun(lo, m, m', d, tabs, tabs', q, n, f, perm)
    ensures Safe(lo, m', d, tabs') && tabs.Keys <= tabs'.Keys && d < |m'.pages| == |m.pages|
  {
  }

  lemma GrownKept(lo: nat, m: Mem, m2: Mem, m3: Mem, d: nat, tabs: set<nat>, tabs1: map<nat, Use>,
                  tabs3: map<nat, Use>, users: map<nat, nat>, users1: map<nat, nat>, users3: map<nat, nat>, q: nat,
                  n: nat, f: nat)
    requires MappedRun(lo, m2, m3, d, tabs1, tabs3, q, n, f, PTE_W + PTE_U) && n <= 1
    requires Kept(m, tabs, m2, tabs1.Keys + (users1.Keys - users.Keys) + {f})
    requires (users1.Keys - users.Keys) + {f} !! tabs1.Keys && Apart(m2.free, (users1.Keys - users.Keys) + {f})
        && f !in users
    requires users3 == if n == 1 then users1[f := q] else users1
    ensures Kept(m, tabs, m3, tabs3.Keys + (users3.Keys - users.Keys) + if n == 1 then {} else {f})
  {
    hide Tables, RunPte, Frames;
    var new1 := users1.Keys - users.Keys;
    RunApart(lo, m2, m3, d, tabs1, tabs3, q, n, f, PTE_W + PTE_U, new1 + {f});
    assert tabs1.Keys + new1 + {f} == tabs1.Keys + (new1 + {f});
    KeptTrans(m, tabs, m2, tabs1.Keys + (new1 + {f}), m3, tabs3.Keys + (new1 + {f}));
    assert users3.Keys == if n == 1 then users1.Keys + {f} else users1.Keys;
    if n == 1 {
      assert tabs3.Keys + (new1 + {f}) == tabs3.Keys + (users3.Keys - users.Keys) + {};
    } else {
      assert tabs3.Keys + (new1 + {f}) == tabs3.Keys + (users3.Keys - users.Keys) + {f};
    }
  }

  lemma GrownPages(lo: nat, m: Mem, m2: Mem, m3: Mem, d: nat, tabs1: map<nat, Use>, tabs3: map<nat, Use>,
                   users1: map<nat, nat>, from: nat, q: nat, n: nat, upto: nat, f: nat)
    requires d < |m.pages| && d < |m2.pages| == |m3.pages| && from <= q < UPAGES && n <= 1 && f in m.free
        && f < |m2.pages|
    requires f < NFRAMES && upto == q + n
    requires MappedRun(lo, m2, m3, d, tabs1, tabs3, q, n, f, PTE_W + PTE_U) && m2.pages[f] == Filled(0)
    requires forall r: nat :: r < NPAGES ==> GrownPage(m, m2, d, from, q, r)
    requires Users(lo, m2.pages, d, users1) && Look(m.pages, d, q).None?
    requires forall g: nat :: g in users1.Keys + {f} && g < |m2.pages| ==> m3.pages[g] == m2.pages[g]
    ensures forall r: nat :: r < NPAGES ==> GrownPage(m, m3, d, from, upto, r)
  {
    hide Tables, Kept, Apart;
    EntryIs(f, PTE_W + PTE_U);
    forall r: nat | r < NPAGES
      ensures GrownPage(m, m3, d, from, upto, r)
    {
      assert GrownPage(m, m2, d, from, q, r);
      assert RunPte(m2.pages, m3.pages, d, q, n, f, PTE_W + PTE_U, r);
      if from <= r < q {
        assert PageOk(m2.pages, d, users1, r);
        assert Fr(Pte(m2.pages, d, r)) in users1.Keys;
      }
    }
  }

  /** The frames of the free list and of the address space are together the same after allocuvm. */
  lemma GrownConserves(lo: nat, m: Mem, m': Mem, d: nat, tabs: map<nat, Use>, tabs': map<nat, Use>,
                       users: map<nat, nat>, users': map<nat, nat>, from: nat, upto: nat)
    requires Space(lo, m, d, tabs, users) && Grown(lo, m, m', d, tabs, tabs', users, users', from, upto, {})
    ensures Kept(m, tabs.Keys + users.Keys, m', tabs'.Keys + users'.Keys)
    ensures Frames(m'.free) + tabs'.Keys + users'.Keys == Frames(m.free) + tabs.Keys + users.Keys
  {
    hide Tables, Users, GrownPage;
    var added := users'.Keys - users.Keys;
    assert tabs'.Keys + added + {} == tabs'.Keys + added;
    KeptBeside(m, tabs.Keys, m', tabs'.Keys + added, users.Keys);
    assert tabs'.Keys + added + users.Keys == tabs'.Keys + users'.Keys;
  }

  /** The user pages that are present, and their frames and contents, are as they were. */
  ghost predicate SameUser(lo: nat, m: Mem, m': Mem, d: nat, tabs: map<nat, Use>, tabs': map<nat, Use>,
                           users: map<nat, nat>) {
    && Space(lo, m', d, tabs', users) && d < |m.pages|
    && (forall q: nat :: q < NPAGES ==> Look(m'.pages, d, q) == Look(m.pages, d, q))
    && SameOn(m.pages, m'.pages, users.Keys)
  }

  /** deallocuvm, called when allocuvm runs out of memory, undoes it; the frames `held` are left. */
  lemma GrownUndone(lo: nat, m: Mem, m1: Mem, m2: Mem, d: nat, tabs: map<nat, Use>, tabs1: map<nat, Use>,
                    users: map<nat, nat>, users1: map<nat, nat>, users2: map<nat, nat>, from: nat, q: nat, upto: nat,
                    held: set<nat>)
    requires Space(lo, m, d, tabs, users) && Grown(lo, m, m1, d, tabs, tabs1, users, users1, from, q, held)
    requires Dropped(lo, m1, m2, d, tabs1, users1, users2, from, upto) && q <= upto
    requires forall r: nat :: from <= r < upto ==> Look(m.pages, d, r).None?
    ensures users2 == users && SameUser(lo, m, m2, d, tabs, tabs1, users)
    ensures Kept(m, tabs.Keys, m2, tabs1.Keys + held) && held !! tabs1.Keys && held !! users.Keys
    ensures forall f: nat :: f in held && f < |m1.pages| ==> m2.pages[f] == m1.pages[f]
  {
    hide Tables, Users, Drop, GrownPage, DropEntry, Look, Pte, SlotOk, UseOk, PageOk, FrameOk;
    UndoneUsers(lo, m.pages, d, m.free, users, users1, from, q, upto);
    UndoneLooks(lo, m, m1, m2, d, tabs, tabs1, users, users1, users2, from, q, upto, held);
    var new1 := users1.Keys - users.Keys;
    assert users1.Keys == new1 + users.Keys && new1 !! users.Keys;
    assert tabs1.Keys + users1.Keys == tabs1.Keys + new1 + users.Keys;
    KeptWithout(m1, tabs1.Keys + new1, m2, tabs1.Keys, users.Keys);
    KeptBeside(m1, tabs1.Keys + new1, m2, tabs1.Keys, held);
    KeptTrans(m, tabs.Keys, m1, tabs1.Keys + new1 + held, m2, tabs1.Keys + held);
    forall f: nat | f in users.Keys && f < |m.pages|
      ensures m2.pages[f] == m.pages[f]
    {
      assert f !in tabs.Keys && f !in m.free;
    }
  }

  lemma UndoneUsers(lo: nat, pages: seq<Page>, d: nat, free: seq<nat>, users: map<nat, nat>, users1: map<nat, nat>,
                    from: nat, q: nat, upto: nat)
    requires d < |pages| && Users(lo, pages, d, users) && MoreUsers(free, users, users1, from, q) && q <= upto <= NPAGES
    requires forall r: nat :: from <= r < upto ==> Look(pages, d, r).None?
    ensures Keep(users1, from, upto) == users
  {
    forall f | f in users
      ensures !(from <= users[f] < upto)
    {
      assert FrameOk(lo, pages, d, users[f], f);
      assert Look(pages, d, users[f]).Some?;
    }
  }

  lemma UndoneLooks(lo: nat, m: Mem, m1: Mem, m2: Mem, d: nat, tabs: map<nat, Use>, tabs1: map<nat, Use>,
                    users: map<nat, nat>, users1: map<nat, nat>, users2: map<nat, nat>, from: nat, q: nat, upto: nat,
                    held: set<nat>)
    requires Grown(lo, m, m1, d, tabs, tabs1, users, users1, from, q, held) && upto <= NPAGES
    requires Dropped(lo, m1, m2, d, tabs1, users1, users2, from, upto) && q <= upto
    requires forall r: nat :: from <= r < upto ==> Look(m.pages, d, r).None?
    ensures d < |m.pages| && d < |m2.pages|
    ensures forall r: nat :: r < NPAGES ==> Look(m2.pages, d, r) == Look(m.pages, d, r)
  {
    hide Apart, Kept, Users, Drop, SlotOk, UseOk;
    forall r: nat | r < NPAGES
      ensures Look(m2.pages, d, r) == Look(m.pages, d, r)
    {
      assert GrownPage(m, m1, d, from, q, r);
      assert Pte(m2.pages, d, r) == DropEntry(m1.pages, d, from, upto, r);
    }
  }

  /** kfree of the frame in hand, after the rest is undone. */
  lemma UndoneFree(lo: nat, m: Mem, m2: Mem, d: nat, tabs: map<nat, Use>, tabs1: map<nat, Use>, users: map<nat, nat>,
                   f: nat, x: Page)
    requires SameUser(lo, m, m2, d, tabs, tabs1, users) && Kept(m, tabs.Keys, m2, tabs1.Keys + {f})
    requires f !in tabs1 && f !in users && f < |m2.pages|
    ensures SameUser(lo, m, Mem(m2.pages[f := x], [f] + m2.free), d, tabs, tabs1, users)
    ensures Kept(m, tabs.Keys, Mem(m2.pages[f := x], [f] + m2.free), tabs1.Keys)
  {
    hide SlotOk, UseOk, PageOk, FrameOk, Pte;
    var m3 := Mem(m2.pages[f := x], [f] + m2.free);
    HeldIsKept(m, m2, tabs.Keys, tabs1.Keys, f);
    KeptPush(m2, tabs1.Keys, f, x);
    KeptTrans(m, tabs.Keys, m2, tabs1.Keys + {f}, m3, tabs1.Keys);
    TablesFrame(lo, m2.pages, m3.pages, d, tabs1);
    UsersFrame(lo, m2.pages, m3.pages, d, users);
    forall q: nat | q < NPAGES
      ensures Look(m3.pages, d, q) == Look(m.pages, d, q)
    {
      assert Pte(m3.pages, d, q) == Pte(m2.pages, d, q);
      assert Look(m2.pages, d, q) == Look(m.pages, d, q);
    }
  }

  /** What a turn of allocuvm starts from. */
  lemma GrownTurn(lo: nat, m: Mem, m1: Mem, d: nat, tabs: map<nat, Use>, tabs1: map<nat, Use>, users: map<nat, nat>,
                  users1: map<nat, nat>, from: nat, q: nat, upto: nat)
    requires Grown(lo, m, m1, d, tabs, tabs1, users, users1, from, q, {}) && from <= q < upto <= UPAGES
    requires d < |m.pages| && forall r: nat :: from <= r < upto ==> Look(m.pages, d, r).None?
    ensures Space(lo, m1, d, tabs1, users1) && Safe(lo, m1, d, tabs1) && d < |m1.pages| && d !in m1.free
    ensures Look(m.pages, d, q).None?
  {
    hide SlotOk, UseOk, PageOk, FrameOk, Kept, Users;
  }

  lemma GrownSpace(lo: nat, m: Mem, m1: Mem, d: nat, tabs: map<nat, Use>, tabs1: map<nat, Use>, users: map<nat, nat>,
                   users1: map<nat, nat>, from: nat, q: nat, held: set<nat>)
    requires Grown(lo, m, m1, d, tabs, tabs1, users, users1, from, q, held)
    ensures Space(lo, m1, d, tabs1, users1)
  {
  }

  lemma HoldTurn(lo: nat, m: Mem, m2: Mem, d: nat, tabs: map<nat, Use>, tabs1: map<nat, Use>, users: map<nat, nat>,
                 users1: map<nat, nat>, from: nat, q: nat, f: nat)
    requires Grown(lo, m, m2, d, tabs, tabs1, users, users1, from, q, {f}) && q < UPAGES
    requires Space(lo, m, d, tabs, users) && d < |m.pages| && Look(m.pages, d, q).None? && f in m.free
    ensures Safe(lo, m2, d, tabs1) && d < |m2.pages| && Look(m2.pages, d, q).None? && f !in m2.free && f !in users
  {
    hide SlotOk, UseOk, PageOk, FrameOk, Users;
    HeldIsKept(m, m2, tabs.Keys, tabs1.Keys + (users1.Keys - users.Keys), f);
    assert GrownPage(m, m2, d, from, q, q);
  }

  lemma OnePage(a: nat, q: nat, f: nat)
    requires a == q * PGSIZE
    ensures a / PGSIZE == q && Span(a, PGSIZE) == 1 && f * PGSIZE / PGSIZE == f && f * PGSIZE % PGSIZE == 0
  {
  }
}

/** Two-level page tables as a flat map from page numbers to entries, the frames they are made
    of, and how the flat map changes when one entry or one directory slot is written. */
module VmSpec {
  import opened Kalloc
  import opened Options
  import opened Param

  /** Entries of a directory, pages of the address space, pages below KERNBASE. */
  const NPDENTRIES: nat := 1024
  const NPAGES: nat := 0x10_0000
  const UPAGES: nat := KERNBASE / PGSIZE
  const PTE_W: nat := 2
  const PTE_U: nat := 4

  /** PTE_P is bit 0, PTE_ADDR the upper 20 bits as a frame number, PTE_FLAGS the lower 12. */
  predicate P(e: word) {
    e % 2 == 1
  }

  function Fr(e: word): nat {
    e / PGSIZE
  }

  function Flags(e: word): nat {
    e % PGSIZE
  }

  /** pa | perm | PTE_P, for the frame f at pa. */
  function Entry(f: nat, perm: nat): word
    requires f < NPAGES && perm < PGSIZE
  {
    f * PGSIZE + perm + if perm % 2 == 0 then 1 else 0
  }

  lemma EntryIs(f: nat, perm: nat)
    requires f < NPAGES && perm < PGSIZE
    ensures P(Entry(f, perm)) && Fr(Entry(f, perm)) == f
    ensures Flags(Entry(f, perm)) == perm + if perm % 2 == 0 then 1 else 0
  {
    assert (f * PGSIZE + perm) % 2 == perm % 2;
  }

  /** The entry for page q in directory d, 0 where there is no page table: the flat map. */
  function Pte(pages: seq<Page>, d: nat, q: nat): word
    requires d < |pages| && q < NPAGES
  {
    var e := pages[d].w[q / 1024];
    if !P(e) || Fr(e) >= |pages| then 0 else pages[Fr(e)].w[q % 1024]
  }

  /** What page q is mapped to, as a present entry. */
  function Look(pages: seq<Page>, d: nat, q: nat): Option<word>
    requires d < |pages| && q < NPAGES
  {
    if P(Pte(pages, d, q)) then Some(Pte(pages, d, q)) else None
  }

  datatype Use = Dir | Table(i: nat)

  /** The frames of a directory and its page tables, each with its one use. */
  ghost predicate Tables(lo: nat, pages: seq<Page>, d: nat, tabs: map<nat, Use>) {
    && |pages| == NFRAMES && d < NFRAMES && d in tabs && tabs[d] == Dir && 0 < lo
    && (forall i: nat :: i < NPDENTRIES ==> SlotOk(pages, d, tabs, i))
    && (forall f :: f in tabs ==> UseOk(lo, pages, d, tabs[f], f))
  }

  ghost predicate SlotOk(pages: seq<Page>, d: nat, tabs: map<nat, Use>, i: nat)
    requires d < |pages| && i < NPDENTRIES
  {
    var e := pages[d].w[i];
    P(e) ==> Fr(e) in tabs && tabs[Fr(e)] == Table(i)
  }

  ghost predicate UseOk(lo: nat, pages: seq<Page>, d: nat, u: Use, f: nat)
    requires d < |pages|
  {
    && lo <= f < NFRAMES
    && match u
       case Dir => f == d
       case Table(i) => i < NPDENTRIES && P(pages[d].w[i]) && Fr(pages[d].w[i]) == f
  }

  /** The frames behind the user pages, each behind one page. */
  ghost predicate Users(lo: nat, pages: seq<Page>, d: nat, users: map<nat, nat>)
    requires d < |pages|
  {
    && (forall q: nat :: q < UPAGES ==> PageOk(pages, d, users, q))
    && (forall f :: f in users ==> FrameOk(lo, pages, d, users[f], f))
  }

  ghost predicate PageOk(pages: seq<Page>, d: nat, users: map<nat, nat>, q: nat)
    requires d < |pages| && q < NPAGES
  {
    var e := Pte(pages, d, q);
    P(e) ==> Fr(e) in users && users[Fr(e)] == q
  }

  ghost predicate FrameOk(lo: nat, pages: seq<Page>, d: nat, q: nat, f: nat)
    requires d < |pages|
  {
    lo <= f < NFRAMES && q < UPAGES && P(Pte(pages, d, q)) && Fr(Pte(pages, d, q)) == f
  }

  /** The same flat map on the pages from lo to hi. */
  ghost predicate SameMap(pages: seq<Page>, pages': seq<Page>, d: nat, lo: nat, hi: nat)
    requires d < |pages| && d < |pages'|
  {
    forall q: nat :: lo <= q < hi && q < NPAGES ==> Pte(pages', d, q) == Pte(pages, d, q)
  }

  ghost predicate SameOn(pages: seq<Page>, pages': seq<Page>, s: set<nat>) {
    |pages| == |pages'| && forall f: nat :: f in s && f < |pages| ==> pages'[f] == pages[f]
  }

  // ---------- frames

  lemma TablesFrame(lo: nat, pages: seq<Page>, pages': seq<Page>, d: nat, tabs: map<nat, Use>)
    requires Tables(lo, pages, d, tabs) && SameOn(pages, pages', tabs.Keys)
    ensures Tables(lo, pages', d, tabs) && SameMap(pages, pages', d, 0, NPAGES)
  {
    forall i: nat | i < NPDENTRIES
      ensures SlotOk(pages', d, tabs, i)
    {
      assert SlotOk(pages, d, tabs, i);
    }
    forall f | f in tabs
      ensures UseOk(lo, pages', d, tabs[f], f)
    {
      assert UseOk(lo, pages, d, tabs[f], f);
    }
    forall q: nat | q < NPAGES
      ensures Pte(pages', d, q) == Pte(pages, d, q)
    {
      assert SlotOk(pages, d, tabs, q / 1024);
    }
  }

  lemma UsersFrame(lo: nat, pages: seq<Page>, pages': seq<Page>, d: nat, users: map<nat, nat>)
    requires d < |pages| && d < |pages'| && Users(lo, pages, d, users) && SameMap(pages, pages', d, 0, UPAGES)
    ensures Users(lo, pages', d, users)
  {
    forall q: nat | q < UPAGES
      ensures PageOk(pages', d, users, q)
    {
      assert PageOk(pages, d, users, q);
    }
    forall f | f in users
      ensures FrameOk(lo, pages', d, users[f], f)
    {
      assert FrameOk(lo, pages, d, users[f], f);
    }
  }

  // ---------- one entry written

  function WithPte(pages: seq<Page>, d: nat, q: nat, e: word): seq<Page>
    requires d < |pages| && q < NPAGES && Fr(pages[d].w[q / 1024]) < |pages|
  {
    var pt := Fr(pages[d].w[q / 1024]);
    pages[pt := SetW(pages[pt], q % 1024, e)]
  }

  lemma TableAt(lo: nat, pages: seq<Page>, d: nat, tabs: map<nat, Use>, i: nat)
    requires Tables(lo, pages, d, tabs) && i < NPDENTRIES && P(pages[d].w[i])
    ensures var f := Fr(pages[d].w[i]); lo <= f < NFRAMES && f in tabs && tabs[f] == Table(i) && f != d
  {
    assert SlotOk(pages, d, tabs, i);
    var f := Fr(pages[d].w[i]);
    assert UseOk(lo, pages, d, tabs[f], f);
  }

  lemma WritePte(lo: nat, pages: seq<Page>, d: nat, tabs: map<nat, Use>, q: nat, e: word)
    requires Tables(lo, pages, d, tabs) && q < NPAGES && P(pages[d].w[q / 1024])
    ensures Fr(pages[d].w[q / 1024]) < |pages| && Tables(lo, WithPte(pages, d, q, e), d, tabs)
    ensures forall r: nat :: r < NPAGES ==>
              Pte(WithPte(pages, d, q, e), d, r) == if r == q then e else Pte(pages, d, r)
  {
    TableAt(lo, pages, d, tabs, q / 1024);
    var pages' := WithPte(pages, d, q, e);
    forall i: nat | i < NPDENTRIES
      ensures SlotOk(pages', d, tabs, i)
    {
      assert SlotOk(pages, d, tabs, i);
    }
    forall f | f in tabs
      ensures UseOk(lo, pages', d, tabs[f], f)
    {
      assert UseOk(lo, pages, d, tabs[f], f);
    }
    forall r: nat | r < NPAGES
      ensures Pte(pages', d, r) == if r == q then e else Pte(pages, d, r)
    {
      if P(pages[d].w[r / 1024]) {
        TableAt(lo, pages, d, tabs, r / 1024);
      }
      if r / 1024 == q / 1024 && r != q {
        assert r % 1024 != q % 1024 by {
          assert r == 1024 * (r / 1024) + r % 1024 && q == 1024 * (q / 1024) + q % 1024;
        }
      }
    }
  }

  // ---------- one page table added

  function WithTable(pages: seq<Page>, d: nat, i: nat, f: nat): seq<Page>
    requires d < |pages| && i < NPDENTRIES && f < |pages| && f < NPAGES
  {
    var pages1 := pages[f := Filled(0)];
    pages1[d := SetW(pages1[d], i, Entry(f, PTE_W + PTE_U))]
  }

  lemma AddTable(lo: nat, pages: seq<Page>, d: nat, tabs: map<nat, Use>, i: nat, f: nat)
    requires Tables(lo, pages, d, tabs) && i < NPDENTRIES && !P(pages[d].w[i]) && lo <= f < NFRAMES && f !in tabs
    ensures var pages' := WithTable(pages, d, i, f);
            && Tables(lo, pages', d, tabs[f := Table(i)]) && SameMap(pages, pages', d, 0, NPAGES)
            && P(pages'[d].w[i]) && Fr(pages'[d].w[i]) == f
  {
    var pages', tabs' := WithTable(pages, d, i, f), tabs[f := Table(i)];
    EntryIs(f, PTE_W + PTE_U);
    forall j: nat | j < NPDENTRIES
      ensures SlotOk(pages', d, tabs', j)
    {
      assert SlotOk(pages, d, tabs, j);
    }
    forall g | g in tabs'
      ensures UseOk(lo, pages', d, tabs'[g], g)
    {
      if g != f {
        assert UseOk(lo, pages, d, tabs[g], g);
      }
    }
    forall q: nat | q < NPAGES
      ensures Pte(pages', d, q) == Pte(pages, d, q)
    {
      if P(pages[d].w[q / 1024]) {
        TableAt(lo, pages, d, tabs, q / 1024);
      }
    }
  }
}

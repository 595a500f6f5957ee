/** kalloc.c: physical page frames, the free ones linked through their own first words. */
module Kalloc {
  import opened Param

  const PGSIZE: nat := 4096
  const PGWORDS: nat := 1024
  const KERNBASE: nat := 0x8000_0000
  const PHYSTOP: nat := 0xE00_0000
  const NFRAMES: nat := PHYSTOP / PGSIZE

  type Words = s: seq<word> | |s| == PGWORDS witness seq(PGWORDS, _ => 0)
  /** A page, as the 32-bit words it holds. */
  datatype Page = Page(w: Words)

  function Filled(x: word): (p: Page)
    ensures forall i :: 0 <= i < PGWORDS ==> p.w[i] == x
  {
    Page(seq(PGWORDS, _ => x))
  }

  function SetW(p: Page, i: nat, x: word): Page
    requires i < PGWORDS
  {
    Page(p.w[i := x])
  }

  /** P2V of a frame's physical address. */
  function Virt(f: nat): nat {
    KERNBASE + f * PGSIZE
  }

  function FrameAt(v: nat): nat
    requires v >= KERNBASE
  {
    (v - KERNBASE) / PGSIZE
  }

  function PgRoundUp(a: nat): nat {
    (a + PGSIZE - 1) / PGSIZE * PGSIZE
  }

  function PgRoundDown(a: nat): nat {
    a / PGSIZE * PGSIZE
  }

  /** The frames from first to last on the list that starts at v, each once, none below lo. */
  ghost predicate FreeList(lo: nat, pages: seq<Page>, v: nat, free: seq<nat>)
    decreases |free|
  {
    if free == [] then v == 0
    else
      && v == Virt(free[0]) && lo <= free[0] < NFRAMES && free[0] < |pages| && free[0] !in free[1..]
      && FreeList(lo, pages, pages[free[0]].w[0], free[1..])
  }

  /** The list does not see frames that are not on it. */
  lemma {:induction false} FreeListFrame(lo: nat, pages: seq<Page>, pages': seq<Page>, v: nat, free: seq<nat>)
    requires FreeList(lo, pages, v, free) && |pages'| == |pages|
    requires forall f: nat :: f in free && f < |pages| ==> pages'[f] == pages[f]
    ensures FreeList(lo, pages', v, free)
    decreases |free|
  {
    if free != [] {
      FreeListFrame(lo, pages, pages', pages[free[0]].w[0], free[1..]);
    }
  }

  lemma {:induction false} FreeFramesFit(lo: nat, pages: seq<Page>, v: nat, free: seq<nat>, f: nat)
    requires FreeList(lo, pages, v, free) && f in free
    ensures lo <= f < NFRAMES && f < |pages|
    decreases |free|
  {
    if f != free[0] {
      FreeFramesFit(lo, pages, pages[free[0]].w[0], free[1..], f);
    }
  }

  /** With only frame f changed, a list that starts at the same place comes to f as before. */
  lemma {:induction false} Meets(lo: nat, pages: seq<Page>, pages': seq<Page>, v: nat, free: seq<nat>, f: nat,
                                 s: seq<nat>)
    requires FreeList(lo, pages, v, free) && f in free && FreeList(lo, pages', v, s) && |pages'| == |pages|
    requires forall g: nat :: g < |pages| && g != f ==> pages'[g] == pages[g]
    ensures f in s
    decreases |free|
  {
    if free[0] != f {
      Meets(lo, pages, pages', pages[free[0]].w[0], free[1..], f, s[1..]);
    }
  }

  lemma FreedTwice(lo: nat, pages: seq<Page>, pages': seq<Page>, v: nat, free: seq<nat>, f: nat)
    requires FreeList(lo, pages, v, free) && f in free && f < |pages| == |pages'| && pages'[f].w[0] == v
    requires forall g: nat :: g < |pages| && g != f ==> pages'[g] == pages[g]
    ensures forall s :: !FreeList(lo, pages', Virt(f), s)
  {
    forall s
      ensures !FreeList(lo, pages', Virt(f), s)
    {
      if FreeList(lo, pages', Virt(f), s) {
        Meets(lo, pages, pages', v, free, f, s[1..]);
      }
    }
  }

  /** Frame numbers from hi - 1 down to lo: a freed range, as the list holds it. */
  function Downward(lo: nat, hi: nat): (s: seq<nat>)
    ensures forall f: nat :: f in s <==> lo <= f < hi
    decreases hi
  {
    if hi <= lo then [] else [hi - 1] + Downward(lo, hi - 1)
  }

  class Kmem {
    /** The first frame that kfree takes: `end` rounded up. */
    const lo: nat
    var pages: seq<Page>
    var freelist: nat
    ghost var free: seq<nat>

    ghost predicate Valid()
      reads this
    {
      0 < lo && |pages| == NFRAMES && FreeList(lo, pages, freelist, free)
    }

    constructor (lo: nat)
      requires 0 < lo
      ensures Valid() && this.lo == lo && free == []
    {
      this.lo := lo;
      pages := seq(NFRAMES, _ => Filled(0));
      freelist := 0;
      free := [];
    }

    /** memset of a whole page with the word x, or any other assignment to a page not on the list. */
    method SetPage(f: nat, p: Page)
      requires Valid() && f < NFRAMES && f !in free
      modifies this`pages
      ensures Valid() && pages == old(pages)[f := p]
    {
      pages := pages[f := p];
      FreeListFrame(lo, old(pages), pages, freelist, free);
    }

    /** kfree: panics off a page boundary or outside the managed frames. A frame that is free already
        it links in again, and then there is no list any more: following it goes round for ever. */
    method Kfree(v: nat) returns (panic: bool)
      requires Valid()
      modifies this
      ensures panic <==> v % PGSIZE != 0 || v < Virt(lo) || v >= Virt(NFRAMES)
      ensures panic ==> Valid() && pages == old(pages) && free == old(free)
      ensures |pages| == |old(pages)| == NFRAMES
      ensures !panic ==> pages == old(pages)[FrameAt(v) := pages[FrameAt(v)]]
      ensures !panic ==> forall i :: 0 < i < PGWORDS ==> pages[FrameAt(v)].w[i] == 0x0101_0101
      ensures !panic && FrameAt(v) !in old(free) ==> Valid() && free == [FrameAt(v)] + old(free)
      ensures !panic && FrameAt(v) in old(free) ==> forall s :: !FreeList(lo, pages, freelist, s)
    {
      if v % PGSIZE != 0 || v < Virt(lo) || v - KERNBASE >= PHYSTOP {
        return true;
      }
      var f := FrameAt(v);
      pages := pages[f := Filled(0x0101_0101)];
      pages := pages[f := SetW(pages[f], 0, freelist)];
      if f in free {
        FreedTwice(lo, old(pages), pages, freelist, free, f);
      } else {
        FreeListFrame(lo, old(pages), pages, freelist, free);
      }
      freelist := v;
      free := [f] + free;
      assert free[1..] == old(free);
      panic := false;
    }

    /** kalloc: 0 when there is no free frame. */
    method Kalloc() returns (v: nat)
      requires Valid()
      modifies this`freelist, this`free
      ensures Valid() && (v == 0 <==> old(free) == [])
      ensures v == 0 ==> free == []
      ensures v != 0 ==> v == Virt(old(free)[0]) && free == old(free)[1..] && old(free)[0] !in free
                         && lo <= old(free)[0] < NFRAMES
    {
      v := freelist;
      if v != 0 {
        freelist := pages[FrameAt(v)].w[0];
        free := free[1..];
      }
    }

    /** freerange: the whole pages in [vstart, vend), which no one else has. */
    method Freerange(vstart: nat, vend: nat)
      requires Valid() && Virt(lo) <= vstart && vend <= Virt(NFRAMES)
      requires forall f: nat :: f in free ==> Virt(f) + PGSIZE <= vstart || vend < Virt(f) + PGSIZE
      modifies this
      ensures Valid()
      ensures free == Downward(FrameAt(PgRoundUp(vstart)), if vend < PgRoundUp(vstart) then 0 else FrameAt(vend))
                      + old(free)
    {
      hide FreeList, Downward, FrameAt, PgRoundUp;
      var p := PgRoundUp(vstart);
      RangeStart(vstart);
      ghost var from, was := FrameAt(p), free;
      while p + PGSIZE <= vend
        invariant Valid() && p % PGSIZE == 0 && PgRoundUp(vstart) <= p && (p <= vend || p == PgRoundUp(vstart))
        invariant KERNBASE <= p && from <= FrameAt(p) && free == Downward(from, FrameAt(p)) + was
      {
        RangeNext(lo, vstart, vend, p, was, from);
        var panic := Kfree(p);
        assert !panic;
        p := p + PGSIZE;
      }
      RangeEnd(vstart, vend, p);
    }
  }

  lemma RangeStart(vstart: nat)
    requires KERNBASE <= vstart
    ensures var p := PgRoundUp(vstart);
            vstart <= p && p % PGSIZE == 0 && Downward(FrameAt(p), FrameAt(p)) == []
  {
  }

  /** The page at p can be freed, and it comes next. */
  lemma RangeNext(lo: nat, vstart: nat, vend: nat, p: nat, free: seq<nat>, from: nat)
    requires Virt(lo) <= vstart <= p && vend <= Virt(NFRAMES) && p % PGSIZE == 0 && p + PGSIZE <= vend
    requires from <= FrameAt(p) && forall f: nat :: f in free ==> Virt(f) + PGSIZE <= vstart || vend < Virt(f) + PGSIZE
    ensures FrameAt(p) !in Downward(from, FrameAt(p)) + free && p >= Virt(lo) && p < Virt(NFRAMES)
    ensures FrameAt(p + PGSIZE) == FrameAt(p) + 1
    ensures [FrameAt(p)] + (Downward(from, FrameAt(p)) + free) == Downward(from, FrameAt(p + PGSIZE)) + free
  {
    hide Downward;
    assert p == Virt(FrameAt(p));
    DownwardNext(from, FrameAt(p));
    assert [FrameAt(p)] + (Downward(from, FrameAt(p)) + free) == ([FrameAt(p)] + Downward(from, FrameAt(p))) + free;
  }

  lemma DownwardNext(lo: nat, hi: nat)
    requires lo <= hi
    ensures Downward(lo, hi + 1) == [hi] + Downward(lo, hi)
  {
  }

  lemma RangeEnd(vstart: nat, vend: nat, p: nat)
    requires KERNBASE <= vstart && PgRoundUp(vstart) <= p && p % PGSIZE == 0 && (p <= vend || p == PgRoundUp(vstart))
    requires p + PGSIZE > vend
    ensures Downward(FrameAt(PgRoundUp(vstart)), FrameAt(p))
         == Downward(FrameAt(PgRoundUp(vstart)), if vend < PgRoundUp(vstart) then 0 else FrameAt(vend))
  {
  }
}

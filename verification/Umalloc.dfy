/** umalloc.c: the allocator of section 8.7 of The C Programming Language, 2nd edition. Addresses
    count header-sized units; a block is a header unit and the units after it. */
module Umalloc {
  import opened Options

  /** The free list: from base, which has size 0, upwards in address order and back to base.
      Blocks at indices of `tight` may touch the next one; no others do. */
  ghost predicate Ring(base: nat, ptr: map<nat, nat>, size: map<nat, nat>, ring: seq<nat>, tight: set<nat>) {
    && |ring| > 0 && ring[0] == base && base in size && size[base] == 0
    && forall i: nat :: i < |ring| ==> RingAt(base, ptr, size, ring, tight, i)
  }

  ghost predicate RingAt(base: nat, ptr: map<nat, nat>, size: map<nat, nat>, ring: seq<nat>, tight: set<nat>, i: nat)
    requires i < |ring|
  {
    var b := ring[i];
    && b in ptr && b in size && ptr[b] == Next(base, ring, i) && (i > 0 ==> size[b] > 0)
    && (i + 1 < |ring| ==> b < ring[i + 1] && b + size[b] <= ring[i + 1])
    && (i + 1 < |ring| && i !in tight ==> b + size[b] < ring[i + 1])
  }

  function Next(base: nat, ring: seq<nat>, i: nat): nat
    requires i < |ring|
  {
    if i + 1 < |ring| then ring[i + 1] else base
  }

  /** The free blocks. */
  ghost function FreeBlocks(ring: seq<nat>): set<nat> {
    set i: nat | 0 < i < |ring| :: ring[i]
  }

  /** Each unit got from sbrk belongs to one block, and the blocks are made of such units. */
  ghost predicate Cover(size: map<nat, nat>, blocks: set<nat>, owner: map<nat, nat>) {
    && (forall b :: b in blocks ==> b in size && size[b] > 0)
    && (forall b: nat, u: nat :: b in blocks && Within(size, b, u) ==> u in owner && owner[u] == b)
    && (forall u :: u in owner ==> owner[u] in blocks && Within(size, owner[u], u))
  }

  ghost predicate Within(size: map<nat, nat>, b: nat, u: nat) {
    b in size && b <= u < b + size[b]
  }

  ghost predicate Heap(base: nat, ptr: map<nat, nat>, size: map<nat, nat>, ring: seq<nat>, tight: set<nat>,
                       alloc: set<nat>, owner: map<nat, nat>)
  {
    && Ring(base, ptr, size, ring, tight) && FreeBlocks(ring) !! alloc && base !in alloc
    && Cover(size, FreeBlocks(ring) + alloc, owner) && base !in owner
    && (forall b :: b in alloc ==> base < b)
  }

  // ---------- order

  lemma {:induction false} Ascending(base: nat, ptr: map<nat, nat>, size: map<nat, nat>, ring: seq<nat>,
                                     tight: set<nat>, i: nat, j: nat)
    requires Ring(base, ptr, size, ring, tight) && i < j < |ring|
    ensures ring[i] in size && ring[i] < ring[j] && ring[i] + size[ring[i]] <= ring[j]
    decreases j - i
  {
    assert RingAt(base, ptr, size, ring, tight, i);
    if i + 1 < j {
      Ascending(base, ptr, size, ring, tight, i + 1, j);
    }
  }

  /** Blocks that are different do not overlap. */
  lemma Disjoint(size: map<nat, nat>, blocks: set<nat>, owner: map<nat, nat>, a: nat, b: nat)
    requires Cover(size, blocks, owner) && a in blocks && b in blocks && a < b
    ensures a + size[a] <= b
  {
    if b < a + size[a] {
      assert Within(size, a, b) && Within(size, b, b);
    }
  }

  lemma NotListed(base: nat, ring: seq<nat>, alloc: set<nat>, b: nat)
    requires |ring| > 0 && ring[0] == base && FreeBlocks(ring) !! alloc && b in alloc && base < b
    ensures b !in ring
  {
    forall i: nat | i < |ring|
      ensures ring[i] != b
    {
      if i > 0 {
        assert ring[i] in FreeBlocks(ring);
      }
    }
  }

  /** Some free block has n units or more. */
  ghost predicate Fits(ring: seq<nat>, size: map<nat, nat>, n: nat) {
    exists i: nat :: 0 < i < |ring| && FitsAt(ring, size, n, i)
  }

  ghost predicate FitsAt(ring: seq<nat>, size: map<nat, nat>, n: nat, i: nat)
    requires i < |ring|
  {
    ring[i] in size && size[ring[i]] >= n
  }

  /** Where a block belongs on the list. */
  ghost predicate Place(ring: seq<nat>, b: nat, t: nat) {
    t < |ring| && ring[t] < b && (t + 1 < |ring| ==> b < ring[t + 1])
  }

  lemma {:induction false} PlaceExists(base: nat, ptr: map<nat, nat>, size: map<nat, nat>, ring: seq<nat>,
                                       tight: set<nat>, b: nat, n: nat) returns (t: nat)
    requires Ring(base, ptr, size, ring, tight) && base < b && b !in ring && 0 < n <= |ring|
    requires forall i: nat :: n <= i < |ring| ==> b < ring[i]
    ensures Place(ring, b, t)
  {
    if ring[n - 1] < b {
      t := n - 1;
    } else {
      t := PlaceExists(base, ptr, size, ring, tight, b, n - 1);
    }
  }

  /** The two tests of the loop in free stop it at the place of bp, and nowhere else. */
  lemma Turn(base: nat, ptr: map<nat, nat>, size: map<nat, nat>, ring: seq<nat>, bp: nat, t: nat, i: nat)
    requires Ring(base, ptr, size, ring, {}) && i < |ring| && base < bp && bp !in ring && Place(ring, bp, t)
    ensures ring[i] in ptr
    ensures i == t <==>
            (bp > ring[i] && bp < ptr[ring[i]]) || (ring[i] >= ptr[ring[i]] && (bp > ring[i] || bp < ptr[ring[i]]))
  {
    assert RingAt(base, ptr, size, ring, {}, i);
    if i < t {
      Ascending(base, ptr, size, ring, {}, i, t);
      assert RingAt(base, ptr, size, ring, {}, t);
      if i + 1 < t {
        Ascending(base, ptr, size, ring, {}, i + 1, t);
      }
    } else if t < i {
      Ascending(base, ptr, size, ring, {}, t, i);
      if t + 1 < i {
        Ascending(base, ptr, size, ring, {}, t + 1, i);
      }
    }
    if 0 < i {
      Ascending(base, ptr, size, ring, {}, 0, i);
    }
  }

  lemma NotBeyond(base: nat, ptr: map<nat, nat>, size: map<nat, nat>, ring: seq<nat>, bp: nat, t: nat, j: nat)
    requires Ring(base, ptr, size, ring, {}) && Place(ring, bp, t) && j < |ring| && ring[j] < bp
    ensures ring[j] <= ring[t]
  {
    if j < t {
      Ascending(base, ptr, size, ring, {}, j, t);
    } else if t + 1 < j {
      Ascending(base, ptr, size, ring, {}, t + 1, j);
    }
  }

  // ---------- a block taken into the list

  /** bp linked in after ring[t], with no merging yet. */
  lemma Insert(base: nat, ptr: map<nat, nat>, size: map<nat, nat>, ring: seq<nat>, alloc: set<nat>,
               owner: map<nat, nat>, bp: nat, t: nat)
    requires Heap(base, ptr, size, ring, {}, alloc, owner) && bp in alloc && Place(ring, bp, t)
    ensures var ring' := ring[..t + 1] + [bp] + ring[t + 1..];
            Heap(base, ptr[bp := Next(base, ring, t)][ring[t] := bp], size, ring', {t, t + 1}, alloc - {bp}, owner)
  {
    var ring' := ring[..t + 1] + [bp] + ring[t + 1..];
    hide Ring, Within;
    RingNext(base, ptr, size, ring, t);
    if t > 0 {
      assert ring[t] in FreeBlocks(ring);
      Disjoint(size, FreeBlocks(ring) + alloc, owner, ring[t], bp);
    }
    if t + 1 < |ring| {
      assert ring[t + 1] in FreeBlocks(ring);
      Disjoint(size, FreeBlocks(ring) + alloc, owner, bp, ring[t + 1]);
    }
    assert bp !in ring by {
      RingNext(base, ptr, size, ring, 0);
      NotListed(base, ring, alloc, bp);
    }
    InsertedRing(base, ptr, size, ring, bp, t);
    InsertedFree(ring, bp, t);
    assert FreeBlocks(ring') + (alloc - {bp}) == FreeBlocks(ring) + alloc;
  }

  lemma RingNext(base: nat, ptr: map<nat, nat>, size: map<nat, nat>, ring: seq<nat>, t: nat)
    requires Ring(base, ptr, size, ring, {}) && t < |ring|
    ensures |ring| > 0 && ring[0] == base
    ensures ring[t] in size && (t == 0 ==> ring[t] == base && size[ring[t]] == 0)
  {
    assert RingAt(base, ptr, size, ring, {}, t);
  }

  lemma InsertedRing(base: nat, ptr: map<nat, nat>, size: map<nat, nat>, ring: seq<nat>, bp: nat, t: nat)
    requires Ring(base, ptr, size, ring, {}) && Place(ring, bp, t) && ring[t] in size && bp in size
                 && size[bp] > 0 && bp !in ring
    requires ring[t] + size[ring[t]] <= bp && (t + 1 < |ring| ==> bp + size[bp] <= ring[t + 1])
    ensures Ring(base, ptr[bp := Next(base, ring, t)][ring[t] := bp], size, ring[..t + 1] + [bp] + ring[t + 1..],
                {t, t + 1})
  {
    var ring', ptr' := ring[..t + 1] + [bp] + ring[t + 1..], ptr[bp := Next(base, ring, t)][ring[t] := bp];
    var touching := {t, t + 1};
    forall i: nat | i < |ring'|
      ensures RingAt(base, ptr', size, ring', touching, i)
    {
      if i <= t {
        assert RingAt(base, ptr, size, ring, {}, i);
        if i < t {
          Ascending(base, ptr, size, ring, {}, i, t);
        }
      } else if i > t + 1 {
        assert RingAt(base, ptr, size, ring, {}, i - 1);
        Ascending(base, ptr, size, ring, {}, t, i - 1);
      }
    }
  }

  lemma InsertedFree(ring: seq<nat>, bp: nat, t: nat)
    requires t < |ring|
    ensures FreeBlocks(ring[..t + 1] + [bp] + ring[t + 1..]) == FreeBlocks(ring) + {bp}
  {
    var ring' := ring[..t + 1] + [bp] + ring[t + 1..];
    forall b
      ensures b in FreeBlocks(ring') <==> b in FreeBlocks(ring) + {bp}
    {
      if b in FreeBlocks(ring) {
        var i: nat :| 0 < i < |ring| && ring[i] == b;
        assert ring'[if i <= t then i else i + 1] == b;
      }
      if b == bp {
        assert ring'[t + 1] == b;
      }
    }
  }

  // ---------- two blocks that touch, made one

  ghost function Reowned(size: map<nat, nat>, owner: map<nat, nat>, a: nat, b: nat): map<nat, nat> {
    map u | u in owner :: if Within(size, b, u) then a else owner[u]
  }

  lemma Merge(base: nat, ptr: map<nat, nat>, size: map<nat, nat>, ring: seq<nat>, tight: set<nat>, alloc: set<nat>,
              owner: map<nat, nat>, j: nat)
    requires Heap(base, ptr, size, ring, tight, alloc, owner) && j + 1 < |ring|
    requires ring[j] in size && ring[j] + size[ring[j]] == ring[j + 1]
    requires forall i :: i in tight ==> i <= j
    ensures j > 0 && ring[j + 1] in ptr && ring[j + 1] in size
    ensures var a, b := ring[j], ring[j + 1];
            Heap(base, ptr[a := ptr[b]], size[a := size[a] + size[b]], ring[..j + 1] + ring[j + 2..], tight - {j},
                 alloc, Reowned(size, owner, a, b))
  {
    var a, b := ring[j], ring[j + 1];
    MergeAt(base, ptr, size, ring, tight, j);
    hide Ring, Cover, Within, Reowned;
    var ring' := ring[..j + 1] + ring[j + 2..];
    MergedRing(base, ptr, size, ring, tight, j);
    MergedFree(base, ptr, size, ring, tight, j);
    assert a in FreeBlocks(ring) && b in FreeBlocks(ring);
    assert FreeBlocks(ring') + alloc == FreeBlocks(ring) + alloc - {b};
    MergedCover(size, FreeBlocks(ring) + alloc, owner, a, b);
  }

  lemma MergeAt(base: nat, ptr: map<nat, nat>, size: map<nat, nat>, ring: seq<nat>, tight: set<nat>, j: nat)
    requires Ring(base, ptr, size, ring, tight) && j + 1 < |ring|
    requires ring[j] in size && ring[j] + size[ring[j]] == ring[j + 1] && forall i :: i in tight ==> i <= j
    ensures 0 < j && ring[j + 1] in ptr && ring[j + 1] in size
  {
    assert RingAt(base, ptr, size, ring, tight, 0) && RingAt(base, ptr, size, ring, tight, j + 1);
  }

  lemma MergedRing(base: nat, ptr: map<nat, nat>, size: map<nat, nat>, ring: seq<nat>, tight: set<nat>, j: nat)
    requires Ring(base, ptr, size, ring, tight) && 0 < j && j + 1 < |ring| && ring[j] in size && ring[j + 1] in size
    requires ring[j + 1] in ptr && ring[j] + size[ring[j]] == ring[j + 1] && forall i :: i in tight ==> i <= j
    ensures var a, b := ring[j], ring[j + 1];
            Ring(base, ptr[a := ptr[b]], size[a := size[a] + size[b]], ring[..j + 1] + ring[j + 2..], tight - {j})
  {
    var a, b := ring[j], ring[j + 1];
    var ring', ptr', size' := ring[..j + 1] + ring[j + 2..], ptr[a := ptr[b]], size[a := size[a] + size[b]];
    assert RingAt(base, ptr, size, ring, tight, j) && RingAt(base, ptr, size, ring, tight, j + 1);
    forall i: nat | i < |ring'|
      ensures RingAt(base, ptr', size', ring', tight - {j}, i)
    {
      if i <= j {
        assert RingAt(base, ptr, size, ring, tight, i);
        if i < j {
          Ascending(base, ptr, size, ring, tight, i, j);
        }
      } else {
        assert RingAt(base, ptr, size, ring, tight, i + 1);
        Ascending(base, ptr, size, ring, tight, j, i + 1);
      }
    }
    Ascending(base, ptr, size, ring, tight, 0, j);
  }

  lemma MergedFree(base: nat, ptr: map<nat, nat>, size: map<nat, nat>, ring: seq<nat>, tight: set<nat>, j: nat)
    requires Ring(base, ptr, size, ring, tight) && j + 1 < |ring|
    ensures FreeBlocks(ring[..j + 1] + ring[j + 2..]) == FreeBlocks(ring) - {ring[j + 1]}
  {
    var ring' := ring[..j + 1] + ring[j + 2..];
    forall b
      ensures b in FreeBlocks(ring') <==> b in FreeBlocks(ring) - {ring[j + 1]}
    {
      if b in FreeBlocks(ring) && b != ring[j + 1] {
        var i: nat :| 0 < i < |ring| && ring[i] == b;
        assert ring'[if i <= j then i else i - 1] == b;
      }
      if b in FreeBlocks(ring') {
        var i: nat :| 0 < i < |ring'| && ring'[i] == b;
        if i <= j {
          Ascending(base, ptr, size, ring, tight, i, j + 1);
        } else {
          Ascending(base, ptr, size, ring, tight, j + 1, i + 1);
        }
      }
    }
  }

  lemma MergedCover(size: map<nat, nat>, blocks: set<nat>, owner: map<nat, nat>, a: nat, b: nat)
    requires Cover(size, blocks, owner) && a in blocks && b in blocks && a + size[a] == b
    ensures Cover(size[a := size[a] + size[b]], blocks - {b}, Reowned(size, owner, a, b))
  {
    var size', owner' := size[a := size[a] + size[b]], Reowned(size, owner, a, b);
    forall c: nat, u: nat | c in blocks - {b} && Within(size', c, u)
      ensures u in owner' && owner'[u] == c
    {
      if c == a {
        assert Within(size, a, u) || Within(size, b, u);
      } else {
        assert Within(size, c, u);
      }
    }
    forall u | u in owner'
      ensures owner'[u] in blocks - {b} && Within(size', owner'[u], u)
    {
      assert Within(size, owner[u], u);
    }
  }

  /** No merging where blocks do not touch. */
  lemma Apart(base: nat, ptr: map<nat, nat>, size: map<nat, nat>, ring: seq<nat>, tight: set<nat>, alloc: set<nat>,
              owner: map<nat, nat>, j: nat)
    requires Heap(base, ptr, size, ring, tight, alloc, owner) && j < |ring| && ring[j] in size
    requires j + 1 < |ring| ==> ring[j] + size[ring[j]] != ring[j + 1]
    ensures Heap(base, ptr, size, ring, tight - {j}, alloc, owner)
  {
    forall i: nat | i < |ring|
      ensures RingAt(base, ptr, size, ring, tight - {j}, i)
    {
      assert RingAt(base, ptr, size, ring, tight, i);
    }
  }

  /** What free does with the upper neighbour: bp, allocated, ends up on the list, merged with
      ring[t + 1] if they touch. */
  lemma JoinUpper(base: nat, ptr: map<nat, nat>, size: map<nat, nat>, ring: seq<nat>, alloc: set<nat>,
                  owner: map<nat, nat>, bp: nat, t: nat) returns (ring': seq<nat>, owner': map<nat, nat>)
    requires Heap(base, ptr, size, ring, {}, alloc, owner) && bp in alloc && Place(ring, bp, t)
    ensures ring[t] in ptr && bp in size && ptr[ring[t]] in ptr && ptr[ring[t]] in size
    ensures var next := ptr[ring[t]];
            var up := bp + size[bp] == next;
            Heap(base, ptr[bp := if up then ptr[next] else next][ring[t] := bp],
                 if up then size[bp := size[bp] + size[next]] else size, ring', {t}, alloc - {bp}, owner')
    ensures t + 1 < |ring'| && ring'[t] == ring[t] && ring'[t + 1] == bp && owner'.Keys == owner.Keys
  {
    assert RingAt(base, ptr, size, ring, {}, t) && RingAt(base, ptr, size, ring, {}, 0);
    if t + 1 < |ring| {
      assert RingAt(base, ptr, size, ring, {}, t + 1);
    }
    var p: nat, next: nat := ring[t], ptr[ring[t]];
    var ring1, ptr1 := ring[..t + 1] + [bp] + ring[t + 1..], ptr[bp := next][p := bp];
    Insert(base, ptr, size, ring, alloc, owner, bp, t);
    if bp + size[bp] == next {
      Merge(base, ptr1, size, ring1, {t, t + 1}, alloc - {bp}, owner, t + 1);
      ring', owner' := ring1[..t + 2] + ring1[t + 3..], Reowned(size, owner, bp, next);
      assert ptr1[bp := ptr1[next]] == ptr[bp := ptr[next]][p := bp];
      assert {t, t + 1} - {t + 1} == {t};
    } else {
      Apart(base, ptr1, size, ring1, {t, t + 1}, alloc - {bp}, owner, t + 1);
      ring', owner' := ring1, owner;
      assert {t, t + 1} - {t + 1} == {t};
    }
  }

  /** ... and with the lower neighbour p. */
  lemma JoinLower(base: nat, ptr: map<nat, nat>, size: map<nat, nat>, ring: seq<nat>, alloc: set<nat>,
                  owner: map<nat, nat>, t: nat) returns (ring': seq<nat>, owner': map<nat, nat>)
    requires Heap(base, ptr, size, ring, {t}, alloc, owner) && t + 1 < |ring|
    ensures ring[t] in size && ring[t + 1] in size && ring[t + 1] in ptr
    ensures var p, bp := ring[t], ring[t + 1];
            if p + size[p] == bp then
              Heap(base, ptr[p := ptr[bp]], size[p := size[p] + size[bp]], ring', {}, alloc, owner')
            else Heap(base, ptr, size, ring', {}, alloc, owner')
    ensures ring[t] in ring' && owner'.Keys == owner.Keys && base <= ring[t]
    ensures Fits(ring',
                 if ring[t] + size[ring[t]] == ring[t + 1] then size[ring[t] := size[ring[t]] + size[ring[t + 1]]]
                 else size,
                 size[ring[t + 1]])
    ensures forall b :: b in alloc ==> b in size && b != ring[t]
  {
    if t > 0 {
      Ascending(base, ptr, size, ring, {t}, 0, t);
      assert ring[t] in FreeBlocks(ring);
    }
    assert RingAt(base, ptr, size, ring, {t}, t) && RingAt(base, ptr, size, ring, {t}, t + 1);
    assert {t} - {t} == {};
    if ring[t] + size[ring[t]] == ring[t + 1] {
      Merge(base, ptr, size, ring, {t}, alloc, owner, t);
      ring', owner' := ring[..t + 1] + ring[t + 2..], Reowned(size, owner, ring[t], ring[t + 1]);
      assert t > 0;
      assert FitsAt(ring', size[ring[t] := size[ring[t]] + size[ring[t + 1]]], size[ring[t + 1]], t);
    } else {
      Apart(base, ptr, size, ring, {t}, alloc, owner, t);
      ring', owner' := ring, owner;
      assert FitsAt(ring', size, size[ring[t + 1]], t + 1);
    }
  }

  lemma FitsLess(ring: seq<nat>, size: map<nat, nat>, n: nat, n': nat)
    requires Fits(ring, size, n) && n' <= n
    ensures Fits(ring, size, n')
  {
    var i: nat :| 0 < i < |ring| && FitsAt(ring, size, n, i);
    assert FitsAt(ring, size, n', i);
  }

  // ---------- blocks from sbrk, and blocks off the list

  ghost function Units(b: nat, n: nat): (us: set<nat>)
    ensures forall u :: u in us <==> b <= u < b + n
  {
    if n == 0 then {} else Units(b, n - 1) + {b + n - 1}
  }

  /** A fresh region from sbrk, as a block handed out. */
  lemma Granted(base: nat, ptr: map<nat, nat>, size: map<nat, nat>, ring: seq<nat>, alloc: set<nat>,
                owner: map<nat, nat>, b: nat, n: nat)
    requires Heap(base, ptr, size, ring, {}, alloc, owner) && base < b && 0 < n && Units(b, n) !! owner.Keys
    ensures var owner' := owner + map u | u in Units(b, n) :: b;
            Heap(base, ptr, size[b := n], ring, {}, alloc + {b}, owner') && owner'.Keys == owner.Keys + Units(b, n)
    ensures b !in alloc
  {
    var size' := size[b := n];
    hide Within, Cover, Units;
    GrantedCover(size, FreeBlocks(ring) + alloc, owner, b, n);
    assert FreeBlocks(ring) + (alloc + {b}) == FreeBlocks(ring) + alloc + {b};
    forall i: nat | i < |ring|
      ensures RingAt(base, ptr, size', ring, {}, i)
    {
      assert RingAt(base, ptr, size, ring, {}, i);
      if i > 0 {
        assert ring[i] in FreeBlocks(ring);
      }
    }
  }

  lemma GrantedCover(size: map<nat, nat>, blocks: set<nat>, owner: map<nat, nat>, b: nat, n: nat)
    requires Cover(size, blocks, owner) && 0 < n && Units(b, n) !! owner.Keys
    ensures var owner' := owner + map u | u in Units(b, n) :: b;
            b !in blocks && Cover(size[b := n], blocks + {b}, owner') && owner'.Keys == owner.Keys + Units(b, n)
  {
    var size', owner' := size[b := n], owner + map u | u in Units(b, n) :: b;
    assert b in Units(b, n);
    assert b in blocks ==> Within(size, b, b);
    hide Units;
    forall c: nat, u: nat | c in blocks + {b} && Within(size', c, u)
      ensures u in owner' && owner'[u] == c
    {
      assert c != b ==> Within(size, c, u);
      assert c == b ==> u in Units(b, n);
    }
    forall u | u in owner'
      ensures owner'[u] in blocks + {b} && Within(size', owner'[u], u)
    {
      assert u !in Units(b, n) ==> Within(size, owner[u], u);
      assert u in Units(b, n) ==> Within(size', b, u);
    }
  }

  /** malloc of a block that fits exactly: it leaves the list. */
  lemma Unlinked(base: nat, ptr: map<nat, nat>, size: map<nat, nat>, ring: seq<nat>, alloc: set<nat>,
                 owner: map<nat, nat>, j: nat)
    requires Heap(base, ptr, size, ring, {}, alloc, owner) && 0 < j < |ring|
    ensures ring[j] in ptr && ring[j] in size && ring[j] !in alloc && base < ring[j]
    ensures Heap(base, ptr[ring[j - 1] := ptr[ring[j]]], size, ring[..j] + ring[j + 1..], {}, alloc + {ring[j]}, owner)
  {
    assert RingAt(base, ptr, size, ring, {}, j);
    var ring', ptr' := ring[..j] + ring[j + 1..], ptr[ring[j - 1] := ptr[ring[j]]];
    assert ring[j] in FreeBlocks(ring);
    forall i: nat | i < |ring'|
      ensures RingAt(base, ptr', size, ring', {}, i)
    {
      if i < j {
        assert RingAt(base, ptr, size, ring, {}, i);
        if i + 1 < j {
          Ascending(base, ptr, size, ring, {}, i, j - 1);
        }
      } else {
        assert RingAt(base, ptr, size, ring, {}, i + 1);
        Ascending(base, ptr, size, ring, {}, j - 1, i + 1);
      }
    }
    assert ring == ring[..j - 1 + 1] + ring[j - 1 + 1..];
    MergedFree(base, ptr, size, ring, {}, j - 1);
    assert ring[..j - 1 + 1] + ring[j - 1 + 2..] == ring';
    assert FreeBlocks(ring') + (alloc + {ring[j]}) == FreeBlocks(ring) + alloc;
    Ascending(base, ptr, size, ring, {}, 0, j);
  }

  /** The n units from b on go to the block at b. */
  ghost function Carved(owner: map<nat, nat>, b: nat, n: nat): map<nat, nat> {
    map u | u in owner :: if b <= u < b + n then b else owner[u]
  }

  /** malloc out of a larger block: the tail of it, n units. */
  lemma Split(base: nat, ptr: map<nat, nat>, size: map<nat, nat>, ring: seq<nat>, alloc: set<nat>,
              owner: map<nat, nat>, j: nat, n: nat)
    requires Heap(base, ptr, size, ring, {}, alloc, owner) && 0 < j < |ring| && ring[j] in size && 0 < n < size[ring[j]]
    ensures var a := ring[j];
            var b := a + (size[a] - n);
            && b !in alloc && base < b && b !in ring
            && Heap(base, ptr, size[a := size[a] - n][b := n], ring, {}, alloc + {b}, Carved(owner, b, n))
  {
    var a := ring[j];
    var b := a + (size[a] - n);
    var size' := size[a := size[a] - n][b := n];
    hide Within, Cover;
    assert a in FreeBlocks(ring);
    SplitCover(size, FreeBlocks(ring) + alloc, owner, a, n);
    assert FreeBlocks(ring) + (alloc + {b}) == FreeBlocks(ring) + alloc + {b};
    Ascending(base, ptr, size, ring, {}, 0, j);
    NotListed(base, ring, {b}, b);
    forall i: nat | i < |ring|
      ensures RingAt(base, ptr, size', ring, {}, i)
    {
      assert RingAt(base, ptr, size, ring, {}, i);
    }
  }

  lemma SplitCover(size: map<nat, nat>, blocks: set<nat>, owner: map<nat, nat>, a: nat, n: nat)
    requires Cover(size, blocks, owner) && a in blocks && 0 < n < size[a]
    ensures var b := a + (size[a] - n);
            && b !in blocks && b in owner
            && Cover(size[a := size[a] - n][b := n], blocks + {b}, Carved(owner, b, n))
  {
    var b := a + (size[a] - n);
    var size' := size[a := size[a] - n][b := n];
    var owner' := Carved(owner, b, n);
    assert Within(size, a, b);
    forall c | c in blocks
      ensures c != b
    {
      assert Within(size, c, c);
    }
    forall c: nat, u: nat | c in blocks + {b} && Within(size', c, u)
      ensures u in owner' && owner'[u] == c
    {
      assert c != b ==> Within(size, c, u);
      assert Within(size, a, u) <==> c == a || c == b;
    }
    forall u | u in owner'
      ensures owner'[u] in blocks + {b} && Within(size', owner'[u], u)
    {
      assert Within(size, owner[u], u);
    }
  }

  /** Units for nbytes and a header; units asked of sbrk. */
  function Need(nbytes: nat): nat {
    (nbytes + 8 - 1) / 8 + 1
  }

  function Grow(n: nat): nat {
    if n < 4096 then 4096 else n
  }

  /** Need is the fewest units, of 8 bytes, that hold the bytes and a header. */
  lemma NeedFits(nbytes: nat)
    ensures forall m: nat :: Holds(m, nbytes) <==> Need(nbytes) <= m
    ensures 0 < Need(nbytes) <= Grow(Need(nbytes))
  {
  }

  /** A block of m units has room for nbytes behind its header. */
  predicate Holds(m: nat, nbytes: nat) {
    8 * (m - 1) >= nbytes
  }

  /** sbrk is asked for at least 4096 units, and for no more than that or what is needed. */
  lemma GrowIs(n: nat)
    ensures n <= Grow(n) && 4096 <= Grow(n) && (Grow(n) == n || Grow(n) == 4096)
  {
  }

  lemma EmptyFits(ring: seq<nat>, size: map<nat, nat>, n: nat)
    requires ring == []
    ensures !Fits(ring, size, n)
  {
  }

  lemma Started(base: nat, n: nat)
    ensures Heap(base, map[base := base], map[base := 0], [base], {}, {}, map[])
    ensures !Fits([base], map[base := 0], n)
  {
    assert FreeBlocks([base]) == {};
    assert RingAt(base, map[base := base], map[base := 0], [base], {}, 0);
  }

  /** List positions that the search of malloc, begun after f, has passed when it is at i. */
  ghost predicate Seen(f: nat, i: nat, j: nat) {
    if f <= i then f < j <= i else j > f || j <= i
  }

  /** No block seen so far has n units. */
  ghost predicate Passed(ring: seq<nat>, size: map<nat, nat>, n: nat, f: nat, i: nat) {
    f < |ring| && i < |ring| && forall j: nat :: j < |ring| && Seen(f, i, j) ==> !FitsAt(ring, size, n, j)
  }

  function After(ring: seq<nat>, i: nat): nat {
    if i + 1 < |ring| then i + 1 else 0
  }

  /** The list as a search finds it. */
  datatype Search = Search(ring: seq<nat>, size: map<nat, nat>, freep: nat)

  /** p is the last block on the list before address b. */
  ghost predicate Below(ring: seq<nat>, b: nat, p: nat) {
    p in ring && p < b && forall i: nat :: i < |ring| && ring[i] < b ==> ring[i] <= p
  }

  /** The list after morecore: with the same blocks handed out, of the units there are now, which
      leaves one list with all free blocks joined; the search begins before the new region. */
  ghost predicate Regrown(base: nat, s: Search, ring0: seq<nat>, alloc: set<nat>, units: set<nat>, b: nat) {
    && (exists ptr, owner: map<nat, nat> :: Heap(base, ptr, s.size, s.ring, {}, alloc, owner) && owner.Keys == units)
    && Below(ring0, b, s.freep)
  }

  lemma RegrownIs(base: nat, ptr: map<nat, nat>, owner: map<nat, nat>, s: Search, ring0: seq<nat>, alloc: set<nat>,
                  units: set<nat>, b: nat)
    requires Heap(base, ptr, s.size, s.ring, {}, alloc, owner) && owner.Keys == units && Below(ring0, b, s.freep)
    ensures Regrown(base, s, ring0, alloc, units, b)
  {
  }

  /** p, which follows prev, is the first block with n units in list order after freep. */
  ghost predicate Finds(s: Search, n: nat, prev: nat, p: nat) {
    exists f: nat, i: nat :: FindsAt(s, n, f, i) && s.ring[i] == prev && s.ring[After(s.ring, i)] == p
  }

  ghost predicate FindsAt(s: Search, n: nat, f: nat, i: nat) {
    && Passed(s.ring, s.size, n, f, i) && s.ring[f] == s.freep && FitsAt(s.ring, s.size, n, After(s.ring, i))
  }

  /** b is the first block with n units, or its last n units; prev comes before that block. */
  ghost predicate FirstFit(s: Search, n: nat, prev: nat, b: nat) {
    exists p: nat :: Finds(s, n, prev, p) && p in s.size && b == p + (s.size[p] - n)
  }

  lemma FoundAt(s: Search, n: nat, f: nat, i: nat, prev: nat, p: nat)
    requires Passed(s.ring, s.size, n, f, i) && s.ring[f] == s.freep && FitsAt(s.ring, s.size, n, After(s.ring, i))
    requires s.ring[i] == prev && s.ring[After(s.ring, i)] == p
    ensures p in s.size && s.size[p] >= n && FirstFit(s, n, prev, p + (s.size[p] - n))
  {
    assert FindsAt(s, n, f, i);
    assert Finds(s, n, prev, p);
  }

  lemma IndexOf(base: nat, ptr: map<nat, nat>, size: map<nat, nat>, ring: seq<nat>, alloc: set<nat>,
                owner: map<nat, nat>, b: nat, n: nat) returns (f: nat)
    requires Heap(base, ptr, size, ring, {}, alloc, owner) && b in ring
    ensures f < |ring| && ring[f] == b && b in ptr && ptr[b] == ring[After(ring, f)] && Passed(ring, size, n, f, f)
  {
    f :| f < |ring| && ring[f] == b;
    assert RingAt(base, ptr, size, ring, {}, f);
  }

  lemma AtBlock(base: nat, ptr: map<nat, nat>, size: map<nat, nat>, ring: seq<nat>, alloc: set<nat>,
                owner: map<nat, nat>, i: nat, n: nat)
    requires Heap(base, ptr, size, ring, {}, alloc, owner) && i < |ring| && 0 < n
    ensures ring[i] in ptr && ptr[ring[i]] == ring[After(ring, i)] && ring[After(ring, i)] in size
    ensures size[ring[After(ring, i)]] >= n <==> FitsAt(ring, size, n, After(ring, i))
    ensures size[ring[After(ring, i)]] >= n ==> Fits(ring, size, n) && After(ring, i) == i + 1
    ensures base <= ring[i]
  {
    if 0 < i {
      Ascending(base, ptr, size, ring, {}, 0, i);
    }
    assert RingAt(base, ptr, size, ring, {}, i) && RingAt(base, ptr, size, ring, {}, After(ring, i));
    if size[ring[After(ring, i)]] >= n {
      assert FitsAt(ring, size, n, After(ring, i));
    }
  }

  lemma SamePlace(base: nat, ptr: map<nat, nat>, size: map<nat, nat>, ring: seq<nat>, alloc: set<nat>,
                  owner: map<nat, nat>, i: nat, j: nat)
    requires Heap(base, ptr, size, ring, {}, alloc, owner) && i < |ring| && j < |ring| && ring[i] == ring[j]
    ensures i == j
  {
    if i < j {
      Ascending(base, ptr, size, ring, {}, i, j);
    } else if j < i {
      Ascending(base, ptr, size, ring, {}, j, i);
    }
  }

  lemma NotAllocated(ring: seq<nat>, alloc: set<nat>, j: nat)
    requires FreeBlocks(ring) !! alloc && 0 < j < |ring|
    ensures ring[j] !in alloc
  {
    assert ring[j] in FreeBlocks(ring);
  }

  lemma PassedNext(ring: seq<nat>, size: map<nat, nat>, n: nat, f: nat, i: nat)
    requires Passed(ring, size, n, f, i) && !FitsAt(ring, size, n, After(ring, i))
    ensures After(ring, i) != f ==> Passed(ring, size, n, f, After(ring, i))
    ensures After(ring, i) == f ==> !Fits(ring, size, n)
  {
    forall j: nat | j < |ring|
      ensures After(ring, i) != f && Seen(f, After(ring, i), j) ==> !FitsAt(ring, size, n, j)
      ensures After(ring, i) == f ==> !FitsAt(ring, size, n, j)
    {
      assert Seen(f, i, j) ==> !FitsAt(ring, size, n, j);
    }
  }

  // ---------- units counted

  ghost predicate Sized(size: map<nat, nat>, blocks: set<nat>) {
    forall b :: b in blocks ==> b in size
  }

  /** The sizes of the blocks, added up. */
  ghost function Total(size: map<nat, nat>, blocks: set<nat>): nat
    requires Sized(size, blocks)
    decreases blocks
  {
    if blocks == {} then 0
    else
      var b :| b in blocks;
      size[b] + Total(size, blocks - {b})
  }

  lemma UnitsCount(b: nat, n: nat)
    ensures |Units(b, n)| == n
  {
  }

  lemma CoverRest(size: map<nat, nat>, blocks: set<nat>, owner: map<nat, nat>, b: nat) returns (rest: map<nat, nat>)
    requires Cover(size, blocks, owner) && b in blocks
    ensures Cover(size, blocks - {b}, rest) && b in size
    ensures owner.Keys == rest.Keys + Units(b, size[b]) && rest.Keys !! Units(b, size[b])
  {
    rest := map u | u in owner && owner[u] != b :: owner[u];
    forall u
      ensures u in owner.Keys <==> u in rest.Keys || u in Units(b, size[b])
      ensures u in rest.Keys ==> u !in Units(b, size[b])
    {
      assert Within(size, b, u) <==> u in Units(b, size[b]);
      assert u in owner ==> Within(size, owner[u], u);
    }
  }

  /** The units of the blocks are as many as the blocks' sizes say. */
  lemma {:induction false} CoverCounts(size: map<nat, nat>, blocks: set<nat>, owner: map<nat, nat>)
    requires Cover(size, blocks, owner)
    ensures Sized(size, blocks) && |owner.Keys| == Total(size, blocks)
    decreases blocks
  {
    hide Within, Units;
    if blocks == {} {
      assert owner.Keys == {};
    } else {
      var b :| b in blocks && Total(size, blocks) == size[b] + Total(size, blocks - {b});
      var rest := CoverRest(size, blocks, owner, b);
      CoverCounts(size, blocks - {b}, rest);
      UnitsCount(b, size[b]);
    }
  }

  lemma CoverSplits(size: map<nat, nat>, a: set<nat>, b: set<nat>, owner: map<nat, nat>)
    returns (ownerA: map<nat, nat>, ownerB: map<nat, nat>)
    requires Cover(size, a + b, owner) && a !! b
    ensures Cover(size, a, ownerA) && Cover(size, b, ownerB)
    ensures owner.Keys == ownerA.Keys + ownerB.Keys && ownerA.Keys !! ownerB.Keys
  {
    hide Within;
    ownerA := map u | u in owner && owner[u] in a :: owner[u];
    ownerB := map u | u in owner && owner[u] in b :: owner[u];
  }

  lemma {:induction false} TotalSplits(size: map<nat, nat>, a: set<nat>, b: set<nat>, owner: map<nat, nat>)
    requires Cover(size, a + b, owner) && a !! b
    ensures Sized(size, a) && Sized(size, b) && Total(size, a + b) == Total(size, a) + Total(size, b)
  {
    hide Total, Cover;
    var ownerA, ownerB := CoverSplits(size, a, b, owner);
    CoverCounts(size, a + b, owner);
    CoverCounts(size, a, ownerA);
    CoverCounts(size, b, ownerB);
  }

  /** Units taken from sbrk are the units free and the units allocated. */
  lemma UnitsConserved(base: nat, ptr: map<nat, nat>, size: map<nat, nat>, ring: seq<nat>, alloc: set<nat>,
                       owner: map<nat, nat>)
    requires Heap(base, ptr, size, ring, {}, alloc, owner)
    ensures Sized(size, FreeBlocks(ring)) && Sized(size, alloc)
    ensures |owner.Keys| == Total(size, FreeBlocks(ring)) + Total(size, alloc)
  {
    CoverCounts(size, FreeBlocks(ring) + alloc, owner);
    TotalSplits(size, FreeBlocks(ring), alloc, owner);
  }

  class Allocator {
    const base: nat
    var ptr: map<nat, nat>
    var size: map<nat, nat>
    /** 0 until the first malloc. */
    var freep: nat
    ghost var ring: seq<nat>
    ghost var alloc: set<nat>
    ghost var owner: map<nat, nat>

    ghost predicate Valid()
      reads this
    {
      0 < base && if freep == 0 then alloc == {} && owner == map[] && ring == [] && ptr == map[] && size == map[]
                  else Heap(base, ptr, size, ring, {}, alloc, owner) && freep in ring
    }

    constructor (base: nat)
      requires 0 < base
      ensures Valid() && this.base == base && alloc == {} && owner == map[]
    {
      this.base, freep := base, 0;
      ptr, size, ring, alloc, owner := map[], map[], [], {}, map[];
    }

    /** The first malloc: an empty list, of base alone. */
    method Init(ghost n: nat)
      requires Valid() && freep == 0 && 0 < n
      modifies this`ptr, this`size, this`freep, this`ring
      ensures Valid() && freep == base && !Fits(ring, size, n) && ring == [base] && size == map[base := 0]
    {
      Started(base, n);
      ptr := ptr[base := base];
      freep := base;
      size := size[base := 0];
      ring := [base];
    }

    /** The loop of free that looks for the place of bp. */
    method FindPlace(bp: nat) returns (p: nat, ghost t: nat)
      requires Valid() && bp in alloc
      ensures Place(ring, bp, t) && p == ring[t]
      ensures p < bp && forall i: nat :: i < |ring| && ring[i] < bp ==> ring[i] <= p
    {
      NotListed(base, ring, alloc, bp);
      t := PlaceExists(base, ptr, size, ring, {}, bp, |ring|);
      p := freep;
      ghost var i: nat :| i < |ring| && ring[i] == freep;
      assert RingAt(base, ptr, size, ring, {}, i);
      while !(bp > p && bp < ptr[p])
        invariant i < |ring| && p == ring[i] && p in ptr
        decreases if i <= t then t - i else t + |ring| - i
      {
        Turn(base, ptr, size, ring, bp, t, i);
        assert RingAt(base, ptr, size, ring, {}, i);
        if p >= ptr[p] && (bp > p || bp < ptr[p]) {
          break;
        }
        p := ptr[p];
        i := if i + 1 < |ring| then i + 1 else 0;
        assert RingAt(base, ptr, size, ring, {}, i);
      }
      Turn(base, ptr, size, ring, bp, t, i);
      forall j: nat | j < |ring| && ring[j] < bp
        ensures ring[j] <= p
      {
        NotBeyond(base, ptr, size, ring, bp, t, j);
      }
    }

    /** free of the block whose header is bp = ap - 1: it joins the list, as one block with the
        neighbours it touches. */
    method Free(ap: nat)
      requires Valid() && 0 < ap && ap - 1 in alloc
      modifies this`ptr, this`size, this`freep, this`ring, this`alloc, this`owner
      ensures Valid() && freep != 0 && alloc == old(alloc) - {ap - 1} && owner.Keys == old(owner).Keys
      ensures forall b :: b in alloc ==> b in size && b in old(size) && size[b] == old(size)[b]
      ensures ap - 1 in old(size) && Fits(ring, size, old(size)[ap - 1])
      ensures freep in old(ring) && freep < ap - 1
      ensures forall i: nat :: i < |old(ring)| && old(ring)[i] < ap - 1 ==> old(ring)[i] <= freep
    {
      hide Fits, Heap, Ring, RingAt, Cover, Within, FreeBlocks, Place;
      var bp := ap - 1;
      var p;
      ghost var t, ring1, owner1, ring2, owner2;
      p, t := FindPlace(bp);
      ring1, owner1 := JoinUpper(base, ptr, size, ring, alloc, owner, bp, t);
      if bp + size[bp] == ptr[p] {
        size := size[bp := size[bp] + size[ptr[p]]];
        ptr := ptr[bp := ptr[ptr[p]]];
      } else {
        ptr := ptr[bp := ptr[p]];
      }
      ring2, owner2 := JoinLower(base, ptr[p := bp], size, ring1, alloc - {bp}, owner1, t);
      ghost var size2 := size;
      if p + size[p] == bp {
        size := size[p := size[p] + size[bp]];
        assert ptr[p := bp][p := ptr[bp]] == ptr[p := ptr[bp]];
        ptr := ptr[p := ptr[bp]];
      } else {
        ptr := ptr[p := bp];
      }
      FitsLess(ring2, size, size2[bp], old(size)[bp]);
      freep := p;
      ring, alloc, owner := ring2, alloc - {bp}, owner2;
    }

    /** morecore: what sbrk gives, if it gives anything, is freed. */
    method Morecore(nu: nat, reply: Option<nat>) returns (p: nat)
      requires Valid() && freep != 0
      requires reply.Some? ==> base < reply.value && Units(reply.value, Grow(nu)) !! owner.Keys
      modifies this`ptr, this`size, this`freep, this`ring, this`alloc, this`owner
      ensures Valid() && alloc == old(alloc) && (p == 0 <==> reply.None?)
      ensures p == 0 ==> ring == old(ring) && size == old(size) && owner == old(owner) && freep == old(freep)
                         && ptr == old(ptr)
      ensures p != 0 ==> p == freep && owner.Keys == old(owner).Keys + Units(reply.value, Grow(nu))
                         && Fits(ring, size, Grow(nu))
      ensures p != 0 ==> Below(old(ring), reply.value, freep)
      ensures forall b :: b in alloc && b in old(size) ==> b in size && size[b] == old(size)[b]
    {
      hide Heap, Ring, RingAt, Cover, Within, FreeBlocks, Units, Fits;
      GrowIs(nu);
      var n := if nu < 4096 then 4096 else nu;
      if reply.None? {
        return 0;
      }
      var hp := reply.value;
      Granted(base, ptr, size, ring, alloc, owner, hp, n);
      size := size[hp := n];
      alloc, owner := alloc + {hp}, owner + map u | u in Units(hp, n) :: hp;
      Free(hp + 1);
      assert alloc == old(alloc);
      return freep;
    }

    /** malloc takes n units from the block p after prevp: all of it, or the tail. */
    method Take(prevp: nat, p: nat, n: nat, ghost i: nat) returns (ap: nat)
      requires Valid() && freep != 0 && i < |ring| && prevp == ring[i] && p == ring[After(ring, i)]
      requires 0 < n && p in size && size[p] >= n
      modifies this`ptr, this`size, this`freep, this`ring, this`alloc, this`owner
      ensures Valid() && 0 < ap && freep == prevp && owner.Keys == old(owner).Keys
      ensures ap - 1 !in old(alloc) && alloc == old(alloc) + {ap - 1} && ap - 1 in size && size[ap - 1] == n
      ensures ap - 1 == p + (old(size)[p] - n)
      ensures forall b :: b in old(alloc) && b in old(size) ==> b in size && size[b] == old(size)[b]
    {
      hide RingAt, Cover, Within, FreeBlocks;
      ghost var j := After(ring, i);
      AtBlock(base, ptr, size, ring, alloc, owner, i, n);
      if size[p] == n {
        Unlinked(base, ptr, size, ring, alloc, owner, j);
        ptr := ptr[prevp := ptr[p]];
        ring, alloc := ring[..j] + ring[j + 1..], alloc + {p};
        assert ring[i] == prevp;
        ap := p + 1;
      } else {
        Split(base, ptr, size, ring, alloc, owner, j, n);
        NotAllocated(ring, alloc, j);
        ghost var b := p + (size[p] - n);
        size := size[p := size[p] - n];
        var q := p + size[p];
        size := size[q := n];
        alloc, owner := alloc + {b}, Carved(owner, b, n);
        ap := q + 1;
      }
      freep := prevp;
    }

    /** malloc, with the address that sbrk would give for a new region, if any. It asks for one
        exactly when no free block is large enough, and at most once. */
    method Malloc(nbytes: nat, reply: Option<nat>) returns (ap: nat, ghost grew: bool, ghost last: Search)
      requires Valid() && nbytes + 15 < 0x8000_0000
      requires reply.Some? ==> base < reply.value && Units(reply.value, Grow(Need(nbytes))) !! owner.Keys
      modifies this`ptr, this`size, this`freep, this`ring, this`alloc, this`owner
      ensures Valid() && freep != 0
      ensures grew <==> !Fits(old(ring), old(size), Need(nbytes)) && reply.Some?
      ensures ap == 0 <==> !Fits(old(ring), old(size), Need(nbytes)) && reply.None?
      ensures owner.Keys == if grew then old(owner).Keys + Units(reply.value, Grow(Need(nbytes))) else old(owner).Keys
      ensures ap == 0 ==> alloc == old(alloc)
      ensures ap != 0 ==> ap - 1 !in old(alloc) && alloc == old(alloc) + {ap - 1}
      ensures ap != 0 ==> ap - 1 in size && size[ap - 1] == Need(nbytes)
      ensures ap != 0 ==> FirstFit(last, Need(nbytes), freep, ap - 1)
      ensures !grew && old(freep) != 0 ==> last == Search(old(ring), old(size), old(freep))
      ensures grew ==> Regrown(base, last, if old(freep) == 0 then [base] else old(ring), old(alloc), owner.Keys,
                               reply.value)
      ensures ap == 0 && old(freep) != 0 ==> ring == old(ring) && size == old(size) && freep == old(freep)
      ensures ap == 0 && old(freep) == 0 ==> ring == [base] && size == map[base := 0] && freep == base
      ensures ap != 0 ==> forall m: nat :: Holds(m, nbytes) <==> size[ap - 1] <= m
      ensures forall b :: b in old(alloc) && b in old(size) ==> b in size && size[b] == old(size)[b]
    {
      hide Heap, Ring, RingAt, Cover, Within, FreeBlocks, Units, Fits, Passed, Seen, FitsAt, FirstFit, Below,
           Regrown;
      var nunits := (nbytes + 8 - 1) / 8 + 1;
      NeedFits(nbytes);
      grew, last := false, Search(ring, size, freep);
      if freep == 0 {
        Init(nunits);
        EmptyFits(old(ring), old(size), nunits);
      }
      ghost var ring0, size0, owner0, freep0 := ring, size, owner, freep;
      var prevp := freep;
      ghost var f: nat := IndexOf(base, ptr, size, ring, alloc, owner, freep, nunits);
      ghost var i: nat := f;
      var p := ptr[prevp];
      while true
        invariant Valid() && freep != 0 && f < |ring| && i < |ring| && freep == ring[f] && prevp == ring[i]
        invariant p == ring[After(ring, i)] && Passed(ring, size, nunits, f, i)
        invariant if grew then Fits(ring, size, nunits) && reply.Some? && !Fits(ring0, size0, nunits)
                  else ring == ring0 && size == size0 && (old(freep) != 0 ==> last == Search(ring, size, freep))
        invariant alloc == old(alloc) && (!grew ==> freep == freep0)
        invariant grew ==> Regrown(base, Search(ring, size, freep), ring0, alloc, owner.Keys, reply.value)
        invariant owner.Keys == if grew then owner0.Keys + Units(reply.value, Grow(nunits)) else owner0.Keys
        invariant forall b :: b in alloc && b in old(size) ==> b in size && size[b] == old(size)[b]
        decreases !grew, if f <= i then f + |ring| - i else f - i
      {
        AtBlock(base, ptr, size, ring, alloc, owner, i, nunits);
        if size[p] >= nunits {
          last := Search(ring, size, freep);
          FoundAt(last, nunits, f, i, prevp, p);
          ap := Take(prevp, p, nunits, i);
          return;
        }
        PassedNext(ring, size, nunits, f, i);
        i := After(ring, i);
        if p == freep {
          SamePlace(base, ptr, size, ring, alloc, owner, i, f);
          p := Morecore(nunits, reply);
          if p == 0 {
            return 0, grew, last;
          }
          grew := true;
          RegrownIs(base, ptr, owner, Search(ring, size, freep), ring0, alloc, owner.Keys, reply.value);
          FitsLess(ring, size, Grow(nunits), nunits);
          f := IndexOf(base, ptr, size, ring, alloc, owner, freep, nunits);
          i := f;
        }
        AtBlock(base, ptr, size, ring, alloc, owner, i, nunits);
        prevp := p;
        p := ptr[p];
      }
    }
  }
}

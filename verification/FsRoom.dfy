/** What a write adds: every block it changes is logged, blocks go to the slots it needs and to
    no others, and it runs out of blocks exactly when fewer are free than slots are empty. */
module FsRoom {
  import opened Blocks
  import opened FsFile
  import opened FsInv
  import opened FsSpec
  import opened FsSteps
  import opened Options
  import opened Param
  import opened Sets

  /** Every block that differs is in the log. */
  ghost predicate Logs(blk: seq<Block>, logged: set<nat>, blk': seq<Block>, logged': set<nat>) {
    && |blk'| == |blk| && logged <= logged'
    && forall b: nat :: b < |blk| && blk'[b] != blk[b] ==> b in logged'
  }

  /** Blocks stay in their slots, and new ones stand in slots `want` of inode i. */
  ghost predicate Fills(owner: map<nat, Slot>, owner': map<nat, Slot>, i: nat, want: set<nat>) {
    && (forall b :: b in owner ==> b in owner' && owner'[b] == owner[b])
    && (forall b :: b in owner' && b !in owner ==> owner'[b].i == i && owner'[b].k in want)
  }

  ghost predicate Adds(v: View, v': View, i: nat, want: set<nat>) {
    Logs(v.blk, v.logged, v'.blk, v'.logged) && Fills(v.owner, v'.owner, i, want)
  }

  /** A slot of `want` is empty. */
  ghost predicate Lacks(v: View, i: nat, want: set<nat>) {
    i < |v.inos| && v.inos[i].Valid() && exists k :: k in want && k < NSLOT && Addr(v.blk, v.inos[i], k) == 0
  }

  lemma LogsTrans(b0: seq<Block>, l0: set<nat>, b1: seq<Block>, l1: set<nat>, b2: seq<Block>, l2: set<nat>)
    requires Logs(b0, l0, b1, l1) && Logs(b1, l1, b2, l2)
    ensures Logs(b0, l0, b2, l2)
  {
  }

  lemma AddsNothing(v: View, i: nat, want: set<nat>)
    ensures Adds(v, v, i, want)
  {
  }

  lemma AddsTrans(v: View, v1: View, v': View, i: nat, want: set<nat>, more: set<nat>)
    requires Adds(v, v1, i, want) && Adds(v1, v', i, more)
    ensures Adds(v, v', i, want + more)
  {
  }

  lemma AddsWider(v: View, v': View, i: nat, want: set<nat>, more: set<nat>)
    requires Adds(v, v', i, want) && want <= more
    ensures Adds(v, v', i, more)
  {
  }

  /** balloc's two writes, and the slot that takes the block. */
  lemma AllocationAdds(sb: Super, v: View, v': View, i: nat, k: nat, a: nat)
    requires sb.Valid() && |v.blk| == sb.size && FreeBlock(sb, v.blk, a) && a !in v.owner
    requires v'.blk == Allocated(sb, v.blk, a) && v'.logged == v.logged + {BBlock(sb, a), a}
    requires v'.owner == v.owner[a := Slot(i, k)]
    ensures Adds(v, v', i, {k})
  {
  }

  lemma WriteAdds(v: View, b: nat, data: Block, i: nat)
    requires b < |v.blk|
    ensures Adds(v, v.(blk := v.blk[b := data], logged := v.logged + {b}), i, {})
  {
  }

  /** balloc, and the write of the new block's number into the indirect block of inode i. */
  ghost function WithEntry(sb: Super, v: View, i: nat, k: nat, a: word): View
    requires BBlock(sb, a) < |v.blk| && a < |v.blk| && i < |v.inos| && v.inos[i].Valid()
    requires NDIRECT < k < NSLOT && v.inos[i].addrs[NDIRECT] < |v.blk|
  {
    View(SetEntry(Allocated(sb, v.blk, a), v.inos[i].addrs[NDIRECT], k, a), v.inos, v.owner[a := Slot(i, k)],
         v.logged + {BBlock(sb, a), a} + {v.inos[i].addrs[NDIRECT]})
  }

  lemma OwnedIsData(sb: Super, blk: seq<Block>, inos: seq<Dino>, owner: map<nat, Slot>, i: nat)
    requires Inv(sb, blk, inos, owner, i) && i < |inos| && inos[i].Valid() && inos[i].addrs[NDIRECT] != 0
    ensures sb.Nmeta() <= inos[i].addrs[NDIRECT]
  {
    OwnerAt(sb, blk, inos, owner, i, NDIRECT);
  }

  lemma EntryTaken(sb: Super, v: View, i: nat, k: nat, a: nat)
    requires Inv(sb, v.blk, v.inos, v.owner, i) && FreeBlock(sb, v.blk, a)
    requires i < |v.inos| && NDIRECT < k < NSLOT && v.inos[i].Valid() && Addr(v.blk, v.inos[i], k) == 0
    requires 0 < v.inos[i].addrs[NDIRECT] < |v.blk|
    ensures a < UINT && a < |v.blk| && BBlock(sb, a) < |v.blk|
    ensures Allocated(sb, v.blk, a)[v.inos[i].addrs[NDIRECT]] == v.blk[v.inos[i].addrs[NDIRECT]]
    ensures var v' := WithEntry(sb, v, i, k, a);
            && EntryStep(sb, v.blk, v.inos, v.owner, v.logged, v'.blk, v'.owner, v'.logged, i, k, Some(a))
            && Adds(v, v', i, {k}) && SameInode(sb, v.blk, v'.blk, i)
  {
    hide Inv, EntryStep, SetWord, SetBlockBit, InUse, Addr;
    EntryStepIs(sb, v.blk, v.inos, v.owner, v.logged, i, k, a);
    InvShape(sb, v.blk, v.inos, v.owner, i);
    OwnedIsData(sb, v.blk, v.inos, v.owner, i);
    Layout(sb, i, a);
  }

  // ---------- the slots that a write needs

  /** The slots bmap fills for block bn of a file. */
  function SlotsFor(bn: nat): set<nat> {
    if bn < NDIRECT then {bn} else {NDIRECT, bn + 1}
  }

  lemma SlotsWidened(v: View, v': View, i: nat, bn: nat, k: nat)
    requires NDIRECT <= bn && (k == NDIRECT || k == bn + 1) && Adds(v, v', i, {k}) && Lacks(v', i, {k})
    ensures Adds(v, v', i, SlotsFor(bn)) && Lacks(v', i, SlotsFor(bn))
  {
  }

  lemma SlotsTogether(v: View, v1: View, v': View, i: nat, bn: nat, lacks: bool)
    requires NDIRECT <= bn && Adds(v, v1, i, {NDIRECT}) && Adds(v1, v', i, {bn + 1})
    requires lacks ==> Lacks(v', i, {bn + 1})
    ensures Adds(v, v', i, SlotsFor(bn)) && (lacks ==> Lacks(v', i, SlotsFor(bn)))
  {
    AddsTrans(v, v1, v', i, {NDIRECT}, {bn + 1});
    assert {NDIRECT} + {bn + 1} == SlotsFor(bn);
  }

  lemma NoEntryLacks(sb: Super, v: View, v': View, i: nat, k: nat, r: Option<nat>)
    requires EntryStep(sb, v.blk, v.inos, v.owner, v.logged, v'.blk, v'.owner, v'.logged, i, k, r)
    requires v'.inos == v.inos && Addr(v.blk, v.inos[i], k) == 0
    ensures r.None? ==> Lacks(v', i, {k})
  {
    hide Inv, OthersSame, Grew, AllUsed;
  }

  /** The slots for bytes off .. off+n-1: those of their blocks and, past the direct ones, the slot
      of the indirect block. */
  function Wanted(off: nat, n: nat): set<nat> {
    set k: nat | k < NSLOT && Wants(off, n, k)
  }

  predicate Wants(off: nat, n: nat, k: nat) {
    n > 0 && if k == NDIRECT then NDIRECT <= (off + n - 1) / BSIZE
             else off / BSIZE <= (if k < NDIRECT then k else k - 1) <= (off + n - 1) / BSIZE
  }

  lemma WantedNext(off: nat, tot: nat, m: nat)
    requires 0 < m <= BSIZE - (off + tot) % BSIZE && off + tot + m <= MAXBYTES
    ensures Wanted(off, tot) + SlotsFor((off + tot) / BSIZE) <= Wanted(off, tot + m)
  {
    var bn := (off + tot) / BSIZE;
    assert (off + tot + m - 1) / BSIZE == bn by {
      assert off + tot == BSIZE * bn + (off + tot) % BSIZE;
    }
    assert off / BSIZE <= bn && bn < MAXFILE;
    if tot > 0 {
      assert (off + tot - 1) / BSIZE <= bn;
    }
  }

  lemma WantedMore(off: nat, n: nat, n': nat)
    requires n <= n'
    ensures Wanted(off, n) <= Wanted(off, n')
  {
    if n > 0 {
      assert (off + n - 1) / BSIZE <= (off + n' - 1) / BSIZE;
    }
  }

  // ---------- when blocks run out

  function FreeSet(sb: Super, blk: seq<Block>): set<nat>
    requires sb.Valid() && |blk| == sb.size
  {
    set b: nat | b < sb.size && BBlock(sb, b) < |blk| && !InUse(sb, blk, b)
  }

  /** The slots of `want` that are empty. */
  function Missing(blk: seq<Block>, d: Dino, want: set<nat>): set<nat>
    requires |d.addrs| == NDIRECT + 1
  {
    set k | k in want && k < NSLOT && Addr(blk, d, k) == 0
  }

  /** A slot that is empty afterwards was empty before. */
  lemma StillEmpty(sb: Super, v: View, v': View, i: nat, want: set<nat>, except: int, except': int, k: nat)
    requires Inv(sb, v.blk, v.inos, v.owner, except) && Inv(sb, v'.blk, v'.inos, v'.owner, except')
    requires Adds(v, v', i, want) && i < |v.inos| && v.inos[i].Valid() && i < |v'.inos| && v'.inos[i].Valid()
    requires k < NSLOT && Addr(v.blk, v.inos[i], k) != 0
    ensures Addr(v'.blk, v'.inos[i], k) == Addr(v.blk, v.inos[i], k)
  {
    OwnerAt(sb, v.blk, v.inos, v.owner, i, k);
    var a := Addr(v.blk, v.inos[i], k);
    assert OwnerOk(sb, v'.blk, v'.inos, v'.owner[a], a);
  }

  /** Blocks run out although a slot is still empty: there were fewer of them than empty slots. */
  lemma TooFew(sb: Super, v: View, v': View, i: nat, want: set<nat>)
    requires Inv(sb, v.blk, v.inos, v.owner, -1) && Inv(sb, v'.blk, v'.inos, v'.owner, i) && Adds(v, v', i, want)
    requires i < |v.inos| && v.inos[i].Valid() && Lacks(v', i, want) && AllUsed(sb, v'.blk, sb.size)
    ensures |FreeSet(sb, v.blk)| < |Missing(v.blk, v.inos[i], want)|
  {
    hide Inv, Adds, FreeSet, InUse, AllUsed, Addr, Missing;
    InvShape(sb, v.blk, v.inos, v.owner, -1);
    var free, empty := FreeSet(sb, v.blk), Missing(v.blk, v.inos[i], want);
    var k0: nat :| k0 in want && k0 < NSLOT && Addr(v'.blk, v'.inos[i], k0) == 0;
    EmptyBefore(sb, v, v', i, want, k0);
    var f := map b | b in v'.owner :: v'.owner[b].k;
    forall b | b in free
      ensures b in f && f[b] < NSLOT && f[b] in empty - {k0} && Addr(v'.blk, v'.inos[i], f[b]) == b
    {
      FreeIsTaken(sb, v, v', i, want, b);
    }
    Injection(free, f, empty - {k0});
  }

  lemma EmptyBefore(sb: Super, v: View, v': View, i: nat, want: set<nat>, k: nat)
    requires Inv(sb, v.blk, v.inos, v.owner, -1) && Inv(sb, v'.blk, v'.inos, v'.owner, i) && Adds(v, v', i, want)
    requires i < |v.inos| && v.inos[i].Valid() && i < |v'.inos| && v'.inos[i].Valid()
    requires k in want && k < NSLOT && Addr(v'.blk, v'.inos[i], k) == 0
    ensures k in Missing(v.blk, v.inos[i], want)
  {
    hide Inv, Adds, Addr;
    if Addr(v.blk, v.inos[i], k) != 0 {
      StillEmpty(sb, v, v', i, want, -1, i, k);
    }
  }

  lemma FreeIsTaken(sb: Super, v: View, v': View, i: nat, want: set<nat>, b: nat)
    requires Inv(sb, v.blk, v.inos, v.owner, -1) && Inv(sb, v'.blk, v'.inos, v'.owner, i) && Adds(v, v', i, want)
    requires i < |v.inos| && v.inos[i].Valid() && i < |v'.inos| && v'.inos[i].Valid() && AllUsed(sb, v'.blk, sb.size)
    requires b in FreeSet(sb, v.blk)
    ensures b in v'.owner && b != 0
    ensures var k := v'.owner[b].k;
            k < NSLOT && k in Missing(v.blk, v.inos[i], want) && Addr(v'.blk, v'.inos[i], k) == b
  {
    hide Synced, OnDisk, Addr, InUse, Logs;
    FreeIsUnowned(sb, v.blk, v.inos, v.owner, b);
    Layout(sb, 0, b);
    assert BitOk(sb, v'.blk, v'.owner.Keys, b);
    assert OwnerOk(sb, v'.blk, v'.inos, v'.owner[b], b);
    var k := v'.owner[b].k;
    if Addr(v.blk, v.inos[i], k) != 0 {
      StillEmpty(sb, v, v', i, want, -1, i, k);
      OwnerAt(sb, v.blk, v.inos, v.owner, i, k);
    }
  }

  /** The slots are all filled: blocks for them were free. */
  lemma Enough(sb: Super, v: View, v': View, i: nat, want: set<nat>)
    requires Inv(sb, v.blk, v.inos, v.owner, -1) && Inv(sb, v'.blk, v'.inos, v'.owner, i) && Adds(v, v', i, want)
    requires i < |v.inos| && v.inos[i].Valid() && i < |v'.inos| && v'.inos[i].Valid() && !Lacks(v', i, want)
    ensures |Missing(v.blk, v.inos[i], want)| <= |FreeSet(sb, v.blk)|
  {
    hide Inv, Adds, FreeSet, InUse, Tables, Bits, Synced;
    InvShape(sb, v.blk, v.inos, v.owner, -1);
    InvShape(sb, v'.blk, v'.inos, v'.owner, i);
    var free, empty := FreeSet(sb, v.blk), Missing(v.blk, v.inos[i], want);
    var f := map k | k in empty :: Addr(v'.blk, v'.inos[i], k);
    forall k | k in empty
      ensures f[k] in free && f[k] in v'.owner && v'.owner[f[k]] == Slot(i, k)
    {
      TakenWasFree(sb, v, v', i, want, i, k);
    }
    Injection(empty, f, free);
  }

  /** The block in a slot that was empty was free. */
  lemma TakenWasFree(sb: Super, v: View, v': View, i: nat, want: set<nat>, except: int, k: nat)
    requires Inv(sb, v.blk, v.inos, v.owner, -1) && Inv(sb, v'.blk, v'.inos, v'.owner, except) && Adds(v, v', i, want)
    requires i < |v.inos| && v.inos[i].Valid() && i < |v'.inos| && v'.inos[i].Valid()
    requires k < NSLOT && Addr(v.blk, v.inos[i], k) == 0 && Addr(v'.blk, v'.inos[i], k) != 0
    ensures var a := Addr(v'.blk, v'.inos[i], k);
            k in want && a in FreeSet(sb, v.blk) && a in v'.owner && v'.owner[a] == Slot(i, k)
                && sb.Nmeta() <= a < sb.size
  {
    var a := Addr(v'.blk, v'.inos[i], k);
    OwnerAt(sb, v'.blk, v'.inos, v'.owner, i, k);
    Layout(sb, 0, a);
    assert BitOk(sb, v.blk, v.owner.Keys, a);
  }

  /** A file that has all blocks of the bytes lacks none of their slots. */
  lemma MappedLacksNone(v: View, i: nat, off: nat, n: nat)
    requires i < |v.inos| && v.inos[i].Valid() && off + n <= MAXBYTES
    requires forall bn: nat :: bn < MAXFILE && Covers(off, n, bn) ==> Addr(v.blk, v.inos[i], DataSlot(bn)) != 0
    ensures !Lacks(v, i, Wanted(off, n))
  {
    forall k | k in Wanted(off, n)
      ensures Addr(v.blk, v.inos[i], k) != 0
    {
      var bn := if k < NDIRECT then k else if k == NDIRECT then (off + n - 1) / BSIZE else k - 1;
      assert Wants(off, n, k) && Covers(off, n, bn) && bn < MAXFILE;
      assert Addr(v.blk, v.inos[i], DataSlot(bn)) != 0;
    }
  }

  // ---------- the inode on disk

  /** A write of n bytes at off changes the inode's own list of blocks: a direct slot that it needs
      is empty, or the slot of the indirect block is. */
  ghost predicate NewAddr(d: Dino, off: nat, n: nat)
    requires d.Valid()
  {
    exists k: nat :: k <= NDIRECT && k in Wanted(off, n) && d.addrs[k] == 0
  }

  /** The in-memory inode changes exactly so. */
  lemma AddrsChange(sb: Super, v: View, v': View, i: nat, off: nat, n: nat)
    requires Inv(sb, v.blk, v.inos, v.owner, -1) && Inv(sb, v'.blk, v'.inos, v'.owner, i) && i < |v.inos|
    requires v.inos[i].Valid() && i < |v'.inos| && v'.inos[i].Valid()
    requires Adds(v, v', i, Wanted(off, n)) && !Lacks(v', i, Wanted(off, n))
    ensures v'.inos[i].addrs != v.inos[i].addrs <==> NewAddr(v.inos[i], off, n)
  {
    hide Inv, Adds, Wanted;
    if k: nat :| k <= NDIRECT && k in Wanted(off, n) && v.inos[i].addrs[k] == 0 {
      assert Addr(v'.blk, v'.inos[i], k) != 0;
    }
    forall k: nat | k <= NDIRECT && v'.inos[i].addrs[k] != v.inos[i].addrs[k]
      ensures k in Wanted(off, n) && v.inos[i].addrs[k] == 0
    {
      assert Addr(v.blk, v.inos[i], k) == v.inos[i].addrs[k] && Addr(v'.blk, v'.inos[i], k) == v'.inos[i].addrs[k];
      if v.inos[i].addrs[k] != 0 {
        StillEmpty(sb, v, v', i, Wanted(off, n), -1, i, k);
      } else {
        TakenWasFree(sb, v, v', i, Wanted(off, n), i, k);
      }
    }
  }

  /** Within a file without holes no write does. */
  lemma NoNewAddr(blk: seq<Block>, d: Dino, off: nat, n: nat)
    requires d.Valid() && HoleFree(blk, d) && off + n <= d.size
    ensures !NewAddr(d, off, n)
  {
    forall k: nat | k <= NDIRECT && k in Wanted(off, n)
      ensures d.addrs[k] != 0
    {
      assert Wants(off, n, k) && k <= (off + n - 1) / BSIZE;
      assert k * BSIZE < d.size;
      assert Addr(blk, d, DataSlot(k)) != 0;
    }
  }

  // ---------- the loop of writei

  /** Where writei of v0 stands after tot bytes. */
  ghost predicate Looping(sb: Super, v0: View, v: View, i: nat, off: nat, src: seq<byte>, tot: nat) {
    && i < |v0.inos| == |v.inos| && v0.inos[i].Valid() && v.inos[i].Valid() && off <= v0.inos[i].size
    && Inv(sb, v.blk, v.inos, v.owner, i) && Writing(sb, v0.blk, v0.inos, v, i, off, src, tot)
    && LoopCost(v0, v, i, off, tot) && Adds(v0, v, i, Wanted(off, tot))
  }

  /** Where balloc panics: no block is left for a slot that writei needs. */
  ghost predicate Stuck(sb: Super, v0: View, v: View, i: nat, off: nat, n: nat) {
    && Inv(sb, v.blk, v.inos, v.owner, i) && AllUsed(sb, v.blk, sb.size)
    && Adds(v0, v, i, Wanted(off, n)) && Lacks(v, i, Wanted(off, n))
  }

  /** Fewer blocks are free than a write of n bytes at off needs. */
  ghost predicate TooFull(sb: Super, v: View, i: nat, off: nat, n: nat) {
    && sb.Valid() && |v.blk| == sb.size && i < |v.inos| && v.inos[i].Valid()
    && |FreeSet(sb, v.blk)| < |Missing(v.blk, v.inos[i], Wanted(off, n))|
  }

  /** v with s written into block r from byte pos of the file on. */
  ghost function Put(v: View, r: nat, pos: nat, s: seq<byte>): View
    requires r < |v.blk| && pos % BSIZE + |s| <= BSIZE
  {
    v.(blk := v.blk[r := Patch(v.blk[r], pos % BSIZE, s)], logged := v.logged + {r})
  }

  lemma LoopingIs(sb: Super, v0: View, v: View, i: nat, off: nat, src: seq<byte>, tot: nat)
    requires Looping(sb, v0, v, i, off, src, tot)
    ensures Inv(sb, v.blk, v.inos, v.owner, i) && i < |v0.inos| == |v.inos| && v0.inos[i].Valid() && v.inos[i].Valid()
    ensures v.inos[i].(addrs := v0.inos[i].addrs) == v0.inos[i] && off <= v0.inos[i].size
  {
  }

  lemma StartLooping(sb: Super, v: View, i: nat, off: nat, src: seq<byte>)
    requires Inv(sb, v.blk, v.inos, v.owner, -1) && i < |v.inos| && v.inos[i].Valid()
    requires off <= v.inos[i].size <= MAXBYTES
    ensures Looping(sb, v, v, i, off, src, 0)
  {
    hide Inv, Writing, LoopCost;
    StartWriting(sb, v, i, off, src);
    AddsNothing(v, i, Wanted(off, 0));
  }

  /** One turn, from what bmap did; the data block has yet to be written. */
  lemma LoopStep(sb: Super, v0: View, v: View, v1: View, v': View, i: nat, off: nat, src: seq<byte>, tot: nat,
                 m: nat, r: Option<nat>)
    requires 0 < m <= |src| - tot && m <= BSIZE - (off + tot) % BSIZE && off + tot + m <= MAXBYTES
    requires r.Some? && r.value < |v1.blk| ==> v' == Put(v1, r.value, off + tot, src[tot..tot + m])
    requires Looping(sb, v0, v, i, off, src, tot) && (tot == 0 || (off + tot) % BSIZE == 0)
    requires Bmapped(sb, v, v1, i, (off + tot) / BSIZE, r) && Adds(v, v1, i, SlotsFor((off + tot) / BSIZE))
    requires SameInode(sb, v.blk, v1.blk, i)
    requires r.None? ==> Lacks(v1, i, SlotsFor((off + tot) / BSIZE)) && v' == v1
    ensures r.Some? ==> r.value < |v1.blk| && Looping(sb, v0, v', i, off, src, tot + m)
    ensures r.None? ==> Stuck(sb, v0, v', i, off, |src|)
  {
    hide Inv, Writing, LoopCost, Adds, Lacks, Bmapped, SameInode, Turned, Patch, Wanted, SlotsFor, AllUsed;
    TurnStep(sb, v0.blk, v0.inos, v, v1, i, off, src, tot, m, r);
    AfterTurn(sb, v0, v, v', i, off, src, tot, m, r.Some?);
    LoopAdds(v0, v, v1, v', i, off, tot, m, |src|, r);
  }

  lemma LoopAdds(v0: View, v: View, v1: View, v': View, i: nat, off: nat, tot: nat, m: nat, n: nat, r: Option<nat>)
    requires Adds(v0, v, i, Wanted(off, tot)) && Adds(v, v1, i, SlotsFor((off + tot) / BSIZE))
    requires 0 < m <= BSIZE - (off + tot) % BSIZE && off + tot + m <= MAXBYTES && tot + m <= n
    requires r.None? ==> Lacks(v1, i, SlotsFor((off + tot) / BSIZE)) && v' == v1
    requires r.Some? ==> r.value < |v1.blk| && |v'.blk| == |v1.blk| && v'.owner == v1.owner
                         && v' == v1.(blk := v1.blk[r.value := v'.blk[r.value]], logged := v1.logged + {r.value})
    ensures Adds(v0, v', i, Wanted(off, tot + m)) && Adds(v0, v', i, Wanted(off, n))
    ensures r.None? ==> Lacks(v', i, Wanted(off, n))
  {
    var want := Wanted(off, tot) + SlotsFor((off + tot) / BSIZE);
    WantedNext(off, tot, m);
    WantedMore(off, tot + m, n);
    AddsTrans(v0, v, v1, i, Wanted(off, tot), SlotsFor((off + tot) / BSIZE));
    if r.Some? {
      WriteAdds(v1, r.value, v'.blk[r.value], i);
      AddsTrans(v0, v1, v', i, want, {});
    }
    hide Wanted, Addr;
    AddsWider(v0, v', i, want, Wanted(off, tot + m));
    AddsWider(v0, v', i, want, Wanted(off, n));
  }

  /** The inode that writei leaves for a later iupdate, -1 for none. */
  ghost function Owed(d: Dino, i: nat, off: nat, n: nat): int
    requires d.Valid()
  {
    if off + n <= d.size && NewAddr(d, off, n) then i else -1
  }

  /** The inode is left unwritten exactly if the write stays within the file and needs an empty slot
      of the inode itself; then the disk still holds the old inode, which is a different one. */
  ghost predicate InodeLeft(sb: Super, v: View, v': View, i: nat, off: nat, n: nat) {
    && sb.Valid() && |v'.blk| == sb.size && i < sb.ninodes && i < |v.inos| && i < |v'.inos| && v.inos[i].Valid()
    && (Inv(sb, v'.blk, v'.inos, v'.owner, -1) <==> Owed(v.inos[i], i, off, n) == -1)
    && (Owed(v.inos[i], i, off, n) == i ==> v'.inos[i] != v.inos[i] && OnDisk(sb, v'.blk, v.inos[i], i))
  }

  /** writei that ends past the old size: w is before iupdate and without the new size. */
  lemma LoopedGrown(sb: Super, v0: View, w: View, v': View, i: nat, off: nat, src: seq<byte>)
    requires Looping(sb, v0, w, i, off, src, |src|) && v0.inos[i].size < off + |src| <= MAXBYTES
    requires v'.inos == w.inos[i := w.inos[i].(size := off + |src|)] && v'.owner == w.owner
    requires Inv(sb, v'.blk, v'.inos, v'.owner, -1) && SameOn(w.blk, v'.blk, w.owner.Keys)
    requires v'.logged == w.logged + {IBlock(sb, i)} && Logs(w.blk, w.logged, v'.blk, v'.logged)
    requires Low(sb, w.blk, v'.blk)
    ensures Wrote(sb, v0, v', i, off, src, -1) && Adds(v0, v', i, Wanted(off, |src|))
    ensures InodeLeft(sb, v0, v', i, off, |src|)
  {
    assert Adds(v0, v', i, Wanted(off, |src|)) by {
      hide Wanted;
      assert Adds(w, v', i, {});
      AddsTrans(v0, w, v', i, Wanted(off, |src|), {});
      assert Wanted(off, |src|) + {} == Wanted(off, |src|);
    }
    hide Adds, Logs, Wrote, LoopCost, Inv, Writing;
    InvShape(sb, v'.blk, v'.inos, v'.owner, -1);
    WroteGrown(sb, v0, w, v', i, off, src);
  }

  /** writei that ends within the old size. If it has changed the list of blocks, the disk has not:
      it holds the old inode. */
  lemma LoopedWithin(sb: Super, v0: View, v': View, i: nat, off: nat, src: seq<byte>)
    requires Inv(sb, v0.blk, v0.inos, v0.owner, -1)
    requires Looping(sb, v0, v', i, off, src, |src|) && off + |src| <= v0.inos[i].size
    ensures Wrote(sb, v0, v', i, off, src, Owed(v0.inos[i], i, off, |src|)) && Adds(v0, v', i, Wanted(off, |src|))
    ensures InodeLeft(sb, v0, v', i, off, |src|)
  {
    hide Inv, Writing, LoopCost, Wrote, Adds, NewAddr, Lacks;
    WroteWithin(sb, v0, v', i, off, src);
    WritingLacksNone(sb, v0, v', i, off, src);
    AddrsChange(sb, v0, v', i, off, |src|);
    LoopingIs(sb, v0, v', i, off, src, |src|);
    WritingOld(sb, v0, v', i, off, src);
  }

  lemma WritingOld(sb: Super, v0: View, v: View, i: nat, off: nat, src: seq<byte>)
    requires Writing(sb, v0.blk, v0.inos, v, i, off, src, |src|)
    ensures sb.Valid() && |v.blk| == sb.size && i < sb.ninodes && OnDisk(sb, v.blk, v0.inos[i], i)
    ensures |v.inos| == sb.ninodes
    ensures Inv(sb, v.blk, v.inos, v.owner, -1) <==> v.inos[i] == v0.inos[i]
  {
    assert Synced(sb, v.blk, v.inos, -1) ==> OnDisk(sb, v.blk, v.inos[i], i);
  }

  lemma WritingLacksNone(sb: Super, v0: View, v: View, i: nat, off: nat, src: seq<byte>)
    requires Writing(sb, v0.blk, v0.inos, v, i, off, src, |src|)
    ensures !Lacks(v, i, Wanted(off, |src|))
  {
    hide Inv, Wanted, ByteOk, Lacks;
    forall bn: nat | bn < MAXFILE && Covers(off, |src|, bn)
      ensures Addr(v.blk, v.inos[i], DataSlot(bn)) != 0
    {
      assert MapOk(v0.blk, v0.inos[i], v.blk, v.inos[i], off, |src|, bn);
    }
    MappedLacksNone(v, i, off, |src|);
  }

  /** A write that goes through has its blocks. */
  lemma LoopedEnough(sb: Super, v0: View, v: View, i: nat, off: nat, src: seq<byte>)
    requires Inv(sb, v0.blk, v0.inos, v0.owner, -1) && Looping(sb, v0, v, i, off, src, |src|)
    ensures !TooFull(sb, v0, i, off, |src|)
  {
    hide Inv, Adds, Wanted, Missing, FreeSet, Lacks, Writing, LoopCost;
    WritingLacksNone(sb, v0, v, i, off, src);
    Enough(sb, v0, v, i, Wanted(off, |src|));
  }

  lemma StuckTooFull(sb: Super, v: View, v': View, i: nat, off: nat, n: nat)
    requires Inv(sb, v.blk, v.inos, v.owner, -1) && i < |v.inos| && v.inos[i].Valid() && Stuck(sb, v, v', i, off, n)
    ensures TooFull(sb, v, i, off, n)
  {
    hide Adds, Lacks, Wanted, Missing, FreeSet, AllUsed, Tables, Bits, Synced;
    InvShape(sb, v.blk, v.inos, v.owner, -1);
    TooFew(sb, v, v', i, Wanted(off, n));
  }

  // ---------- the loop of readi

  /** Where readi of v0 stands after tot bytes, as if it wrote back the bytes src that it reads. */
  ghost predicate Reading(sb: Super, v0: View, v: View, i: nat, off: nat, src: seq<byte>, tot: nat) {
    && i < |v0.inos| && v0.inos[i].Valid() && off + |src| <= v0.inos[i].size <= MAXBYTES
    && src == Content(v0.blk, v0.inos[i])[off..off + |src|]
    && Writing(sb, v0.blk, v0.inos, v, i, off, src, tot) && Adds(v0, v, i, Wanted(off, tot))
    && (HoleFree(v0.blk, v0.inos[i]) ==> v == v0)
  }

  lemma ReadingIs(sb: Super, v0: View, v: View, i: nat, off: nat, src: seq<byte>, tot: nat)
    requires Reading(sb, v0, v, i, off, src, tot)
    ensures Inv(sb, v.blk, v.inos, v.owner, i) && i < |v0.inos| == |v.inos| && v0.inos[i].Valid() && v.inos[i].Valid()
    ensures off + |src| <= MAXBYTES
  {
  }

  lemma StartReading(sb: Super, v: View, i: nat, off: nat, n: nat)
    requires Inv(sb, v.blk, v.inos, v.owner, -1) && i < |v.inos| && v.inos[i].Valid()
    requires off + n <= v.inos[i].size <= MAXBYTES
    ensures Reading(sb, v, v, i, off, Content(v.blk, v.inos[i])[off..off + n], 0)
  {
    hide Inv, Writing, LoopCost, HoleFree, Content;
    StartWriting(sb, v, i, off, Content(v.blk, v.inos[i])[off..off + n]);
    AddsNothing(v, i, Wanted(off, 0));
  }

  /** One turn, which is the bmap. */
  lemma ReadStep(sb: Super, v0: View, v: View, v1: View, i: nat, off: nat, src: seq<byte>, tot: nat, m: nat,
                 r: Option<nat>)
    requires Reading(sb, v0, v, i, off, src, tot)
    requires 0 < m <= |src| - tot && m <= BSIZE - (off + tot) % BSIZE && SameInode(sb, v.blk, v1.blk, i)
    requires Bmapped(sb, v, v1, i, (off + tot) / BSIZE, r) && Adds(v, v1, i, SlotsFor((off + tot) / BSIZE))
    requires r.None? ==> Lacks(v1, i, SlotsFor((off + tot) / BSIZE))
    ensures r.Some? ==> r.value < |v1.blk| && Reading(sb, v0, v1, i, off, src, tot + m)
    ensures r.Some? ==>
              v1.blk[r.value].bytes[(off + tot) % BSIZE..(off + tot) % BSIZE + m] == src[tot..tot + m]
    ensures r.None? ==> Stuck(sb, v0, v1, i, off, |src|)
  {
    hide Tables, Bits, Synced, OnDisk, Written, OthersSame, Adds, Lacks, Wanted, SlotsFor, HoleFree, Content, Grew,
         BmapCost, AllUsed;
    InvShape(sb, v.blk, v.inos, v.owner, i);
    InvShape(sb, v1.blk, v1.inos, v1.owner, i);
    ReadAdds(v0, v, v1, i, off, tot, m, |src|, r);
    if r.Some? {
      OthersSameTrans(v0.blk, v0.inos, v.blk, v.inos, v1.blk, v1.inos, i);
      ReadBack(v0.blk, v0.inos[i], v.blk, v.inos[i], v1.blk, v1.inos[i], off, src, tot, m, r.value);
      StillOnDisk(sb, v.blk, v1.blk, v0.inos[i], i);
      if HoleFree(v0.blk, v0.inos[i]) {
        MappedAt(v.blk, v.inos[i], off + tot);
      }
    }
  }

  lemma ReadAdds(v0: View, v: View, v1: View, i: nat, off: nat, tot: nat, m: nat, n: nat, r: Option<nat>)
    requires Adds(v0, v, i, Wanted(off, tot)) && Adds(v, v1, i, SlotsFor((off + tot) / BSIZE))
    requires 0 < m <= BSIZE - (off + tot) % BSIZE && off + tot + m <= MAXBYTES && tot + m <= n
    requires r.None? ==> Lacks(v1, i, SlotsFor((off + tot) / BSIZE))
    ensures Adds(v0, v1, i, Wanted(off, tot + m)) && Adds(v0, v1, i, Wanted(off, n))
    ensures r.None? ==> Lacks(v1, i, Wanted(off, n))
  {
    var want := Wanted(off, tot) + SlotsFor((off + tot) / BSIZE);
    WantedNext(off, tot, m);
    WantedMore(off, tot + m, n);
    AddsTrans(v0, v, v1, i, Wanted(off, tot), SlotsFor((off + tot) / BSIZE));
    hide Wanted, Addr;
    AddsWider(v0, v1, i, want, Wanted(off, tot + m));
    AddsWider(v0, v1, i, want, Wanted(off, n));
  }

  /** What readi of n bytes does: the files are as they were, but holes in the way have been filled
      with zeroed blocks; without holes nothing has changed. */
  ghost predicate Read(sb: Super, v: View, v': View, i: nat, off: nat, n: nat) {
    && i < |v.inos| && v.inos[i].Valid() && off + n <= v.inos[i].size <= MAXBYTES
    && Inv(sb, v'.blk, v'.inos, v'.owner, Owed(v.inos[i], i, off, n)) && AllValid(v.inos) && AllValid(v'.inos)
    && OthersSame(v.blk, v.inos, v'.blk, v'.inos, i) && v'.inos[i].(addrs := v.inos[i].addrs) == v.inos[i]
    && Low(sb, v.blk, v'.blk)
    && Content(v'.blk, v'.inos[i]) == Content(v.blk, v.inos[i])
    && !Lacks(v', i, Wanted(off, n)) && (HoleFree(v.blk, v.inos[i]) ==> v' == v)
  }

  lemma ReadDone(sb: Super, v0: View, v: View, i: nat, off: nat, src: seq<byte>)
    requires Inv(sb, v0.blk, v0.inos, v0.owner, -1) && Reading(sb, v0, v, i, off, src, |src|)
    ensures Read(sb, v0, v, i, off, |src|) && InodeLeft(sb, v0, v, i, off, |src|)
    ensures Adds(v0, v, i, Wanted(off, |src|)) && !TooFull(sb, v0, i, off, |src|)
  {
    hide Inv, Adds, Wanted, HoleFree, Lacks, NewAddr, OnDisk, OthersSame, Missing, FreeSet, Written;
    WritingLacksNone(sb, v0, v, i, off, src);
    AddrsChange(sb, v0, v, i, off, |src|);
    WritingOld(sb, v0, v, i, off, src);
    Enough(sb, v0, v, i, Wanted(off, |src|));
    InvShape(sb, v0.blk, v0.inos, v0.owner, -1);
    WrittenFits(v0.blk, v0.inos[i], v.blk, v.inos[i], off, src);
    WrittenIsSplice(v0.blk, v0.inos[i], v.blk, v.inos[i], off, src, v0.inos[i].size);
    SpliceBack(Content(v0.blk, v0.inos[i]), off, |src|);
    assert v.inos[i].(size := v0.inos[i].size) == v.inos[i];
  }
}

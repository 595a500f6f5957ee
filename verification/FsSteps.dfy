/** What the steps of fs.c do to the block store, the inodes and the log, as predicates and
    lemmas over values; the methods of class Fs are proved against them. */
module FsSteps {
  import opened Blocks
  import opened FsFile
  import opened FsInv
  import opened FsSpec
  import opened Options
  import opened Param

  /** The state of class Fs. */
  datatype View = View(blk: seq<Block>, inos: seq<Dino>, owner: map<nat, Slot>, logged: set<nat>)

  const T_DEV: nat := 3

  /** How readi and writei end: with a panic, by handing over to the device's own function, or
      with a return value. */
  datatype Outcome = Panic | ToDevice | Ret(value: int)

  ghost predicate AllUsed(sb: Super, blk: seq<Block>, n: nat)
    requires sb.Valid() && |blk| == sb.size
  {
    forall c: nat :: c < n && c < sb.size && BBlock(sb, c) < |blk| ==> InUse(sb, blk, c)
  }

  lemma AllUsedNext(sb: Super, blk: seq<Block>, n: nat)
    requires sb.Valid() && |blk| == sb.size && BBlock(sb, n) < |blk|
    requires AllUsed(sb, blk, n) && InUse(sb, blk, n)
    ensures AllUsed(sb, blk, n + 1)
  {
  }

  lemma AllUsedZero(sb: Super, blk: seq<Block>)
    requires sb.Valid() && |blk| == sb.size
    ensures AllUsed(sb, blk, 0)
  {
  }

  lemma SameBitmapBlock(b: nat, bi: nat)
    requires b % BPB == 0 && bi < BPB
    ensures (b + bi) / BPB == b / BPB && (b + bi) % BPB == bi
  {
  }

  lemma BitmapBlock(sb: Super, b: nat)
    requires sb.Valid() && b < sb.size
    ensures BBlock(sb, b) < sb.Nmeta() < sb.size
  {
    Layout(sb, 0, b);
  }

  lemma NextBitmap(b: nat)
    requires b % BPB == 0
    ensures (b + BPB) % BPB == 0
  {
  }

  /** Logged blocks other than the indirect block of the file at hand, which is counted apart. */
  ghost function Cost(logged: set<nat>, ind: nat): nat {
    if ind == 0 then |logged| else |logged - {ind}|
  }

  /** What a bmap and the log_write of the block r it returns may log: r, the bitmap block of r
      if r is new, and the bitmap block of the indirect block if that is new. */
  ghost predicate BmapCost(logged0: set<nat>, logged: set<nat>, r: nat, ind0: nat, ind: nat, isNew: bool) {
    Cost(logged + {r}, ind) <= Cost(logged0, ind0) + 1 + (if isNew then 1 else 0)
                               + if ind0 == 0 && ind != 0 then 1 else 0
  }

  lemma CostAdd(logged: set<nat>, ind: nat, b: nat)
    ensures Cost(logged, ind) <= Cost(logged + {b}, ind) <= Cost(logged, ind) + 1
    ensures Cost(logged, ind) <= |logged| <= Cost(logged, ind) + 1
  {
    var base := if ind == 0 then logged else logged - {ind};
    if ind != 0 {
      assert logged + {b} - {ind} == base || logged + {b} - {ind} == base + {b};
      assert logged == base || logged == base + {ind};
    }
    assert |base + {b}| <= |base| + 1 by {
      if b in base {
        assert base + {b} == base;
      }
    }
    if b in base {
      assert base + {b} == base;
    }
  }

  lemma CostAdd2(logged: set<nat>, ind: nat, b: nat, c: nat)
    ensures Cost(logged + {b, c}, ind) <= Cost(logged, ind) + 2
  {
    assert logged + {b, c} == logged + {b} + {c};
    CostAdd(logged, ind, b);
    CostAdd(logged + {b}, ind, c);
  }

  lemma IndirectOwned(sb: Super, blk: seq<Block>, inos: seq<Dino>, owner: map<nat, Slot>, i: nat)
    requires Tables(sb, blk, inos, owner) && i < |inos| && inos[i].Valid() && inos[i].addrs[NDIRECT] != 0
    ensures inos[i].addrs[NDIRECT] in owner.Keys && inos[i].addrs[NDIRECT] < |blk|
  {
    OwnerAt(sb, blk, inos, owner, i, NDIRECT);
  }

  lemma GrewNothing(sb: Super, blk: seq<Block>, inos: seq<Dino>, owner: map<nat, Slot>, i: nat, k: nat)
    requires Tables(sb, blk, inos, owner) && i < |inos| && inos[i].Valid() && k < NSLOT && Addr(blk, inos[i], k) != 0
    ensures Grew(blk, inos[i], blk, inos[i], k, Addr(blk, inos[i], k))
  {
    OwnerAt(sb, blk, inos, owner, i, k);
  }

  lemma CostEntry(logged0: set<nat>, logged: set<nat>, b: nat, r: nat, ind: nat)
    requires logged == logged0 + {b, r, ind} && ind != 0
    ensures BmapCost(logged0, logged, r, ind, ind, true)
  {
    assert logged + {r} == logged;
    assert logged - {ind} == (logged0 + {b, r}) - {ind};
    CostAdd2(logged0, ind, b, r);
  }

  lemma CostNewInd(logged: set<nat>, b: nat, ind: nat)
    requires ind != 0
    ensures Cost(logged + {b, ind}, ind) <= Cost(logged, 0) + 1
  {
    assert logged + {b, ind} - {ind} == (logged + {b}) - {ind};
    CostAdd(logged, 0, b);
    CostAdd(logged + {b}, ind, ind);
  }

  lemma SameSlotsRefl(blk: seq<Block>, d: Dino)
    requires d.Valid()
    ensures SameSlots(blk, d, blk, d)
  {
  }

  lemma SameSlotsAt(blk: seq<Block>, d: Dino, blk': seq<Block>, d': Dino, k: nat)
    requires d.Valid() && d'.Valid() && SameSlots(blk, d, blk', d') && k < NSLOT && k != NDIRECT
    ensures Addr(blk', d', k) == Addr(blk, d, k)
    ensures d.addrs[NDIRECT] == 0 && k > NDIRECT ==> Addr(blk, d, k) == 0
  {
    assert SameAt(blk, d, blk', d', k);
  }

  lemma InodeBlockWrite(sb: Super, blk: seq<Block>, inos: seq<Dino>, owner: map<nat, Slot>, i: nat)
    requires Inv(sb, blk, inos, owner, i) && i < |inos| && inos[i].Valid()
    ensures IBlock(sb, i) < |blk|
    ensures var blk' := blk[IBlock(sb, i) := PutDinode(blk[IBlock(sb, i)], i % IPB, inos[i])];
            Inv(sb, blk', inos, owner, -1) && SameOn(blk, blk', owner.Keys)
  {
    Layout(sb, i, 0);
    var x := IBlock(sb, i);
    var blk' := blk[x := PutDinode(blk[x], i % IPB, inos[i])];
    forall b | b in owner.Keys && b < |blk|
      ensures blk'[b] == blk[b]
    {
      assert OwnerOk(sb, blk, inos, owner[b], b);
    }
    TablesFrame(sb, blk, blk', inos, owner);
    BitsFrame(sb, blk, blk', owner.Keys);
    forall j: nat | j < |inos|
      ensures OnDisk(sb, blk', inos[j], j)
    {
      Layout(sb, j, 0);
      if IBlock(sb, j) == x {
        DinodeOfPut(blk[x], i % IPB, inos[i], j % IPB);
        assert i == IPB * (i / IPB) + i % IPB && j == IPB * (j / IPB) + j % IPB;
      }
      if j != i {
        assert OnDisk(sb, blk, inos[j], j);
      }
    }
  }

  /** New contents for a data block of inode i. */
  lemma DataBlockWrite(sb: Super, blk: seq<Block>, inos: seq<Dino>, owner: map<nat, Slot>, i: nat, k: nat,
                       data: Block, except: int)
    requires Inv(sb, blk, inos, owner, except) && i < |inos| && inos[i].Valid() && k < NSLOT && k != NDIRECT
    requires Addr(blk, inos[i], k) != 0
    ensures Addr(blk, inos[i], k) < |blk|
    ensures Inv(sb, blk[Addr(blk, inos[i], k) := data], inos, owner, except)
    ensures OthersSame(blk, inos, blk[Addr(blk, inos[i], k) := data], inos, i)
  {
    OwnerAt(sb, blk, inos, owner, i, k);
    var r := Addr(blk, inos[i], k);
    TablesFrame(sb, blk, blk[r := data], inos, owner);
    BitsFrame(sb, blk, blk[r := data], owner.Keys);
    SyncedFrame(sb, blk, blk[r := data], inos, except);
    OthersFrame(sb, blk, blk[r := data], inos, inos, owner, i);
  }

  /** The blocks before the inode blocks, where the log is, are untouched. */
  ghost predicate Low(sb: Super, blk: seq<Block>, blk': seq<Block>) {
    |blk'| == |blk| && forall b: nat :: b < sb.inodestart && b < |blk| ==> blk'[b] == blk[b]
  }

  /** So is the block that holds inode i. */
  ghost predicate SameInode(sb: Super, blk: seq<Block>, blk': seq<Block>, i: nat) {
    Low(sb, blk, blk') && (IBlock(sb, i) < |blk| ==> blk'[IBlock(sb, i)] == blk[IBlock(sb, i)])
  }

  lemma SameInodeRefl(sb: Super, blk: seq<Block>, i: nat)
    ensures SameInode(sb, blk, blk, i)
  {
  }

  lemma InodeBlockApart(sb: Super, blk: seq<Block>, i: nat, a: nat)
    requires sb.Valid() && |blk| == sb.size && i < sb.ninodes && sb.Nmeta() <= a < sb.size
    ensures BBlock(sb, a) < |blk| && SameInode(sb, blk, Allocated(sb, blk, a), i)
  {
    Layout(sb, i, a);
  }

  /** What one turn of writei may log besides the indirect block: the data block, and if that can
      be new its bitmap block; the bitmap block of a new indirect block is counted by `ind0` and
      `ind`. */
  ghost predicate TurnCost(logged0: set<nat>, logged: set<nat>, ind0: nat, ind: nat, canBeNew: bool) {
    && Cost(logged, ind) <= Cost(logged0, ind0) + 1 + (if canBeNew then 1 else 0)
                            + (if ind0 == 0 && ind != 0 then 1 else 0)
    && (ind0 != 0 ==> ind == ind0)
  }

  /** Where writei stands after tot bytes of src; blk0 and inos0 are from before its first turn, and
      the disk still holds that inode i. */
  ghost predicate Writing(sb: Super, blk0: seq<Block>, inos0: seq<Dino>, v: View, i: nat, off: nat, src: seq<byte>,
                          tot: nat)
  {
    && Inv(sb, v.blk, v.inos, v.owner, i)
    && AllValid(v.inos) && AllValid(inos0) && |v.inos| == |inos0| && i < |inos0|
    && OnDisk(sb, v.blk, inos0[i], i) && Low(sb, blk0, v.blk)
    && OthersSame(blk0, inos0, v.blk, v.inos, i)
    && Written(blk0, inos0[i], v.blk, v.inos[i], off, src, tot)
  }

  /** What a turn of writei of m bytes does to v. */
  ghost predicate Turned(sb: Super, blk0: seq<Block>, inos0: seq<Dino>, v: View, v': View, i: nat, off: nat,
                         src: seq<byte>, tot: nat, m: nat, ok: bool)
  {
    && Inv(sb, v'.blk, v'.inos, v'.owner, i) && AllValid(v.inos) && AllValid(v'.inos) && AllValid(inos0)
    && |v'.inos| == |v.inos| == |inos0| && i < |inos0|
    && OthersSame(blk0, inos0, v'.blk, v'.inos, i)
    && if !ok then AllUsed(sb, v'.blk, sb.size) else
         && Writing(sb, blk0, inos0, v', i, off, src, tot + m)
         && TurnCost(v.logged, v'.logged, v.inos[i].addrs[NDIRECT], v'.inos[i].addrs[NDIRECT],
                     tot > 0 || !FirstMapped(blk0, inos0[i], off))
  }

  /** A turn from what its bmap did; the data block r has yet to be written. */
  lemma TurnStep(sb: Super, blk0: seq<Block>, inos0: seq<Dino>, v: View, v1: View, i: nat, off: nat, src: seq<byte>,
                 tot: nat, m: nat, r: Option<nat>)
    requires Writing(sb, blk0, inos0, v, i, off, src, tot)
    requires 0 < m <= |src| - tot && m <= BSIZE - (off + tot) % BSIZE && off + tot + m <= MAXBYTES
    requires Bmapped(sb, v, v1, i, (off + tot) / BSIZE, r) && SameInode(sb, v.blk, v1.blk, i)
    ensures r.None? ==> Turned(sb, blk0, inos0, v, v1, i, off, src, tot, m, false)
    ensures r.Some? ==> r.value < |v1.blk|
    ensures r.Some? ==>
      Turned(sb, blk0, inos0, v,
             View(v1.blk[r.value := Patch(v1.blk[r.value], (off + tot) % BSIZE, src[tot..tot + m])], v1.inos, v1.owner,
                  v1.logged + {r.value}),
             i, off, src, tot, m, true)
  {
    hide Written, Tables, Bits, Synced, OnDisk, SameFile, Patch;
    OthersSameTrans(blk0, inos0, v.blk, v.inos, v1.blk, v1.inos, i);
    if r.Some? {
      var bn := (off + tot) / BSIZE;
      GrewFits(v.blk, v.inos[i], v1.blk, v1.inos[i], DataSlot(bn), r.value);
      TurnWrites(sb, blk0, inos0, v, v1, i, off, src, tot, m, r.value);
      if tot == 0 && FirstMapped(blk0, inos0[i], off) {
        StillMapped(blk0, inos0[i], v.blk, v.inos[i], off, src);
      }
    }
  }

  lemma StillOnDisk(sb: Super, blk: seq<Block>, blk': seq<Block>, d: Dino, i: nat)
    requires sb.Valid() && |blk| == sb.size == |blk'| && i < sb.ninodes && OnDisk(sb, blk, d, i)
    requires SameInode(sb, blk, blk', i)
    ensures OnDisk(sb, blk', d, i)
  {
    Layout(sb, i, 0);
  }

  /** bmap, and then a data block. */
  lemma StillLow(sb: Super, blk0: seq<Block>, blk: seq<Block>, blk1: seq<Block>, i: nat, r: nat, data: Block, d: Dino)
    requires sb.Valid() && |blk1| == sb.size && i < sb.ninodes && OnDisk(sb, blk1, d, i)
    requires Low(sb, blk0, blk) && SameInode(sb, blk, blk1, i) && sb.Nmeta() <= r < sb.size
    ensures Low(sb, blk0, blk1[r := data]) && OnDisk(sb, blk1[r := data], d, i)
  {
    Layout(sb, i, 0);
  }

  lemma TurnWrites(sb: Super, blk0: seq<Block>, inos0: seq<Dino>, v: View, v1: View, i: nat, off: nat,
                   src: seq<byte>, tot: nat, m: nat, r: nat)
    requires Writing(sb, blk0, inos0, v, i, off, src, tot)
    requires 0 < m <= |src| - tot && m <= BSIZE - (off + tot) % BSIZE && off + tot + m <= MAXBYTES
    requires Bmapped(sb, v, v1, i, (off + tot) / BSIZE, Some(r)) && r < |v1.blk| && SameInode(sb, v.blk, v1.blk, i)
    ensures Writing(sb, blk0, inos0,
                    View(v1.blk[r := Patch(v1.blk[r], (off + tot) % BSIZE, src[tot..tot + m])], v1.inos, v1.owner,
                         v1.logged + {r}),
                    i, off, src, tot + m)
  {
    var k := DataSlot((off + tot) / BSIZE);
    assert r == Addr(v1.blk, v1.inos[i], k) by {
      hide Inv, OthersSame, Written, SameAt;
    }
    hide Written, OthersSame, Tables, Bits, Synced, Addr, Cost, Grew, Low, SameInode, OnDisk;
    var data := Patch(v1.blk[r], (off + tot) % BSIZE, src[tot..tot + m]);
    WriteChunk(sb, blk0, inos0[i], v.blk, v.inos[i], v1.blk, v1.inos, v1.owner, i, off, src, tot, m, r);
    OwnerAt(sb, v1.blk, v1.inos, v1.owner, i, k);
    StillOnDisk(sb, v.blk, v1.blk, inos0[i], i);
    StillLow(sb, blk0, v.blk, v1.blk, i, r, data, inos0[i]);
    DataBlockWrite(sb, v1.blk, v1.inos, v1.owner, i, k, data, i);
    OthersSameTrans(blk0, inos0, v.blk, v.inos, v1.blk, v1.inos, i);
    OthersSameTrans(blk0, inos0, v1.blk, v1.inos, v1.blk[r := data], v1.inos, i);
  }

  /** In file i, src has replaced the bytes from off on; every other file is as before. All inodes
      but `except` are on disk. */
  ghost predicate Spliced(sb: Super, v: View, v': View, i: nat, off: nat, src: seq<byte>, except: int) {
    && Inv(sb, v'.blk, v'.inos, v'.owner, except) && AllValid(v.inos) && AllValid(v'.inos) && i < |v.inos|
    && OthersSame(v.blk, v.inos, v'.blk, v'.inos, i) && Low(sb, v.blk, v'.blk)
    && v'.inos[i].(size := v.inos[i].size, addrs := v.inos[i].addrs) == v.inos[i]
    && off <= v.inos[i].size <= MAXBYTES && v'.inos[i].size <= MAXBYTES
    && (HoleFree(v.blk, v.inos[i]) ==> HoleFree(v'.blk, v'.inos[i]))
    && Content(v'.blk, v'.inos[i]) == Splice(Content(v.blk, v.inos[i]), off, src)
  }

  ghost predicate Replaced(sb: Super, v: View, v': View, i: nat, off: nat, src: seq<byte>) {
    Spliced(sb, v, v', i, off, src, -1)
  }

  /** What a writei that returns |src| does, and the most it adds to the log. */
  ghost predicate Wrote(sb: Super, v: View, v': View, i: nat, off: nat, src: seq<byte>, except: int) {
    && Spliced(sb, v, v', i, off, src, except)
    && |v'.logged| <= |v.logged| + WriteCost(off, |src|, FirstMapped(v.blk, v.inos[i], off))
  }

  /** A data block and a bitmap block for each block touched, but no bitmap block for the first if
      it is there; the indirect block, its bitmap block, the inode. */
  function WriteCost(off: nat, n: nat, mapped: bool): nat {
    2 * Spanned(off, n) + 3 - (if n > 0 && mapped then 1 else 0)
  }

  ghost predicate LoopCost(v: View, v': View, i: nat, off: nat, tot: nat)
    requires i < |v.inos| == |v'.inos| && v.inos[i].Valid() && v'.inos[i].Valid()
  {
    var ind, ind' := v.inos[i].addrs[NDIRECT], v'.inos[i].addrs[NDIRECT];
    && Cost(v'.logged, ind') <= Cost(v.logged, ind) + WriteCost(off, tot, FirstMapped(v.blk, v.inos[i], off)) - 3
                                + (if ind == 0 && ind' != 0 then 1 else 0)
    && (ind != 0 ==> ind' == ind)
  }

  lemma StartWriting(sb: Super, v: View, i: nat, off: nat, src: seq<byte>)
    requires Inv(sb, v.blk, v.inos, v.owner, -1) && i < |v.inos| && v.inos[i].Valid()
    requires off <= v.inos[i].size <= MAXBYTES
    ensures Inv(sb, v.blk, v.inos, v.owner, i) && AllValid(v.inos) && |v.blk| == sb.size && sb.Valid()
    ensures Writing(sb, v.blk, v.inos, v, i, off, src, 0) && LoopCost(v, v, i, off, 0)
  {
    OthersFrame(sb, v.blk, v.blk, v.inos, v.inos, v.owner, i);
    WrittenStart(v.blk, v.inos[i], off, src);
  }

  lemma SpannedNext(off: nat, tot: nat, m: nat)
    requires 0 < m <= BSIZE - (off + tot) % BSIZE && (tot == 0 || (off + tot) % BSIZE == 0)
    ensures Spanned(off, tot + m) == Spanned(off, tot) + 1
  {
    var pos := off + tot;
    assert (pos + m - 1) / BSIZE == pos / BSIZE by {
      assert pos == BSIZE * (pos / BSIZE) + pos % BSIZE;
    }
    if tot > 0 {
      assert (pos - 1) / BSIZE == pos / BSIZE - 1;
    }
  }

  lemma AfterTurn(sb: Super, v0: View, v: View, v': View, i: nat, off: nat, src: seq<byte>, tot: nat, m: nat, ok: bool)
    requires i < |v0.inos| == |v.inos| && v0.inos[i].Valid() && v.inos[i].Valid()
    requires Turned(sb, v0.blk, v0.inos, v, v', i, off, src, tot, m, ok)
    requires LoopCost(v0, v, i, off, tot) && (tot == 0 || (off + tot) % BSIZE == 0)
    requires 0 < m <= BSIZE - (off + tot) % BSIZE && off <= v0.inos[i].size
    ensures Inv(sb, v'.blk, v'.inos, v'.owner, i) && |v'.inos| == |v.inos| && v'.inos[i].Valid() && |v'.blk| == sb.size
    ensures if ok then LoopCost(v0, v', i, off, tot + m) && Writing(sb, v0.blk, v0.inos, v', i, off, src, tot + m)
            else AllUsed(sb, v'.blk, sb.size)
  {
    hide Tables, Bits, Synced, OthersSame, Cost, Spanned, Written, FirstMapped;
    SpannedNext(off, tot, m);
    InvShape(sb, v'.blk, v'.inos, v'.owner, i);
  }

  /** An inode may change in anything but its blocks. */
  lemma FieldsChange(sb: Super, blk: seq<Block>, inos: seq<Dino>, owner: map<nat, Slot>, i: nat, d: Dino)
    requires Inv(sb, blk, inos, owner, i) && i < |inos| && d.Valid() && d.addrs == inos[i].addrs
    ensures Inv(sb, blk, inos[i := d], owner, i)
  {
    var inos' := inos[i := d];
    forall j: nat, k: nat | j < |inos| && k < NSLOT
      ensures InSlot(blk, inos'[j], owner, j, k) && Addr(blk, inos'[j], k) == Addr(blk, inos[j], k)
    {
      assert InSlot(blk, inos[j], owner, j, k);
    }
    forall b | b in owner
      ensures OwnerOk(sb, blk, inos', owner[b], b)
    {
      assert OwnerOk(sb, blk, inos, owner[b], b);
    }
    forall j: nat | j < |inos| && j != i
      ensures OnDisk(sb, blk, inos'[j], j)
    {
      assert OnDisk(sb, blk, inos[j], j);
    }
  }

  lemma FileFrame(sb: Super, blk: seq<Block>, blk': seq<Block>, inos: seq<Dino>, owner: map<nat, Slot>, i: nat)
    requires Tables(sb, blk, inos, owner) && SameOn(blk, blk', owner.Keys) && i < |inos| && inos[i].Valid()
    ensures SameFile(blk, inos[i], blk', inos[i])
  {
    forall k: nat | k < NSLOT && k != NDIRECT
      ensures SameAt(blk, inos[i], blk', inos[i], k)
    {
      AddrFrame(sb, blk, blk', inos, owner, i, k);
      if Addr(blk, inos[i], k) != 0 {
        OwnerAt(sb, blk, inos, owner, i, k);
      }
    }
  }

  lemma SameFileHoleFree(blk: seq<Block>, d: Dino, blk': seq<Block>)
    requires d.Valid() && SameFile(blk, d, blk', d) && HoleFree(blk, d)
    ensures HoleFree(blk', d)
  {
    forall bn: nat | bn < MAXFILE && bn * BSIZE < d.size
      ensures Addr(blk', d, DataSlot(bn)) != 0
    {
      assert SameAt(blk, d, blk', d, DataSlot(bn));
    }
  }

  /** writei that ends past the old size: iupdate wrote the inode with its new size. */
  lemma WroteGrown(sb: Super, v: View, w: View, v': View, i: nat, off: nat, src: seq<byte>)
    requires Writing(sb, v.blk, v.inos, w, i, off, src, |src|)
    requires w.inos[i].Valid() && v.inos[i].Valid() && v.inos[i].size < off + |src| < UINT
    requires v'.inos == w.inos[i := w.inos[i].(size := off + |src|)] && v'.owner == w.owner
    requires Inv(sb, v'.blk, v'.inos, v'.owner, -1) && SameOn(w.blk, v'.blk, w.owner.Keys)
    requires LoopCost(v, w, i, off, |src|) && v'.logged == w.logged + {IBlock(sb, i)} && Low(sb, w.blk, v'.blk)
    ensures Wrote(sb, v, v', i, off, src, -1)
  {
    hide Tables, Bits, Synced, SameFile, Content, Splice, Cost, Written, HoleFree, OnDisk, FirstMapped;
    var size := off + |src|;
    FieldsChange(sb, w.blk, w.inos, w.owner, i, w.inos[i].(size := size));
    FileFrame(sb, w.blk, v'.blk, v'.inos, w.owner, i);
    OthersFrame(sb, w.blk, v'.blk, w.inos, v'.inos, w.owner, i);
    OthersSameTrans(v.blk, v.inos, w.blk, w.inos, v'.blk, v'.inos, i);
    WrittenIsSplice(v.blk, v.inos[i], w.blk, w.inos[i], off, src, size);
    WrittenFits(v.blk, v.inos[i], w.blk, w.inos[i], off, src);
    SameFileContent(w.blk, v'.inos[i], v'.blk, v'.inos[i]);
    if HoleFree(v.blk, v.inos[i]) {
      SameFileHoleFree(w.blk, v'.inos[i], v'.blk);
    }
    CostAdd(w.logged, w.inos[i].addrs[NDIRECT], IBlock(sb, i));
    CostAdd(v.logged, v.inos[i].addrs[NDIRECT], IBlock(sb, i));
    LogGrows(w.logged, IBlock(sb, i));
  }

  lemma WrittenFits(blk0: seq<Block>, d0: Dino, blk: seq<Block>, d: Dino, off: nat, src: seq<byte>)
    requires d0.Valid() && d.Valid() && Written(blk0, d0, blk, d, off, src, |src|)
    ensures off <= d0.size <= MAXBYTES && off + |src| <= MAXBYTES && d.(addrs := d0.addrs) == d0
  {
  }

  lemma LogGrows(logged: set<nat>, b: nat)
    ensures |logged + {b}| <= |logged| + 1
  {
    CostAdd(logged, 0, b);
  }

  /** writei that ends within the old size: the inode is on disk as long as it is the old one. */
  lemma WroteWithin(sb: Super, v: View, v': View, i: nat, off: nat, src: seq<byte>)
    requires Writing(sb, v.blk, v.inos, v', i, off, src, |src|)
    requires v.inos[i].Valid() && v'.inos[i].Valid() && off + |src| <= v.inos[i].size < UINT
    requires LoopCost(v, v', i, off, |src|)
    ensures Wrote(sb, v, v', i, off, src, if v'.inos[i] == v.inos[i] then -1 else i)
  {
    hide Tables, Bits, Content, Splice, Cost, Written, HoleFree, OnDisk, FirstMapped, OthersSame;
    WrittenIsSplice(v.blk, v.inos[i], v'.blk, v'.inos[i], off, src, v.inos[i].size);
    WrittenFits(v.blk, v.inos[i], v'.blk, v'.inos[i], off, src);
    assert v'.inos[i].(size := v.inos[i].size) == v'.inos[i];
    CostAdd(v'.logged, v'.inos[i].addrs[NDIRECT], 0);
    CostAdd(v.logged, v.inos[i].addrs[NDIRECT], 0);
  }

  /** The test `off + n < off` on 32-bit numbers. */
  lemma Overflow(off: nat, n: nat)
    requires off < UINT && n < UINT
    ensures (off + n) % UINT < off <==> off + n >= UINT
  {
  }

  lemma SizeFits(blk: seq<Block>, d: Dino)
    requires d.Valid() && HoleFree(blk, d)
    ensures d.size <= MAXBYTES
  {
  }

  lemma MappedAt(blk: seq<Block>, d: Dino, pos: nat)
    requires d.Valid() && HoleFree(blk, d) && pos < d.size
    ensures pos < MAXBYTES && Addr(blk, d, DataSlot(pos / BSIZE)) != 0
  {
    assert pos / BSIZE * BSIZE <= pos;
  }

  lemma Adjoin(s: seq<byte>, i: nat, j: nat, k: nat)
    requires i <= j <= k <= |s|
    ensures s[i..j] + s[j..k] == s[i..k]
  {
  }

  // ---------- bmap

  /** What bmap does to block bn of inode i. With the block already there nothing changes;
      without it, it fails only when no block is free. */
  ghost predicate Bmapped(sb: Super, v: View, v': View, i: nat, bn: nat, r: Option<nat>) {
    && Inv(sb, v'.blk, v'.inos, v'.owner, i) && AllValid(v.inos) && AllValid(v'.inos) && i < |v.inos|
    && OthersSame(v.blk, v.inos, v'.blk, v'.inos, i)
    && (bn < MAXFILE && Addr(v.blk, v.inos[i], DataSlot(bn)) != 0 ==> r.Some? && v' == v)
    && match r
       case None => bn < MAXFILE ==> AllUsed(sb, v'.blk, sb.size)
       case Some(a) =>
         && bn < MAXFILE
         && Grew(v.blk, v.inos[i], v'.blk, v'.inos[i], DataSlot(bn), a)
         && BmapCost(v.logged, v'.logged, a, v.inos[i].addrs[NDIRECT], v'.inos[i].addrs[NDIRECT],
                     Addr(v.blk, v.inos[i], DataSlot(bn)) == 0)
  }

  /** What loading the indirect block, allocating it if there is none, does. */
  ghost predicate Indirected(sb: Super, v: View, v': View, i: nat, ok: bool) {
    && Inv(sb, v'.blk, v'.inos, v'.owner, i) && AllValid(v.inos) && AllValid(v'.inos) && i < |v.inos|
    && OthersSame(v.blk, v.inos, v'.blk, v'.inos, i)
    && (v.inos[i].addrs[NDIRECT] != 0 ==> ok && v' == v)
    && if !ok then AllUsed(sb, v'.blk, sb.size) else
         && v'.inos[i].addrs[NDIRECT] != 0 && v'.inos[i].(addrs := v.inos[i].addrs) == v.inos[i]
         && SameSlots(v.blk, v.inos[i], v'.blk, v'.inos[i])
         && Cost(v'.logged, v'.inos[i].addrs[NDIRECT])
              <= Cost(v.logged, v.inos[i].addrs[NDIRECT]) + if v.inos[i].addrs[NDIRECT] == 0 then 1 else 0
  }

  lemma IndirectedIs(sb: Super, v: View, v': View, i: nat)
    requires Indirected(sb, v, v', i, true)
    ensures Inv(sb, v'.blk, v'.inos, v'.owner, i) && i < |v'.inos| && v'.inos[i].Valid()
        && v'.inos[i].addrs[NDIRECT] != 0
  {
  }

  lemma NotBmapped(sb: Super, v: View, v': View, i: nat, bn: nat)
    requires Indirected(sb, v, v', i, false) && NDIRECT <= bn < MAXFILE
    ensures Bmapped(sb, v, v', i, bn, None)
  {
  }

  lemma BmappedAfter(sb: Super, v: View, v1: View, v': View, i: nat, bn: nat, r: Option<nat>)
    requires Indirected(sb, v, v1, i, true) && Bmapped(sb, v1, v', i, bn, r) && NDIRECT <= bn < MAXFILE
    ensures Bmapped(sb, v, v', i, bn, r)
  {
    hide Inv, Grew, Cost, SameAt, SameSlots;
    SameSlotsAt(v.blk, v.inos[i], v1.blk, v1.inos[i], bn + 1);
    OthersSameTrans(v.blk, v.inos, v1.blk, v1.inos, v'.blk, v'.inos, i);
    if r.Some? {
      GrewAfterSame(v.blk, v.inos[i], v1.blk, v1.inos[i], v'.blk, v'.inos[i], bn + 1, r.value);
      GrewKeeps(v1.blk, v1.inos[i], v'.blk, v'.inos[i], bn + 1, r.value);
    }
  }

  lemma GrewKeeps(blk: seq<Block>, d: Dino, blk': seq<Block>, d': Dino, k: nat, r: nat)
    requires d.Valid() && d'.Valid() && k < NSLOT && Grew(blk, d, blk', d', k, r) && d.addrs[NDIRECT] != 0
    ensures d'.addrs[NDIRECT] == d.addrs[NDIRECT]
  {
  }

  lemma OutOfRange(sb: Super, v: View, i: nat, bn: nat)
    requires Inv(sb, v.blk, v.inos, v.owner, i) && i < |v.inos| && v.inos[i].Valid() && MAXFILE <= bn
    ensures Bmapped(sb, v, v, i, bn, None)
  {
    OthersFrame(sb, v.blk, v.blk, v.inos, v.inos, v.owner, i);
  }

  lemma EntryIs(sb: Super, v: View, i: nat, bn: nat)
    requires Inv(sb, v.blk, v.inos, v.owner, i) && i < |v.inos| && v.inos[i].Valid() && v.inos[i].addrs[NDIRECT] != 0
    requires NDIRECT <= bn < MAXFILE
    ensures v.inos[i].addrs[NDIRECT] < |v.blk| && DataSlot(bn) == bn + 1
    ensures Addr(v.blk, v.inos[i], bn + 1) == Word(v.blk[v.inos[i].addrs[NDIRECT]], bn - NDIRECT)
    ensures Addr(v.blk, v.inos[i], bn + 1) != 0 ==> Bmapped(sb, v, v, i, bn, Some(Addr(v.blk, v.inos[i], bn + 1)))
  {
    IndirectOwned(sb, v.blk, v.inos, v.owner, i);
    if Addr(v.blk, v.inos[i], bn + 1) != 0 {
      MappedIsBmapped(sb, v, i, bn);
    }
  }

  lemma MappedIsBmapped(sb: Super, v: View, i: nat, bn: nat)
    requires Inv(sb, v.blk, v.inos, v.owner, i) && i < |v.inos| && v.inos[i].Valid() && bn < MAXFILE
    requires Addr(v.blk, v.inos[i], DataSlot(bn)) != 0
    ensures Bmapped(sb, v, v, i, bn, Some(Addr(v.blk, v.inos[i], DataSlot(bn))))
  {
    OthersFrame(sb, v.blk, v.blk, v.inos, v.inos, v.owner, i);
    GrewNothing(sb, v.blk, v.inos, v.owner, i, DataSlot(bn));
    CostAdd(v.logged, v.inos[i].addrs[NDIRECT], Addr(v.blk, v.inos[i], DataSlot(bn)));
  }

  lemma EntryIsBmapped(sb: Super, v: View, v': View, i: nat, bn: nat, r: Option<nat>)
    requires EntryStep(sb, v.blk, v.inos, v.owner, v.logged, v'.blk, v'.owner, v'.logged, i, bn + 1, r)
    requires v'.inos == v.inos && NDIRECT <= bn < MAXFILE && Addr(v.blk, v.inos[i], bn + 1) == 0
    requires v.inos[i].addrs[NDIRECT] != 0
    ensures Bmapped(sb, v, v', i, bn, r)
  {
    hide Inv, OthersSame, Grew, Cost, AllUsed;
    if r.Some? {
      CostEntry(v.logged, v'.logged, BBlock(sb, r.value), r.value, v.inos[i].addrs[NDIRECT]);
    }
  }

  /** What allocating an entry of the indirect block of inode i does; without a free block, nothing. */
  ghost predicate EntryStep(sb: Super, blk: seq<Block>, inos: seq<Dino>, owner: map<nat, Slot>, logged: set<nat>,
                            blk': seq<Block>, owner': map<nat, Slot>, logged': set<nat>, i: nat, k: nat,
                            r: Option<nat>)
  {
    && Inv(sb, blk', inos, owner', i) && AllValid(inos) && i < |inos| && k < NSLOT
    && OthersSame(blk, inos, blk', inos, i)
    && match r
       case None => blk' == blk && owner' == owner && logged' == logged && AllUsed(sb, blk, sb.size)
       case Some(a) =>
         && a !in owner && owner' == owner[a := Slot(i, k)] && 0 < a < UINT
         && Grew(blk, inos[i], blk', inos[i], k, a)
         && logged' == logged + {BBlock(sb, a), a, inos[i].addrs[NDIRECT]}
  }

  lemma NoEntryStep(sb: Super, blk: seq<Block>, inos: seq<Dino>, owner: map<nat, Slot>, logged: set<nat>, i: nat,
                    k: nat)
    requires Inv(sb, blk, inos, owner, i) && i < |inos| && k < NSLOT
    ensures AllUsed(sb, blk, sb.size) ==> EntryStep(sb, blk, inos, owner, logged, blk, owner, logged, i, k, None)
  {
    OthersFrame(sb, blk, blk, inos, inos, owner, i);
  }

  lemma EntryStepIs(sb: Super, blk: seq<Block>, inos: seq<Dino>, owner: map<nat, Slot>, logged: set<nat>, i: nat,
                    k: nat, a: nat)
    requires Inv(sb, blk, inos, owner, i) && FreeBlock(sb, blk, a)
    requires i < |inos| && NDIRECT < k < NSLOT && inos[i].Valid() && Addr(blk, inos[i], k) == 0
    requires 0 < inos[i].addrs[NDIRECT] < |blk|
    ensures sb.Nmeta() <= a < UINT && a < |blk| && a !in owner && inos[i].addrs[NDIRECT] != a
    ensures Allocated(sb, blk, a)[inos[i].addrs[NDIRECT]] == blk[inos[i].addrs[NDIRECT]]
    ensures EntryStep(sb, blk, inos, owner, logged, SetEntry(Allocated(sb, blk, a), inos[i].addrs[NDIRECT], k, a),
                      owner[a := Slot(i, k)], logged + {BBlock(sb, a), a} + {inos[i].addrs[NDIRECT]}, i, k, Some(a))
  {
    hide Tables, Bits, Synced, Grew, OthersSame, SetEntry, InSlot, OwnerOk, BitOk, OnDisk, SameFile, SameAt, Word;
    IndirectOwned(sb, blk, inos, owner, i);
    AllocatedFrame(sb, blk, inos, owner, a, i);
    GrowEntry(sb, blk, inos, owner, i, k, a);
    InvShape(sb, blk, inos, owner, i);
    assert logged + {BBlock(sb, a), a} + {inos[i].addrs[NDIRECT]} == logged + {BBlock(sb, a), a,
        inos[i].addrs[NDIRECT]};
  }
}

/** The most that one writei can log is logged: on a crowded disk a write that takes a file past
    its direct blocks logs every block that WriteCost allows it. */
module FsCrowded {
  import opened Blocks
  import opened FsFile
  import opened FsInv
  import opened FsRoom
  import opened FsSpec
  import opened FsSteps
  import opened Param
  import opened Sets

  /** The file of inode i ends in its last direct block, all data is zero, and no two free blocks
      share a bitmap block. */
  ghost predicate Crowded(sb: Super, v: View, i: nat) {
    && Inv(sb, v.blk, v.inos, v.owner, -1) && v.logged == {} && i < |v.inos| && v.inos[i].Valid()
    && (NDIRECT - 1) * BSIZE < v.inos[i].size <= NDIRECT * BSIZE
    && v.inos[i].addrs[NDIRECT] == 0
    && (forall b :: sb.Nmeta() <= b < |v.blk| ==> v.blk[b] == ZeroBlock())
    && sb.Valid() && |v.blk| == sb.size && Scattered(sb, FreeSet(sb, v.blk))
  }

  lemma CrowdedIs(sb: Super, v: View, i: nat)
    requires Crowded(sb, v, i)
    ensures Inv(sb, v.blk, v.inos, v.owner, -1) && v.logged == {} && i < |v.inos| && v.inos[i].Valid()
  {
  }

  ghost predicate Scattered(sb: Super, free: set<nat>) {
    forall a, b :: a in free && b in free && BBlock(sb, a) == BBlock(sb, b) ==> a == b
  }

  predicate NoZero(src: seq<byte>) {
    forall p :: 0 <= p < |src| ==> src[p] != 0
  }

  // ---------- counting the blocks

  lemma WantedIs(off: nat, n: nat)
    requires n > 0 && off <= NDIRECT * BSIZE < off + n <= MAXBYTES
    ensures off / BSIZE <= NDIRECT <= (off + n - 1) / BSIZE < MAXFILE
    ensures Wanted(off, n) == Range(off / BSIZE, (off + n - 1) / BSIZE + 2)
  {
    var lo, hi := off / BSIZE, (off + n - 1) / BSIZE + 2;
    assert lo <= NDIRECT <= hi - 2 < MAXFILE;
    forall k: nat
      ensures k in Wanted(off, n) <==> k in Range(lo, hi)
    {
      assert k in Wanted(off, n) <==> k < NSLOT && Wants(off, n, k);
    }
  }

  /** The data blocks, and the bitmap blocks, of a set of blocks. */
  ghost function DataIn(sb: Super, s: set<nat>): set<nat> {
    set b | b in s && sb.Nmeta() <= b
  }

  ghost function BitmapIn(sb: Super, s: set<nat>): set<nat> {
    set b | b in s && sb.bmapstart <= b < sb.Nmeta()
  }

  /** The slots that an append to a crowded file needs, and those of them that are empty. */
  lemma AppendSlots(sb: Super, v: View, i: nat, n: nat)
    requires Crowded(sb, v, i) && n > 0 && NDIRECT * BSIZE < v.inos[i].size + n <= MAXBYTES
    ensures var size := v.inos[i].size; var want := Wanted(size, n);
            && |want| == Spanned(size, n) + 1 && |Missing(v.blk, v.inos[i], want)| <= NINDIRECT + 2
            && |want| + |Missing(v.blk, v.inos[i], want)| + 1
            == WriteCost(size, n, FirstMapped(v.blk, v.inos[i], size))
  {
    hide Inv, Scattered, FreeSet, Wanted, FirstMapped, Missing;
    WantedIs(v.inos[i].size, n);
    EmptySlots(v.blk, v.inos[i], n);
  }

  lemma EmptySlots(blk: seq<Block>, d: Dino, n: nat)
    requires d.Valid() && d.addrs[NDIRECT] == 0
    requires (NDIRECT - 1) * BSIZE < d.size <= NDIRECT * BSIZE < d.size + n <= MAXBYTES
    ensures NDIRECT - 1 <= d.size / BSIZE < (d.size + n - 1) / BSIZE + 1 <= MAXFILE
    ensures Missing(blk, d, Wanted(d.size, n))
         == Range(d.size / BSIZE + (if FirstMapped(blk, d, d.size) then 1 else 0), (d.size + n - 1) / BSIZE + 2)
  {
    hide Wanted;
    WantedIs(d.size, n);
    var first, want, empty := d.size / BSIZE, Wanted(d.size, n), Missing(blk, d, Wanted(d.size, n));
    assert first == NDIRECT - 1 || first == NDIRECT;
    assert FirstMapped(blk, d, d.size) <==> first < NDIRECT && d.addrs[first] != 0;
    assert forall k: nat :: k in empty ==> k in want && (k == first ==> !FirstMapped(blk, d, d.size));
    assert forall k: nat :: k in want && (k == first ==> !FirstMapped(blk, d, d.size)) ==> k in empty;
  }

  /** Every slot that was needed names a block that has changed. */
  lemma SlotChanged(sb: Super, v: View, v': View, i: nat, src: seq<byte>, k: nat)
    requires Crowded(sb, v, i) && Replaced(sb, v, v', i, v.inos[i].size, src) && NoZero(src)
    requires NDIRECT * BSIZE < v.inos[i].size + |src| <= MAXBYTES && k in Wanted(v.inos[i].size, |src|)
    ensures var a := Addr(v'.blk, v'.inos[i], k); sb.Nmeta() <= a < |v.blk| == |v'.blk| && v'.blk[a] != v.blk[a]
  {
    hide Bits, Synced, SameFile, Scattered, FreeSet;
    if k == NDIRECT {
      DataChanged(sb, v, v', i, src, NDIRECT);
      OwnerAt(sb, v'.blk, v'.inos, v'.owner, i, NDIRECT);
      WordOfZeroBlock(0);
    } else {
      DataChanged(sb, v, v', i, src, if k < NDIRECT then k else k - 1);
    }
  }

  lemma DataChanged(sb: Super, v: View, v': View, i: nat, src: seq<byte>, bn: nat)
    requires Crowded(sb, v, i) && Replaced(sb, v, v', i, v.inos[i].size, src) && NoZero(src)
    requires v.inos[i].size + |src| <= MAXBYTES && |src| > 0
    requires v.inos[i].size / BSIZE <= bn <= (v.inos[i].size + |src| - 1) / BSIZE
    ensures bn < MAXFILE
    ensures var a := Addr(v'.blk, v'.inos[i], DataSlot(bn));
            sb.Nmeta() <= a < |v.blk| == |v'.blk| && v'.blk[a] != v.blk[a]
  {
    hide Bits, Synced, SameFile, Scattered, FreeSet;
    var size := v.inos[i].size;
    var p := if bn * BSIZE < size then size else bn * BSIZE;
    assert p / BSIZE == bn && size <= p < size + |src|;
    assert Content(v'.blk, v'.inos[i])[p] == src[p - size];
    assert Byte(v'.blk, v'.inos[i], p) != 0;
    OwnerAt(sb, v'.blk, v'.inos, v'.owner, i, DataSlot(bn));
  }

  /** ... and if it was empty, the bitmap block of its block has changed too. */
  lemma BitmapChanged(sb: Super, v: View, v': View, i: nat, src: seq<byte>, k: nat)
    requires Inv(sb, v.blk, v.inos, v.owner, -1) && Inv(sb, v'.blk, v'.inos, v'.owner, -1)
    requires i < |v.inos| && v.inos[i].Valid() && i < |v'.inos| && v'.inos[i].Valid()
    requires Adds(v, v', i, Wanted(v.inos[i].size, |src|))
    requires k < NSLOT && Addr(v.blk, v.inos[i], k) == 0 && Addr(v'.blk, v'.inos[i], k) != 0
    ensures var a := Addr(v'.blk, v'.inos[i], k);
            sb.Valid() && |v.blk| == sb.size == |v'.blk| && a in FreeSet(sb, v.blk)
            && sb.bmapstart <= BBlock(sb, a) < sb.Nmeta() && v'.blk[BBlock(sb, a)] != v.blk[BBlock(sb, a)]
  {
    hide Tables, Synced, Wanted, Addr;
    var a := Addr(v'.blk, v'.inos[i], k);
    InvShape(sb, v.blk, v.inos, v.owner, -1);
    InvShape(sb, v'.blk, v'.inos, v'.owner, -1);
    TakenWasFree(sb, v, v', i, Wanted(v.inos[i].size, |src|), -1, k);
    Layout(sb, 0, a);
    assert BitOk(sb, v'.blk, v'.owner.Keys, a);
  }

  /** The inode has a new size. */
  lemma InodeChanged(sb: Super, v: View, v': View, i: nat)
    requires Inv(sb, v.blk, v.inos, v.owner, -1) && Inv(sb, v'.blk, v'.inos, v'.owner, -1)
    requires i < |v.inos| && i < |v'.inos| && v'.inos[i] != v.inos[i]
    ensures 2 <= IBlock(sb, i) < sb.bmapstart && |v.blk| == sb.size == |v'.blk| && IBlock(sb, i) < sb.size
    ensures v'.blk[IBlock(sb, i)] != v.blk[IBlock(sb, i)]
  {
    Layout(sb, i, 0);
    assert OnDisk(sb, v.blk, v.inos[i], i) && OnDisk(sb, v'.blk, v'.inos[i], i);
  }

  /** Such a write logs exactly as many blocks as WriteCost says. */
  lemma AppendLogs(sb: Super, v: View, v': View, i: nat, src: seq<byte>)
    requires Crowded(sb, v, i) && NoZero(src) && NDIRECT * BSIZE < v.inos[i].size + |src| <= MAXBYTES && |src| > 0
    requires Wrote(sb, v, v', i, v.inos[i].size, src, -1) && Adds(v, v', i, Wanted(v.inos[i].size, |src|))
    ensures |v'.logged| == WriteCost(v.inos[i].size, |src|, FirstMapped(v.blk, v.inos[i], v.inos[i].size))
  {
    var want := Wanted(v.inos[i].size, |src|);
    var empty := Missing(v.blk, v.inos[i], want);
    AppendSlots(sb, v, i, |src|);
    SlotsLogged(sb, v, v', i, src);
    BitmapsLogged(sb, v, v', i, src);
    assert v'.inos[i].size == v.inos[i].size + |src| by {
      ReplacedSize(sb, v, v', i, src);
    }
    InodeChanged(sb, v, v', i);
    hide Crowded, Wrote, Inv, Wanted, Missing, WriteCost, Fills, FirstMapped;
    var data := DataIn(sb, v'.logged);
    var bits := BitmapIn(sb, v'.logged);
    var rest := v'.logged - data - bits;
    assert v'.logged == data + bits + rest && IBlock(sb, i) in rest;
  }

  lemma ReplacedSize(sb: Super, v: View, v': View, i: nat, src: seq<byte>)
    requires i < |v.inos| && Replaced(sb, v, v', i, v.inos[i].size, src)
    ensures v'.inos[i].size == v.inos[i].size + |src|
  {
  }

  /** What an append does to one of its slots. */
  lemma SlotLogged(sb: Super, v: View, v': View, i: nat, src: seq<byte>, k: nat)
    requires Crowded(sb, v, i) && NoZero(src) && NDIRECT * BSIZE < v.inos[i].size + |src| <= MAXBYTES
    requires Replaced(sb, v, v', i, v.inos[i].size, src) && Adds(v, v', i, Wanted(v.inos[i].size, |src|))
    requires k in Wanted(v.inos[i].size, |src|)
    ensures i < |v'.inos| && v'.inos[i].Valid() && k < NSLOT && sb.Valid() && |v.blk| == sb.size
    ensures var a := Addr(v'.blk, v'.inos[i], k);
            && a in v'.logged && sb.Nmeta() <= a && a in v'.owner && v'.owner[a] == Slot(i, k)
            && (Addr(v.blk, v.inos[i], k) == 0 ==>
                  a in FreeSet(sb, v.blk) && BBlock(sb, a) in v'.logged && sb.bmapstart <= BBlock(sb, a) < sb.Nmeta())
  {
    SlotChanged(sb, v, v', i, src, k);
    OwnerAt(sb, v'.blk, v'.inos, v'.owner, i, k);
    hide Tables, Bits, Synced, OthersSame, Splice, Content, Scattered, FreeSet, Wanted, Addr;
    if Addr(v.blk, v.inos[i], k) == 0 {
      BitmapChanged(sb, v, v', i, src, k);
    }
  }

  lemma SlotsLogged(sb: Super, v: View, v': View, i: nat, src: seq<byte>)
    requires Crowded(sb, v, i) && NoZero(src) && NDIRECT * BSIZE < v.inos[i].size + |src| <= MAXBYTES
    requires Replaced(sb, v, v', i, v.inos[i].size, src) && Adds(v, v', i, Wanted(v.inos[i].size, |src|))
    ensures |Wanted(v.inos[i].size, |src|)| <= |DataIn(sb, v'.logged)|
  {
    hide Inv, Scattered, Adds, Content, Splice, SameFile, FreeSet, Wanted;
    var want := Wanted(v.inos[i].size, |src|);
    forall k | k in want
      ensures k < NSLOT
    {
      SlotLogged(sb, v, v', i, src, k);
    }
    var f := map k | k in want :: Addr(v'.blk, v'.inos[i], k);
    var image := DataIn(sb, v'.logged);
    forall k | k in want
      ensures f[k] in image && f[k] in v'.owner && v'.owner[f[k]] == Slot(i, k)
    {
      SlotLogged(sb, v, v', i, src, k);
    }
    Injection(want, f, image);
  }

  lemma BitmapsLogged(sb: Super, v: View, v': View, i: nat, src: seq<byte>)
    requires Crowded(sb, v, i) && NoZero(src) && NDIRECT * BSIZE < v.inos[i].size + |src| <= MAXBYTES
    requires Replaced(sb, v, v', i, v.inos[i].size, src) && Adds(v, v', i, Wanted(v.inos[i].size, |src|))
    ensures |Missing(v.blk, v.inos[i], Wanted(v.inos[i].size, |src|))|
         <= |BitmapIn(sb, v'.logged)|
  {
    hide Inv, Adds, Content, Splice, SameFile, FreeSet, Wanted;
    var empty := Missing(v.blk, v.inos[i], Wanted(v.inos[i].size, |src|));
    var f := map k | k in empty :: BBlock(sb, Addr(v'.blk, v'.inos[i], k));
    var image := BitmapIn(sb, v'.logged);
    forall k | k in empty
      ensures var a := Addr(v'.blk, v'.inos[i], k);
              f[k] in image && a in FreeSet(sb, v.blk) && a in v'.owner && v'.owner[a] == Slot(i, k)
    {
      SlotLogged(sb, v, v', i, src, k);
    }
    Injection(empty, f, image);
  }
}

/** Disks that satisfy the invariant: the one mkfs makes, and one on which a write logs all that
    WriteCost allows. */
module FsDisks {
  import opened Blocks
  import opened FsCrowded
  import opened FsFile
  import opened FsInv
  import opened FsRoom
  import opened FsSpec
  import opened FsSteps
  import opened FsTrunc
  import opened Param
  import opened Sets

  const T_DIR: nat := 1
  const T_FILE: nat := 2
  const ROOTINO: nat := 1

  /** Inode i, its fields set to those of d but for the block a that it gains in slot k, is written. */
  ghost function WithBlock(sb: Super, v: View, i: nat, k: nat, a: word, d: Dino): View
    requires sb.Valid() && |v.blk| == sb.size && i < |v.inos| == sb.ninodes && d.Valid()
    requires BBlock(sb, a) < |v.blk| && a < |v.blk|
  {
    Layout(sb, i, 0);
    var blk := Allocated(sb, v.blk, a);
    View(blk[IBlock(sb, i) := PutDinode(blk[IBlock(sb, i)], i % IPB, d)], v.inos[i := d], v.owner[a := Slot(i, k)], {})
  }

  lemma BlockAdded(sb: Super, v: View, i: nat, k: nat, a: nat, d: Dino)
    requires Inv(sb, v.blk, v.inos, v.owner, -1) && FreeBlock(sb, v.blk, a) && i < |v.inos| && k < NDIRECT
    requires v.inos[i].Valid() && v.inos[i].addrs[k] == 0 && d.Valid() && d.addrs == v.inos[i].addrs[k := a]
    ensures a < UINT && a !in v.owner && BBlock(sb, a) < |v.blk| && |v.inos| == sb.ninodes
                && sb.Nmeta() <= a < |v.blk| == sb.size
    ensures var v' := WithBlock(sb, v, i, k, a, d);
            Inv(sb, v'.blk, v'.inos, v'.owner, -1) && |v'.blk| == |v.blk| && v'.blk[a] == ZeroBlock()
            && forall b: nat :: sb.Nmeta() <= b < |v.blk| && b != a ==> v'.blk[b] == v.blk[b]
  {
    InvShape(sb, v.blk, v.inos, v.owner, -1);
    FreeIsUnowned(sb, v.blk, v.inos, v.owner, a);
    Layout(sb, i, a);
    assert Inv(sb, v.blk, v.inos, v.owner, i);
    hide Tables, Bits, Synced, InUse, SetBlockBit, PutDinode;
    GrowDirect(sb, v.blk, v.inos, v.owner, i, k, a);
    var blk, inos, owner := Allocated(sb, v.blk, a), v.inos[i := SetAddr(v.inos[i], k, a)], v.owner[a := Slot(i, k)];
    FieldsChange(sb, blk, inos, owner, i, d);
    assert inos[i := d] == v.inos[i := d];
    InodeBlockWrite(sb, blk, v.inos[i := d], owner, i);
  }

  lemma NoFiles(sb: Super) returns (v: View)
    requires sb.Valid()
    ensures Inv(sb, v.blk, v.inos, v.owner, -1) && v.logged == {} && v.owner == map[]
    ensures v.inos == seq(sb.ninodes, _ => NoInode())
    ensures forall b: nat :: sb.Nmeta() <= b < |v.blk| ==> v.blk[b] == ZeroBlock()
  {
    EmptyDisk(sb);
    v := View(Formatted(sb, sb.Nmeta()), seq(sb.ninodes, _ => NoInode()), map[], {});
    forall b: nat | sb.Nmeta() <= b < |v.blk|
      ensures v.blk[b] == ZeroBlock()
    {
      FormattedZero(sb, sb.Nmeta(), b);
    }
  }

  lemma FreeIs(sb: Super, v: View, b: nat)
    requires Inv(sb, v.blk, v.inos, v.owner, -1)
    ensures sb.Valid() && |v.blk| == sb.size
    ensures b in FreeSet(sb, v.blk) <==> FreeBlock(sb, v.blk, b)
    ensures b in FreeSet(sb, v.blk) <==> sb.Nmeta() <= b < sb.size && b !in v.owner
  {
    if b < sb.size {
      Layout(sb, 0, b);
      assert BitOk(sb, v.blk, v.owner.Keys, b);
    }
  }

  /** A root directory of the given size with block a as its only one. */
  function RootInode(a: word, size: word): Dino {
    Dino(T_DIR, 0, 0, 1, size, seq(NDIRECT + 1, _ => 0)[0 := a])
  }

  lemma RootValid(a: word, size: word)
    ensures RootInode(a, size).Valid() && RootInode(a, size).addrs == NoInode().addrs[0 := a] && NoInode().Valid()
  {
  }

  lemma RootContent(blk: seq<Block>, a: word)
    requires 0 < a < |blk|
    ensures var d := RootInode(a, BSIZE); d.Valid() && HoleFree(blk, d) && Content(blk, d) == blk[a].bytes
  {
    forall p: nat | p < BSIZE
      ensures Byte(blk, RootInode(a, BSIZE), p) == blk[a].bytes[p]
    {
    }
  }

  /** mkfs without other files: a root directory with one block, which holds `dots`. */
  lemma RootDisk(sb: Super, dots: Block, size: word) returns (v: View)
    requires sb.Valid() && ROOTINO < sb.ninodes
    ensures Inv(sb, v.blk, v.inos, v.owner, -1) && |v.inos| == sb.ninodes && sb.Valid() && |v.blk| == sb.size
    ensures v.inos == seq(sb.ninodes, _ => NoInode())[ROOTINO := RootInode(sb.Nmeta(), size)]
    ensures 0 < sb.Nmeta() < sb.size && v.blk[sb.Nmeta()] == dots
    ensures forall b: nat :: b in FreeSet(sb, v.blk) <==> sb.Nmeta() < b < sb.size
  {
    hide Inv, FreeSet, FreeBlock, Content, HoleFree, Allocated, PutDinode, Dino.Valid;
    var w := NoFiles(sb);
    var a := sb.Nmeta();
    FreeIs(sb, w, a);
    RootValid(a, size);
    BlockAdded(sb, w, ROOTINO, 0, a, RootInode(a, size));
    var w' := WithBlock(sb, w, ROOTINO, 0, a, RootInode(a, size));
    DataBlockWrite(sb, w'.blk, w'.inos, w'.owner, ROOTINO, 0, dots, -1);
    v := w'.(blk := w'.blk[a := dots]);
    forall b: nat
      ensures b in FreeSet(sb, v.blk) <==> sb.Nmeta() < b < sb.size
    {
      FreeIs(sb, v, b);
    }
  }

  /** What mkfs makes when given no files satisfies the invariant, and has no holes. */
  lemma NewDisk(sb: Super, dots: Block) returns (v: View)
    requires sb.Valid() && ROOTINO < sb.ninodes
    ensures Inv(sb, v.blk, v.inos, v.owner, -1) && |v.inos| == sb.ninodes && sb.Valid() && |v.blk| == sb.size
    ensures v.inos == seq(sb.ninodes, _ => NoInode())[ROOTINO := RootInode(sb.Nmeta(), BSIZE)]
    ensures HoleFree(v.blk, v.inos[ROOTINO]) && Content(v.blk, v.inos[ROOTINO]) == dots.bytes
    ensures forall b: nat :: b in FreeSet(sb, v.blk) <==> sb.Nmeta() < b < sb.size
  {
    hide Inv, FreeSet, Content, HoleFree;
    v := RootDisk(sb, dots, BSIZE);
    RootContent(v.blk, sb.Nmeta());
  }

  /** A root directory whose entries fill its block gets the size of two: mkfs rounds sizes up past
      the end. Any write into the second block then goes through, but leaves the inode on disk
      without the block: a case of InodeLeft. */
  lemma RootHole(sb: Super, dots: Block) returns (v: View)
    requires sb.Valid() && ROOTINO < sb.ninodes && sb.Nmeta() + 1 < sb.size
    ensures Inv(sb, v.blk, v.inos, v.owner, -1) && |v.inos| == sb.ninodes
    ensures v.inos[ROOTINO] == RootInode(sb.Nmeta(), 2 * BSIZE) && v.inos[ROOTINO].Valid()
    ensures forall off: nat, n: nat :: BSIZE <= off && 0 < n && off + n <= 2 * BSIZE ==>
              Owed(v.inos[ROOTINO], ROOTINO, off, n) == ROOTINO && !TooFull(sb, v, ROOTINO, off, n)
  {
    v := RootDisk(sb, dots, 2 * BSIZE);
    RootValid(sb.Nmeta(), 2 * BSIZE);
    assert sb.Nmeta() + 1 in FreeSet(sb, v.blk);
    hide Inv, FreeSet;
    forall off: nat, n: nat | BSIZE <= off && 0 < n && off + n <= 2 * BSIZE
      ensures Owed(v.inos[ROOTINO], ROOTINO, off, n) == ROOTINO && !TooFull(sb, v, ROOTINO, off, n)
    {
      SecondBlock(off, n);
      assert NewAddr(v.inos[ROOTINO], off, n);
      assert Missing(v.blk, v.inos[ROOTINO], Wanted(off, n)) <= {1};
      Smaller(Missing(v.blk, v.inos[ROOTINO], Wanted(off, n)), {1});
      Smaller({sb.Nmeta() + 1}, FreeSet(sb, v.blk));
    }
  }

  lemma SecondBlock(off: nat, n: nat)
    requires BSIZE <= off && 0 < n && off + n <= 2 * BSIZE
    ensures Wanted(off, n) == {1}
  {
    assert off / BSIZE == 1 && (off + n - 1) / BSIZE == 1;
    forall k: nat
      ensures k in Wanted(off, n) <==> k == 1
    {
      assert k in Wanted(off, n) <==> k < NSLOT && Wants(off, n, k);
    }
  }

  // ---------- a crowded disk

  /** Blocks of the file of inode j when n blocks are dealt out, NDIRECT to each file. */
  function Share(n: nat, j: nat): nat {
    if n >= NDIRECT * (j + 1) then NDIRECT else if n >= NDIRECT * j then n - NDIRECT * j else 0
  }

  /** An inode with m direct blocks. */
  ghost predicate Direct(d: Dino, m: nat) {
    && d.Valid() && d.size == m * BSIZE
    && forall k :: 0 <= k <= NDIRECT ==> (d.addrs[k] != 0 <==> k < m)
  }

  /** The data blocks before c, but for those of `free`, are dealt out; all hold zeros. */
  ghost predicate Dealt(sb: Super, v: View, free: set<nat>, c: nat) {
    && Inv(sb, v.blk, v.inos, v.owner, -1) && v.logged == {} && |v.owner| <= c - sb.Nmeta()
    && (forall b: nat :: b in v.owner <==> sb.Nmeta() <= b < c && b !in free)
    && (forall b: nat :: sb.Nmeta() <= b < |v.blk| ==> v.blk[b] == ZeroBlock())
    && (forall j: nat :: j < |v.inos| ==> Direct(v.inos[j], Share(|v.owner|, j)))
  }

  /** d with block a in slot k, the end of the file. */
  function Longer(d: Dino, k: nat, a: word): Dino
    requires d.Valid() && k < NDIRECT
  {
    Dino(T_FILE, 0, 0, 1, (k + 1) * BSIZE, d.addrs[k := a])
  }

  lemma DealtNext(sb: Super, v: View, free: set<nat>, c: nat) returns (v': View)
    requires Dealt(sb, v, free, c) && c < sb.size && c !in free && sb.nblocks <= NDIRECT * sb.ninodes
    ensures Dealt(sb, v', free, c + 1)
  {
    hide Inv, Share, Allocated, PutDinode, FreeSet, FreeBlock, Super.Valid, Longer;
    var n := |v.owner|;
    var j, k := n / NDIRECT, n % NDIRECT;
    InvShape(sb, v.blk, v.inos, v.owner, -1);
    FileExists(n, c - sb.Nmeta(), sb.nblocks, sb.ninodes);
    ShareNext(n, j);
    assert Direct(v.inos[j], k);
    FreeIs(sb, v, c);
    var d := Longer(v.inos[j], k, c);
    LongerIs(v.inos[j], k, c);
    hide Direct;
    BlockAdded(sb, v, j, k, c, d);
    v' := WithBlock(sb, v, j, k, c, d);
    DirectNext(v.inos, v'.inos, n, n + 1, d);
  }

  lemma FileExists(n: nat, used: int, nblocks: nat, ninodes: nat)
    requires n <= used < nblocks <= NDIRECT * ninodes
    ensures n / NDIRECT < ninodes
  {
  }

  lemma LongerIs(d: Dino, k: nat, a: word)
    requires Direct(d, k) && k < NDIRECT && a != 0
    ensures d.addrs[k] == 0 && Direct(Longer(d, k, a), k + 1) && Longer(d, k, a).addrs == d.addrs[k := a]
  {
  }

  lemma DirectNext(inos: seq<Dino>, inos': seq<Dino>, n: nat, n': nat, d: Dino)
    requires n / NDIRECT < |inos| && inos' == inos[n / NDIRECT := d] && n' == n + 1 && Direct(d, n % NDIRECT + 1)
    requires forall m: nat :: m < |inos| ==> Direct(inos[m], Share(n, m))
    ensures forall m: nat :: m < |inos'| ==> Direct(inos'[m], Share(n', m))
  {
    hide Direct, Share;
    forall m: nat | m < |inos'|
      ensures Direct(inos'[m], Share(n', m))
    {
      assert Direct(inos[m], Share(n, m));
      ShareNext(n, m);
    }
  }

  lemma ShareNext(n: nat, m: nat)
    ensures m == n / NDIRECT ==> Share(n, m) == n % NDIRECT
    ensures Share(n + 1, m) == if m == n / NDIRECT then n % NDIRECT + 1 else Share(n, m)
  {
    assert n == NDIRECT * (n / NDIRECT) + n % NDIRECT;
    if m < n / NDIRECT {
      assert NDIRECT * (m + 1) <= NDIRECT * (n / NDIRECT);
    } else if m > n / NDIRECT {
      assert NDIRECT * m >= NDIRECT * (n / NDIRECT + 1);
    }
  }

  lemma DealtSkip(sb: Super, v: View, free: set<nat>, c: nat)
    requires Dealt(sb, v, free, c) && c in free
    ensures Dealt(sb, v, free, c + 1)
  {
    hide Inv, Direct;
  }

  lemma NoneDealt(sb: Super, free: set<nat>) returns (v: View)
    requires sb.Valid()
    ensures Dealt(sb, v, free, sb.Nmeta())
  {
    hide Inv;
    v := NoFiles(sb);
    forall j: nat | j < |v.inos|
      ensures Direct(v.inos[j], Share(0, j))
    {
    }
  }

  lemma {:induction false} DealtTo(sb: Super, free: set<nat>, c: nat) returns (v: View)
    requires sb.Valid() && sb.Nmeta() <= c <= sb.size && sb.nblocks <= NDIRECT * sb.ninodes
    ensures Dealt(sb, v, free, c)
    decreases c
  {
    hide Dealt;
    if c == sb.Nmeta() {
      v := NoneDealt(sb, free);
    } else {
      v := DealtTo(sb, free, c - 1);
      if c - 1 in free {
        DealtSkip(sb, v, free, c - 1);
      } else {
        v := DealtNext(sb, v, free, c - 1);
      }
    }
  }

  /** Inode i of a disk whose blocks are all dealt out, with its fields set to those of d. */
  lemma Resized(sb: Super, w: View, free: set<nat>, i: nat, d: Dino) returns (v: View)
    requires Dealt(sb, w, free, sb.size) && Scattered(sb, free) && forall b :: b in free ==> sb.Nmeta() <= b < sb.size
    requires i < |w.inos| && d.Valid() && d.addrs == w.inos[i].addrs
    requires (NDIRECT - 1) * BSIZE < d.size <= NDIRECT * BSIZE
    ensures Crowded(sb, v, i) && v.inos[i] == d && FreeSet(sb, v.blk) == free
  {
    hide Scattered, FreeSet, Inv, Share;
    v := Rewritten(sb, w, i, d);
    assert Direct(w.inos[i], Share(|w.owner|, i));
    ShareFits(|w.owner|, i);
    DealtFree(sb, w, v, free);
  }

  lemma ShareFits(n: nat, j: nat)
    ensures 0 <= Share(n, j) <= NDIRECT
    ensures NDIRECT * (j + 1) <= n ==> Share(n, j) == NDIRECT
    ensures n <= NDIRECT * j ==> Share(n, j) == 0
  {
  }

  /** iupdate with other fields. */
  lemma Rewritten(sb: Super, w: View, i: nat, d: Dino) returns (v: View)
    requires Inv(sb, w.blk, w.inos, w.owner, -1) && i < |w.inos| && d.Valid() && d.addrs == w.inos[i].addrs
    ensures Inv(sb, v.blk, v.inos, v.owner, -1) && v.inos == w.inos[i := d] && v.owner == w.owner && v.logged == {}
    ensures sb.Valid() && |v.blk| == |w.blk| == sb.size
    ensures forall b :: sb.Nmeta() <= b < |w.blk| ==> v.blk[b] == w.blk[b]
  {
    hide Inv, PutDinode;
    InvShape(sb, w.blk, w.inos, w.owner, -1);
    InvExcept(sb, w.blk, w.inos, w.owner, i);
    FieldsChange(sb, w.blk, w.inos, w.owner, i, d);
    var inos, x := w.inos[i := d], IBlock(sb, i);
    Layout(sb, i, 0);
    InodeBlockWrite(sb, w.blk, inos, w.owner, i);
    v := View(w.blk[x := PutDinode(w.blk[x], i % IPB, d)], inos, w.owner, {});
  }

  lemma DealtFree(sb: Super, w: View, v: View, free: set<nat>)
    requires Dealt(sb, w, free, sb.size) && forall b :: b in free ==> sb.Nmeta() <= b < sb.size
    requires Inv(sb, v.blk, v.inos, v.owner, -1) && v.owner == w.owner && sb.Valid() && |v.blk| == sb.size
    ensures FreeSet(sb, v.blk) == free
  {
    hide FreeSet, Inv, Direct, FreeBlock;
    forall b: nat
      ensures b in FreeSet(sb, v.blk) <==> b in free
    {
      FreeIs(sb, v, b);
    }
  }

  lemma InvExcept(sb: Super, blk: seq<Block>, inos: seq<Dino>, owner: map<nat, Slot>, i: nat)
    requires Inv(sb, blk, inos, owner, -1)
    ensures Inv(sb, blk, inos, owner, i)
  {
  }

  /** A disk with 132 bitmap blocks and an inode for every NDIRECT data blocks. */
  const LARGE: Super := Super(132 * BPB, 132 * BPB - 5796, 132 * BPB / NDIRECT, 2 + LOGSIZE, 5664)

  const FULL: nat := 2
  const HOLE: nat := LARGE.ninodes - 1

  /** Its first block, the second, and so on, as the bitmap blocks count them, from the third on. */
  ghost function Sparse(): set<nat> {
    set b | b in Range(2 * BPB, LARGE.size) && b % BPB == 0
  }

  lemma LargeIsValid()
    ensures LARGE.Valid() && LARGE.nblocks <= NDIRECT * LARGE.ninodes && LARGE.Nmeta() == 5796
    ensures FULL < HOLE < LARGE.ninodes && LARGE.nblocks <= NDIRECT * HOLE
    ensures forall b :: b in Sparse() ==> LARGE.Nmeta() + NDIRECT * (FULL + 1) <= b < LARGE.size
  {
    assert LOGSIZE == 30 && BPB == 4096;
  }

  lemma SparseCount()
    ensures |Sparse()| >= NINDIRECT + 2
  {
    var slots := Range(0, NINDIRECT + 2);
    var f := map k | k in slots :: BPB * (k + 2);
    forall k | k in slots
      ensures f[k] in Sparse()
    {
      assert BPB == 4096 && f[k] % BPB == 0;
    }
    hide Sparse;
    Injection(slots, f, Sparse());
  }

  lemma SparseScattered()
    ensures Scattered(LARGE, Sparse())
  {
    forall a, b | a in Sparse() && b in Sparse() && BBlock(LARGE, a) == BBlock(LARGE, b)
      ensures a == b
    {
      assert a == BPB * (a / BPB) && b == BPB * (b / BPB);
    }
  }

  /** A file of `size` bytes on a crowded disk with a free block for each of the slots that are left:
      with its direct blocks, or with none. */
  lemma CrowdedDisk(size: nat, i: nat) returns (v: View)
    requires (NDIRECT - 1) * BSIZE < size <= NDIRECT * BSIZE && (i == FULL || i == HOLE)
    ensures Crowded(LARGE, v, i) && v.inos[i].size == size && v.inos[i].typ == T_FILE
    ensures FirstMapped(v.blk, v.inos[i], size) <==> i == FULL && size < NDIRECT * BSIZE
    ensures forall n: nat :: NDIRECT * BSIZE < size + n <= MAXBYTES ==> !TooFull(LARGE, v, i, size, n)
  {
    hide Crowded, Dealt, Scattered, Sparse, TooFull, Missing, Wanted, FirstMapped;
    LargeIsValid();
    SparseCount();
    SparseScattered();
    var w := DealtTo(LARGE, Sparse(), LARGE.size);
    var d := DealtFile(LARGE, w, Sparse(), i, size);
    v := Resized(LARGE, w, Sparse(), i, d);
    LastDirect(v.blk, d);
    forall n: nat | NDIRECT * BSIZE < size + n <= MAXBYTES
      ensures !TooFull(LARGE, v, i, size, n)
    {
      RoomForAll(LARGE, v, i, n);
    }
  }

  lemma LastDirect(blk: seq<Block>, d: Dino)
    requires d.Valid() && (NDIRECT - 1) * BSIZE < d.size <= NDIRECT * BSIZE && d.addrs[NDIRECT] == 0
    ensures FirstMapped(blk, d, d.size) <==> d.size < NDIRECT * BSIZE && d.addrs[NDIRECT - 1] != 0
  {
    assert d.size / BSIZE == if d.size < NDIRECT * BSIZE then NDIRECT - 1 else NDIRECT;
  }

  lemma RoomForAll(sb: Super, v: View, i: nat, n: nat)
    requires Crowded(sb, v, i) && NDIRECT * BSIZE < v.inos[i].size + n <= MAXBYTES
    requires |FreeSet(sb, v.blk)| >= NINDIRECT + 2
    ensures !TooFull(sb, v, i, v.inos[i].size, n)
  {
    hide Inv, FreeSet, Missing, Wanted, Scattered, FirstMapped, WriteCost;
    AppendSlots(sb, v, i, n);
  }

  /** The first blocks are all dealt out, so the first files have all their direct blocks; files too
      far on have none. */
  lemma DealtFile(sb: Super, v: View, free: set<nat>, i: nat, size: nat) returns (d: Dino)
    requires Dealt(sb, v, free, sb.size) && size < UINT && i < sb.ninodes
    requires sb.nblocks > NDIRECT * i ==>
               sb.Nmeta() + NDIRECT * (i + 1) <= sb.size
               && forall b :: b in free ==> sb.Nmeta() + NDIRECT * (i + 1) <= b < sb.size
    ensures i < |v.inos| && v.inos[i].Valid()
    ensures d == Dino(T_FILE, 0, 0, 1, size, v.inos[i].addrs) && d.Valid() && d.addrs[NDIRECT] == 0
    ensures d.addrs[NDIRECT - 1] != 0 <==> sb.nblocks > NDIRECT * i
  {
    hide Inv, Share;
    InvShape(sb, v.blk, v.inos, v.owner, -1);
    if sb.nblocks > NDIRECT * i {
      var first := Range(sb.Nmeta(), sb.Nmeta() + NDIRECT * (i + 1));
      assert first <= v.owner.Keys;
      Smaller(first, v.owner.Keys);
    }
    assert Direct(v.inos[i], Share(|v.owner|, i));
    ShareFits(|v.owner|, i);
    d := Dino(T_FILE, 0, 0, 1, size, v.inos[i].addrs);
  }

  // ---------- what truncations log

  /** How many bitmap blocks have bits of data blocks. */
  function DataBitmaps(sb: Super): int {
    (sb.size - 1) / BPB - sb.Nmeta() / BPB + 1
  }

  /** The first data block whose bit is in the j-th of them. */
  function FirstUnder(sb: Super, j: nat): int {
    if j == 0 then sb.Nmeta() else (sb.Nmeta() / BPB + j) * BPB
  }

  lemma FirstUnderIs(sb: Super, j: nat)
    requires sb.Valid() && j < DataBitmaps(sb)
    ensures 0 < sb.Nmeta() <= FirstUnder(sb, j) < sb.size
    ensures FirstUnder(sb, j) / BPB == sb.Nmeta() / BPB + j
  {
    if j > 0 {
      Under(sb.Nmeta(), sb.size - 1, j);
    }
  }

  lemma Under(x: nat, y: nat, j: nat)
    requires 0 < j && x / BPB + j <= y / BPB
    ensures x < (x / BPB + j) * BPB <= y && (x / BPB + j) * BPB / BPB == x / BPB + j
  {
    assert BPB == 4096;
  }

  /** The file of inode 0 has m blocks, each under another bitmap block. */
  ghost predicate Spread(sb: Super, v: View, m: nat) {
    && Inv(sb, v.blk, v.inos, v.owner, -1) && 0 < |v.inos| && Direct(v.inos[0], m)
    && (forall b :: b in v.owner <==> exists j: nat :: j < m && b == FirstUnder(sb, j))
    && (forall b :: b in v.owner ==> v.owner[b].i == 0)
  }

  lemma SpreadNone(sb: Super) returns (v: View)
    requires sb.Valid()
    ensures Spread(sb, v, 0)
  {
    hide Inv;
    v := NoFiles(sb);
  }

  lemma SpreadNext(sb: Super, v: View, m: nat) returns (v': View)
    requires sb.Valid() && Spread(sb, v, m) && m < NDIRECT && m < DataBitmaps(sb)
    ensures Spread(sb, v', m + 1)
  {
    hide Inv, Allocated, PutDinode, FreeSet, FreeBlock, Super.Valid, Longer, FirstUnder;
    var a := FirstUnder(sb, m);
    FirstUnderIs(sb, m);
    forall j: nat | j < m
      ensures FirstUnder(sb, j) != a
    {
      FirstUnderIs(sb, j);
    }
    FreeIs(sb, v, a);
    LongerIs(v.inos[0], m, a);
    var d := Longer(v.inos[0], m, a);
    hide Direct;
    BlockAdded(sb, v, 0, m, a, d);
    v' := WithBlock(sb, v, 0, m, a, d);
    forall b
      ensures b in v'.owner <==> exists j: nat :: j < m + 1 && b == FirstUnder(sb, j)
    {
      if b in v.owner {
        var j: nat :| j < m && b == FirstUnder(sb, j);
        assert j < m + 1;
      }
    }
  }

  lemma {:induction false} SpreadTo(sb: Super, m: nat) returns (v: View)
    requires sb.Valid() && m <= NDIRECT && m <= DataBitmaps(sb)
    ensures Spread(sb, v, m)
  {
    hide Spread;
    if m == 0 {
      v := SpreadNone(sb);
    } else {
      v := SpreadTo(sb, m - 1);
      v := SpreadNext(sb, v, m - 1);
    }
  }

  lemma SpreadBits(sb: Super, v: View, m: nat)
    requires sb.Valid() && Spread(sb, v, m) && m <= DataBitmaps(sb)
    ensures |TruncBits(sb, v.owner, 0)| >= m
  {
    hide Inv, Direct, FirstUnder;
    var slots := Range(0, m);
    var f := map j | j in slots :: FirstUnder(sb, j) / BPB + sb.bmapstart;
    forall j: nat | j in slots
      ensures f[j] in TruncBits(sb, v.owner, 0) && f[j] == sb.Nmeta() / BPB + j + sb.bmapstart
    {
      FirstUnderIs(sb, j);
      assert FirstUnder(sb, j) in v.owner;
    }
    Injection(slots, f, TruncBits(sb, v.owner, 0));
  }

  /** The blocks that a truncation of inode i logs. */
  ghost function TruncLog(sb: Super, owner: map<nat, Slot>, i: nat): set<nat> {
    TruncBits(sb, owner, i) + {IBlock(sb, i)}
  }

  /** What itrunc asks for. */
  ghost predicate CanTrunc(sb: Super, v: View, i: nat) {
    Inv(sb, v.blk, v.inos, v.owner, i) && i < |v.inos|
  }

  lemma BitmapRange(sb: Super)
    requires sb.Valid()
    ensures 0 <= sb.Nmeta() / BPB <= (sb.size - 1) / BPB
    ensures DataBitmaps(sb) == (sb.size - 1) / BPB + sb.bmapstart + 1 - (sb.Nmeta() / BPB + sb.bmapstart)
  {
    assert BPB == 4096;
  }

  lemma OwnedUnder(sb: Super, v: View, b: nat)
    requires b in v.owner && Inv(sb, v.blk, v.inos, v.owner, v.owner[b].i)
    ensures sb.Nmeta() / BPB <= b / BPB <= (sb.size - 1) / BPB
  {
    hide Bits, Synced;
    assert OwnerOk(sb, v.blk, v.inos, v.owner[b], b);
    assert BPB == 4096;
  }

  lemma TruncAtMost(sb: Super, v: View, i: nat)
    requires CanTrunc(sb, v, i)
    ensures sb.Valid() && |TruncLog(sb, v.owner, i)| <= DataBitmaps(sb) + 1
  {
    hide Inv, DataBitmaps;
    InvShape(sb, v.blk, v.inos, v.owner, i);
    BitmapRange(sb);
    var lo, hi := sb.Nmeta() / BPB + sb.bmapstart, (sb.size - 1) / BPB + sb.bmapstart + 1;
    forall x | x in TruncBits(sb, v.owner, i)
      ensures x in Range(lo, hi)
    {
      var b: nat :| b in v.owner && v.owner[b].i == i && x == BBlock(sb, b);
      OwnedUnder(sb, v, b);
    }
    Smaller(TruncBits(sb, v.owner, i), Range(lo, hi));
  }

  /** Every truncation stays within MAXOPBLOCKS if and only if the data blocks have their bits in
      fewer bitmap blocks than that. */
  lemma TruncFits(sb: Super)
    requires sb.Valid()
    ensures (forall v: View, i: nat :: CanTrunc(sb, v, i) ==> |TruncLog(sb, v.owner, i)| <= MAXOPBLOCKS) <==>
            DataBitmaps(sb) < MAXOPBLOCKS
  {
    if DataBitmaps(sb) < MAXOPBLOCKS {
      forall v: View, i: nat | CanTrunc(sb, v, i)
        ensures |TruncLog(sb, v.owner, i)| <= MAXOPBLOCKS
      {
        TruncAtMost(sb, v, i);
      }
    } else {
      var v := SpreadTo(sb, MAXOPBLOCKS);
      SpreadBits(sb, v, MAXOPBLOCKS);
      InvExcept(sb, v.blk, v.inos, v.owner, 0);
      SpreadCost(sb, v);
      assert CanTrunc(sb, v, 0);
    }
  }

  lemma SpreadCost(sb: Super, v: View)
    requires Inv(sb, v.blk, v.inos, v.owner, 0) && 0 < |v.inos|
    ensures |TruncLog(sb, v.owner, 0)| == |TruncBits(sb, v.owner, 0)| + 1
  {
    hide Bits, Synced;
    if IBlock(sb, 0) in TruncBits(sb, v.owner, 0) {
      var b: nat :| b in v.owner && v.owner[b].i == 0 && IBlock(sb, 0) == BBlock(sb, b);
      assert OwnerOk(sb, v.blk, v.inos, v.owner[b], b);
      Layout(sb, 0, b);
    }
  }
}

/** The free bitmap and the block maps of all inodes, and the invariant that ties them:
    a block is in use exactly when it is metadata or stands in one slot of one inode. */
module FsInv {
  import opened Blocks
  import opened FsSpec
  import opened Param

  datatype Super = Super(size: nat, nblocks: nat, ninodes: nat, inodestart: nat, bmapstart: nat) {
    function Nmeta(): int {
      size - nblocks
    }

    /** Boot, super and log blocks, then inode blocks, then bitmap blocks, then data. */
    ghost predicate Valid() {
      && nblocks <= size < UINT && 0 < ninodes < UINT && 2 <= inodestart
      && (ninodes - 1) / IPB + inodestart < bmapstart < Nmeta() < size
      && (size - 1) / BPB + bmapstart < Nmeta()
    }
  }

  /** IBLOCK and BBLOCK. */
  function IBlock(sb: Super, inum: nat): nat {
    inum / IPB + sb.inodestart
  }

  function BBlock(sb: Super, b: nat): nat {
    b / BPB + sb.bmapstart
  }

  lemma Layout(sb: Super, inum: nat, b: nat)
    requires sb.Valid() && inum < sb.ninodes && b < sb.size
    ensures 2 <= IBlock(sb, inum) < sb.bmapstart <= BBlock(sb, b) < sb.Nmeta()
  {
    assert inum / IPB <= (sb.ninodes - 1) / IPB;
    assert b / BPB <= (sb.size - 1) / BPB;
  }

  // ---------- slots

  /** Slots of an inode: 0 .. NDIRECT-1 direct, NDIRECT the indirect block, then its entries. */
  const NSLOT: nat := NDIRECT + 1 + NINDIRECT

  function DataSlot(bn: nat): nat {
    if bn < NDIRECT then bn else bn + 1
  }

  /** The block number in slot k, 0 if none. */
  function Addr(blk: seq<Block>, d: Dino, k: nat): nat
    requires |d.addrs| == NDIRECT + 1 && k < NSLOT
  {
    if k <= NDIRECT then d.addrs[k]
    else if d.addrs[NDIRECT] == 0 || d.addrs[NDIRECT] >= |blk| then 0
    else Word(blk[d.addrs[NDIRECT]], k - NDIRECT - 1)
  }

  datatype Slot = Slot(i: nat, k: nat)

  /** `owner` names, for each block in a slot of an inode, that slot: no block is in two. */
  ghost predicate Tables(sb: Super, blk: seq<Block>, inos: seq<Dino>, owner: map<nat, Slot>) {
    && sb.Valid() && |blk| == sb.size && |inos| == sb.ninodes
    && (forall i :: 0 <= i < |inos| ==> inos[i].Valid())
    && (forall i: nat, k: nat :: i < |inos| && k < NSLOT ==> InSlot(blk, inos[i], owner, i, k))
    && (forall b :: b in owner ==> OwnerOk(sb, blk, inos, owner[b], b))
  }

  ghost predicate InSlot(blk: seq<Block>, d: Dino, owner: map<nat, Slot>, i: nat, k: nat)
    requires d.Valid() && k < NSLOT
  {
    var a := Addr(blk, d, k);
    a != 0 ==> a in owner && owner[a] == Slot(i, k)
  }

  ghost predicate OwnerOk(sb: Super, blk: seq<Block>, inos: seq<Dino>, o: Slot, b: nat)
    requires |inos| == sb.ninodes && forall i :: 0 <= i < |inos| ==> inos[i].Valid()
  {
    sb.Nmeta() <= b < sb.size && o.i < |inos| && o.k < NSLOT && inos[o.i].Valid() && Addr(blk, inos[o.i], o.k) == b
  }

  predicate InUse(sb: Super, blk: seq<Block>, b: nat)
    requires BBlock(sb, b) < |blk|
  {
    BlockBit(blk[BBlock(sb, b)], b % BPB)
  }

  /** The set bits of the bitmap are the metadata blocks and the blocks of `live`. */
  ghost predicate Bits(sb: Super, blk: seq<Block>, live: set<nat>)
    requires sb.Valid() && |blk| == sb.size
  {
    forall b: nat :: b < sb.size ==> BitOk(sb, blk, live, b)
  }

  ghost predicate BitOk(sb: Super, blk: seq<Block>, live: set<nat>, b: nat)
    requires sb.Valid() && |blk| == sb.size && b < sb.size
  {
    Layout(sb, 0, b);
    InUse(sb, blk, b) <==> b < sb.Nmeta() || b in live
  }

  /** The inode blocks hold the inodes, but for the one being worked on. */
  ghost predicate Synced(sb: Super, blk: seq<Block>, inos: seq<Dino>, except: int)
    requires sb.Valid() && |blk| == sb.size && |inos| == sb.ninodes
  {
    forall i: nat :: i < |inos| && i != except ==> OnDisk(sb, blk, inos[i], i)
  }

  ghost predicate OnDisk(sb: Super, blk: seq<Block>, d: Dino, i: nat)
    requires sb.Valid() && |blk| == sb.size && i < sb.ninodes
  {
    Layout(sb, i, 0);
    DinodeOf(blk[IBlock(sb, i)], i % IPB) == d
  }

  ghost predicate Inv(sb: Super, blk: seq<Block>, inos: seq<Dino>, owner: map<nat, Slot>, except: int) {
    Tables(sb, blk, inos, owner) && Bits(sb, blk, owner.Keys) && Synced(sb, blk, inos, except)
  }

  // ---------- conservation, without the owner map

  ghost predicate Names(blk: seq<Block>, inos: seq<Dino>, s: Slot, b: nat) {
    s.i < |inos| && s.k < NSLOT && inos[s.i].Valid() && Addr(blk, inos[s.i], s.k) == b
  }

  ghost predicate InFile(blk: seq<Block>, inos: seq<Dino>, b: nat) {
    exists s :: Names(blk, inos, s, b)
  }

  ghost function SlotOf(blk: seq<Block>, inos: seq<Dino>, b: nat): Slot
    requires InFile(blk, inos, b)
  {
    var s :| Names(blk, inos, s, b);
    s
  }

  /** The set bits of the bitmap are the metadata blocks and, each in one slot of one inode, the
      blocks of the inodes. */
  ghost predicate Conserved(sb: Super, blk: seq<Block>, inos: seq<Dino>)
    requires sb.Valid() && |blk| == sb.size
  {
    && (forall b: nat :: b < sb.size ==> BitNamed(sb, blk, inos, b))
    && (forall s, t, b: nat :: b != 0 && Names(blk, inos, s, b) && Names(blk, inos, t, b) ==> s == t)
    && (forall s, b: nat :: b != 0 && Names(blk, inos, s, b) ==> sb.Nmeta() <= b < sb.size)
  }

  ghost predicate BitNamed(sb: Super, blk: seq<Block>, inos: seq<Dino>, b: nat)
    requires sb.Valid() && |blk| == sb.size && b < sb.size
  {
    Layout(sb, 0, b);
    InUse(sb, blk, b) <==> b < sb.Nmeta() || InFile(blk, inos, b)
  }

  /** The owner map of the invariant says no more than that blocks are conserved. */
  lemma ConservedIsOwned(sb: Super, blk: seq<Block>, inos: seq<Dino>)
    requires sb.Valid() && |blk| == sb.size && |inos| == sb.ninodes && forall i :: 0 <= i < |inos| ==> inos[i].Valid()
    ensures Conserved(sb, blk, inos) <==> exists owner :: Tables(sb, blk, inos, owner) && Bits(sb, blk, owner.Keys)
  {
    if Conserved(sb, blk, inos) {
      var owner := map b: nat | 0 < b < sb.size && InFile(blk, inos, b) :: SlotOf(blk, inos, b);
      forall i: nat, k: nat | i < |inos| && k < NSLOT
        ensures InSlot(blk, inos[i], owner, i, k)
      {
        var a := Addr(blk, inos[i], k);
        assert Names(blk, inos, Slot(i, k), a);
      }
      forall b | b in owner
        ensures OwnerOk(sb, blk, inos, owner[b], b)
      {
        assert Names(blk, inos, owner[b], b);
      }
      forall b: nat | b < sb.size
        ensures BitOk(sb, blk, owner.Keys, b)
      {
        assert BitNamed(sb, blk, inos, b);
      }
      assert Tables(sb, blk, inos, owner) && Bits(sb, blk, owner.Keys);
    }
    if exists owner :: Tables(sb, blk, inos, owner) && Bits(sb, blk, owner.Keys) {
      var owner :| Tables(sb, blk, inos, owner) && Bits(sb, blk, owner.Keys);
      OwnedIsConserved(sb, blk, inos, owner);
    }
  }

  lemma OwnedIsConserved(sb: Super, blk: seq<Block>, inos: seq<Dino>, owner: map<nat, Slot>)
    requires Tables(sb, blk, inos, owner) && Bits(sb, blk, owner.Keys)
    ensures Conserved(sb, blk, inos)
  {
    forall s, b: nat | b != 0 && Names(blk, inos, s, b)
      ensures b in owner && owner[b] == s && sb.Nmeta() <= b < sb.size
    {
      OwnerAt(sb, blk, inos, owner, s.i, s.k);
    }
    forall b: nat | b < sb.size
      ensures BitNamed(sb, blk, inos, b)
    {
      assert BitOk(sb, blk, owner.Keys, b);
      if b in owner {
        assert OwnerOk(sb, blk, inos, owner[b], b);
        assert Names(blk, inos, owner[b], b);
      }
    }
  }

  // ---------- what one block write leaves alone

  lemma OwnerAt(sb: Super, blk: seq<Block>, inos: seq<Dino>, owner: map<nat, Slot>, i: nat, k: nat)
    requires Tables(sb, blk, inos, owner) && i < |inos| && k < NSLOT && Addr(blk, inos[i], k) != 0
    ensures var a := Addr(blk, inos[i], k); a in owner && owner[a] == Slot(i, k) && sb.Nmeta() <= a < sb.size
  {
    assert InSlot(blk, inos[i], owner, i, k);
    var a := Addr(blk, inos[i], k);
    assert OwnerOk(sb, blk, inos, owner[a], a);
  }

  /** Slots do not change when no indirect block does. */
  lemma AddrFrame(sb: Super, blk: seq<Block>, blk': seq<Block>, inos: seq<Dino>, owner: map<nat, Slot>, i: nat, k: nat)
    requires Tables(sb, blk, inos, owner) && |blk'| == |blk| && i < |inos| && k < NSLOT
    requires forall b :: b in owner && owner[b].k == NDIRECT && b < |blk| ==> blk'[b] == blk[b]
    ensures Addr(blk', inos[i], k) == Addr(blk, inos[i], k)
  {
    if k > NDIRECT && inos[i].addrs[NDIRECT] != 0 {
      OwnerAt(sb, blk, inos, owner, i, NDIRECT);
    }
  }

  lemma TablesFrame(sb: Super, blk: seq<Block>, blk': seq<Block>, inos: seq<Dino>, owner: map<nat, Slot>)
    requires Tables(sb, blk, inos, owner) && |blk'| == |blk|
    requires forall b :: b in owner && owner[b].k == NDIRECT && b < |blk| ==> blk'[b] == blk[b]
    ensures Tables(sb, blk', inos, owner)
  {
    forall i: nat, k: nat | i < |inos| && k < NSLOT
      ensures InSlot(blk', inos[i], owner, i, k)
    {
      AddrFrame(sb, blk, blk', inos, owner, i, k);
      assert InSlot(blk, inos[i], owner, i, k);
    }
    forall b | b in owner
      ensures OwnerOk(sb, blk', inos, owner[b], b)
    {
      assert OwnerOk(sb, blk, inos, owner[b], b);
      AddrFrame(sb, blk, blk', inos, owner, owner[b].i, owner[b].k);
    }
  }

  lemma BitsFrame(sb: Super, blk: seq<Block>, blk': seq<Block>, live: set<nat>)
    requires sb.Valid() && |blk| == |blk'| == sb.size && Bits(sb, blk, live)
    requires forall b :: sb.bmapstart <= b < sb.Nmeta() ==> blk'[b] == blk[b]
    ensures Bits(sb, blk', live)
  {
    forall b: nat | b < sb.size
      ensures BitOk(sb, blk', live, b)
    {
      Layout(sb, 0, b);
      assert BitOk(sb, blk, live, b);
    }
  }

  lemma SyncedFrame(sb: Super, blk: seq<Block>, blk': seq<Block>, inos: seq<Dino>, except: int)
    requires sb.Valid() && |blk| == |blk'| == sb.size && |inos| == sb.ninodes && Synced(sb, blk, inos, except)
    requires forall b :: sb.inodestart <= b < sb.bmapstart ==> blk'[b] == blk[b]
    ensures Synced(sb, blk', inos, except)
  {
    forall i: nat | i < |inos| && i != except
      ensures OnDisk(sb, blk', inos[i], i)
    {
      Layout(sb, i, 0);
      assert OnDisk(sb, blk, inos[i], i);
    }
  }

  // ---------- bitmap updates

  /** The block store with the bit of b switched. */
  function WithUse(sb: Super, blk: seq<Block>, b: nat, on: bool): seq<Block>
    requires BBlock(sb, b) < |blk|
  {
    blk[BBlock(sb, b) := SetBlockBit(blk[BBlock(sb, b)], b % BPB, on)]
  }

  lemma InUseAfter(sb: Super, blk: seq<Block>, b: nat, on: bool, c: nat)
    requires sb.Valid() && |blk| == sb.size && b < sb.size && c < sb.size
    ensures BBlock(sb, b) < |blk| && BBlock(sb, c) < |blk|
    ensures InUse(sb, WithUse(sb, blk, b, on), c) <==> if b == c then on else InUse(sb, blk, c)
  {
    Layout(sb, 0, b);
    Layout(sb, 0, c);
    hide BlockBit, SetBlockBit;
    if BBlock(sb, b) == BBlock(sb, c) {
      BlockBitOfSet(blk[BBlock(sb, b)], b % BPB, on, c % BPB);
      assert b == BPB * (b / BPB) + b % BPB && c == BPB * (c / BPB) + c % BPB;
    }
  }

  lemma BitsSwitch(sb: Super, blk: seq<Block>, live: set<nat>, b: nat, on: bool)
    requires sb.Valid() && |blk| == sb.size && Bits(sb, blk, live) && sb.Nmeta() <= b < sb.size
    ensures BBlock(sb, b) < |blk|
    ensures Bits(sb, WithUse(sb, blk, b, on), if on then live + {b} else live - {b})
  {
    Layout(sb, 0, b);
    var live' := if on then live + {b} else live - {b};
    forall c: nat | c < sb.size
      ensures BitOk(sb, WithUse(sb, blk, b, on), live', c)
    {
      assert BitOk(sb, blk, live, c);
      InUseAfter(sb, blk, b, on, c);
    }
  }

  // ---------- an empty file system

  /** Blocks of zeros, with the bits of the first k blocks set. */
  ghost function Formatted(sb: Super, k: nat): (blk: seq<Block>)
    requires sb.Valid() && k <= sb.size
    ensures |blk| == sb.size
  {
    if k == 0 then seq(sb.size, _ => ZeroBlock())
    else
      Layout(sb, 0, k - 1);
      WithUse(sb, Formatted(sb, k - 1), k - 1, true)
  }

  lemma ZeroBit(i: nat)
    requires i < BPB
    ensures !BlockBit(ZeroBlock(), i)
  {
    NoBit(i % 8);
  }

  lemma {:induction false} NoBit(k: nat)
    ensures !Bit(0, k)
  {
    if k > 0 {
      NoBit(k - 1);
    }
  }

  lemma {:induction false} FormattedBits(sb: Super, k: nat, c: nat)
    requires sb.Valid() && k <= sb.size && c < sb.size
    ensures BBlock(sb, c) < sb.size && (InUse(sb, Formatted(sb, k), c) <==> c < k)
  {
    Layout(sb, 0, c);
    if k == 0 {
      ZeroBit(c % BPB);
    } else {
      FormattedBits(sb, k - 1, c);
      InUseAfter(sb, Formatted(sb, k - 1), k - 1, true, c);
    }
  }

  lemma {:induction false} FormattedZero(sb: Super, k: nat, b: nat)
    requires sb.Valid() && k <= sb.size && (b < sb.bmapstart || sb.Nmeta() <= b < sb.size)
    ensures Formatted(sb, k)[b] == ZeroBlock()
  {
    if k > 0 {
      FormattedZero(sb, k - 1, b);
      Layout(sb, 0, k - 1);
    }
  }

  function NoInode(): Dino {
    Dino(0, 0, 0, 0, 0, seq(NDIRECT + 1, _ => 0))
  }

  lemma ZeroInode(idx: nat)
    requires idx < IPB
    ensures DinodeOf(ZeroBlock(), idx) == NoInode()
  {
    var ws := seq(16, _ => 0);
    forall i | 0 <= i < 16
      ensures Word(ZeroBlock(), 16 * idx + i) == ws[i]
    {
      WordOfZeroBlock(16 * idx + i);
    }
    WordsAre(ZeroBlock(), 16 * idx, ws);
    assert ws[3..] == seq(NDIRECT + 1, _ => 0);
  }

  /** The invariant holds of a disk with no file on it whose bitmap marks the metadata blocks. */
  lemma EmptyDisk(sb: Super)
    requires sb.Valid()
    ensures Inv(sb, Formatted(sb, sb.Nmeta()), seq(sb.ninodes, _ => NoInode()), map[], -1)
  {
    var blk, inos := Formatted(sb, sb.Nmeta()), seq(sb.ninodes, _ => NoInode());
    var none: map<nat, Slot> := map[];
    forall b: nat | b < sb.size
      ensures BitOk(sb, blk, none.Keys, b)
    {
      FormattedBits(sb, sb.Nmeta(), b);
    }
    forall i: nat | i < |inos|
      ensures OnDisk(sb, blk, inos[i], i)
    {
      Layout(sb, i, 0);
      FormattedZero(sb, sb.Nmeta(), IBlock(sb, i));
      ZeroInode(i % IPB);
    }
  }

  // ---------- allocation

  /** The effect of balloc when a is the first free block: its bit set, its contents zeroed. */
  function Allocated(sb: Super, blk: seq<Block>, a: nat): seq<Block>
    requires BBlock(sb, a) < |blk| && a < |blk|
  {
    WithUse(sb, blk, a, true)[a := ZeroBlock()]
  }

  /** A free data block, as the bitmap has it. */
  ghost predicate FreeBlock(sb: Super, blk: seq<Block>, a: nat)
    requires sb.Valid() && |blk| == sb.size
  {
    a < sb.size && BBlock(sb, a) < |blk| && !InUse(sb, blk, a)
  }

  ghost predicate SameOn(blk: seq<Block>, blk': seq<Block>, s: set<nat>) {
    |blk| == |blk'| && forall b :: b in s && b < |blk| ==> blk'[b] == blk[b]
  }

  lemma FreeIsUnowned(sb: Super, blk: seq<Block>, inos: seq<Dino>, owner: map<nat, Slot>, a: nat)
    requires Tables(sb, blk, inos, owner) && Bits(sb, blk, owner.Keys) && FreeBlock(sb, blk, a)
    ensures a !in owner && sb.Nmeta() <= a && BBlock(sb, a) < sb.Nmeta()
  {
    Layout(sb, 0, a);
    assert BitOk(sb, blk, owner.Keys, a);
  }

  lemma AllocatedFrame(sb: Super, blk: seq<Block>, inos: seq<Dino>, owner: map<nat, Slot>, a: nat, except: int)
    requires Inv(sb, blk, inos, owner, except) && FreeBlock(sb, blk, a)
    ensures a < |blk| && a !in owner && sb.Nmeta() <= a
    ensures Tables(sb, Allocated(sb, blk, a), inos, owner) && Bits(sb, Allocated(sb, blk, a), owner.Keys + {a})
    ensures Synced(sb, Allocated(sb, blk, a), inos, except)
    ensures SameOn(blk, Allocated(sb, blk, a), owner.Keys) && Allocated(sb, blk, a)[a] == ZeroBlock()
  {
    FreeIsUnowned(sb, blk, inos, owner, a);
    var blk1, blk' := WithUse(sb, blk, a, true), Allocated(sb, blk, a);
    Layout(sb, 0, a);
    forall b | b in owner.Keys && b < |blk|
      ensures blk'[b] == blk[b]
    {
      assert OwnerOk(sb, blk, inos, owner[b], b);
    }
    TablesFrame(sb, blk, blk', inos, owner);
    BitsSwitch(sb, blk, owner.Keys, a, true);
    BitsFrame(sb, blk1, blk', owner.Keys + {a});
    SyncedFrame(sb, blk, blk', inos, except);
  }

  /** A direct slot, or the one of the indirect block, takes the new block. */
  function SetAddr(d: Dino, k: nat, a: word): Dino
    requires k < |d.addrs|
  {
    Dino(d.typ, d.major, d.minor, d.nlink, d.size, d.addrs[k := a])
  }

  lemma AddrOfSetAddr(blk: seq<Block>, d: Dino, k: nat, a: word, k': nat)
    requires d.Valid() && k <= NDIRECT && k' < NSLOT && Addr(blk, d, k) == 0
    requires a < |blk| && blk[a] == ZeroBlock()
    ensures Addr(blk, SetAddr(d, k, a), k') == if k' == k then a else Addr(blk, d, k')
  {
    if k == NDIRECT && k' > NDIRECT {
      WordOfZeroBlock(k' - NDIRECT - 1);
    }
  }

  lemma DirectTables(sb: Super, blk: seq<Block>, inos: seq<Dino>, owner: map<nat, Slot>, a: nat, i: nat, k: nat)
    requires Tables(sb, blk, inos, owner) && i < |inos| && k <= NDIRECT && Addr(blk, inos[i], k) == 0
    requires a !in owner && 0 < sb.Nmeta() <= a < sb.size && blk[a] == ZeroBlock()
    ensures Tables(sb, blk, inos[i := SetAddr(inos[i], k, a)], owner[a := Slot(i, k)])
  {
    var inos', owner' := inos[i := SetAddr(inos[i], k, a)], owner[a := Slot(i, k)];
    forall j: nat, m: nat | j < |inos| && m < NSLOT
      ensures InSlot(blk, inos'[j], owner', j, m)
    {
      assert InSlot(blk, inos[j], owner, j, m);
      if j == i {
        AddrOfSetAddr(blk, inos[i], k, a, m);
      }
    }
    forall b | b in owner'
      ensures OwnerOk(sb, blk, inos', owner'[b], b)
    {
      if b == a {
        AddrOfSetAddr(blk, inos[i], k, a, k);
      } else {
        assert OwnerOk(sb, blk, inos, owner[b], b);
        if owner[b].i == i {
          AddrOfSetAddr(blk, inos[i], k, a, owner[b].k);
        }
      }
    }
  }

  // ---------- entries of the indirect block

  function SetEntry(blk: seq<Block>, ind: nat, k: nat, a: word): seq<Block>
    requires ind < |blk| && NDIRECT < k < NSLOT
  {
    blk[ind := SetWord(blk[ind], k - NDIRECT - 1, a)]
  }

  lemma AddrOfSetEntry(sb: Super, blk: seq<Block>, inos: seq<Dino>, owner: map<nat, Slot>, i: nat, k: nat, a: word,
                       j: nat, m: nat)
    requires Tables(sb, blk, inos, owner) && i < |inos| && j < |inos| && NDIRECT < k < NSLOT && m < NSLOT
    requires inos[i].addrs[NDIRECT] != 0
    ensures inos[i].addrs[NDIRECT] < |blk|
    ensures Addr(SetEntry(blk, inos[i].addrs[NDIRECT], k, a), inos[j], m)
         == if j == i && m == k then a else Addr(blk, inos[j], m)
  {
    OwnerAt(sb, blk, inos, owner, i, NDIRECT);
    var ind := inos[i].addrs[NDIRECT];
    if m > NDIRECT && inos[j].addrs[NDIRECT] != 0 {
      OwnerAt(sb, blk, inos, owner, j, NDIRECT);
      if j == i {
        WordOfSetWord(blk[ind], k - NDIRECT - 1, a, m - NDIRECT - 1);
      }
    }
  }

  lemma EntryTables(sb: Super, blk: seq<Block>, inos: seq<Dino>, owner: map<nat, Slot>, a: nat, i: nat, k: nat)
    requires Tables(sb, blk, inos, owner) && i < |inos| && NDIRECT < k < NSLOT && Addr(blk, inos[i], k) == 0
    requires inos[i].addrs[NDIRECT] != 0
    requires a !in owner && 0 < sb.Nmeta() <= a < sb.size
    ensures inos[i].addrs[NDIRECT] < |blk|
    ensures Tables(sb, SetEntry(blk, inos[i].addrs[NDIRECT], k, a), inos, owner[a := Slot(i, k)])
  {
    OwnerAt(sb, blk, inos, owner, i, NDIRECT);
    var blk', owner' := SetEntry(blk, inos[i].addrs[NDIRECT], k, a), owner[a := Slot(i, k)];
    forall j: nat, m: nat | j < |inos| && m < NSLOT
      ensures InSlot(blk', inos[j], owner', j, m)
    {
      assert InSlot(blk, inos[j], owner, j, m);
      AddrOfSetEntry(sb, blk, inos, owner, i, k, a, j, m);
    }
    forall b | b in owner'
      ensures OwnerOk(sb, blk', inos, owner'[b], b)
    {
      if b == a {
        AddrOfSetEntry(sb, blk, inos, owner, i, k, a, i, k);
      } else {
        assert OwnerOk(sb, blk, inos, owner[b], b);
        AddrOfSetEntry(sb, blk, inos, owner, i, k, a, owner[b].i, owner[b].k);
      }
    }
  }

  // ---------- what happens to files

  /** Slot k names the same block with the same contents. */
  ghost predicate SameAt(blk: seq<Block>, d: Dino, blk': seq<Block>, d': Dino, k: nat)
    requires d.Valid() && d'.Valid() && k < NSLOT
  {
    var a := Addr(blk, d, k);
    Addr(blk', d', k) == a && (a != 0 && a < |blk| && a < |blk'| ==> blk'[a] == blk[a])
  }

  ghost predicate SameFile(blk: seq<Block>, d: Dino, blk': seq<Block>, d': Dino)
    requires d.Valid() && d'.Valid()
  {
    d' == d && forall k: nat :: k < NSLOT && k != NDIRECT ==> SameAt(blk, d, blk', d', k)
  }

  ghost predicate AllValid(inos: seq<Dino>) {
    forall i :: 0 <= i < |inos| ==> inos[i].Valid()
  }

  /** Every file but that of inode i is as before. */
  ghost predicate OthersSame(blk: seq<Block>, inos: seq<Dino>, blk': seq<Block>, inos': seq<Dino>, i: nat)
    requires AllValid(inos) && AllValid(inos')
  {
    |blk'| == |blk| && |inos'| == |inos|
    && forall j: nat :: j < |inos| && j != i ==> SameFile(blk, inos[j], blk', inos'[j])
  }

  lemma OthersSameTrans(b0: seq<Block>, s0: seq<Dino>, b1: seq<Block>, s1: seq<Dino>, b2: seq<Block>, s2: seq<Dino>,
                        i: nat)
    requires AllValid(s0) && AllValid(s1) && AllValid(s2)
    requires OthersSame(b0, s0, b1, s1, i) && OthersSame(b1, s1, b2, s2, i)
    ensures OthersSame(b0, s0, b2, s2, i)
  {
    forall j: nat | j < |s0| && j != i
      ensures SameFile(b0, s0[j], b2, s2[j])
    {
      assert SameFile(b0, s0[j], b1, s1[j]) && SameFile(b1, s1[j], b2, s2[j]);
      forall k: nat | k < NSLOT && k != NDIRECT
        ensures SameAt(b0, s0[j], b2, s2[j], k)
      {
        assert SameAt(b0, s0[j], b1, s1[j], k) && SameAt(b1, s1[j], b2, s2[j], k);
      }
    }
  }

  /** A write to a block that no other inode has in a data or indirect slot. */
  lemma OthersFrame(sb: Super, blk: seq<Block>, blk': seq<Block>, inos: seq<Dino>, inos': seq<Dino>,
                    owner: map<nat, Slot>, i: nat)
    requires Tables(sb, blk, inos, owner) && AllValid(inos') && |blk'| == |blk| && |inos'| == |inos|
    requires forall j: nat :: j < |inos| && j != i ==> inos'[j] == inos[j]
    requires forall b :: b in owner && owner[b].i != i && b < |blk| ==> blk'[b] == blk[b]
    ensures OthersSame(blk, inos, blk', inos', i)
  {
    forall j: nat | j < |inos| && j != i
      ensures SameFile(blk, inos[j], blk', inos'[j])
    {
      forall k: nat | k < NSLOT && k != NDIRECT
        ensures SameAt(blk, inos[j], blk', inos'[j], k)
      {
        if inos[j].addrs[NDIRECT] != 0 {
          OwnerAt(sb, blk, inos, owner, j, NDIRECT);
        }
        if Addr(blk, inos[j], k) != 0 {
          OwnerAt(sb, blk, inos, owner, j, k);
        }
      }
    }
  }

  /** Slot k of one inode has come to name block r; its other data slots are as before. */
  ghost predicate Grew(blk: seq<Block>, d: Dino, blk': seq<Block>, d': Dino, k: nat, r: nat)
    requires d.Valid() && d'.Valid() && k < NSLOT
  {
    && d'.(addrs := d.addrs) == d && |blk'| == |blk|
    && (forall m: nat :: m < NSLOT && m != k && m != NDIRECT ==> SameAt(blk, d, blk', d', m))
    && Addr(blk', d', k) == r && 0 < r < |blk'|
    && (if Addr(blk, d, k) == 0 then blk'[r] == ZeroBlock() else SameAt(blk, d, blk', d', k))
    && (d.addrs[NDIRECT] != 0 ==> d'.addrs[NDIRECT] == d.addrs[NDIRECT])
  }

  ghost predicate SameSlots(blk: seq<Block>, d: Dino, blk': seq<Block>, d': Dino)
    requires d.Valid() && d'.Valid()
  {
    forall m: nat :: m < NSLOT && m != NDIRECT ==> SameAt(blk, d, blk', d', m)
  }

  lemma InvShape(sb: Super, blk: seq<Block>, inos: seq<Dino>, owner: map<nat, Slot>, except: int)
    requires Inv(sb, blk, inos, owner, except)
    ensures sb.Valid() && |blk| == sb.size && |inos| == sb.ninodes && AllValid(inos)
  {
  }

  /** balloc into a direct slot, or for the indirect block itself. */
  lemma GrowDirect(sb: Super, blk: seq<Block>, inos: seq<Dino>, owner: map<nat, Slot>, i: nat, k: nat, a: nat)
    requires Inv(sb, blk, inos, owner, i) && FreeBlock(sb, blk, a)
    requires i < |inos| && k <= NDIRECT && Addr(blk, inos[i], k) == 0
    ensures 0 < a < |blk|
    ensures Inv(sb, Allocated(sb, blk, a), inos[i := SetAddr(inos[i], k, a)], owner[a := Slot(i, k)], i)
    ensures OthersSame(blk, inos, Allocated(sb, blk, a), inos[i := SetAddr(inos[i], k, a)], i)
    ensures if k < NDIRECT then Grew(blk, inos[i], Allocated(sb, blk, a), SetAddr(inos[i], k, a), k, a)
            else SameSlots(blk, inos[i], Allocated(sb, blk, a), SetAddr(inos[i], k, a))
  {
    var d, d', blk', inos' := inos[i], SetAddr(inos[i], k, a), Allocated(sb, blk, a), inos[i := SetAddr(inos[i], k, a)];
    AllocatedFrame(sb, blk, inos, owner, a, i);
    assert owner[a := Slot(i, k)].Keys == owner.Keys + {a};
    forall m: nat | m < NSLOT
      ensures Addr(blk', d, m) == Addr(blk, d, m)
      ensures Addr(blk', d', m) == if m == k then a else Addr(blk, d, m)
    {
      AddrFrame(sb, blk, blk', inos, owner, i, m);
      AddrOfSetAddr(blk', d, k, a, m);
    }
    DirectTables(sb, blk', inos, owner, a, i, k);
    assert Synced(sb, blk', inos', i) by {
      assert forall j: nat :: j < |inos| && j != i ==> (OnDisk(sb, blk', inos[j], j) && inos'[j] == inos[j]);
    }
    OthersFrame(sb, blk, blk', inos, inos', owner, i);
    forall m: nat | m < NSLOT && m != k && m != NDIRECT
      ensures SameAt(blk, d, blk', d', m)
    {
      if Addr(blk, d, m) != 0 {
        OwnerAt(sb, blk, inos, owner, i, m);
      }
    }
  }

  /** balloc into an entry of the indirect block. */
  lemma GrowEntry(sb: Super, blk: seq<Block>, inos: seq<Dino>, owner: map<nat, Slot>, i: nat, k: nat, a: nat)
    requires Inv(sb, blk, inos, owner, i) && FreeBlock(sb, blk, a)
    requires i < |inos| && NDIRECT < k < NSLOT && Addr(blk, inos[i], k) == 0 && inos[i].addrs[NDIRECT] != 0
    ensures 0 < a < |blk| && inos[i].addrs[NDIRECT] < |blk|
    ensures Inv(sb, SetEntry(Allocated(sb, blk, a), inos[i].addrs[NDIRECT], k, a), inos, owner[a := Slot(i, k)], i)
    ensures OthersSame(blk, inos, SetEntry(Allocated(sb, blk, a), inos[i].addrs[NDIRECT], k, a), inos, i)
    ensures Grew(blk, inos[i], SetEntry(Allocated(sb, blk, a), inos[i].addrs[NDIRECT], k, a), inos[i], k, a)
  {
    hide Tables, Bits, Synced, Grew, OthersSame, SetWord, Allocated, FreeBlock, InUse;
    InvShape(sb, blk, inos, owner, i);
    OwnerAt(sb, blk, inos, owner, i, NDIRECT);
    AllocatedFrame(sb, blk, inos, owner, a, i);
    var ind, blk1 := inos[i].addrs[NDIRECT], Allocated(sb, blk, a);
    var blk' := SetEntry(blk1, ind, k, a);
    AddrFrame(sb, blk, blk1, inos, owner, i, k);
    assert owner[a := Slot(i, k)].Keys == owner.Keys + {a};
    EntryTables(sb, blk1, inos, owner, a, i, k);
    BitsFrame(sb, blk1, blk', owner.Keys + {a});
    SyncedFrame(sb, blk1, blk', inos, i);
    OthersFrame(sb, blk, blk', inos, inos, owner, i);
    EntryFile(sb, blk, blk1, inos, owner, i, k, a);
  }

  lemma EntryFile(sb: Super, blk: seq<Block>, blk1: seq<Block>, inos: seq<Dino>, owner: map<nat, Slot>, i: nat,
                  k: nat, a: nat)
    requires Tables(sb, blk, inos, owner) && Tables(sb, blk1, inos, owner) && SameOn(blk, blk1, owner.Keys)
    requires i < |inos| && NDIRECT < k < NSLOT && Addr(blk, inos[i], k) == 0
    requires 0 < inos[i].addrs[NDIRECT] < |blk1| && 0 < a < |blk1| && blk1[a] == ZeroBlock() && a !in owner
    ensures Grew(blk, inos[i], SetEntry(blk1, inos[i].addrs[NDIRECT], k, a), inos[i], k, a)
  {
    var d, ind := inos[i], inos[i].addrs[NDIRECT];
    var blk' := SetEntry(blk1, ind, k, a);
    OwnerAt(sb, blk, inos, owner, i, NDIRECT);
    AddrOfSetEntry(sb, blk1, inos, owner, i, k, a, i, k);
    forall m: nat | m < NSLOT && m != k && m != NDIRECT
      ensures SameAt(blk, d, blk', d, m)
    {
      AddrFrame(sb, blk, blk1, inos, owner, i, m);
      AddrOfSetEntry(sb, blk1, inos, owner, i, k, a, i, m);
      if Addr(blk, d, m) != 0 {
        OwnerAt(sb, blk, inos, owner, i, m);
      }
    }
  }

  lemma GrewAfterSame(b0: seq<Block>, d0: Dino, b1: seq<Block>, d1: Dino, b2: seq<Block>, d2: Dino, k: nat, r: nat)
    requires d0.Valid() && d1.Valid() && d2.Valid() && k < NSLOT && k != NDIRECT && |b0| == |b1|
    requires SameSlots(b0, d0, b1, d1) && d1.(addrs := d0.addrs) == d0 && Grew(b1, d1, b2, d2, k, r)
    requires d0.addrs[NDIRECT] != 0 ==> d1.addrs[NDIRECT] == d0.addrs[NDIRECT]
    ensures Grew(b0, d0, b2, d2, k, r)
  {
    assert SameAt(b0, d0, b1, d1, k);
    forall m: nat | m < NSLOT && m != k && m != NDIRECT
      ensures SameAt(b0, d0, b2, d2, m)
    {
      assert SameAt(b0, d0, b1, d1, m) && SameAt(b1, d1, b2, d2, m);
    }
  }
}

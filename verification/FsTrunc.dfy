/** itrunc: what it frees, and what it logs. */
module FsTrunc {
  import opened Blocks
  import opened FsInv
  import opened FsRoom
  import opened FsSpec
  import opened FsSteps

  /** The inode that itrunc leaves behind. */
  ghost function Emptied(d: Dino): Dino {
    Dino(d.typ, d.major, d.minor, d.nlink, 0, seq(NDIRECT + 1, _ => 0))
  }

  /** The blocks of all other inodes. */
  ghost function Without(owner: map<nat, Slot>, i: nat): map<nat, Slot> {
    map b | b in owner && owner[b].i != i :: owner[b]
  }

  /** Slots below lo and entries from NDIRECT + 1 to hi are freed. */
  ghost predicate Freed(k: nat, lo: nat, hi: nat) {
    k < lo || NDIRECT < k < hi
  }

  ghost function Kept(owner: map<nat, Slot>, i: nat, lo: nat, hi: nat): set<nat> {
    set b | b in owner && !(owner[b].i == i && Freed(owner[b].k, lo, hi))
  }

  /** The bitmap blocks of the blocks that are owned and not in `kept`. */
  ghost function Cleared(sb: Super, owner: map<nat, Slot>, kept: set<nat>): set<nat> {
    set b | b in owner && b !in kept :: BBlock(sb, b)
  }

  /** Where itrunc stands: the bitmap has dropped the freed slots, nothing else has changed, and the
      log has the bitmap blocks of what was freed. */
  ghost predicate Truncing(sb: Super, v: View, blk: seq<Block>, logged: set<nat>, i: nat, lo: nat, hi: nat) {
    && Tables(sb, blk, v.inos, v.owner) && Bits(sb, blk, Kept(v.owner, i, lo, hi)) && Synced(sb, blk, v.inos, i)
    && SameOn(v.blk, blk, v.owner.Keys) && Tables(sb, v.blk, v.inos, v.owner) && i < |v.inos| && AllValid(v.inos)
    && TruncLogs(sb, v, blk, logged, Kept(v.owner, i, lo, hi))
  }

  ghost predicate TruncLogs(sb: Super, v: View, blk: seq<Block>, logged: set<nat>, kept: set<nat>) {
    Logs(v.blk, v.logged, blk, logged) && Low(sb, v.blk, blk) && logged == v.logged + Cleared(sb, v.owner, kept)
  }

  lemma TruncLogsNext(sb: Super, v: View, blk: seq<Block>, logged: set<nat>, kept: set<nat>, b: nat, blk': seq<Block>)
    requires TruncLogs(sb, v, blk, logged, kept) && b in v.owner && sb.inodestart <= BBlock(sb, b) < |blk|
    requires |blk'| == |blk| && blk' == blk[BBlock(sb, b) := blk'[BBlock(sb, b)]]
    ensures TruncLogs(sb, v, blk', logged + {BBlock(sb, b)}, kept - {b})
  {
    forall x
      ensures x in Cleared(sb, v.owner, kept - {b}) <==> x in Cleared(sb, v.owner, kept) || x == BBlock(sb, b)
    {
    }
  }

  lemma TruncStart(sb: Super, v: View, i: nat)
    requires Inv(sb, v.blk, v.inos, v.owner, i) && i < |v.inos|
    ensures Truncing(sb, v, v.blk, v.logged, i, 0, NDIRECT + 1) && v.inos[i].Valid()
  {
    assert Kept(v.owner, i, 0, NDIRECT + 1) == v.owner.Keys;
    assert Cleared(sb, v.owner, v.owner.Keys) == {};
  }

  lemma SlotOwned(sb: Super, blk: seq<Block>, inos: seq<Dino>, owner: map<nat, Slot>, b: nat)
    requires Tables(sb, blk, inos, owner) && b in owner
    ensures owner[b].i < |inos| && owner[b].k < NSLOT && inos[owner[b].i].Valid()
    ensures Addr(blk, inos[owner[b].i], owner[b].k) == b && sb.Nmeta() <= b < sb.size
  {
    assert OwnerOk(sb, blk, inos, owner[b], b);
  }

  lemma KeptNext(sb: Super, blk: seq<Block>, inos: seq<Dino>, owner: map<nat, Slot>, i: nat, lo: nat, hi: nat,
                 k: nat, lo': nat, hi': nat)
    requires Tables(sb, blk, inos, owner) && i < |inos| && inos[i].Valid() && k < NSLOT && !Freed(k, lo, hi)
    requires forall m: nat :: m < NSLOT ==> (Freed(m, lo', hi') <==> Freed(m, lo, hi) || m == k)
    ensures var b := Addr(blk, inos[i], k);
            if b == 0 then Kept(owner, i, lo', hi') == Kept(owner, i, lo, hi)
            else b in Kept(owner, i, lo, hi) && Kept(owner, i, lo', hi') == Kept(owner, i, lo, hi) - {b}
  {
    var b := Addr(blk, inos[i], k);
    if b != 0 {
      OwnerAt(sb, blk, inos, owner, i, k);
    }
    forall c | c in owner
      ensures owner[c] == Slot(i, k) <==> b != 0 && c == b
      ensures Freed(owner[c].k, lo', hi') <==> Freed(owner[c].k, lo, hi) || owner[c].k == k
    {
      SlotOwned(sb, blk, inos, owner, c);
    }
  }

  lemma TruncStep(sb: Super, v: View, blk: seq<Block>, logged: set<nat>, i: nat, lo: nat, hi: nat, k: nat,
                  lo': nat, hi': nat)
    requires Truncing(sb, v, blk, logged, i, lo, hi) && k < NSLOT && !Freed(k, lo, hi)
    requires i < |v.inos| && v.inos[i].Valid()
    requires forall m: nat :: m < NSLOT ==> (Freed(m, lo', hi') <==> Freed(m, lo, hi) || m == k)
    ensures sb.Valid() && |blk| == sb.size && Addr(blk, v.inos[i], k) == Addr(v.blk, v.inos[i], k)
    ensures var b := Addr(v.blk, v.inos[i], k);
            if b == 0 then Truncing(sb, v, blk, logged, i, lo', hi')
            else b < sb.size && BBlock(sb, b) < |blk| && InUse(sb, blk, b)
                 && Truncing(sb, v, WithUse(sb, blk, b, false), logged + {BBlock(sb, b)}, i, lo', hi')
  {
    AddrFrame(sb, v.blk, blk, v.inos, v.owner, i, k);
    KeptNext(sb, blk, v.inos, v.owner, i, lo, hi, k, lo', hi');
    var b := Addr(blk, v.inos[i], k);
    if b != 0 {
      OwnerAt(sb, blk, v.inos, v.owner, i, k);
      Layout(sb, 0, b);
      assert BitOk(sb, blk, Kept(v.owner, i, lo, hi), b);
      BitsSwitch(sb, blk, Kept(v.owner, i, lo, hi), b, false);
      BitmapWrite(sb, v, blk, i, b);
      TruncLogsNext(sb, v, blk, logged, Kept(v.owner, i, lo, hi), b, WithUse(sb, blk, b, false));
    }
  }

  lemma BitmapWrite(sb: Super, v: View, blk: seq<Block>, i: nat, b: nat)
    requires Tables(sb, blk, v.inos, v.owner) && Synced(sb, blk, v.inos, i) && SameOn(v.blk, blk, v.owner.Keys)
    requires b < sb.size && BBlock(sb, b) < |blk|
    ensures Tables(sb, WithUse(sb, blk, b, false), v.inos, v.owner)
    ensures Synced(sb, WithUse(sb, blk, b, false), v.inos, i) && SameOn(v.blk, WithUse(sb, blk, b, false), v.owner.Keys)
  {
    var blk' := WithUse(sb, blk, b, false);
    Layout(sb, 0, b);
    forall c | c in v.owner
      ensures c < |blk| && blk'[c] == blk[c]
    {
      SlotOwned(sb, blk, v.inos, v.owner, c);
    }
    TablesFrame(sb, blk, blk', v.inos, v.owner);
    SyncedFrame(sb, blk, blk', v.inos, i);
  }

  /** The entries that the loop over the indirect block reads. */
  lemma TruncEntries(sb: Super, v: View, blk: seq<Block>, logged: set<nat>, i: nat)
    requires Truncing(sb, v, blk, logged, i, NDIRECT, NDIRECT + 1) && v.inos[i].addrs[NDIRECT] != 0
    ensures v.inos[i].addrs[NDIRECT] < |blk|
    ensures forall j: nat :: j < NINDIRECT ==>
              Word(blk[v.inos[i].addrs[NDIRECT]], j) == Addr(v.blk, v.inos[i], NDIRECT + 1 + j)
  {
    OwnerAt(sb, v.blk, v.inos, v.owner, i, NDIRECT);
  }

  lemma TruncNoIndirect(sb: Super, v: View, blk: seq<Block>, logged: set<nat>, i: nat)
    requires Truncing(sb, v, blk, logged, i, NDIRECT, NDIRECT + 1) && v.inos[i].addrs[NDIRECT] == 0
    ensures Truncing(sb, v, blk, logged, i, NDIRECT + 1, NSLOT)
  {
    hide Bits, Synced, TruncLogs, SameOn, InSlot, OwnerOk;
    forall c | c in v.owner
      ensures v.owner[c].i == i ==> v.owner[c].k < NDIRECT
    {
      SlotOwned(sb, blk, v.inos, v.owner, c);
    }
    assert Kept(v.owner, i, NDIRECT, NDIRECT + 1) == Kept(v.owner, i, NDIRECT + 1, NSLOT);
  }

  lemma TruncEnds(sb: Super, v: View, blk: seq<Block>, logged: set<nat>, i: nat)
    requires Truncing(sb, v, blk, logged, i, NDIRECT + 1, NSLOT)
    ensures Inv(sb, blk, v.inos[i := Emptied(v.inos[i])], Without(v.owner, i), i)
    ensures Logs(v.blk, v.logged, blk, logged) && Low(sb, v.blk, blk) && logged == v.logged + TruncBits(sb, v.owner, i)
  {
    hide InSlot, OwnerOk, Logs, Low, Bits, Kept, SameOn, OnDisk, Emptied;
    var inos' := v.inos[i := Emptied(v.inos[i])];
    TruncTables(sb, blk, v.inos, v.owner, i);
    KeptWithout(sb, blk, v.inos, v.owner, i);
    ClearedAll(sb, v.owner, i);
    forall j: nat | j < |inos'| && j != i
      ensures OnDisk(sb, blk, inos'[j], j)
    {
      assert OnDisk(sb, blk, v.inos[j], j);
    }
  }

  /** The bitmap blocks of the blocks of inode i. */
  ghost function TruncBits(sb: Super, owner: map<nat, Slot>, i: nat): set<nat> {
    set b | b in owner && owner[b].i == i :: BBlock(sb, b)
  }

  lemma ClearedAll(sb: Super, owner: map<nat, Slot>, i: nat)
    ensures Cleared(sb, owner, Without(owner, i).Keys) == TruncBits(sb, owner, i)
  {
  }

  lemma KeptWithout(sb: Super, blk: seq<Block>, inos: seq<Dino>, owner: map<nat, Slot>, i: nat)
    requires Tables(sb, blk, inos, owner)
    ensures Kept(owner, i, NDIRECT + 1, NSLOT) == Without(owner, i).Keys
  {
    forall c | c in owner
      ensures owner[c].k < NSLOT
    {
      SlotOwned(sb, blk, inos, owner, c);
    }
  }

  lemma TruncTables(sb: Super, blk: seq<Block>, inos: seq<Dino>, owner: map<nat, Slot>, i: nat)
    requires Tables(sb, blk, inos, owner) && i < |inos|
    ensures Tables(sb, blk, inos[i := Emptied(inos[i])], Without(owner, i))
  {
    var inos', owner' := inos[i := Emptied(inos[i])], Without(owner, i);
    forall j: nat, k: nat | j < |inos'| && k < NSLOT
      ensures InSlot(blk, inos'[j], owner', j, k)
    {
      assert InSlot(blk, inos[j], owner, j, k);
    }
    forall b | b in owner'
      ensures OwnerOk(sb, blk, inos', owner'[b], b)
    {
      SlotOwned(sb, blk, inos, owner, b);
    }
  }

  lemma LowTrans(sb: Super, b0: seq<Block>, b1: seq<Block>, b2: seq<Block>)
    requires Low(sb, b0, b1) && Low(sb, b1, b2)
    ensures Low(sb, b0, b2)
  {
  }

  lemma TruncKeepsOthers(sb: Super, v: View, blk: seq<Block>, logged: set<nat>, blk': seq<Block>, i: nat)
    requires Truncing(sb, v, blk, logged, i, NDIRECT + 1, NSLOT) && SameOn(blk, blk', Without(v.owner, i).Keys)
    ensures OthersSame(v.blk, v.inos, blk', v.inos[i := Emptied(v.inos[i])], i)
  {
    OthersFrame(sb, v.blk, blk', v.inos, v.inos[i := Emptied(v.inos[i])], v.owner, i);
  }
}

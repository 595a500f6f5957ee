/** fs.c on the logical block store that the log gives it: balloc, bfree, bmap, itrunc,
    iupdate, readi and writei change blocks and the in-memory inode in place. */
module Fs {
  import opened Blocks
  import opened FsFile
  import opened FsInv
  import opened FsRoom
  import opened FsSpec
  import opened FsSteps
  import opened FsTrunc
  import opened Options
  import opened Param

  /** The in-memory inode (struct inode), locked by the caller. */
  class Inode {
    const inum: nat
    var typ: nat
    var major: nat
    var minor: nat
    var nlink: nat
    var size: nat
    var addrs: seq<word>

    ghost function Val(): Dino
      reads this
    {
      Dino(typ, major, minor, nlink, size, addrs)
    }
  }

  class Fs {
    const sb: Super
    /** What bread returns for each block. */
    var blk: seq<Block>
    /** The distinct blocks log_written in the current transaction. */
    ghost var logged: set<nat>
    /** All inodes as the kernel has them, and the slot each used block stands in. */
    ghost var inos: seq<Dino>
    ghost var owner: map<nat, Slot>

    /** A file system as found on disk, with the inodes and the owners it has. */
    constructor (sb: Super, blk: seq<Block>, ghost inos: seq<Dino>, ghost owner: map<nat, Slot>)
      requires Inv(sb, blk, inos, owner, -1)
      ensures this.sb == sb && Now() == View(blk, inos, owner, {}) && Valid(-1)
    {
      this.sb, this.blk, this.inos, this.owner, logged := sb, blk, inos, owner, {};
    }

    /** `except`: an inode whose changes iupdate has not yet written, -1 for none. */
    ghost predicate Valid(except: int)
      reads this
    {
      Inv(sb, blk, inos, owner, except)
    }

    ghost function Now(): View
      reads this
    {
      View(blk, inos, owner, logged)
    }

    ghost predicate Has(ip: Inode)
      reads this, ip
    {
      ip.inum < |inos| && inos[ip.inum] == ip.Val() && ip.Val().Valid()
    }

    /** begin_op and end_op, as far as one operation sees them: between the two it may log at most
        MAXOPBLOCKS different blocks. */
    method BeginOp()
      modifies this`logged
      ensures logged == {}
    {
      logged := {};
    }

    method EndOp()
      requires |logged| <= MAXOPBLOCKS
    {
    }

    method LogWrite(b: nat, data: Block)
      requires b < |blk|
      modifies this`blk, this`logged
      ensures blk == old(blk)[b := data] && logged == old(logged) + {b}
    {
      blk := blk[b := data];
      logged := logged + {b};
    }

    method Bzero(b: nat)
      requires b < |blk|
      modifies this`blk, this`logged
      ensures blk == old(blk)[b := ZeroBlock()] && logged == old(logged) + {b}
    {
      LogWrite(b, ZeroBlock());
    }

    /** balloc: the first free block, marked used and zeroed; None is the panic. */
    method Balloc() returns (r: Option<nat>)
      requires sb.Valid() && |blk| == sb.size
      modifies this`blk, this`logged
      ensures r.None? ==> blk == old(blk) && logged == old(logged) && AllUsed(sb, blk, sb.size)
      ensures r.Some? ==> FreeBlock(sb, old(blk), r.value) && AllUsed(sb, old(blk), r.value)
      ensures r.Some? ==> blk == Allocated(sb, old(blk), r.value)
                          && logged == old(logged) + {BBlock(sb, r.value), r.value}
    {
      hide AllUsed, Allocated, FreeBlock, Super.Valid;
      var b := 0;
      AllUsedZero(sb, blk);
      while b < sb.size
        invariant b % BPB == 0 && blk == old(blk) && logged == old(logged)
        invariant AllUsed(sb, blk, if b < sb.size then b else sb.size)
      {
        r := ScanBitmap(b);
        if r.Some? {
          return;
        }
        NextBitmap(b);
        b := b + BPB;
      }
      return None;
    }

    /** The inner loop of balloc: the bits of one bitmap block. */
    method ScanBitmap(b: nat) returns (r: Option<nat>)
      requires sb.Valid() && |blk| == sb.size && b < sb.size && b % BPB == 0 && AllUsed(sb, blk, b)
      modifies this`blk, this`logged
      ensures r.None? ==> blk == old(blk) && logged == old(logged)
                          && AllUsed(sb, blk, if b + BPB < sb.size then b + BPB else sb.size)
      ensures r.Some? ==> FreeBlock(sb, old(blk), r.value) && AllUsed(sb, old(blk), r.value)
      ensures r.Some? ==> blk == Allocated(sb, old(blk), r.value)
                          && logged == old(logged) + {BBlock(sb, r.value), r.value}
    {
      hide AllUsed, SetBlockBit, Bit, Super.Valid;
      BitmapBlock(sb, b);
      var bp := blk[BBlock(sb, b)];
      var bi := 0;
      while bi < BPB && b + bi < sb.size
        invariant bi <= BPB && b + bi <= sb.size && blk == old(blk) && logged == old(logged)
        invariant AllUsed(sb, blk, b + bi)
      {
        SameBitmapBlock(b, bi);
        if !Bit(bp.bytes[bi / 8], bi % 8) {
          LogWrite(BBlock(sb, b), SetBlockBit(bp, bi, true));
          Bzero(b + bi);
          return Some(b + bi);
        }
        AllUsedNext(sb, blk, b + bi);
        bi := bi + 1;
      }
      return None;
    }

    /** bfree: clears the bit; panics on a free block. */
    method Bfree(b: nat) returns (panic: bool)
      requires sb.Valid() && |blk| == sb.size && b < sb.size
      modifies this`blk, this`logged
      ensures BBlock(sb, b) < sb.size && (panic <==> !InUse(sb, old(blk), b))
      ensures panic ==> blk == old(blk)
      ensures !panic ==> blk == WithUse(sb, old(blk), b, false) && logged == old(logged) + {BBlock(sb, b)}
    {
      Layout(sb, 0, b);
      var bp := blk[BBlock(sb, b)];
      var bi := b % BPB;
      if !Bit(bp.bytes[bi / 8], bi % 8) {
        return true;
      }
      LogWrite(BBlock(sb, b), SetBlockBit(bp, bi, false));
      return false;
    }

    /** The branch of bmap that fills a direct slot, or the slot of the indirect block. */
    method AllocSlot(ip: Inode, k: nat) returns (r: Option<nat>)
      requires Valid(ip.inum) && Has(ip) && k <= NDIRECT && ip.addrs[k] == 0
      modifies this`blk, this`logged, this`inos, this`owner, ip`addrs
      ensures Valid(ip.inum) && Has(ip) && OthersSame(old(blk), old(inos), blk, inos, ip.inum)
      ensures r.None? ==> blk == old(blk) && inos == old(inos) && owner == old(owner) && logged == old(logged)
      ensures r.None? ==> sb.Valid() && |blk| == sb.size && AllUsed(sb, blk, sb.size)
      ensures r.Some? ==> r.value !in old(owner) && owner == old(owner)[r.value := Slot(ip.inum, k)]
      ensures r.Some? ==> 0 < r.value < UINT && inos[ip.inum] == SetAddr(old(inos)[ip.inum], k, r.value)
      ensures r.Some? && k < NDIRECT ==> Grew(old(blk), old(inos)[ip.inum], blk, inos[ip.inum], k, r.value)
      ensures r.Some? && k == NDIRECT ==> SameSlots(old(blk), old(inos)[ip.inum], blk, inos[ip.inum])
      ensures r.Some? ==> logged == old(logged) + {BBlock(sb, r.value), r.value}
      ensures Adds(old(Now()), Now(), ip.inum, {k})
      ensures SameInode(sb, old(blk), blk, ip.inum)
    {
      ghost var i, v := ip.inum, Now();
      AddsNothing(v, i, {k});
      SameInodeRefl(sb, blk, i);
      OthersFrame(sb, blk, blk, inos, inos, owner, i);
      hide Bits, Synced, Tables, Adds, SameInode;
      r := Balloc();
      if r.None? {
        return;
      }
      FreeIsUnowned(sb, old(blk), inos, owner, r.value);
      GrowDirect(sb, old(blk), inos, owner, i, k, r.value);
      ip.addrs := ip.addrs[k := r.value];
      inos := inos[i := SetAddr(inos[i], k, r.value)];
      owner := owner[r.value := Slot(i, k)];
      AllocationAdds(sb, v, Now(), i, k, r.value);
      InodeBlockApart(sb, v.blk, i, r.value);
    }

    /** The branch of bmap that fills an entry of the indirect block, held in the buffer bp. */
    method AllocEntry(ip: Inode, k: nat, bp: Block) returns (r: Option<nat>)
      requires Valid(ip.inum) && Has(ip) && NDIRECT < k < NSLOT && Addr(blk, ip.Val(), k) == 0
      requires ip.addrs[NDIRECT] != 0 && ip.addrs[NDIRECT] < |blk| && bp == blk[ip.addrs[NDIRECT]]
      modifies this`blk, this`logged, this`owner
      ensures Has(ip) && EntryStep(sb, old(blk), inos, old(owner), old(logged), blk, owner, logged, ip.inum, k, r)
      ensures Adds(old(Now()), Now(), ip.inum, {k}) && SameInode(sb, old(blk), blk, ip.inum)
    {
      hide SameInode, Adds, Inv, EntryStep, SetWord, AllUsed, Tables, Bits, Synced, InSlot, OwnerOk, BitOk, OnDisk,
           OthersSame, SameFile, SameAt, Grew;
      ghost var i, v := ip.inum, Now();
      AddsNothing(v, i, {k});
      SameInodeRefl(sb, blk, i);
      NoEntryStep(sb, blk, inos, owner, logged, i, k);
      InvShape(sb, blk, inos, owner, i);
      r := Balloc();
      if r.Some? {
        EntryTaken(sb, v, i, k, r.value);
        LogWrite(ip.addrs[NDIRECT], SetWord(bp, k - NDIRECT - 1, r.value));
        owner := owner[r.value := Slot(i, k)];
      }
    }

    /** bmap: the block that holds block bn of the file, allocated if there is none; None is a
        panic, "out of blocks" or "out of range". */
    method Bmap(ip: Inode, bn: nat) returns (r: Option<nat>)
      requires Valid(ip.inum) && Has(ip)
      modifies this`blk, this`logged, this`inos, this`owner, ip`addrs
      ensures Has(ip) && Bmapped(sb, old(Now()), Now(), ip.inum, bn, r)
      ensures Adds(old(Now()), Now(), ip.inum, SlotsFor(bn)) && SameInode(sb, old(blk), blk, ip.inum)
      ensures r.None? && bn < MAXFILE ==> Lacks(Now(), ip.inum, SlotsFor(bn))
    {
      AddsNothing(Now(), ip.inum, SlotsFor(bn));
      hide Adds, Lacks, SlotsFor, Inv, OthersSame, Grew, BmapCost, Addr, AllUsed, Tables, Bits, Synced, InSlot,
           OwnerOk, BitOk, OnDisk, SameFile, SameAt, Cost;
      if bn < NDIRECT {
        r := BmapDirect(ip, bn);
      } else if bn - NDIRECT < NINDIRECT {
        r := BmapIndirect(ip, bn);
      } else {
        OutOfRange(sb, Now(), ip.inum, bn);
        r := None;
      }
    }

    method BmapDirect(ip: Inode, bn: nat) returns (r: Option<nat>)
      requires Valid(ip.inum) && Has(ip) && bn < NDIRECT
      modifies this`blk, this`logged, this`inos, this`owner, ip`addrs
      ensures Has(ip) && Bmapped(sb, old(Now()), Now(), ip.inum, bn, r)
      ensures Adds(old(Now()), Now(), ip.inum, SlotsFor(bn)) && SameInode(sb, old(blk), blk, ip.inum)
      ensures r.None? ==> Lacks(Now(), ip.inum, SlotsFor(bn))
    {
      ghost var i := ip.inum;
      AddsNothing(Now(), i, SlotsFor(bn));
      InvShape(sb, blk, inos, owner, i);
      var addr := ip.addrs[bn];
      if addr != 0 {
        MappedIsBmapped(sb, Now(), i, bn);
        hide *;
        return Some(addr);
      }
      hide Adds, Inv, OthersSame, Grew, AllUsed, Tables, Bits, Synced, InSlot, OwnerOk, BitOk, OnDisk, SameFile,
           SameAt;
      r := AllocSlot(ip, bn);
      InvShape(sb, blk, inos, owner, i);
      if r.Some? {
        CostAdd2(old(logged), ip.addrs[NDIRECT], BBlock(sb, r.value), r.value);
        assert logged + {r.value} == logged;
      }
    }

    method BmapIndirect(ip: Inode, bn: nat) returns (r: Option<nat>)
      requires Valid(ip.inum) && Has(ip) && NDIRECT <= bn < MAXFILE
      modifies this`blk, this`logged, this`inos, this`owner, ip`addrs
      ensures Has(ip) && Bmapped(sb, old(Now()), Now(), ip.inum, bn, r)
      ensures Adds(old(Now()), Now(), ip.inum, SlotsFor(bn)) && SameInode(sb, old(blk), blk, ip.inum)
      ensures r.None? ==> Lacks(Now(), ip.inum, SlotsFor(bn))
    {
      hide Adds, Lacks, SlotsFor, Inv, Bmapped, Indirected, AllUsed, Tables, Bits, Synced, InSlot, OwnerOk, BitOk,
           OnDisk, SameFile, SameAt, OthersSame, Cost, BmapCost, Grew, SameSlots, Addr;
      ghost var v := Now();
      InvShape(sb, blk, inos, owner, ip.inum);
      var ok := LoadIndirect(ip);
      if !ok {
        NotBmapped(sb, v, Now(), ip.inum, bn);
        SlotsWidened(v, Now(), ip.inum, bn, NDIRECT);
        return None;
      }
      ghost var v1 := Now();
      IndirectedIs(sb, v, v1, ip.inum);
      r := BmapLoaded(ip, bn);
      BmappedAfter(sb, v, v1, Now(), ip.inum, bn, r);
      SlotsTogether(v, v1, Now(), ip.inum, bn, r.None?);
    }

    /** bmap's first step for an indirect block number: the indirect block, allocated if absent. */
    method LoadIndirect(ip: Inode) returns (ok: bool)
      requires Valid(ip.inum) && Has(ip)
      modifies this`blk, this`logged, this`inos, this`owner, ip`addrs
      ensures Has(ip) && Indirected(sb, old(Now()), Now(), ip.inum, ok)
      ensures Adds(old(Now()), Now(), ip.inum, {NDIRECT}) && SameInode(sb, old(blk), blk, ip.inum)
      ensures !ok ==> Lacks(Now(), ip.inum, {NDIRECT})
    {
      ghost var i := ip.inum;
      AddsNothing(Now(), i, {NDIRECT});
      OthersFrame(sb, blk, blk, inos, inos, owner, i);
      InvShape(sb, blk, inos, owner, i);
      SameSlotsRefl(blk, ip.Val());
      hide Adds, Inv, OthersSame, Grew, Cost, SameSlots, AllUsed, Tables, Bits, Synced, InSlot, OwnerOk, BitOk,
           OnDisk, SameFile, SameAt;
      ok := true;
      if ip.addrs[NDIRECT] == 0 {
        var ind := AllocSlot(ip, NDIRECT);
        InvShape(sb, blk, inos, owner, i);
        if ind.Some? {
          CostNewInd(old(logged), BBlock(sb, ind.value), ind.value);
        }
        ok := ind.Some?;
      }
    }

    method BmapLoaded(ip: Inode, bn: nat) returns (r: Option<nat>)
      requires Valid(ip.inum) && Has(ip) && NDIRECT <= bn < MAXFILE && ip.addrs[NDIRECT] != 0
      modifies this`blk, this`logged, this`owner
      ensures Has(ip) && Bmapped(sb, old(Now()), Now(), ip.inum, bn, r)
      ensures Adds(old(Now()), Now(), ip.inum, {bn + 1}) && SameInode(sb, old(blk), blk, ip.inum)
      ensures r.None? ==> Lacks(Now(), ip.inum, {bn + 1})
    {
      hide Adds, Lacks, Inv, EntryStep, Bmapped, Word, Addr, DataSlot, Tables, Bits, Synced, InSlot, OwnerOk, BitOk,
           OnDisk, SameFile, SameAt, OthersSame, Cost, BmapCost, Grew, AllUsed, Allocated, FreeBlock;
      ghost var i, v := ip.inum, Now();
      EntryIs(sb, v, i, bn);
      var bp := blk[ip.addrs[NDIRECT]];
      var addr := Word(bp, bn - NDIRECT);
      if addr != 0 {
        AddsNothing(v, i, {bn + 1});
        return Some(addr);
      }
      r := AllocEntry(ip, bn + 1, bp);
      EntryIsBmapped(sb, v, Now(), i, bn, r);
      NoEntryLacks(sb, v, Now(), i, bn + 1, r);
    }

    /** iupdate: the in-memory inode to its place in the inode blocks. */
    method Iupdate(ip: Inode)
      requires Valid(ip.inum) && Has(ip)
      modifies this`blk, this`logged
      ensures Valid(-1) && Has(ip) && SameOn(old(blk), blk, owner.Keys)
      ensures logged == old(logged) + {IBlock(sb, ip.inum)} && Logs(old(blk), old(logged), blk, logged)
      ensures Low(sb, old(blk), blk)
    {
      ghost var blk0 := blk;
      Layout(sb, ip.inum, 0);
      var bp := blk[IBlock(sb, ip.inum)];
      bp := PutDinode(bp, ip.inum % IPB, Dino(ip.typ, ip.major, ip.minor, ip.nlink, ip.size, ip.addrs));
      LogWrite(IBlock(sb, ip.inum), bp);
      InodeBlockWrite(sb, blk0, inos, owner, ip.inum);
    }

    /** One turn of the loop in writei: bread(bmap(..)), memmove, log_write. */
    method WriteTurn(ip: Inode, pos: nat, s: seq<byte>, ghost v0: View, ghost off: nat, ghost src: seq<byte>,
                     ghost tot: nat)
      returns (ok: bool)
      requires Has(ip) && Looping(sb, v0, Now(), ip.inum, off, src, tot) && (tot == 0 || pos % BSIZE == 0)
      requires 0 < |s| <= BSIZE - pos % BSIZE && pos + |s| <= MAXBYTES
      requires pos == off + tot && tot + |s| <= |src| && s == src[tot..tot + |s|]
      modifies this`blk, this`logged, this`inos, this`owner, ip`addrs
      ensures Has(ip) && if ok then Looping(sb, v0, Now(), ip.inum, off, src, tot + |s|)
                         else Stuck(sb, v0, Now(), ip.inum, off, |src|)
    {
      hide Inv, Bmapped, SameInode, Looping, Stuck, Adds, Lacks, Patch, SlotsFor;
      ghost var i, v := ip.inum, Now();
      LoopingIs(sb, v0, v, i, off, src, tot);
      var r := Bmap(ip, pos / BSIZE);
      ghost var v1 := Now();
      ok := r.Some?;
      LoopStep(sb, v0, v, v1, if ok && r.value < |v1.blk| then Put(v1, r.value, pos, s) else v1,
               i, off, src, tot, |s|, r);
      if ok {
        var bp := blk[r.value];
        bp := Patch(bp, pos % BSIZE, s);
        LogWrite(r.value, bp);
        assert Now() == Put(v1, r.value, pos, s);
      }
    }

    /** writei of all of src at off. It panics exactly when fewer blocks are free than it needs. It
        writes the inode to disk only when the file has grown: see InodeLeft. */
    method Writei(ip: Inode, src: seq<byte>, off: nat) returns (r: Outcome)
      requires Valid(-1) && Has(ip) && ip.size <= MAXBYTES && off < UINT && |src| < UINT
      modifies this`blk, this`logged, this`inos, this`owner, ip`addrs, ip`size
      ensures Has(ip) && (r == ToDevice <==> old(ip.typ) == T_DEV)
      ensures r == Ret(-1) <==> ip.typ != T_DEV && (off > old(ip.size) || off + |src| >= UINT || off + |src| > MAXBYTES)
      ensures r == ToDevice || r == Ret(-1) ==> Now() == old(Now()) && ip.Val() == old(ip.Val())
      ensures r == Panic ==> TooFull(sb, old(Now()), ip.inum, off, |src|)
      ensures r == Panic || r == ToDevice || r == Ret(-1) || r == Ret(|src|)
      ensures r == Ret(|src|) ==>
                && !TooFull(sb, old(Now()), ip.inum, off, |src|)
                && Wrote(sb, old(Now()), Now(), ip.inum, off, src, Owed(old(ip.Val()), ip.inum, off, |src|))
                && InodeLeft(sb, old(Now()), Now(), ip.inum, off, |src|)
                && Adds(old(Now()), Now(), ip.inum, Wanted(off, |src|))
    {
      ghost var i, v0 := ip.inum, Now();
      if ip.typ == T_DEV {
        return ToDevice;
      }
      if off > ip.size || (off + |src|) % UINT < off {
        return Ret(-1);
      }
      if off + |src| > MAXBYTES {
        return Ret(-1);
      }
      hide Inv, Looping, Stuck, Wrote, Adds, TooFull, Wanted, Owed, InodeLeft;
      StartLooping(sb, v0, i, off, src);
      var o := WriteAll(ip, src, off);
      if o.None? {
        StuckTooFull(sb, v0, Now(), i, off, |src|);
        return Panic;
      }
      WriteSize(ip, v0, src, off, o.value);
      return Ret(|src|);
    }

    /** The end of writei: the new size, if the file has grown. */
    method WriteSize(ip: Inode, ghost v0: View, src: seq<byte>, off: nat, pos: nat)
      requires Has(ip) && Looping(sb, v0, Now(), ip.inum, off, src, |src|) && pos == off + |src| <= MAXBYTES
      requires Inv(sb, v0.blk, v0.inos, v0.owner, -1) && ip.inum < |v0.inos| && v0.inos[ip.inum].Valid()
      modifies this`blk, this`logged, this`inos, ip`size
      ensures Has(ip) && Wrote(sb, v0, Now(), ip.inum, off, src, Owed(v0.inos[ip.inum], ip.inum, off, |src|))
      ensures InodeLeft(sb, v0, Now(), ip.inum, off, |src|) && Adds(v0, Now(), ip.inum, Wanted(off, |src|))
      ensures !TooFull(sb, v0, ip.inum, off, |src|)
    {
      hide Inv, Looping, Wrote, Adds, TooFull, Wanted, InodeLeft, NewAddr;
      ghost var i, w := ip.inum, Now();
      LoopingIs(sb, v0, w, i, off, src, |src|);
      LoopedEnough(sb, v0, w, i, off, src);
      if |src| > 0 && pos > ip.size {
        FieldsChange(sb, blk, inos, owner, i, inos[i].(size := pos));
        ip.size := pos;
        inos := inos[i := ip.Val()];
        Iupdate(ip);
        LoopedGrown(sb, v0, w, Now(), i, off, src);
      } else {
        LoopedWithin(sb, v0, w, i, off, src);
      }
    }

    /** The loop of writei: off + |src|, or None for a panic of balloc. */
    method WriteAll(ip: Inode, src: seq<byte>, off: nat) returns (o: Option<nat>)
      requires Has(ip) && off + |src| <= MAXBYTES && Looping(sb, Now(), Now(), ip.inum, off, src, 0)
      modifies this`blk, this`logged, this`inos, this`owner, ip`addrs
      ensures Has(ip) && (o.Some? ==> o.value == off + |src|)
      ensures if o.Some? then Looping(sb, old(Now()), Now(), ip.inum, off, src, |src|)
              else Stuck(sb, old(Now()), Now(), ip.inum, off, |src|)
    {
      hide Inv, Looping, Stuck;
      ghost var v0 := Now();
      var pos, tot := off, 0;
      while tot < |src|
        invariant tot <= |src| && pos == off + tot && Has(ip) && (tot == 0 || tot == |src| || pos % BSIZE == 0)
        invariant Looping(sb, v0, Now(), ip.inum, off, src, tot)
      {
        var m := if |src| - tot < BSIZE - pos % BSIZE then |src| - tot else BSIZE - pos % BSIZE;
        var ok := WriteTurn(ip, pos, src[tot..tot + m], v0, off, src, tot);
        if !ok {
          return None;
        }
        tot, pos := tot + m, pos + m;
      }
      return Some(pos);
    }

    /** readi of n bytes at off into dst. A hole reads as zeros, but bmap fills it: readi panics
        exactly when fewer blocks are free than that takes. */
    method Readi(ip: Inode, off: nat, n: nat) returns (r: Outcome, dst: seq<byte>)
      requires Valid(-1) && Has(ip) && ip.size <= MAXBYTES && off < UINT && n < UINT
      modifies this`blk, this`logged, this`inos, this`owner, ip`addrs
      ensures Has(ip) && (r == ToDevice <==> ip.typ == T_DEV)
      ensures r == Ret(-1) <==> ip.typ != T_DEV && (off > ip.size || off + n >= UINT)
      ensures r == ToDevice || r == Ret(-1) ==> Now() == old(Now())
      ensures r == Panic ==> off <= ip.size
                             && TooFull(sb, old(Now()), ip.inum, off, if n < ip.size - off then n else ip.size - off)
      ensures r == Panic || r == ToDevice || r == Ret(-1) || r == Ret(|dst|)
      ensures r == Ret(|dst|) ==>
                && |dst| <= n && off + |dst| <= ip.size && (|dst| == n || off + |dst| == ip.size)
                && dst == Content(old(blk), old(ip.Val()))[off..off + |dst|]
                && !TooFull(sb, old(Now()), ip.inum, off, |dst|)
                && Read(sb, old(Now()), Now(), ip.inum, off, |dst|)
                && InodeLeft(sb, old(Now()), Now(), ip.inum, off, |dst|)
                && Adds(old(Now()), Now(), ip.inum, Wanted(off, |dst|))
    {
      hide Inv, Content, TooFull, Read, InodeLeft, Adds, Wanted;
      Overflow(off, n);
      if ip.typ == T_DEV {
        return ToDevice, [];
      }
      if off > ip.size || (off + n) % UINT < off {
        return Ret(-1), [];
      }
      var n' := if off + n > ip.size then ip.size - off else n;
      var ok;
      ok, dst := ReadAll(ip, off, n');
      if !ok {
        return Panic, [];
      }
      return Ret(n'), dst;
    }

    /** The loop of readi. */
    method ReadAll(ip: Inode, off: nat, n: nat) returns (ok: bool, dst: seq<byte>)
      requires Valid(-1) && Has(ip) && off + n <= ip.size <= MAXBYTES
      modifies this`blk, this`logged, this`inos, this`owner, ip`addrs
      ensures Has(ip) && (!ok ==> TooFull(sb, old(Now()), ip.inum, off, n))
      ensures ok ==>
                && dst == Content(old(blk), old(ip.Val()))[off..off + n]
                && !TooFull(sb, old(Now()), ip.inum, off, n) && Read(sb, old(Now()), Now(), ip.inum, off, n)
                && InodeLeft(sb, old(Now()), Now(), ip.inum, off, n)
                && Adds(old(Now()), Now(), ip.inum, Wanted(off, n))
    {
      hide Inv, Content, Reading, Stuck, TooFull, Read, InodeLeft, Adds, Wanted;
      ghost var i, v0, src := ip.inum, Now(), Content(blk, ip.Val())[off..off + n];
      StartReading(sb, v0, i, off, n);
      dst := [];
      var tot, pos := 0, off;
      while tot < n
        invariant tot <= n && pos == off + tot && Has(ip) && dst == src[..tot]
        invariant Reading(sb, v0, Now(), i, off, src, tot)
      {
        var m := if n - tot < BSIZE - pos % BSIZE then n - tot else BSIZE - pos % BSIZE;
        var s;
        ok, s := ReadTurn(ip, pos, m, v0, off, src, tot);
        if !ok {
          StuckTooFull(sb, v0, Now(), i, off, n);
          return;
        }
        Adjoin(src, 0, tot, tot + m);
        dst := dst + s;
        tot, pos := tot + m, pos + m;
      }
      ReadDone(sb, v0, Now(), i, off, src);
      ok := true;
    }

    /** One turn of the loop in readi: bread(bmap(..)), memmove. */
    method ReadTurn(ip: Inode, pos: nat, m: nat, ghost v0: View, ghost off: nat, ghost src: seq<byte>, ghost tot: nat)
      returns (ok: bool, s: seq<byte>)
      requires Has(ip) && Reading(sb, v0, Now(), ip.inum, off, src, tot) && pos == off + tot
      requires 0 < m <= BSIZE - pos % BSIZE && tot + m <= |src|
      modifies this`blk, this`logged, this`inos, this`owner, ip`addrs
      ensures Has(ip) && if ok then s == src[tot..tot + m] && Reading(sb, v0, Now(), ip.inum, off, src, tot + m)
                         else Stuck(sb, v0, Now(), ip.inum, off, |src|)
    {
      hide Inv, Bmapped, SameInode, Reading, Stuck, Adds, Lacks, SlotsFor;
      ghost var i, v := ip.inum, Now();
      ReadingIs(sb, v0, v, i, off, src, tot);
      var b := Bmap(ip, pos / BSIZE);
      ReadStep(sb, v0, v, Now(), i, off, src, tot, m, b);
      if b.None? {
        return false, [];
      }
      var bp := blk[b.value];
      return true, bp.bytes[pos % BSIZE..pos % BSIZE + m];
    }

    /** itrunc: frees exactly the blocks of the inode. "freeing free block" cannot happen. */
    method Itrunc(ip: Inode)
      requires Valid(ip.inum) && Has(ip)
      modifies this`blk, this`logged, this`inos, this`owner, ip`addrs, ip`size
      ensures Valid(-1) && Has(ip) && ip.Val() == Emptied(old(ip.Val()))
      ensures owner == Without(old(owner), ip.inum)
      ensures OthersSame(old(blk), old(inos), blk, inos, ip.inum) && Logs(old(blk), old(logged), blk, logged)
      ensures logged == old(logged) + TruncBits(sb, old(owner), ip.inum) + {IBlock(sb, ip.inum)}
      ensures Low(sb, old(blk), blk)
    {
      hide Low, Logs, TruncBits, Truncing, Inv, OthersSame, InUse, Tables, Bits, Synced, InSlot, OwnerOk, BitOk, OnDisk,
           SameFile, SameAt;
      ghost var i, v := ip.inum, Now();
      TruncStart(sb, v, i);
      var k := 0;
      while k < NDIRECT
        invariant k <= NDIRECT && inos == v.inos && owner == v.owner
        invariant Truncing(sb, v, blk, logged, i, k, NDIRECT + 1)
        invariant ip.Val() == v.inos[i].(addrs := ip.addrs) && |ip.addrs| == NDIRECT + 1
        invariant forall m :: 0 <= m <= NDIRECT ==> ip.addrs[m] == if m < k then 0 else v.inos[i].addrs[m]
      {
        TruncStep(sb, v, blk, logged, i, k, NDIRECT + 1, k, k + 1, NDIRECT + 1);
        if ip.addrs[k] != 0 {
          var panic := Bfree(ip.addrs[k]);
          assert !panic;
          ip.addrs := ip.addrs[k := 0];
        }
        k := k + 1;
      }
      if ip.addrs[NDIRECT] != 0 {
        TruncIndirect(ip, v);
        TruncStep(sb, v, blk, logged, i, NDIRECT, NSLOT, NDIRECT, NDIRECT + 1, NSLOT);
        var panic := Bfree(ip.addrs[NDIRECT]);
        assert !panic;
        ip.addrs := ip.addrs[NDIRECT := 0];
      } else {
        TruncNoIndirect(sb, v, blk, logged, i);
      }
      ip.size := 0;
      TruncEnds(sb, v, blk, logged, i);
      assert ip.Val() == Emptied(v.inos[i]);
      inos := inos[i := ip.Val()];
      owner := Without(owner, i);
      ghost var w := Now();
      Iupdate(ip);
      LogsTrans(v.blk, v.logged, w.blk, w.logged, blk, logged);
      TruncKeepsOthers(sb, v, w.blk, w.logged, blk, i);
      LowTrans(sb, v.blk, w.blk, blk);
    }

    /** The loop of itrunc over the entries of the indirect block. */
    method TruncIndirect(ip: Inode, ghost v: View)
      requires Truncing(sb, v, blk, logged, ip.inum, NDIRECT, NDIRECT + 1) && |ip.addrs| == NDIRECT + 1
      requires ip.inum < |v.inos| && v.inos[ip.inum].Valid() && ip.addrs[NDIRECT] == v.inos[ip.inum].addrs[NDIRECT] != 0
      modifies this`blk, this`logged
      ensures Truncing(sb, v, blk, logged, ip.inum, NDIRECT, NSLOT)
    {
      hide Logs, Truncing, InUse, Addr, Tables, Bits, Synced, InSlot, OwnerOk, BitOk, OnDisk;
      ghost var i := ip.inum;
      TruncEntries(sb, v, blk, logged, i);
      var bp := blk[ip.addrs[NDIRECT]];
      var j := 0;
      while j < NINDIRECT
        invariant j <= NINDIRECT && Truncing(sb, v, blk, logged, i, NDIRECT, NDIRECT + 1 + j)
      {
        TruncStep(sb, v, blk, logged, i, NDIRECT, NDIRECT + 1 + j, NDIRECT + 1 + j, NDIRECT, NDIRECT + 2 + j);
        if Word(bp, j) != 0 {
          var panic := Bfree(Word(bp, j));
          assert !panic;
        }
        j := j + 1;
      }
    }
  }
}

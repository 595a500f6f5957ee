/** filewrite of file.c: a write of any length, cut into transactions that fit the log. */
module File {
  import opened Blocks
  import opened Fs
  import opened FsCrowded
  import opened FsDisks
  import opened FsFile
  import opened FsInv
  import opened FsRoom
  import opened FsSpec
  import opened FsSteps
  import opened Param

  /** struct file of type FD_INODE; `appendable` is the FILE_APPENDABLE bit of writable. */
  class OpenFile {
    const ip: Inode
    const writable: bool
    const appendable: bool
    var off: nat

    constructor (ip: Inode, writable: bool, appendable: bool)
      ensures this.ip == ip && this.writable == writable && this.appendable == appendable && off == 0
    {
      this.ip, this.writable, this.appendable, off := ip, writable, appendable, 0;
    }

    /** Where the next write goes. */
    ghost function At(): nat
      reads this, ip
    {
      if appendable then ip.size else off
    }
  }

  /** Bytes per transaction. */
  const MAX: nat := (MAXOPBLOCKS - 1 - 1 - 2) / 2 * 512

  /** A chunk at any offset stays within what one operation may log. */
  lemma ChunkFits(off: nat, n: nat, mapped: bool)
    requires n <= MAX && (off % BSIZE != 0 ==> mapped)
    ensures WriteCost(off, n, mapped) <= MAXOPBLOCKS
  {
    if n > 0 {
      assert off == BSIZE * (off / BSIZE) + off % BSIZE;
      assert (off + n - 1) / BSIZE - off / BSIZE <= if off % BSIZE == 0 then 2 else 3;
    }
  }

  /** Only a chunk that touches four blocks, the first of which is missing, may cost more. */
  lemma ChunkExceeds(off: nat, n: nat, mapped: bool)
    requires n <= MAX
    ensures WriteCost(off, n, mapped) > MAXOPBLOCKS <==> Spanned(off, n) == 4 && !mapped
    ensures Spanned(off, n) == 4 ==> off % BSIZE != 0
  {
    if n > 0 {
      assert off == BSIZE * (off / BSIZE) + off % BSIZE;
      assert (off + n - 1) / BSIZE - off / BSIZE <= if off % BSIZE == 0 then 2 else 3;
    }
  }

  /** A write of n nonzero bytes at the end of file i goes through, and logs exactly `cost` different
      blocks. */
  ghost predicate Takes(sb: Super, v: View, i: nat, n: nat, cost: nat) {
    && Inv(sb, v.blk, v.inos, v.owner, -1) && v.logged == {} && i < |v.inos| && v.inos[i].Valid()
    && v.inos[i].typ != T_DEV && v.inos[i].size + n <= MAXBYTES && !TooFull(sb, v, i, v.inos[i].size, n)
    && forall src, v' :: Logging(sb, v, v', i, n, src) ==> |v'.logged| == cost
  }

  /** A result of that write, as the contract of writei has it. */
  ghost predicate Logging(sb: Super, v: View, v': View, i: nat, n: nat, src: seq<byte>)
    requires i < |v.inos|
  {
    |src| == n && NoZero(src) && Wrote(sb, v, v', i, v.inos[i].size, src, -1)
    && Adds(v, v', i, Wanted(v.inos[i].size, n))
  }

  lemma CostLarge(n: nat)
    ensures MAX == 1536 && (n == MAX ==> WriteCost(NDIRECT * BSIZE - 1, n, true) == MAXOPBLOCKS)
    ensures n == MAX ==> WriteCost(NDIRECT * BSIZE - 1, n, false) == MAXOPBLOCKS + 1
    ensures n > MAX ==> WriteCost(NDIRECT * BSIZE, n, false) > MAXOPBLOCKS
  {
  }

  /** MAX is as large as the log allows: there is a disk and a file where a chunk of MAX bytes logs
      MAXOPBLOCKS blocks, and for every longer chunk one where it logs more. */
  lemma ChunkLargest(n: nat) returns (v: View, cost: nat)
    requires MAX <= n <= NINDIRECT * BSIZE
    ensures Takes(LARGE, v, FULL, n, cost)
    ensures if n == MAX then cost == MAXOPBLOCKS else cost > MAXOPBLOCKS
  {
    CostLarge(n);
    v, cost := CrowdedWrite(if n == MAX then NDIRECT * BSIZE - 1 else NDIRECT * BSIZE, FULL, n);
  }

  /** In a file with a hole a chunk that filewrite allows can log too much: where it begins in the
      middle of a block that is not there. */
  lemma HoleTooMuch() returns (v: View)
    ensures Takes(LARGE, v, HOLE, MAX, MAXOPBLOCKS + 1)
  {
    CostLarge(MAX);
    var cost;
    v, cost := CrowdedWrite(NDIRECT * BSIZE - 1, HOLE, MAX);
  }

  lemma CrowdedWrite(size: nat, i: nat, n: nat) returns (v: View, cost: nat)
    requires (NDIRECT - 1) * BSIZE < size <= NDIRECT * BSIZE < size + n <= MAXBYTES && (i == FULL || i == HOLE)
    ensures cost == WriteCost(size, n, i == FULL && size < NDIRECT * BSIZE) && Takes(LARGE, v, i, n, cost)
  {
    hide Inv, Wanted, TooFull, Crowded, Wrote, Adds, NoZero, FirstMapped, WriteCost;
    v := CrowdedDisk(size, i);
    cost := WriteCost(size, n, i == FULL && size < NDIRECT * BSIZE);
    CrowdedIs(LARGE, v, i);
    forall src, v' | Logging(LARGE, v, v', i, n, src)
      ensures |v'.logged| == cost
    {
      AppendLogs(LARGE, v, v', i, src);
    }
  }

  ghost predicate Refused(off: nat, size: nat, n: nat) {
    off > size || off + n > MAXBYTES
  }

  /** A loop turn of filewrite: one transaction. */
  method WriteOne(fs: Fs, f: OpenFile, s: seq<byte>) returns (r: Outcome)
    requires fs.Valid(-1) && fs.Has(f.ip) && HoleFree(fs.blk, f.ip.Val()) && f.off < UINT && 0 < |s| <= MAX
    modifies fs`blk, fs`logged, fs`inos, fs`owner, f.ip`addrs, f.ip`size, f`off
    ensures r == ToDevice <==> f.ip.typ == T_DEV
    ensures r == Ret(-1) <==> f.ip.typ != T_DEV && Refused(old(f.At()), old(f.ip.size), |s|)
    ensures r == ToDevice || r == Ret(-1) ==> fs.Now().(logged := {}) == old(fs.Now()).(logged := {}) && fs.Has(f.ip)
    ensures r == ToDevice || r == Ret(-1) || r == Panic ==> f.off == old(f.At())
    ensures r == Panic ==> TooFull(fs.sb, old(fs.Now()), f.ip.inum, old(f.At()), |s|)
    ensures r == ToDevice || r == Ret(-1) || r == Panic || r == Ret(|s|)
    ensures r == Ret(|s|) ==> Replaced(fs.sb, old(fs.Now()), fs.Now(), f.ip.inum, old(f.At()), s) && fs.Has(f.ip)
    ensures r == Ret(|s|) ==> f.off == old(f.At()) + |s| <= MAXBYTES
    ensures r == Ret(|s|) ==> !TooFull(fs.sb, old(fs.Now()), f.ip.inum, old(f.At()), |s|)
  {
    hide Inv, HoleFree, Replaced, Adds;
    ghost var v := fs.Now();
    SizeFits(fs.blk, f.ip.Val());
    fs.BeginOp();
    if f.appendable {
      f.off := f.ip.size;
    }
    ghost var start, size := f.off, f.ip.size;
    ghost var w := fs.Now();
    r := fs.Writei(f.ip, s, f.off);
    if r.Ret? && r.value > 0 {
      f.off := f.off + r.value;
      ChunkDone(fs.sb, v, w, fs.Now(), f.ip.inum, start, s);
    }
    if r != Panic {
      fs.EndOp();
    }
  }

  /** What writei did to a file without holes, since before its begin_op. */
  lemma ChunkDone(sb: Super, v: View, w: View, v': View, i: nat, off: nat, src: seq<byte>)
    requires i < |w.inos| && w.inos[i].Valid() && HoleFree(w.blk, w.inos[i]) && off <= w.inos[i].size && |src| <= MAX
    requires Wrote(sb, w, v', i, off, src, Owed(w.inos[i], i, off, |src|)) && w == v.(logged := {})
    ensures Replaced(sb, v, v', i, off, src) && |v'.logged| <= MAXOPBLOCKS
  {
    hide Inv, HoleFree, OthersSame, Content, Splice, NewAddr, FirstMapped;
    if off + |src| <= w.inos[i].size {
      NoNewAddr(w.blk, w.inos[i], off, |src|);
    }
    if off % BSIZE != 0 {
      MiddleMapped(w.blk, w.inos[i], off);
    }
    ChunkFits(off, |src|, FirstMapped(w.blk, w.inos[i], off));
  }

  lemma SpliceTwice(c: seq<byte>, off: nat, a: seq<byte>, b: seq<byte>)
    requires off <= |c|
    ensures off + |a| <= |Splice(c, off, a)|
    ensures Splice(Splice(c, off, a), off + |a|, b) == Splice(c, off, a + b)
  {
    var d := Splice(c, off, a);
    assert d[..off + |a|] == c[..off] + a;
    if off + |a| + |b| <= |c| {
      assert d[off + |a| + |b|..] == c[off + |a| + |b|..];
    }
  }

  lemma ReplacedMore(sb: Super, v: View, v1: View, v2: View, i: nat, off: nat, a: seq<byte>, b: seq<byte>)
    requires Replaced(sb, v, v1, i, off, a) && Replaced(sb, v1, v2, i, off + |a|, b)
    ensures Replaced(sb, v, v2, i, off, a + b)
  {
    OthersSameTrans(v.blk, v.inos, v1.blk, v1.inos, v2.blk, v2.inos, i);
    SpliceTwice(Content(v.blk, v.inos[i]), off, a, b);
  }

  lemma ReplacedNothing(sb: Super, v: View, i: nat, off: nat)
    requires Inv(sb, v.blk, v.inos, v.owner, -1) && i < |v.inos| && v.inos[i].Valid() && HoleFree(v.blk, v.inos[i])
    requires off <= v.inos[i].size
    ensures Replaced(sb, v, v, i, off, [])
  {
    OthersFrame(sb, v.blk, v.blk, v.inos, v.inos, v.owner, i);
    var c := Content(v.blk, v.inos[i]);
    assert c[..off] + [] + c[off..] == c;
  }

  lemma ReplacedIs(sb: Super, v: View, v': View, i: nat, off: nat, src: seq<byte>)
    requires Replaced(sb, v, v', i, off, src)
    ensures Inv(sb, v'.blk, v'.inos, v'.owner, -1) && i < |v.inos| && i < |v'.inos| && v'.inos[i].Valid()
    ensures v.inos[i].Valid() && (HoleFree(v.blk, v.inos[i]) ==> HoleFree(v'.blk, v'.inos[i]))
    ensures v'.inos[i].typ == v.inos[i].typ
    ensures off <= v.inos[i].size
    ensures v'.inos[i].size == if off + |src| > v.inos[i].size then off + |src| else v.inos[i].size
  {
  }

  /** Where filewrite stands after k bytes. */
  ghost predicate Filing(sb: Super, v: View, v': View, i: nat, start: nat, src: seq<byte>, k: nat) {
    && k <= |src| && i < |v.inos| && (k == |src| || k % MAX == 0)
    && if start <= v.inos[i].size then Replaced(sb, v, v', i, start, src[..k])
       else k == 0 && v'.(logged := v.logged) == v
  }

  /** The chunk after k bytes found too few free blocks. */
  ghost predicate RanOut(sb: Super, v: View, i: nat, start: nat, src: seq<byte>, k: nat) {
    exists w :: Filing(sb, v, w, i, start, src, k)
                && TooFull(sb, w, i, start + k, if |src| - k > MAX then MAX else |src| - k)
  }

  /** filewrite: all of src, or -1 after the whole chunks before one that writei refuses. */
  method Filewrite(fs: Fs, f: OpenFile, src: seq<byte>) returns (r: Outcome, ghost k: nat)
    requires fs.Valid(-1) && fs.Has(f.ip) && HoleFree(fs.blk, f.ip.Val()) && f.off < UINT && |src| < 0x8000_0000
    modifies fs`blk, fs`logged, fs`inos, fs`owner, f.ip`addrs, f.ip`size, f`off
    ensures !f.writable ==> r == Ret(-1) && k == 0
    ensures r == ToDevice <==> f.writable && f.ip.typ == T_DEV && 0 < |src|
    ensures r == Panic ==> RanOut(fs.sb, old(fs.Now()), f.ip.inum, old(f.At()), src, k)
    ensures r != Panic ==> fs.Has(f.ip) && Filing(fs.sb, old(fs.Now()), fs.Now(), f.ip.inum, old(f.At()), src, k)
    ensures !f.writable || |src| == 0 ==> f.off == old(f.off)
    ensures f.writable && 0 < |src| ==> f.off == old(f.At()) + k
    ensures r.Ret? && f.writable ==> r.value == if k == |src| then |src| else -1
    ensures r.Ret? && f.writable && k < |src| ==>
              Refused(old(f.At()) + k, f.ip.size, if |src| - k > MAX then MAX else |src| - k)
  {
    hide Inv, HoleFree, Replaced, TooFull, Filing, Refused;
    ghost var i, v, start := f.ip.inum, fs.Now(), f.At();
    k := 0;
    StartFiling(fs.sb, v, i, start, src);
    if !f.writable {
      return Ret(-1), 0;
    }
    var done := 0;
    while done < |src|
      invariant k == done <= |src| && fs.Has(f.ip) && Filing(fs.sb, v, fs.Now(), i, start, src, k) && f.off < UINT
      invariant k > 0 ==> f.off == start + k && (f.appendable ==> f.ip.size == start + k)
      invariant (k > 0 ==> f.ip.typ != T_DEV) && f.At() == start + k && f.ip.typ == v.inos[i].typ
      invariant HoleFree(fs.blk, f.ip.Val()) && fs.Valid(-1) && (k == 0 ==> f.off == old(f.off))
    {
      var n1 := |src| - done;
      if n1 > MAX {
        n1 := MAX;
      }
      ghost var w := fs.Now();
      r := WriteOne(fs, f, src[done..done + n1]);
      if r == Panic {
        return;
      }
      if r == ToDevice || r.value < 0 {
        FilingStill(fs.sb, v, w, fs.Now(), i, start, src, k);
        if r == ToDevice {
          return;
        }
        break;
      }
      assert r.value == n1;
      done := done + r.value;
      NextChunk(fs.sb, v, w, fs.Now(), i, start, src, k, n1);
      k := done;
    }
    return Ret(if done == |src| then |src| else -1), k;
  }

  lemma StartFiling(sb: Super, v: View, i: nat, start: nat, src: seq<byte>)
    requires Inv(sb, v.blk, v.inos, v.owner, -1) && i < |v.inos| && v.inos[i].Valid() && HoleFree(v.blk, v.inos[i])
    ensures Filing(sb, v, v, i, start, src, 0)
  {
    hide Inv, HoleFree, Replaced;
    if start <= v.inos[i].size {
      ReplacedNothing(sb, v, i, start);
      assert src[..0] == [];
    }
  }

  lemma FilingStill(sb: Super, v: View, w: View, v': View, i: nat, start: nat, src: seq<byte>, k: nat)
    requires Filing(sb, v, w, i, start, src, k) && v'.(logged := {}) == w.(logged := {})
    ensures Filing(sb, v, v', i, start, src, k)
  {
  }

  lemma WholeChunks(k: nat, m: nat)
    ensures MAX == 1536 && (k % MAX == 0 && m == MAX ==> (k + m) % MAX == 0)
  {
  }

  lemma NextChunk(sb: Super, v: View, w: View, v': View, i: nat, start: nat, src: seq<byte>, k: nat, m: nat)
    requires Filing(sb, v, w, i, start, src, k) && 0 < m <= |src| - k && (m == |src| - k || m == MAX)
    requires Replaced(sb, w, v', i, start + k, src[k..k + m])
    requires i < |w.inos| && w.inos[i].Valid() && HoleFree(w.blk, w.inos[i])
    ensures Filing(sb, v, v', i, start, src, k + m) && i < |v.inos| && i < |v'.inos| && v'.inos[i].Valid()
    ensures Inv(sb, v'.blk, v'.inos, v'.owner, -1) && HoleFree(v'.blk, v'.inos[i]) && v'.inos[i].typ == v.inos[i].typ
    ensures start == v.inos[i].size ==> v'.inos[i].size == start + k + m
  {
    hide Inv, HoleFree, Replaced, Splice;
    ReplacedIs(sb, w, v', i, start + k, src[k..k + m]);
    assert src[..k] + src[k..k + m] == src[..k + m];
    WholeChunks(k, m);
    ReplacedMore(sb, v, w, v', i, start, src[..k], src[k..k + m]);
    ReplacedIs(sb, v, v', i, start, src[..k + m]);
  }
}

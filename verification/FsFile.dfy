/** The contents of a file: the bytes its block map spells out, and what one turn of the
    loops of readi and writei does to them. */
module FsFile {
  import opened Blocks
  import opened FsInv
  import opened FsSpec
  import opened Param

  const MAXBYTES: nat := MAXFILE * BSIZE

  /** Byte p of the file, 0 where no block is mapped. */
  function Byte(blk: seq<Block>, d: Dino, p: nat): byte
    requires d.Valid() && p < MAXBYTES
  {
    var a := Addr(blk, d, DataSlot(p / BSIZE));
    if a == 0 || a >= |blk| then 0 else blk[a].bytes[p % BSIZE]
  }

  function Content(blk: seq<Block>, d: Dino): (c: seq<byte>)
    requires d.Valid() && d.size <= MAXBYTES
    ensures |c| == d.size
  {
    seq(d.size, p requires 0 <= p < MAXBYTES => Byte(blk, d, p))
  }

  /** Every block index below ceil(n / BSIZE) is mapped. */
  ghost predicate MappedTo(blk: seq<Block>, d: Dino, n: nat)
    requires d.Valid()
  {
    n <= MAXBYTES && forall bn: nat :: bn < MAXFILE && bn * BSIZE < n ==> Addr(blk, d, DataSlot(bn)) != 0
  }

  ghost predicate HoleFree(blk: seq<Block>, d: Dino)
    requires d.Valid()
  {
    MappedTo(blk, d, d.size)
  }

  /** A file content with `src` written at `off`, growing it if need be. */
  function Splice(c: seq<byte>, off: nat, src: seq<byte>): seq<byte>
    requires off <= |c|
  {
    c[..off] + src + if off + |src| <= |c| then c[off + |src|..] else []
  }

  lemma SameFileContent(blk: seq<Block>, d: Dino, blk': seq<Block>, d': Dino)
    requires d.Valid() && d'.Valid() && SameFile(blk, d, blk', d') && |blk'| == |blk| && d.size <= MAXBYTES
    ensures Content(blk', d') == Content(blk, d)
  {
    forall p | 0 <= p < d.size
      ensures Byte(blk', d', p) == Byte(blk, d, p)
    {
      assert SameAt(blk, d, blk', d', DataSlot(p / BSIZE));
    }
  }

  // ---------- writei

  /** Bytes off .. off+tot-1 hold src, the rest of the old file is as before, and what was mapped
      still is, as are the blocks written. */
  ghost predicate Written(blk0: seq<Block>, d0: Dino, blk: seq<Block>, d: Dino, off: nat, src: seq<byte>, tot: nat)
    requires d0.Valid() && d.Valid()
  {
    && tot <= |src| && off <= d0.size && off + tot <= MAXBYTES && d0.size <= MAXBYTES
    && d.(addrs := d0.addrs) == d0
    && (forall bn: nat :: bn < MAXFILE ==> MapOk(blk0, d0, blk, d, off, tot, bn))
    && (forall p: nat :: p < MAXBYTES ==> ByteOk(blk0, d0, blk, d, off, src, tot, p))
  }

  ghost predicate MapOk(blk0: seq<Block>, d0: Dino, blk: seq<Block>, d: Dino, off: nat, tot: nat, bn: nat)
    requires d0.Valid() && d.Valid() && bn < MAXFILE
  {
    Addr(blk0, d0, DataSlot(bn)) != 0 || Covers(off, tot, bn) ==> Addr(blk, d, DataSlot(bn)) != 0
  }

  /** Block bn of a file holds one of the n bytes from off on. */
  predicate Covers(off: nat, n: nat, bn: nat) {
    n > 0 && off / BSIZE <= bn <= (off + n - 1) / BSIZE
  }

  ghost predicate ByteOk(blk0: seq<Block>, d0: Dino, blk: seq<Block>, d: Dino, off: nat, src: seq<byte>, tot: nat,
                         p: nat)
    requires d0.Valid() && d.Valid() && tot <= |src| && p < MAXBYTES
  {
    if off <= p < off + tot then Byte(blk, d, p) == src[p - off]
    else p < d0.size ==> Byte(blk, d, p) == Byte(blk0, d0, p)
  }

  /** memmove(bp->data + o, src, m). */
  function Patch(b: Block, o: nat, s: seq<byte>): Block
    requires o + |s| <= BSIZE
  {
    Block(b.bytes[..o] + s + b.bytes[o + |s|..])
  }

  /** Data slots of one inode name different blocks, none of them its indirect block. */
  lemma SlotsDiffer(sb: Super, blk: seq<Block>, inos: seq<Dino>, owner: map<nat, Slot>, i: nat, k: nat, m: nat)
    requires Tables(sb, blk, inos, owner) && i < |inos| && inos[i].Valid() && k < NSLOT && m < NSLOT && k != m
    requires Addr(blk, inos[i], k) != 0
    ensures Addr(blk, inos[i], m) != Addr(blk, inos[i], k)
  {
    OwnerAt(sb, blk, inos, owner, i, k);
    if Addr(blk, inos[i], m) != 0 {
      OwnerAt(sb, blk, inos, owner, i, m);
    }
  }

  /** A byte of the file survives the growth of the map; in a block that was not mapped it is 0. */
  lemma ByteAfterGrew(blk: seq<Block>, d: Dino, blk': seq<Block>, d': Dino, k: nat, r: nat, p: nat)
    requires d.Valid() && d'.Valid() && k < NSLOT && p < MAXBYTES && Grew(blk, d, blk', d', k, r)
    ensures Byte(blk', d', p) == Byte(blk, d, p)
    ensures Addr(blk, d, DataSlot(p / BSIZE)) != 0 ==> Addr(blk', d', DataSlot(p / BSIZE)) != 0
  {
    assert DataSlot(p / BSIZE) != k ==> SameAt(blk, d, blk', d', DataSlot(p / BSIZE));
  }

  /** A byte after the block in slot DataSlot(bn) is overwritten by `data`. */
  lemma ByteAfterPatch(sb: Super, blk: seq<Block>, inos: seq<Dino>, owner: map<nat, Slot>, i: nat, bn: nat,
                       data: Block, p: nat)
    requires Tables(sb, blk, inos, owner) && i < |inos| && inos[i].Valid() && bn < MAXFILE && p < MAXBYTES
    requires 0 < Addr(blk, inos[i], DataSlot(bn)) < |blk|
    ensures Byte(blk[Addr(blk, inos[i], DataSlot(bn)) := data], inos[i], p)
         == if p / BSIZE == bn then data.bytes[p % BSIZE] else Byte(blk, inos[i], p)
    ensures Addr(blk[Addr(blk, inos[i], DataSlot(bn)) := data], inos[i], DataSlot(p / BSIZE))
         == Addr(blk, inos[i], DataSlot(p / BSIZE))
  {
    var r := Addr(blk, inos[i], DataSlot(bn));
    SlotsDiffer(sb, blk, inos, owner, i, DataSlot(bn), NDIRECT);
    if p / BSIZE != bn {
      SlotsDiffer(sb, blk, inos, owner, i, DataSlot(bn), DataSlot(p / BSIZE));
    }
  }

  /** Which bytes of a block m bytes from pos on are. */
  lemma InChunk(pos: nat, m: nat, p: nat)
    requires m <= BSIZE - pos % BSIZE
    ensures pos <= p < pos + m ==> p / BSIZE == pos / BSIZE && p % BSIZE == pos % BSIZE + (p - pos)
    ensures p / BSIZE == pos / BSIZE && !(pos <= p < pos + m) ==>
              p % BSIZE < pos % BSIZE || p % BSIZE >= pos % BSIZE + m
  {
  }

  /** One turn of the loop in writei, byte by byte: bmap gave r, and m bytes of src go into it. */
  lemma ChunkByte(sb: Super, blk0: seq<Block>, d0: Dino, blk: seq<Block>, d: Dino, blk1: seq<Block>, inos: seq<Dino>,
                  owner: map<nat, Slot>, i: nat, off: nat, src: seq<byte>, tot: nat, m: nat, r: nat, p: nat)
    requires d0.Valid() && d.Valid() && Written(blk0, d0, blk, d, off, src, tot)
    requires Tables(sb, blk1, inos, owner) && i < |inos| && inos[i].Valid()
    requires 0 < m <= |src| - tot && m <= BSIZE - (off + tot) % BSIZE && off + tot + m <= MAXBYTES
    requires Grew(blk, d, blk1, inos[i], DataSlot((off + tot) / BSIZE), r)
    requires p < MAXBYTES
    ensures ByteOk(blk0, d0, blk1[r := Patch(blk1[r], (off + tot) % BSIZE, src[tot..tot + m])], inos[i],
                   off, src, tot + m, p)
  {
    hide Tables, MapOk, SameAt, Addr;
    var pos, bn := off + tot, (off + tot) / BSIZE;
    var data := Patch(blk1[r], pos % BSIZE, src[tot..tot + m]);
    ByteAfterPatch(sb, blk1, inos, owner, i, bn, data, p);
    assert ByteOk(blk0, d0, blk, d, off, src, tot, p);
    InChunk(pos, m, p);
    if !(pos <= p < pos + m) {
      ByteAfterGrew(blk, d, blk1, inos[i], DataSlot(bn), r, p);
    }
  }

  /** ... and block by block: what is mapped then. */
  lemma ChunkMapped(sb: Super, blk0: seq<Block>, d0: Dino, blk: seq<Block>, d: Dino, blk1: seq<Block>,
                    inos: seq<Dino>, owner: map<nat, Slot>, i: nat, off: nat, tot: nat, m: nat, r: nat, data: Block,
                    b: nat)
    requires d0.Valid() && d.Valid() && b < MAXFILE && MapOk(blk0, d0, blk, d, off, tot, b)
    requires Tables(sb, blk1, inos, owner) && i < |inos| && inos[i].Valid()
    requires 0 < m <= BSIZE - (off + tot) % BSIZE && off + tot + m <= MAXBYTES
    requires Grew(blk, d, blk1, inos[i], DataSlot((off + tot) / BSIZE), r)
    ensures MapOk(blk0, d0, blk1[r := data], inos[i], off, tot + m, b)
  {
    hide Tables, SameAt, Byte;
    var pos, bn := off + tot, (off + tot) / BSIZE;
    assert b * BSIZE / BSIZE == b;
    ByteAfterPatch(sb, blk1, inos, owner, i, bn, data, b * BSIZE);
    hide Addr;
    ByteAfterGrew(blk, d, blk1, inos[i], DataSlot(bn), r, b * BSIZE);
    CoversNext(off, tot, m, b);
  }

  lemma CoversNext(off: nat, tot: nat, m: nat, b: nat)
    requires 0 < m <= BSIZE - (off + tot) % BSIZE
    ensures Covers(off, tot + m, b) ==> Covers(off, tot, b) || b == (off + tot) / BSIZE
    ensures Covers(off, tot, b) || b == (off + tot) / BSIZE ==> Covers(off, tot + m, b)
  {
    var bn := (off + tot) / BSIZE;
    assert (off + tot + m - 1) / BSIZE == bn by {
      assert off + tot == BSIZE * bn + (off + tot) % BSIZE;
    }
    if tot > 0 {
      assert bn - 1 <= (off + tot - 1) / BSIZE <= bn;
    }
  }

  lemma GrewFits(blk: seq<Block>, d: Dino, blk': seq<Block>, d': Dino, k: nat, r: nat)
    requires d.Valid() && d'.Valid() && k < NSLOT && Grew(blk, d, blk', d', k, r)
    ensures r < |blk'| == |blk| && d'.(addrs := d.addrs) == d
  {
  }

  lemma WriteChunk(sb: Super, blk0: seq<Block>, d0: Dino, blk: seq<Block>, d: Dino, blk1: seq<Block>,
                   inos: seq<Dino>, owner: map<nat, Slot>, i: nat, off: nat, src: seq<byte>, tot: nat, m: nat, r: nat)
    requires d0.Valid() && d.Valid() && Written(blk0, d0, blk, d, off, src, tot)
    requires Tables(sb, blk1, inos, owner) && i < |inos| && inos[i].Valid()
    requires 0 < m <= |src| - tot && m <= BSIZE - (off + tot) % BSIZE && off + tot + m <= MAXBYTES
    requires Grew(blk, d, blk1, inos[i], DataSlot((off + tot) / BSIZE), r)
    ensures Written(blk0, d0, blk1[r := Patch(blk1[r], (off + tot) % BSIZE, src[tot..tot + m])], inos[i],
                    off, src, tot + m)
  {
    hide ByteOk, MapOk, Grew, Tables, Patch;
    GrewFits(blk, d, blk1, inos[i], DataSlot((off + tot) / BSIZE), r);
    var pos := off + tot;
    var data := Patch(blk1[r], pos % BSIZE, src[tot..tot + m]);
    var tot', blk2 := tot + m, blk1[r := data];
    forall b: nat | b < MAXFILE
      ensures MapOk(blk0, d0, blk2, inos[i], off, tot', b)
    {
      ChunkMapped(sb, blk0, d0, blk, d, blk1, inos, owner, i, off, tot, m, r, data, b);
    }
    forall p: nat | p < MAXBYTES
      ensures ByteOk(blk0, d0, blk2, inos[i], off, src, tot', p)
    {
      ChunkByte(sb, blk0, d0, blk, d, blk1, inos, owner, i, off, src, tot, m, r, p);
    }
  }

  /** One turn of the loop in readi: it is as if m bytes were written back that are there already. */
  lemma ReadBack(blk0: seq<Block>, d0: Dino, blk: seq<Block>, d: Dino, blk1: seq<Block>, d1: Dino, off: nat,
                 src: seq<byte>, tot: nat, m: nat, r: nat)
    requires d0.Valid() && d.Valid() && d1.Valid() && Written(blk0, d0, blk, d, off, src, tot)
    requires 0 < m <= |src| - tot && m <= BSIZE - (off + tot) % BSIZE && off + |src| <= d0.size
    requires src == Content(blk0, d0)[off..off + |src|]
    requires Grew(blk, d, blk1, d1, DataSlot((off + tot) / BSIZE), r)
    ensures Written(blk0, d0, blk1, d1, off, src, tot + m)
    ensures r < |blk1| && blk1[r].bytes[(off + tot) % BSIZE..(off + tot) % BSIZE + m] == src[tot..tot + m]
  {
    hide ByteOk, MapOk, Grew, Byte;
    GrewFits(blk, d, blk1, d1, DataSlot((off + tot) / BSIZE), r);
    var tot' := tot + m;
    forall p: nat | p < MAXBYTES
      ensures ByteOk(blk0, d0, blk1, d1, off, src, tot', p)
    {
      ReadByte(blk0, d0, blk, d, blk1, d1, off, src, tot, m, r, p);
    }
    forall b: nat | b < MAXFILE
      ensures MapOk(blk0, d0, blk1, d1, off, tot', b)
    {
      ReadMapped(blk0, d0, blk, d, blk1, d1, off, tot, m, r, b);
    }
    var s, o := blk1[r].bytes[(off + tot) % BSIZE..(off + tot) % BSIZE + m], (off + tot) % BSIZE;
    forall q | 0 <= q < m
      ensures s[q] == src[tot + q]
    {
      ReadByte(blk0, d0, blk, d, blk1, d1, off, src, tot, m, r, off + tot + q);
      ByteIn(blk, d, blk1, d1, off + tot, q, r);
    }
  }

  lemma ReadByte(blk0: seq<Block>, d0: Dino, blk: seq<Block>, d: Dino, blk1: seq<Block>, d1: Dino, off: nat,
                 src: seq<byte>, tot: nat, m: nat, r: nat, p: nat)
    requires d0.Valid() && d.Valid() && d1.Valid() && p < MAXBYTES && tot + m <= |src|
                 && off + |src| <= d0.size <= MAXBYTES
    requires ByteOk(blk0, d0, blk, d, off, src, tot, p) && off + tot < MAXBYTES
    requires src == Content(blk0, d0)[off..off + |src|]
    requires Grew(blk, d, blk1, d1, DataSlot((off + tot) / BSIZE), r)
    ensures ByteOk(blk0, d0, blk1, d1, off, src, tot + m, p)
    ensures off + tot <= p < off + tot + m ==> Byte(blk1, d1, p) == src[p - off]
  {
    hide Grew, Byte;
    ByteAfterGrew(blk, d, blk1, d1, DataSlot((off + tot) / BSIZE), r, p);
  }

  lemma ByteIn(blk: seq<Block>, d: Dino, blk1: seq<Block>, d1: Dino, pos: nat, q: nat, r: nat)
    requires d.Valid() && d1.Valid() && pos < MAXBYTES && q < BSIZE - pos % BSIZE
    requires Grew(blk, d, blk1, d1, DataSlot(pos / BSIZE), r)
    ensures pos + q < MAXBYTES && r < |blk1| && Byte(blk1, d1, pos + q) == blk1[r].bytes[pos % BSIZE + q]
  {
    hide SameAt, Addr;
    assert (pos + q) / BSIZE == pos / BSIZE && (pos + q) % BSIZE == pos % BSIZE + q;
  }

  lemma ReadMapped(blk0: seq<Block>, d0: Dino, blk: seq<Block>, d: Dino, blk1: seq<Block>, d1: Dino, off: nat,
                   tot: nat, m: nat, r: nat, b: nat)
    requires d0.Valid() && d.Valid() && d1.Valid() && b < MAXFILE && MapOk(blk0, d0, blk, d, off, tot, b)
    requires 0 < m <= BSIZE - (off + tot) % BSIZE && off + tot < MAXBYTES
    requires Grew(blk, d, blk1, d1, DataSlot((off + tot) / BSIZE), r)
    ensures MapOk(blk0, d0, blk1, d1, off, tot + m, b)
  {
    hide SameAt, Byte, Addr;
    assert b * BSIZE / BSIZE == b;
    ByteAfterGrew(blk, d, blk1, d1, DataSlot((off + tot) / BSIZE), r, b * BSIZE);
    CoversNext(off, tot, m, b);
  }

  /** What is written back changes nothing. */
  lemma SpliceBack(c: seq<byte>, off: nat, n: nat)
    requires off + n <= |c|
    ensures Splice(c, off, c[off..off + n]) == c
  {
  }

  /** When the loop of writei is done, the file is the old one with src spliced in. */
  lemma WrittenIsSplice(blk0: seq<Block>, d0: Dino, blk: seq<Block>, d: Dino, off: nat, src: seq<byte>, size: nat)
    requires d0.Valid() && d.Valid() && Written(blk0, d0, blk, d, off, src, |src|)
    requires size == (if off + |src| > d0.size then off + |src| else d0.size) && size < UINT
    ensures Content(blk, d.(size := size)) == Splice(Content(blk0, d0), off, src)
    ensures HoleFree(blk0, d0) ==> HoleFree(blk, d.(size := size))
  {
    var d', c0 := d.(size := size), Content(blk0, d0);
    forall p: nat | p < size
      ensures Content(blk, d')[p] == Splice(c0, off, src)[p]
    {
      assert ByteOk(blk0, d0, blk, d, off, src, |src|, p);
      assert Byte(blk, d', p) == Byte(blk, d, p);
    }
    assert |Splice(c0, off, src)| == size;
    if HoleFree(blk0, d0) {
      forall bn: nat | bn < MAXFILE && bn * BSIZE < size
        ensures Addr(blk, d', DataSlot(bn)) != 0
      {
        assert Addr(blk, d', DataSlot(bn)) == Addr(blk, d, DataSlot(bn));
        assert MapOk(blk0, d0, blk, d, off, |src|, bn);
        assert bn * BSIZE >= d0.size ==> Covers(off, |src|, bn);
      }
    }
  }

  lemma WrittenStart(blk: seq<Block>, d: Dino, off: nat, src: seq<byte>)
    requires d.Valid() && off <= d.size <= MAXBYTES
    ensures Written(blk, d, blk, d, off, src, 0)
  {
  }

  /** The block that a write at off begins in is there. */
  ghost predicate FirstMapped(blk: seq<Block>, d: Dino, off: nat)
    requires d.Valid()
  {
    off < MAXBYTES && Addr(blk, d, DataSlot(off / BSIZE)) != 0
  }

  lemma StillMapped(blk0: seq<Block>, d0: Dino, blk: seq<Block>, d: Dino, off: nat, src: seq<byte>)
    requires d0.Valid() && d.Valid() && Written(blk0, d0, blk, d, off, src, 0) && FirstMapped(blk0, d0, off)
    ensures FirstMapped(blk, d, off)
  {
    assert MapOk(blk0, d0, blk, d, off, 0, off / BSIZE);
  }

  /** In a file without holes a write that begins in the middle of a block finds it. */
  lemma MiddleMapped(blk: seq<Block>, d: Dino, off: nat)
    requires d.Valid() && HoleFree(blk, d) && off <= d.size && off % BSIZE != 0
    ensures FirstMapped(blk, d, off)
  {
    assert off / BSIZE * BSIZE + off % BSIZE == off;
    assert Addr(blk, d, DataSlot(off / BSIZE)) != 0;
  }

  /** Blocks that the n bytes from off on touch. */
  function Spanned(off: nat, n: nat): nat {
    if n == 0 then 0 else (off + n - 1) / BSIZE - off / BSIZE + 1
  }
}

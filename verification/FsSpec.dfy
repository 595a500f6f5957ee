/** The on-disk structures of fs.c as functions of block contents: free bitmap, inodes,
    block map and file contents, and the invariant that ties them together. */
module FsSpec {
  import opened Blocks
  import opened Param

  const NDIRECT: nat := 12
  const NINDIRECT: nat := 128
  const MAXFILE: nat := NDIRECT + NINDIRECT
  const BPB: nat := 8 * BSIZE
  const IPB: nat := 8

  // ---------- bits of a byte

  function Pow2(n: nat): nat {
    if n == 0 then 1 else 2 * Pow2(n - 1)
  }

  /** Bit k of x, `x & (1 << k)`. */
  predicate Bit(x: nat, k: nat) {
    if k == 0 then x % 2 == 1 else Bit(x / 2, k - 1)
  }

  /** x with bit k made b: `x | (1 << k)` or `x & ~(1 << k)`. */
  function WithBit(x: nat, k: nat, b: bool): nat {
    if k == 0 then 2 * (x / 2) + (if b then 1 else 0) else 2 * WithBit(x / 2, k - 1, b) + x % 2
  }

  lemma {:induction false} BitOfWithBit(x: nat, k: nat, b: bool, j: nat)
    ensures Bit(WithBit(x, k, b), j) == if j == k then b else Bit(x, j)
  {
    if k == 0 {
      assert WithBit(x, 0, b) / 2 == x / 2;
    } else {
      assert WithBit(x, k, b) / 2 == WithBit(x / 2, k - 1, b);
      if j > 0 {
        BitOfWithBit(x / 2, k - 1, b, j - 1);
      }
    }
  }

  lemma {:induction false} WithBitFits(x: nat, k: nat, b: bool, n: nat)
    requires k < n && x < Pow2(n)
    ensures WithBit(x, k, b) < Pow2(n)
  {
    if k > 0 {
      WithBitFits(x / 2, k - 1, b, n - 1);
    } else {
      assert x / 2 < Pow2(n - 1);
    }
  }

  /** A byte stays a byte when a bit of it changes. */
  lemma WithBitIsByte(x: byte, k: nat, b: bool)
    requires k < 8
    ensures WithBit(x, k, b) < 0x100
  {
    assert Pow2(8) == 2 * Pow2(7) == 4 * Pow2(6) == 8 * Pow2(5) == 16 * Pow2(4) by {
      assert Pow2(7) == 2 * Pow2(6);
      assert Pow2(6) == 2 * Pow2(5);
    }
    assert Pow2(4) == 16;
    WithBitFits(x, k, b, 8);
  }

  // ---------- bits of a bitmap block

  predicate BlockBit(b: Block, i: nat)
    requires i < BPB
  {
    Bit(b.bytes[i / 8], i % 8)
  }

  function SetBlockBit(b: Block, i: nat, on: bool): Block
    requires i < BPB
  {
    WithBitIsByte(b.bytes[i / 8], i % 8, on);
    Block(b.bytes[i / 8 := WithBit(b.bytes[i / 8], i % 8, on)])
  }

  lemma BlockBitOfSet(b: Block, i: nat, on: bool, j: nat)
    requires i < BPB && j < BPB
    ensures BlockBit(SetBlockBit(b, i, on), j) == if i == j then on else BlockBit(b, j)
  {
    if i / 8 == j / 8 {
      BitOfWithBit(b.bytes[i / 8], i % 8, on, j % 8);
      assert i == 8 * (i / 8) + i % 8 && j == 8 * (j / 8) + j % 8;
    }
  }

  // ---------- inodes

  /** struct dinode; the four shorts are 16-bit patterns. addrs[NDIRECT] is the indirect block. */
  datatype Dino = Dino(typ: nat, major: nat, minor: nat, nlink: nat, size: nat, addrs: seq<word>) {
    ghost predicate Valid() {
      typ < 0x1_0000 && major < 0x1_0000 && minor < 0x1_0000 && nlink < 0x1_0000 && size < UINT
      && |addrs| == NDIRECT + 1
    }
  }

  /** A dinode in memory order: two shorts in each of the first two words. */
  function ToWords(d: Dino): (r: seq<word>)
    requires d.Valid()
    ensures |r| == NDIRECT + 4
  {
    [d.typ + 0x1_0000 * d.major, d.minor + 0x1_0000 * d.nlink, d.size] + d.addrs
  }

  function FromWords(ws: seq<word>): Dino
    requires |ws| == NDIRECT + 4
  {
    Dino(ws[0] % 0x1_0000, ws[0] / 0x1_0000, ws[1] % 0x1_0000, ws[1] / 0x1_0000, ws[2], ws[3..])
  }

  lemma DinoRoundTrip(d: Dino)
    requires d.Valid()
    ensures FromWords(ToWords(d)) == d
  {
    assert ToWords(d)[3..] == d.addrs;
  }

  /** The idx-th dinode of an inode block, 16 words each. */
  function DinodeOf(b: Block, idx: nat): Dino
    requires idx < IPB
  {
    FromWords(Words(b, 16 * idx, 16))
  }

  /** The assignments of iupdate, word by word. */
  function PutDinode(b: Block, idx: nat, d: Dino): Block
    requires idx < IPB && d.Valid()
  {
    PutWords(b, 16 * idx, ToWords(d), 16)
  }

  lemma WordsFrame(b: Block, from: nat, ws: seq<word>, from': nat, n: nat)
    requires from + |ws| <= NWORDS && from' + n <= NWORDS
    requires from + |ws| <= from' || from' + n <= from
    ensures Words(PutWords(b, from, ws, |ws|), from', n) == Words(b, from', n)
  {
    var c, us := PutWords(b, from, ws, |ws|), Words(b, from', n);
    forall i {:trigger us[i]} | 0 <= i < n
      ensures Word(c, from' + i) == us[i]
    {
      WordOfPutWords(b, from, ws, |ws|, from' + i);
      WordsAt(b, from', n, i);
    }
    WordsAre(c, from', us);
  }

  /** iupdate then ilock: the inode comes back, and the other inodes of the block stay. */
  lemma DinodeOfPut(b: Block, idx: nat, d: Dino, j: nat)
    requires idx < IPB && j < IPB && d.Valid()
    ensures DinodeOf(PutDinode(b, idx, d), j) == if j == idx then d else DinodeOf(b, j)
  {
    if j == idx {
      WordsOfPutWords(b, 16 * idx, ToWords(d));
      DinoRoundTrip(d);
    } else {
      WordsFrame(b, 16 * idx, ToWords(d), 16 * j, 16);
    }
  }
}

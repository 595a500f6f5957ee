/** Disk blocks: BSIZE bytes, read either as bytes or as little-endian 32-bit words.
    The C code overlays `struct logheader`, `struct dinode` and the indirect block's
    `uint` array on the same bytes; here the overlay is `Word` and `SetWord`. */
module Blocks {
  import opened Param

  const BSIZE: nat := 512
  const NWORDS: nat := 128

  type Bytes = b: seq<byte> | |b| == BSIZE witness seq(BSIZE, _ => 0)
  datatype Block = Block(bytes: Bytes)

  /** memset(data, 0, BSIZE). */
  function ZeroBlock(): (b: Block)
    ensures forall i :: 0 <= i < BSIZE ==> b.bytes[i] == 0
  {
    Block(seq(BSIZE, _ => 0))
  }

  /** Bytes read as a number, least significant first. */
  function Value(s: seq<byte>): nat {
    if s == [] then 0 else s[0] as int + 0x100 * Value(s[1..])
  }

  lemma ValueOfFour(s: seq<byte>)
    requires |s| == 4
    ensures Value(s) == s[0] as int + 0x100 * (s[1] as int + 0x100 * (s[2] as int + 0x100 * s[3] as int))
    ensures Value(s) < UINT
  {
    var s1, s2, s3 := s[1..], s[2..], s[3..];
    assert s1[1..] == s2 && s2[1..] == s3 && s3[1..] == [];
    assert Value(s3) == s[3] as int;
    assert Value(s2) == s[2] as int + 0x100 * Value(s3);
    assert Value(s1) == s[1] as int + 0x100 * Value(s2);
  }

  /** The word stored in bytes 4i .. 4i+3. */
  function Word(b: Block, i: nat): word
    requires i < NWORDS
  {
    ValueOfFour(b.bytes[4 * i..4 * i + 4]);
    Value(b.bytes[4 * i..4 * i + 4])
  }

  function SetWord(b: Block, i: nat, v: word): Block
    requires i < NWORDS
  {
    Block(b.bytes[4 * i := v % 0x100]
                 [4 * i + 1 := v / 0x100 % 0x100]
                 [4 * i + 2 := v / 0x1_0000 % 0x100]
                 [4 * i + 3 := v / 0x100_0000])
  }

  lemma SplitWord(v: word)
    ensures 0 <= v / 0x100_0000 < 0x100
    ensures v % 0x100 + 0x100 * (v / 0x100 % 0x100 + 0x100 * (v / 0x1_0000 % 0x100 + 0x100 * (v / 0x100_0000))) == v
  {
    assert v / 0x1_0000 == v / 0x100 / 0x100;
    assert v / 0x100_0000 == v / 0x100 / 0x100 / 0x100;
  }

  /** Storing a word and reading it back; the other words stay. */
  lemma WordOfSetWord(b: Block, i: nat, v: word, j: nat)
    requires i < NWORDS && j < NWORDS
    ensures Word(SetWord(b, i, v), j) == if i == j then v else Word(b, j)
  {
    var c := SetWord(b, i, v).bytes;
    if i == j {
      var s := [v % 0x100, v / 0x100 % 0x100, v / 0x1_0000 % 0x100, v / 0x100_0000];
      assert c[4 * j..4 * j + 4] == s;
      ValueOfFour(s);
      SplitWord(v);
    } else {
      assert c[4 * j..4 * j + 4] == b.bytes[4 * j..4 * j + 4];
    }
  }

  lemma WordOfZeroBlock(i: nat)
    requires i < NWORDS
    ensures Word(ZeroBlock(), i) == 0
  {
    var s := ZeroBlock().bytes[4 * i..4 * i + 4];
    assert s[0] == s[1] == s[2] == s[3] == 0;
    ValueOfFour(s);
  }

  // ---------- runs of words

  /** n consecutive words. */
  function Words(b: Block, from: nat, n: nat): (r: seq<word>)
    requires from + n <= NWORDS
    ensures |r| == n
  {
    if n == 0 then [] else Words(b, from, n - 1) + [Word(b, from + n - 1)]
  }

  /** The first k assignments of a loop storing the words ws. */
  function PutWords(b: Block, from: nat, ws: seq<word>, k: nat): Block
    requires k <= |ws| && from + |ws| <= NWORDS
  {
    if k == 0 then b else SetWord(PutWords(b, from, ws, k - 1), from + k - 1, ws[k - 1])
  }

  lemma {:induction false} WordOfPutWords(b: Block, from: nat, ws: seq<word>, k: nat, j: nat)
    requires k <= |ws| && from + |ws| <= NWORDS && j < NWORDS
    ensures Word(PutWords(b, from, ws, k), j) == if from <= j < from + k then ws[j - from] else Word(b, j)
  {
    hide Word, SetWord;
    if k > 0 {
      WordOfSetWord(PutWords(b, from, ws, k - 1), from + k - 1, ws[k - 1], j);
      WordOfPutWords(b, from, ws, k - 1, j);
    }
  }

  lemma {:induction false} WordsAre(b: Block, from: nat, ws: seq<word>)
    requires from + |ws| <= NWORDS
    requires forall i :: 0 <= i < |ws| ==> Word(b, from + i) == ws[i]
    ensures Words(b, from, |ws|) == ws
  {
    if |ws| > 0 {
      var n := |ws| - 1;
      WordsAre(b, from, ws[..n]);
      assert Word(b, from + n) == ws[n];
      assert ws == ws[..n] + [ws[n]];
    }
  }

  lemma {:induction false} WordsAt(b: Block, from: nat, n: nat, i: nat)
    requires from + n <= NWORDS && i < n
    ensures Words(b, from, n)[i] == Word(b, from + i)
  {
    if i < n - 1 {
      WordsAt(b, from, n - 1, i);
    }
  }

  /** What was stored is read back. */
  lemma WordsOfPutWords(b: Block, from: nat, ws: seq<word>)
    requires from + |ws| <= NWORDS
    ensures Words(PutWords(b, from, ws, |ws|), from, |ws|) == ws
  {
    forall i | 0 <= i < |ws|
      ensures Word(PutWords(b, from, ws, |ws|), from + i) == ws[i]
    {
      WordOfPutWords(b, from, ws, |ws|, from + i);
    }
    WordsAre(PutWords(b, from, ws, |ws|), from, ws);
  }
}

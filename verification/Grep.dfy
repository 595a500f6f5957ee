/** The matcher of grep.c, from chapter 9 of The Practice of Programming, against the languages
    that its patterns denote. */
module Grep {

  /** The characters of a C string before its NUL. */
  type cstring = s: string | '\0' !in s witness ""

  /** s[i], where the NUL after the last character counts. */
  function At(s: cstring, i: nat): char
    requires i <= |s|
  {
    if i == |s| then '\0' else s[i]
  }

  // ---------- what patterns mean

  /** A character or '.', once or (starred) any number of times. */
  datatype Elem = Elem(c: char, star: bool)

  predicate Is(c: char, x: char) {
    c == '.' || c == x
  }

  ghost predicate ElemLang(e: Elem, s: string) {
    if e.star then forall i :: 0 <= i < |s| ==> Is(e.c, s[i])
    else |s| == 1 && Is(e.c, s[0])
  }

  /** The language of a sequence of elements: concatenations of what they match. */
  ghost predicate Lang(es: seq<Elem>, s: string)
    decreases |es|, 1
  {
    if es == [] then s == ""
    else exists k: nat :: k <= |s| && Cut(es, s, k)
  }

  ghost predicate Cut(es: seq<Elem>, s: string, k: nat)
    requires es != [] && k <= |s|
    decreases |es|, 0
  {
    ElemLang(es[0], s[..k]) && Lang(es[1..], s[k..])
  }

  predicate Starred(re: cstring) {
    |re| > 1 && re[1] == '*'
  }

  /** How a pattern reads, after a leading '^': '*' stars the character before it. */
  function Elems(re: cstring): seq<Elem> {
    if re == "" || re == "$" then []
    else if Starred(re) then [Elem(re[0], true)] + Elems(re[2..])
    else [Elem(re[0], false)] + Elems(re[1..])
  }

  /** A '$' at the end, not starred, stands for the end of the text. */
  predicate ToEnd(re: cstring) {
    if re == "" then false
    else if re == "$" then true
    else if Starred(re) then ToEnd(re[2..])
    else ToEnd(re[1..])
  }

  /** text[i..j] is a match of the pattern. */
  ghost predicate Hit(re: cstring, text: cstring, i: nat, j: nat)
    requires i <= j <= |text|
  {
    Lang(Elems(re), text[i..j]) && (ToEnd(re) ==> j == |text|)
  }

  /** Some prefix of the text is a match. */
  ghost predicate Prefix(re: cstring, text: cstring) {
    exists j: nat :: j <= |text| && Hit(re, text, 0, j)
  }

  /** Some run of c's at the start of the text is followed by a match. */
  ghost predicate StarPrefix(c: char, re: cstring, text: cstring) {
    exists n: nat :: n <= |text| && AfterRun(c, re, text, n)
  }

  ghost predicate AfterRun(c: char, re: cstring, text: cstring, n: nat)
    requires n <= |text|
  {
    (forall i :: 0 <= i < n ==> Is(c, text[i])) && Prefix(re, text[n..])
  }

  // ---------- one step of the pattern

  lemma EmptyPrefix(text: cstring)
    ensures Prefix("", text)
  {
    assert Hit("", text, 0, 0);
  }

  lemma EndPrefix(text: cstring)
    ensures Prefix("$", text) <==> text == ""
  {
    if text == "" {
      assert Hit("$", text, 0, 0);
    }
  }

  /** What follows the first element of a pattern. */
  function Rest(re: cstring): cstring
    requires re != ""
  {
    if Starred(re) then re[2..] else re[1..]
  }

  /** A match of the whole pattern is one of its first element and then one of the rest. */
  lemma HitSplits(re: cstring, text: cstring, k: nat, j: nat)
    requires re != "" && re != "$" && k <= j <= |text|
    ensures Cut(Elems(re), text[0..j], k) <==>
            ElemLang(Elem(re[0], Starred(re)), text[..k]) && Lang(Elems(Rest(re)), text[k..][0..j - k])
    ensures ToEnd(re) == ToEnd(Rest(re))
  {
    assert text[0..j][..k] == text[..k];
    assert text[0..j][k..] == text[k..][0..j - k];
    assert Elems(re)[1..] == Elems(Rest(re));
  }

  /** The first element takes k characters and the rest of the expression matches from there. */
  ghost predicate CutAt(re: cstring, text: cstring, k: nat)
    requires re != "" && re != "$"
  {
    k <= |text| && ElemLang(Elem(re[0], Starred(re)), text[..k]) && Prefix(Rest(re), text[k..])
  }

  lemma FirstThenRest(re: cstring, text: cstring)
    requires re != "" && re != "$"
    ensures Prefix(re, text) <==> exists k: nat :: CutAt(re, text, k)
  {
    hide CutAt, Elems, Cut;
    if Prefix(re, text) {
      var j: nat :| j <= |text| && Hit(re, text, 0, j);
      var k := HitCuts(re, text, j);
    }
    if k: nat :| CutAt(re, text, k) {
      CutHits(re, text, k);
    }
  }

  lemma HitCuts(re: cstring, text: cstring, j: nat) returns (k: nat)
    requires re != "" && re != "$" && j <= |text| && Hit(re, text, 0, j)
    ensures CutAt(re, text, k)
  {
    var es, s := Elems(re), text[0..j];
    assert es != [] && Lang(es, s);
    k :| k <= |s| && Cut(es, s, k);
    HitSplits(re, text, k, j);
    assert Hit(Rest(re), text[k..], 0, j - k);
  }

  lemma CutHits(re: cstring, text: cstring, k: nat)
    requires re != "" && re != "$" && CutAt(re, text, k)
    ensures Prefix(re, text)
  {
    var m: nat :| m <= |text[k..]| && Hit(Rest(re), text[k..], 0, m);
    HitSplits(re, text, k, k + m);
    assert Cut(Elems(re), text[0..k + m], k);
    assert Hit(re, text, 0, k + m);
  }

  lemma OnePrefix(re: cstring, text: cstring)
    requires re != "" && re != "$" && !Starred(re)
    ensures Prefix(re, text) <==> text != "" && Is(re[0], text[0]) && Prefix(re[1..], text[1..])
  {
    FirstThenRest(re, text);
    if text != "" && Is(re[0], text[0]) && Prefix(re[1..], text[1..]) {
      assert CutAt(re, text, 1);
    }
  }

  lemma ManyPrefix(re: cstring, text: cstring)
    requires Starred(re)
    ensures Prefix(re, text) <==> StarPrefix(re[0], re[2..], text)
  {
    FirstThenRest(re, text);
    if StarPrefix(re[0], re[2..], text) {
      var n: nat :| n <= |text| && AfterRun(re[0], re[2..], text, n);
      assert CutAt(re, text, n);
    }
    if k: nat :| CutAt(re, text, k) {
      forall i | 0 <= i < k
        ensures Is(re[0], text[i])
      {
        assert text[..k][i] == text[i];
      }
      assert AfterRun(re[0], re[2..], text, k);
    }
  }

  // ---------- the matcher

  /** matchhere: does the text begin with a match? */
  method Matchhere(re: cstring, text: cstring) returns (r: bool)
    ensures r <==> Prefix(re, text)
    decreases |re|, |text|, 0
  {
    if At(re, 0) == '\0' {
      EmptyPrefix(text);
      return true;
    }
    if At(re, 1) == '*' {
      ManyPrefix(re, text);
      r := Matchstar(re[0], re[2..], text);
      return;
    }
    if re[0] == '$' && At(re, 1) == '\0' {
      assert re == "$";
      EndPrefix(text);
      return At(text, 0) == '\0';
    }
    OnePrefix(re, text);
    if At(text, 0) != '\0' && (re[0] == '.' || re[0] == text[0]) {
      r := Matchhere(re[1..], text[1..]);
      return;
    }
    return false;
  }

  /** matchstar: does the text begin with a run of c's, or of anything if c is '.', and then a match? */
  method Matchstar(c: char, re: cstring, text: cstring) returns (r: bool)
    ensures r <==> StarPrefix(c, re, text)
    decreases |re|, |text|, 1
  {
    var n := 0;
    while true
      invariant n <= |text| && forall i :: 0 <= i < n ==> Is(c, text[i])
      invariant forall m: nat :: m < n ==> !Prefix(re, text[m..])
      decreases |text| - n
    {
      var here := Matchhere(re, text[n..]);
      if here {
        assert AfterRun(c, re, text, n);
        return true;
      }
      if !(At(text, n) != '\0' && (text[n] == c || c == '.')) {
        return false;
      }
      n := n + 1;
    }
  }

  /** match: is some substring of the text, or a prefix of it after '^', a match? */
  method Match(re: cstring, text: cstring) returns (r: bool)
    ensures r <==> if re != "" && re[0] == '^' then exists j: nat :: j <= |text| && Hit(re[1..], text, 0, j)
                   else exists i: nat, j: nat :: i <= j <= |text| && Hit(re, text, i, j)
  {
    if At(re, 0) == '^' {
      r := Matchhere(re[1..], text);
      return;
    }
    var n := 0;
    while true
      invariant n <= |text|
      invariant forall i: nat, j: nat :: i < n && i <= j <= |text| ==> !Hit(re, text, i, j)
      decreases |text| - n
    {
      var here := Matchhere(re, text[n..]);
      PrefixOfSuffix(re, text, n);
      if here {
        return true;
      }
      if At(text, n) == '\0' {
        return false;
      }
      n := n + 1;
    }
  }

  lemma PrefixOfSuffix(re: cstring, text: cstring, n: nat)
    requires n <= |text|
    ensures Prefix(re, text[n..]) <==> exists j: nat :: n <= j <= |text| && Hit(re, text, n, j)
  {
    forall j: nat | n <= j <= |text|
      ensures Hit(re, text, n, j) <==> Hit(re, text[n..], 0, j - n)
    {
      assert text[n..][0..j - n] == text[n..j];
    }
    if Prefix(re, text[n..]) {
      var m: nat :| m <= |text[n..]| && Hit(re, text[n..], 0, m);
      assert Hit(re, text, n, n + m);
    }
  }
}

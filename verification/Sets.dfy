/** Counting the elements of sets. */
module Sets {
  lemma Smaller(s: set<nat>, t: set<nat>)
    requires s <= t
    ensures |s| <= |t|
  {
    assert t == s + (t - s);
  }

  lemma Sum(s: set<nat>, t: set<nat>)
    ensures |s + t| <= |s| + |t|
  {
    assert s + t == s + (t - s) && |t| == |t - s| + |t * s| by {
      assert t == (t - s) + (t * s);
    }
  }

  function Range(lo: nat, hi: nat): (r: set<nat>)
    requires lo <= hi
    ensures |r| == hi - lo && forall k: nat :: k in r <==> lo <= k < hi
  {
    if lo == hi then {} else Range(lo, hi - 1) + {hi - 1}
  }

  /** As many in the image as there are keys, if no two keys go to the same place. */
  lemma {:induction false} Injection(keys: set<nat>, f: map<nat, nat>, image: set<nat>)
    requires forall k :: k in keys ==> k in f && f[k] in image
    requires forall k, m :: k in keys && m in keys && f[k] == f[m] ==> k == m
    ensures |keys| <= |image|
  {
    if keys != {} {
      var k :| k in keys;
      Injection(keys - {k}, f, image - {f[k]});
    }
  }
}

/** When bget finds no buffer: the log's pinned blocks, those that system calls hold, and the one that
    commit has in hand share the NBUF buffers of the cache. */
module LogBuffers {
  import opened LogBudget
  import opened LogMachine
  import opened LogRuns
  import opened LogSpec
  import opened Options
  import opened Param
  import opened Sets
  import opened Steps

  /** The blocks whose buffers bget cannot take: held, or dirty. */
  ghost function Busy(cache: map<nat, Buf>): set<nat> {
    set b | b in cache && (cache[b].holder.Some? || cache[b].dirty)
  }

  /** bget of b meets "no buffers" when all n are busy or of the blocks `mine`, and none is b's. */
  ghost predicate NoBuffer(s: State, n: nat, mine: set<nat>, b: nat) {
    b !in Busy(s.cache) + mine && |Busy(s.cache) + mine| >= n
  }

  /** The block of the log area that commit or recovery has in hand for its next write. */
  function InHand(g: Geo, s: State): set<nat> {
    match s.pc
    case WritingLog(t) => {g.start + 1 + t}
    case Installing(t, _) => {g.start + 1 + t}
    case WritingHead => {g.start}
    case Clearing(_) => {g.start}
    case _ => {}
  }

  /** A bget that finds no buffer: of a system call that may hold one more; of commit or recovery for
      the block of the log area; for the home block that it then copies; or of read_head. */
  ghost predicate Meets(g: Geo, r: Rule, s: State, n: nat)
    requires |s.disk| == g.nblocks
  {
    || (exists p: nat, b: nat :: Enabled(g, s, Hold(p, b)) && MayHold(r, s) && NoBuffer(s, n, InHand(g, s), b))
    || (exists b :: b in InHand(g, s) && NoBuffer(s, n, {}, b))
    || ((s.pc.WritingLog? || s.pc.Installing?) && s.pc.tail < |s.lh|
        && NoBuffer(s, n, InHand(g, s), s.lh[s.pc.tail]))
    || (s.pc == Down && NoBuffer(s, n, {}, g.start))
  }

  // ---------- enough buffers

  lemma HeldStep(g: Geo, s: State, e: Event)
    requires |s.disk| == g.nblocks && Enabled(g, s, e)
    ensures Held(Do(g, s, e).cache) <= Held(s.cache) + if e.Hold? then {e.b} else {}
  {
    hide PutEntries, Header, HeadFits, NextInstall;
  }

  lemma {:induction false} HeldRun(g: Geo, v0: Disk, r: Rule, s0: State, es: seq<Event>, s: State)
    requires Init(g, v0, s0) && RunBy(g, r, s0, es, s) && r.most.Some?
    ensures |Held(s.cache)| <= r.most.value
  {
    hide Enabled, Do, Held;
    if es == [] {
      NoneHeld(s);
    } else {
      var m :| RunBy(g, r, s0, Front(es), m) && StepBy(g, r, m, Last(es), s);
      HeldRun(g, v0, r, s0, Front(es), m);
      var e := Last(es);
      HeldStep(g, m, e);
      Smaller(Held(s.cache), Held(m.cache) + if e.Hold? then {e.b} else {});
    }
  }

  lemma HeldBound(g: Geo, v0: Disk, r: Rule, s: State)
    requires ReachableBy(g, v0, r, s) && r.most.Some?
    ensures |Held(s.cache)| <= r.most.value
  {
    hide Init, RunBy;
    var s0, es :| Init(g, v0, s0) && RunBy(g, r, s0, es, s);
    HeldRun(g, v0, r, s0, es, s);
  }

  ghost function Blocks(lh: seq<nat>): set<nat> {
    set b | b in lh
  }

  lemma {:induction false} BlocksCount(lh: seq<nat>)
    ensures |Blocks(lh)| <= |lh| && (Distinct(lh) ==> |Blocks(lh)| == |lh|)
  {
    if lh != [] {
      var k := |lh| - 1;
      BlocksCount(lh[..k]);
      assert lh == lh[..k] + [lh[k]];
      assert Blocks(lh) == Blocks(lh[..k]) + {lh[k]};
    }
  }

  /** What is dirty is logged, and logged blocks are few. */
  lemma FewBusy(g: Geo, v0: Disk, s: State)
    requires Inv(g, v0, s)
    ensures g.Valid() && Busy(s.cache) <= Held(s.cache) + Blocks(s.lh)
    ensures |Busy(s.cache)| <= |Held(s.cache)| + g.Capacity()
    ensures forall b: nat :: b in Busy(s.cache) ==> g.Home(b)
    ensures forall b :: Pinned(s.lh, Unwritten(s.lh, s.pc), b) ==> b in Busy(s.cache)
    ensures s.pc.Installing? && s.pc.boot ==> Busy(s.cache) == Held(s.cache)
  {
    hide InvClients, DiskOk, InvHeader, InvProgress;
    forall b | b in s.cache
      ensures s.cache[b].dirty ==> b in s.lh
      ensures s.cache[b].dirty || s.cache[b].holder.Some? ==> g.Home(b)
    {
      assert s.cache[b].dirty ==> Pinned(s.lh, Unwritten(s.lh, s.pc), b);
      assert InvBuf(g, s.disk, s.ops, View(v0, s), b, s.cache[b]);
    }
    Smaller(Busy(s.cache), Held(s.cache) + Blocks(s.lh));
    BlocksCount(s.lh);
  }

  lemma NotShort(s: State, n: nat, mine: set<nat>, b: nat)
    requires |Busy(s.cache)| + |mine| < n
    ensures !NoBuffer(s, n, mine, b)
  {
    hide Busy;
    Sum(Busy(s.cache), mine);
  }

  /** commit copies from and to buffers that are pinned. */
  lemma TailIsBusy(g: Geo, v0: Disk, s: State)
    requires Inv(g, v0, s) && (s.pc.WritingLog? || (s.pc.Installing? && !s.pc.boot)) && s.pc.tail < |s.lh|
    ensures s.lh[s.pc.tail] in Busy(s.cache)
  {
    hide Inv, Busy;
    FewBusy(g, v0, s);
    assert Pinned(s.lh, Unwritten(s.lh, s.pc), s.lh[s.pc.tail]);
  }

  lemma Enough(g: Geo, v0: Disk, r: Rule, s: State, n: nat)
    requires ReachableBy(g, v0, r, s) && r.most.Some? && r.most.value > 0 && g.Capacity() > 0
    requires g.Capacity() + r.most.value < n
    ensures |s.disk| == g.nblocks && !Meets(g, r, s, n)
  {
    ReachableByRule(g, v0, r, s);
    ReachableInv(g, v0, s);
    HeldBound(g, v0, r, s);
    InvFacts(g, v0, s);
    EnoughIn(g, v0, r, s, n);
  }

  lemma EnoughIn(g: Geo, v0: Disk, r: Rule, s: State, n: nat)
    requires Inv(g, v0, s) && |s.disk| == g.nblocks && r.most.Some? && |Held(s.cache)| <= r.most.value
    requires r.most.value > 0 && g.Capacity() > 0 && g.Capacity() + r.most.value < n
    ensures !Meets(g, r, s, n)
  {
    hide Inv, Enabled, Busy, Held, NoBuffer;
    FewBusy(g, v0, s);
    assert |InHand(g, s)| <= 1;
    forall p: nat, b: nat | Enabled(g, s, Hold(p, b)) && MayHold(r, s)
      ensures !NoBuffer(s, n, InHand(g, s), b)
    {
      NotShort(s, n, InHand(g, s), b);
    }
    forall b: nat
      ensures !NoBuffer(s, n, {}, b)
    {
      NotShort(s, n, {}, b);
    }
    if (s.pc.WritingLog? || s.pc.Installing?) && s.pc.tail < |s.lh| {
      if s.pc.Installing? && s.pc.boot {
        BootFew(g, v0, s);
        NotShort(s, n, InHand(g, s), s.lh[s.pc.tail]);
      } else {
        TailIsBusy(g, v0, s);
        BusyIsThere(s, n, InHand(g, s), s.lh[s.pc.tail]);
      }
    }
  }

  lemma BusyIsThere(s: State, n: nat, mine: set<nat>, b: nat)
    requires b in Busy(s.cache)
    ensures !NoBuffer(s, n, mine, b)
  {
  }

  lemma BootFew(g: Geo, v0: Disk, s: State)
    requires Inv(g, v0, s) && s.pc.Installing? && s.pc.boot
    ensures |Busy(s.cache)| <= |Held(s.cache)|
  {
    hide Inv, Busy, Held;
    FewBusy(g, v0, s);
  }

  // ---------- too few

  /** The commit of a full log is about to begin, and the blocks bs[c..c + j] are held. */
  ghost predicate Crowd(g: Geo, s: State, bs: seq<nat>, j: nat) {
    var c := g.Capacity();
    && |s.disk| == g.nblocks && c + j <= |bs| && s.pc == WritingLog(0) && s.lh == bs[..c]
    && Held(s.cache) == Blocks(bs[c..c + j])
  }

  lemma CrowdStart(g: Geo, v0: Disk, r: Rule, bs: seq<nat>) returns (s: State)
    requires FreshDisk(g, v0) && HomeBlocks(g, bs) && r.k == MAXOPBLOCKS && r.most != Some(0)
    requires 0 < g.Capacity() <= |bs|
    ensures ReachableBy(g, v0, r, s) && Crowd(g, s, bs, 0)
  {
    hide ReachableBy, Held;
    var s0 := Fill(g, v0, r, bs, g.Capacity());
    var s1 := Do(g, s0, End(0));
    ReachBy(g, v0, r, s0, End(0));
    s := Do(g, s1, End(1));
    ReachBy(g, v0, r, s1, End(1));
    NoneHeld(s);
  }

  lemma HeldMore(cache: map<nat, Buf>, b: nat, buf: Buf)
    requires buf.holder.Some?
    ensures Held(cache[b := buf]) == Held(cache) + {b}
  {
  }

  lemma MoreBlocks(bs: seq<nat>, c: nat, j: nat)
    requires c + j < |bs| && Distinct(bs)
    ensures bs[c + j] !in Blocks(bs[c..c + j]) && Blocks(bs[c..c + (j + 1)]) == Blocks(bs[c..c + j]) + {bs[c + j]}
    ensures |Blocks(bs[c..c + j])| <= j
  {
    assert bs[c..c + (j + 1)] == bs[c..c + j] + [bs[c + j]];
    BlocksCount(bs[c..c + j]);
  }

  lemma CanHold(g: Geo, s: State, b: nat)
    requires |s.disk| == g.nblocks && g.Home(b) && b !in Held(s.cache) && s.pc == WritingLog(0)
    ensures Enabled(g, s, Hold(0, b)) && b < |s.disk|
    ensures Do(g, s, Hold(0, b)) == s.(cache := s.cache[b := Bread(s, b).(holder := Some(0))])
  {
  }

  lemma CrowdNext(g: Geo, v0: Disk, r: Rule, bs: seq<nat>, s: State, j: nat) returns (t: State)
    requires ReachableBy(g, v0, r, s) && Crowd(g, s, bs, j) && HomeBlocks(g, bs) && g.Capacity() + j < |bs|
    requires r.most.Some? ==> j < r.most.value
    ensures ReachableBy(g, v0, r, t) && Crowd(g, t, bs, j + 1)
  {
    hide ReachableBy, Held, Blocks, Distinct, Enabled, Do;
    var c := g.Capacity();
    var b := bs[c + j];
    MoreBlocks(bs, c, j);
    CanHold(g, s, b);
    t := Do(g, s, Hold(0, b));
    HeldMore(s.cache, b, Bread(s, b).(holder := Some(0)));
    ReachBy(g, v0, r, s, Hold(0, b));
  }

  lemma {:induction false} CrowdTo(g: Geo, v0: Disk, r: Rule, bs: seq<nat>, j: nat) returns (s: State)
    requires FreshDisk(g, v0) && HomeBlocks(g, bs) && r.k == MAXOPBLOCKS && r.most != Some(0)
    requires 0 < g.Capacity() && g.Capacity() + j <= |bs| && (r.most.Some? ==> j <= r.most.value)
    ensures ReachableBy(g, v0, r, s) && Crowd(g, s, bs, j)
  {
    hide ReachableBy, FreshDisk, HomeBlocks, Crowd;
    if j == 0 {
      s := CrowdStart(g, v0, r, bs);
    } else {
      s := CrowdTo(g, v0, r, bs, j - 1);
      s := CrowdNext(g, v0, r, bs, s, j - 1);
    }
  }

  /** commit's first bread finds no buffer. */
  lemma CrowdMeets(g: Geo, v0: Disk, r: Rule, bs: seq<nat>, s: State, j: nat, n: nat)
    requires ReachableBy(g, v0, r, s) && Crowd(g, s, bs, j) && HomeBlocks(g, bs) && 0 < g.Capacity()
    requires n <= g.Capacity() + j
    ensures |s.disk| == g.nblocks && Meets(g, r, s, n)
  {
    hide Inv, ReachableBy, Enabled, Held, Busy, Blocks, Pinned;
    ReachableByRule(g, v0, r, s);
    ReachableInv(g, v0, s);
    FewBusy(g, v0, s);
    HeldIsBusy(s.cache);
    CrowdBusy(Busy(s.cache), bs, g.Capacity(), j);
    assert Busy(s.cache) + {} == Busy(s.cache);
    assert NoBuffer(s, n, {}, g.start + 1) && g.start + 1 in InHand(g, s);
  }

  lemma CrowdBusy(busy: set<nat>, bs: seq<nat>, c: nat, j: nat)
    requires c + j <= |bs| && Distinct(bs) && Blocks(bs[c..c + j]) <= busy
    requires forall b :: Pinned(bs[..c], 0, b) ==> b in busy
    ensures |busy| >= c + j
  {
    forall b | b in Blocks(bs[..c + j])
      ensures b in busy
    {
      var i: nat :| i < c + j && bs[i] == b;
      if i < c {
        assert bs[..c][i] == b && Pinned(bs[..c], 0, b);
      } else {
        assert bs[c..c + j][i - c] == b;
      }
    }
    PrefixCount(bs, c + j);
    Smaller(Blocks(bs[..c + j]), busy);
  }

  lemma HeldIsBusy(cache: map<nat, Buf>)
    ensures Held(cache) <= Busy(cache)
  {
  }

  lemma PrefixCount(bs: seq<nat>, n: nat)
    requires Distinct(bs) && n <= |bs|
    ensures |Blocks(bs[..n])| == n
  {
    BlocksCount(bs[..n]);
  }

  /** The exact condition. With at most h buffers held by system calls at any one time, no bget of any
      run finds its n buffers all in use if and only if n is more than the blocks that the log can
      pin and h. With xv6's 30 buffers and mkfs's log, which pins up to 29 blocks, that fails for
      every h: one reader during the commit of a full log is enough. */
  lemma BufferCondition(g: Geo, v0: Disk, h: nat, n: nat, bs: seq<nat>)
    requires FreshDisk(g, v0) && HomeBlocks(g, bs) && |bs| >= g.Capacity() + h && h > 0 && g.size > 1
    ensures var r := Rule(MAXOPBLOCKS, true, Some(h));
            (forall s :: ReachableBy(g, v0, r, s) ==> |s.disk| == g.nblocks && !Meets(g, r, s, n)) <==>
            n > g.Capacity() + h
  {
    hide ReachableBy, Meets, FreshDisk, HomeBlocks, Crowd;
    var r := Rule(MAXOPBLOCKS, true, Some(h));
    if n > g.Capacity() + h {
      forall s | ReachableBy(g, v0, r, s)
        ensures |s.disk| == g.nblocks && !Meets(g, r, s, n)
      {
        Enough(g, v0, r, s, n);
      }
    } else {
      var s := CrowdTo(g, v0, r, bs, h);
      CrowdMeets(g, v0, r, bs, s, h, n);
    }
  }
}

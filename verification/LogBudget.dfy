/** When log_write meets "too big a transaction". Operations log only so many different blocks;
    how many, and whether they may log a block again once these are spent, is a rule that the
    callers keep. */
module LogBudget {
  import opened Blocks
  import opened LogMachine
  import opened LogRuns
  import opened LogSpec
  import opened Options
  import opened Param
  import opened Steps

  /** At most k different blocks an operation; `again`: with these spent, it may still call
      log_write for a block that is already logged, which takes no new slot. `most`: no more buffers
      than that are held at any one time. */
  datatype Rule = Rule(k: nat, again: bool, most: Option<nat>)

  /** The buffers that are held. */
  ghost function Held(cache: map<nat, Buf>): set<nat> {
    set b | b in cache && cache[b].holder.Some?
  }

  /** One more may be held. */
  ghost predicate MayHold(r: Rule, s: State) {
    r.most.Some? ==> |Held(s.cache)| < r.most.value
  }

  /** Operation p, holding b, may call log_write. */
  predicate Allowed(r: Rule, s: State, p: nat, b: nat) {
    OpOpen(s.ops, p) && Holds(s, p, b) && (s.ops[p].value.used < r.k || (r.again && b in s.lh))
  }

  ghost predicate Obeys(r: Rule, s: State, e: Event) {
    (e.LogWrite? ==> Allowed(r, s, e.p, e.b)) && (e.Hold? ==> MayHold(r, s))
  }

  /** A run in which every log_write keeps to the rule. */
  ghost predicate RunBy(g: Geo, r: Rule, s0: State, es: seq<Event>, s1: State) {
    if es == [] then s0 == s1 else
      exists m :: RunBy(g, r, s0, Front(es), m) && StepBy(g, r, m, Last(es), s1)
  }

  ghost predicate StepBy(g: Geo, r: Rule, s: State, e: Event, s1: State) {
    StepTo(g, s, e, s1) && Obeys(r, s, e)
  }

  ghost predicate ReachableBy(g: Geo, v0: Disk, r: Rule, s: State) {
    exists s0, es :: Init(g, v0, s0) && RunBy(g, r, s0, es, s)
  }

  /** A log_write that the rule allows, and that panics. */
  ghost predicate CallPanics(g: Geo, r: Rule, s: State, p: nat, b: nat) {
    Allowed(r, s, p, b) && LogWritePanics(g, s)
  }

  /** The log is large enough for the rule. begin_op lets at most 30 slots be reserved at 10 an
      operation, so the slots that k an operation can fill are 10 + 2 * k. */
  predicate Roomy(g: Geo, r: Rule) {
    g.size > MAXOPBLOCKS + 2 * r.k + (if r.again then 1 else 0) && (r.again ==> r.k < MAXOPBLOCKS)
  }

  // ---------- runs by a rule are runs

  lemma {:induction false} RunByIsRun(g: Geo, r: Rule, s0: State, es: seq<Event>, s: State)
    requires RunBy(g, r, s0, es, s)
    ensures Run(g, s0, es, s)
  {
    hide StepTo, Obeys;
    if es != [] {
      var m :| RunBy(g, r, s0, Front(es), m) && StepBy(g, r, m, Last(es), s);
      RunByIsRun(g, r, s0, Front(es), m);
    }
  }

  lemma {:induction false} RunIsByTen(g: Geo, s0: State, es: seq<Event>, s: State)
    requires Run(g, s0, es, s)
    ensures RunBy(g, Rule(MAXOPBLOCKS, true, None), s0, es, s)
  {
    hide Do, Holds, LogWritePanics;
    if es != [] {
      var m :| Run(g, s0, Front(es), m) && StepTo(g, m, Last(es), s);
      RunIsByTen(g, s0, Front(es), m);
      assert StepBy(g, Rule(MAXOPBLOCKS, true, None), m, Last(es), s);
    }
  }

  /** The runs of the machine are those of operations that log at most MAXOPBLOCKS different
      blocks; with a smaller budget or without repeated calls there are no others. */
  lemma ReachableByRule(g: Geo, v0: Disk, r: Rule, s: State)
    ensures ReachableBy(g, v0, r, s) ==> Reachable(g, v0, s)
    ensures Reachable(g, v0, s) ==> ReachableBy(g, v0, Rule(MAXOPBLOCKS, true, None), s)
  {
    hide Init, Run, RunBy;
    if ReachableBy(g, v0, r, s) {
      var s0, es :| Init(g, v0, s0) && RunBy(g, r, s0, es, s);
      RunByIsRun(g, r, s0, es, s);
    }
    if Reachable(g, v0, s) {
      var s0, es :| Init(g, v0, s0) && Run(g, s0, es, s);
      RunIsByTen(g, s0, es, s);
    }
  }

  lemma ReachBy(g: Geo, v0: Disk, r: Rule, s: State, e: Event)
    requires ReachableBy(g, v0, r, s) && |s.disk| == g.nblocks && Enabled(g, s, e) && Obeys(r, s, e)
    ensures ReachableBy(g, v0, r, Do(g, s, e))
  {
    hide Enabled, Do, Init, Obeys;
    var s0, es :| Init(g, v0, s0) && RunBy(g, r, s0, es, s);
    FrontLast(es, e);
    assert StepBy(g, r, s, e, Do(g, s, e));
    assert RunBy(g, r, s0, es + [e], Do(g, s, e));
  }

  // ---------- a log that is large enough

  /** Logged blocks and what the open operations may still log stay within 10 + 2 * k. */
  ghost predicate InvBudget(k: nat, ops: seq<Option<Op>>, lh: seq<nat>, pc: Pc) {
    && (forall p :: 0 <= p < |ops| && ops[p].Some? ==> ops[p].value.used <= k)
    && (pc == Running ==> |lh| + Unspent(ops, k) <= MAXOPBLOCKS + 2 * k)
  }

  /** What the count of open operations says of the log. */
  ghost predicate Counted(s: State) {
    && s.outstanding == CountOpen(s.ops)
    && (s.pc == Running && s.outstanding == 0 ==> s.lh == []) && (s.pc == Finish ==> s.lh == [])
    && (s.committing <==> Committing(s.pc)) && (s.outstanding > 0 ==> s.pc == Running)
  }

  lemma BudgetKeeps(g: Geo, r: Rule, s: State, e: Event)
    requires r.k <= MAXOPBLOCKS && InvBudget(r.k, s.ops, s.lh, s.pc) && Counted(s)
    requires |s.disk| == g.nblocks && Enabled(g, s, e) && Obeys(r, s, e)
    ensures var t := Do(g, s, e); InvBudget(r.k, t.ops, t.lh, t.pc)
  {
    hide Bread, Get, Unspent, CountOpen, Absorb;
    if e.Begin? {
      BudgetBegins(r.k, s.ops, s.lh, s.pc, s.outstanding, e.p, |s.performed|);
    } else if e.LogWrite? {
      BudgetSpent(r.k, s.ops, s.lh, s.pc, e.p, e.b);
    } else if e.End? {
      UpdateOps(s.ops, e.p, None, r.k);
    } else {
      var t := Do(g, s, e);
      OtherStep(g, s, e);
      hide Do, Enabled, Obeys;
      BudgetStays(r.k, s.ops, s.lh, s.pc, t.ops, t.lh, t.pc);
    }
  }

  lemma BudgetStays(k: nat, ops: seq<Option<Op>>, lh: seq<nat>, pc: Pc, ops': seq<Option<Op>>, lh': seq<nat>, pc': Pc)
    requires k <= MAXOPBLOCKS && InvBudget(k, ops, lh, pc)
    requires ops' == ops || forall p :: 0 <= p < |ops'| ==> ops'[p] == None
    requires pc' == Running ==> ops' == ops && ((lh' == lh && pc == Running) || (lh' == [] && CountOpen(ops) == 0))
    ensures InvBudget(k, ops', lh', pc')
  {
    OpsBounds(ops, k);
    OpsBounds(ops', k);
  }

  /** Any other step leaves the counts alone, or ends with an empty log and no operation open, or
      is not the state of normal operation. */
  lemma OtherStep(g: Geo, s: State, e: Event)
    requires Counted(s) && |s.disk| == g.nblocks && Enabled(g, s, e) && !e.Begin? && !e.LogWrite? && !e.End?
    ensures var t := Do(g, s, e);
            && (t.ops == s.ops || forall p :: 0 <= p < |t.ops| ==> t.ops[p] == None)
            && (t.pc == Running ==> t.ops == s.ops)
            && (t.pc == Running && !(t.lh == s.lh && s.pc == Running) ==> t.lh == [] && s.outstanding == 0)
  {
    hide Header, PutEntries, Bread, Get;
  }

  /** begin_op admits an operation only when the log has room for 10 more blocks of each. */
  lemma BudgetBegins(k: nat, ops: seq<Option<Op>>, lh: seq<nat>, pc: Pc, outstanding: nat, p: nat, id: nat)
    requires k <= MAXOPBLOCKS && InvBudget(k, ops, lh, pc) && p < |ops| && ops[p] == None
    requires outstanding == CountOpen(ops) && (outstanding == 0 ==> lh == [])
    requires |lh| + (outstanding + 1) * MAXOPBLOCKS <= LOGSIZE
    ensures InvBudget(k, ops[p := Some(Op(id, 0))], lh, pc)
  {
    OpsBounds(ops, k);
    UpdateOps(ops, p, Some(Op(id, 0)), k);
    assert outstanding == 0 || outstanding == 1 || outstanding == 2;
  }

  lemma BudgetSpent(k: nat, ops: seq<Option<Op>>, lh: seq<nat>, pc: Pc, p: nat, b: nat)
    requires InvBudget(k, ops, lh, pc) && OpOpen(ops, p) && (ops[p].value.used < k || b in lh)
    ensures InvBudget(k, ops[p := Some(ops[p].value.(used := ops[p].value.used + if b in lh then 0 else 1))],
                      Absorb(lh, b), pc)
  {
    var o := ops[p].value.(used := ops[p].value.used + if b in lh then 0 else 1);
    UpdateOps(ops, p, Some(o), k);
  }

  lemma CountedOf(g: Geo, v0: Disk, s: State)
    requires Inv(g, v0, s) && InvOpen(s.cur, s.lh, s.pc, s.outstanding)
    ensures Counted(s) && |s.disk| == g.nblocks
  {
  }

  lemma {:induction false} BudgetRun(g: Geo, v0: Disk, r: Rule, s0: State, es: seq<Event>, s: State)
    requires r.k <= MAXOPBLOCKS && Init(g, v0, s0) && RunBy(g, r, s0, es, s)
    ensures InvBudget(r.k, s.ops, s.lh, s.pc)
  {
    hide Inv, Enabled, Do, Obeys, InvBudget, Counted, InvOpen, InvCovered;
    if es == [] {
      BudgetInit(g, v0, r.k, s);
    } else {
      var m :| RunBy(g, r, s0, Front(es), m) && StepBy(g, r, m, Last(es), s);
      BudgetRun(g, v0, r, s0, Front(es), m);
      RunByIsRun(g, r, s0, Front(es), m);
      assert Reachable(g, v0, m);
      ReachableInv(g, v0, m);
      ReachableCommits(g, v0, m);
      CountedOf(g, v0, m);
      BudgetKeeps(g, r, m, Last(es));
    }
  }

  lemma BudgetInit(g: Geo, v0: Disk, k: nat, s: State)
    requires Init(g, v0, s)
    ensures InvBudget(k, s.ops, s.lh, s.pc)
  {
    OpsBounds(s.ops, k);
  }

  /** In a log that is large enough no call that keeps to the rule panics, in any run. */
  lemma NeverPanics(g: Geo, v0: Disk, r: Rule, s: State, p: nat, b: nat)
    requires r.k <= MAXOPBLOCKS && Roomy(g, r) && ReachableBy(g, v0, r, s)
    ensures !CallPanics(g, r, s, p, b)
  {
    ReachableByRule(g, v0, r, s);
    if Allowed(r, s, p, b) {
      GroupCommit(g, v0, s);
      ReachableRunning(g, v0, s, p);
      hide Init, Reachable;
      var s0, es :| Init(g, v0, s0) && RunBy(g, r, s0, es, s);
      BudgetRun(g, v0, r, s0, es, s);
      UpdateOps(s.ops, p, None, r.k);
      OpsBounds(s.ops[p := None], r.k);
    }
  }

  lemma ReachableRunning(g: Geo, v0: Disk, s: State, p: nat)
    requires Reachable(g, v0, s) && OpOpen(s.ops, p)
    ensures s.pc == Running
  {
    ReachableInv(g, v0, s);
    OpsBounds(s.ops, MAXOPBLOCKS);
  }

  // ---------- a log that is too small

  /** Two operations are open, and the first n of the blocks bs are logged: ten by operations that
      have ended since 0 began, the next k by 0, the rest by 1. */
  ghost predicate Filled(g: Geo, k: nat, s: State, bs: seq<nat>, n: nat) {
    && |s.disk| == g.nblocks && s.pc == Running && !s.committing && s.outstanding == 2
    && n <= |bs| && s.lh == bs[..n] && |s.ops| == 2 && OpOpen(s.ops, 0) && OpOpen(s.ops, 1)
    && s.ops[0].value.used == Between(n, MAXOPBLOCKS, MAXOPBLOCKS + k)
    && s.ops[1].value.used == Between(n, MAXOPBLOCKS + k, MAXOPBLOCKS + 2 * k)
    && (forall b :: b in s.cache ==> s.cache[b].holder == None)
  }

  /** How many of the first n numbers lie in lo .. hi-1. */
  function Between(n: nat, lo: nat, hi: nat): nat {
    if n <= lo then 0 else if n <= hi then n - lo else if lo <= hi then hi - lo else 0
  }

  ghost predicate FreshDisk(g: Geo, v0: Disk) {
    g.Valid() && |v0| == g.nblocks && Word(v0[g.start], 0) == 0
  }

  ghost predicate HomeBlocks(g: Geo, bs: seq<nat>) {
    Distinct(bs) && forall i :: 0 <= i < |bs| ==> g.Home(bs[i])
  }

  lemma NoneHeld(s: State)
    requires forall b :: b in s.cache ==> s.cache[b].holder == None
    ensures Held(s.cache) == {}
  {
  }

  lemma FillStart(g: Geo, v0: Disk, r: Rule, bs: seq<nat>) returns (s: State)
    requires FreshDisk(g, v0)
    ensures ReachableBy(g, v0, r, s) && Filled(g, r.k, s, bs, 0)
  {
    hide Word;
    var s0 := State(v0, map[], [], 0, false, Running, [None, None], [], [], 0, [], 0);
    assert Init(g, v0, s0) && RunBy(g, r, s0, [], s0);
    var s1 := Do(g, s0, Begin(0));
    ReachBy(g, v0, r, s0, Begin(0));
    s := Do(g, s1, Begin(1));
    ReachBy(g, v0, r, s1, Begin(1));
  }

  /** Operation p logs the block bs[n]. */
  lemma FillOne(g: Geo, v0: Disk, r: Rule, s: State, bs: seq<nat>, n: nat, p: nat) returns (t: State)
    requires ReachableBy(g, v0, r, s) && Filled(g, r.k, s, bs, n) && r.k <= MAXOPBLOCKS && n < |bs|
    requires n < g.Capacity() && HomeBlocks(g, bs) && p < 2 && s.ops[p].value.used < r.k && r.most != Some(0)
    ensures ReachableBy(g, v0, r, t) && t.lh == bs[..n + 1]
    ensures t.(cache := s.cache, lh := s.lh, ops := s.ops, cur := s.cur, performed := s.performed) == s
    ensures t.ops == s.ops[p := Some(s.ops[p].value.(used := s.ops[p].value.used + 1))]
    ensures forall b :: b in t.cache ==> t.cache[b].holder == None
  {
    hide ReachableBy, Held;
    NoneHeld(s);
    var b := bs[n];
    assert b !in bs[..n];
    var s1 := Do(g, s, Hold(p, b));
    ReachBy(g, v0, r, s, Hold(p, b));
    var s2 := Do(g, s1, LogWrite(p, b));
    ReachBy(g, v0, r, s1, LogWrite(p, b));
    t := Do(g, s2, Release(p, b));
    ReachBy(g, v0, r, s2, Release(p, b));
  }

  lemma FillNext(g: Geo, v0: Disk, r: Rule, s: State, bs: seq<nat>, n: nat) returns (t: State)
    requires ReachableBy(g, v0, r, s) && Filled(g, r.k, s, bs, n) && 1 <= r.k <= MAXOPBLOCKS && n < |bs|
    requires n < g.Capacity() && n < MAXOPBLOCKS + 2 * r.k && HomeBlocks(g, bs) && r.most != Some(0)
    ensures ReachableBy(g, v0, r, t) && Filled(g, r.k, t, bs, n + 1)
  {
    hide ReachableBy, HomeBlocks;
    t := FillOne(g, v0, r, s, bs, n, if MAXOPBLOCKS <= n < MAXOPBLOCKS + r.k then 0 else 1);
    if n < MAXOPBLOCKS {
      var t1 := Do(g, t, End(1));
      ReachBy(g, v0, r, t, End(1));
      t := Do(g, t1, Begin(1));
      ReachBy(g, v0, r, t1, Begin(1));
    }
  }

  lemma {:induction false} Fill(g: Geo, v0: Disk, r: Rule, bs: seq<nat>, n: nat) returns (s: State)
    requires FreshDisk(g, v0) && HomeBlocks(g, bs) && 1 <= r.k <= MAXOPBLOCKS && r.most != Some(0)
    requires n <= |bs| && n <= g.Capacity() && n <= MAXOPBLOCKS + 2 * r.k
    ensures ReachableBy(g, v0, r, s) && Filled(g, r.k, s, bs, n)
  {
    hide ReachableBy, Filled, FreshDisk, HomeBlocks;
    if n == 0 {
      s := FillStart(g, v0, r, bs);
    } else {
      s := Fill(g, v0, r, bs, n - 1);
      s := FillNext(g, v0, r, s, bs, n - 1);
    }
  }

  /** In any other log some run, all of whose calls keep to the rule, comes to a call that keeps to
      it and panics; if repeated calls are allowed, a call that would take no slot. */
  lemma CanPanic(g: Geo, v0: Disk, r: Rule, bs: seq<nat>) returns (s: State, b: nat)
    requires FreshDisk(g, v0) && HomeBlocks(g, bs) && |bs| > 0 && |bs| >= g.Capacity()
    requires 1 <= r.k <= MAXOPBLOCKS && r.most != Some(0) && !Roomy(g, r)
    ensures ReachableBy(g, v0, r, s) && CallPanics(g, r, s, 1, b)
    ensures r.again && g.size > 1 ==> b in s.lh
  {
    hide ReachableBy;
    var n := g.Capacity();
    var s0 := Fill(g, v0, r, bs, n);
    b := if n > 0 then bs[n - 1] else bs[0];
    assert g.Home(b);
    NoneHeld(s0);
    s := Do(g, s0, Hold(1, b));
    ReachBy(g, v0, r, s0, Hold(1, b));
  }

  /** The exact condition. Operations that keep to a rule meet "too big a transaction" in no run if
      and only if the log has more than MAXOPBLOCKS + 2 * k blocks, and one more still if calls
      for logged blocks are repeated; and when they are, k must be below MAXOPBLOCKS. So in a log
      as mkfs makes it nine different blocks an operation are safe and ten are not, and with ten
      no log is large enough. `bs` are any home blocks, as many as the log can hold. */
  lemma PanicCondition(g: Geo, v0: Disk, r: Rule, bs: seq<nat>)
    requires FreshDisk(g, v0) && HomeBlocks(g, bs) && |bs| > 0 && |bs| >= g.Capacity() && 1 <= r.k <= MAXOPBLOCKS
    requires r.most != Some(0)
    ensures (forall s, p: nat, b: nat :: ReachableBy(g, v0, r, s) ==> !CallPanics(g, r, s, p, b)) <==> Roomy(g, r)
    ensures g.size == LOGSIZE ==> (Roomy(g, r) <==> r.k < MAXOPBLOCKS)
    ensures r.k == MAXOPBLOCKS && r.again ==> !Roomy(g, r)
  {
    hide ReachableBy, CallPanics, FreshDisk, HomeBlocks;
    if Roomy(g, r) {
      forall s, p: nat, b: nat | ReachableBy(g, v0, r, s)
        ensures !CallPanics(g, r, s, p, b)
      {
        NeverPanics(g, v0, r, s, p, b);
      }
    } else {
      var s, b := CanPanic(g, v0, r, bs);
    }
  }
}

/** What system calls write gets to the disk: every list of log_writes that fits the log and the
    budget of an operation is the transaction of some run, and recovery then gives its contents. */
module LogCommits {
  import opened Blocks
  import opened LogMachine
  import opened LogRuns
  import opened LogSpec
  import opened Options
  import opened Param
  import opened Steps

  lemma ReachNext(g: Geo, v0: Disk, s: State, e: Event)
    requires Reachable(g, v0, s) && |s.disk| == g.nblocks && Enabled(g, s, e)
    ensures Reachable(g, v0, Do(g, s, e))
  {
    hide Enabled, Do, Init;
    var s0, es :| Init(g, v0, s0) && Run(g, s0, es, s);
    FrontLast(es, e);
    assert StepTo(g, s, e, Do(g, s, e));
    assert Run(g, s0, es + [e], Do(g, s, e));
  }

  /** What the holder of a block stores in it and then log_writes is what system calls see of it from
      then on; of every other block they see what they saw. */
  lemma ModifyIsSeen(g: Geo, v0: Disk, s: State, p: nat, b: nat, data: Block)
    requires Reachable(g, v0, s) && |s.disk| == g.nblocks && OpOpen(s.ops, p) && Holds(s, p, b)
    requires !LogWritePanics(g, s) && (b in s.lh || s.ops[p].value.used < MAXOPBLOCKS)
    ensures Enabled(g, s, Modify(p, b, data)) && Enabled(g, Do(g, s, Modify(p, b, data)), LogWrite(p, b))
    ensures View(v0, Do(g, s, Modify(p, b, data))) == View(v0, s) && b < |View(v0, s)|
    ensures View(v0, Do(g, Do(g, s, Modify(p, b, data)), LogWrite(p, b))) == View(v0, s)[b := data]
  {
    hide Inv, Reachable;
    ReachableInv(g, v0, s);
    ModifyKeeps(g, v0, s, p, b, data);
    LogWriteKeeps(g, v0, Do(g, s, Modify(p, b, data)), p, b);
  }

  // ---------- one operation

  /** Nothing is under way. */
  ghost predicate Quiet(g: Geo, s: State) {
    && |s.disk| == g.nblocks && s.pc == Running && s.outstanding == 0 && !s.committing && s.lh == [] && s.cur == []
    && |s.ops| > 0 && s.ops[0] == None && NobodyHolds(s)
  }

  ghost predicate NobodyHolds(s: State) {
    forall b :: b in s.cache ==> s.cache[b].holder == None
  }

  /** The block list of the log after these log_writes. */
  function Listed(us: seq<Update>): seq<nat> {
    if us == [] then [] else Absorb(Listed(us[..|us| - 1]), us[|us| - 1].b)
  }

  /** Log_writes of operation id that begin_op's budget and the log have room for. */
  ghost predicate Loggable(g: Geo, id: nat, us: seq<Update>) {
    forall i: nat :: i < |us| ==> LoggableAt(g, id, us, i)
  }

  ghost predicate LoggableAt(g: Geo, id: nat, us: seq<Update>, i: nat)
    requires i < |us|
  {
    var lh := Listed(us[..i]);
    && us[i].op == id && g.Home(us[i].b) && |lh| < g.Capacity()
    && (us[i].b in lh || |lh| < MAXOPBLOCKS)
  }

  /** Operation 0 of a run that was at s0 has made the first i log_writes. */
  ghost predicate Working(g: Geo, s0: State, us: seq<Update>, s: State, i: nat) {
    && i <= |us| && |s.disk| == g.nblocks && s.pc == Running && s.outstanding == 1 && !s.committing
    && s.lh == Listed(us[..i]) && s.cur == us[..i] && NobodyHolds(s)
    && |s.ops| == |s0.ops| > 0 && s.ops[0] == Some(Op(|s0.performed|, |s.lh|))
    && s.txns == s0.txns && s.epoch == s0.epoch && |s.performed| == |s0.performed| + 1
  }

  lemma WorkStart(g: Geo, v0: Disk, s0: State, us: seq<Update>) returns (s: State)
    requires Reachable(g, v0, s0) && Quiet(g, s0)
    ensures Reachable(g, v0, s) && Working(g, s0, us, s, 0)
  {
    hide Reachable;
    s := Do(g, s0, Begin(0));
    ReachNext(g, v0, s0, Begin(0));
  }

  /** bread of a block that nobody holds, and a new content. */
  lemma HoldAndModify(g: Geo, v0: Disk, s: State, b: nat, data: Block) returns (t: State)
    requires Reachable(g, v0, s) && |s.disk| == g.nblocks && s.pc == Running && NobodyHolds(s) && g.Home(b)
    requires OpOpen(s.ops, 0)
    ensures Reachable(g, v0, t) && b in t.cache && t.cache[b].holder == Some(0) && t.cache[b].data == data
    ensures t == s.(cache := t.cache) && forall c :: c in t.cache && c != b ==> t.cache[c].holder == None
  {
    hide Reachable;
    var s1 := Do(g, s, Hold(0, b));
    ReachNext(g, v0, s, Hold(0, b));
    t := Do(g, s1, Modify(0, b, data));
    ReachNext(g, v0, s1, Modify(0, b, data));
  }

  /** log_write and brelse. */
  lemma LogAndRelease(g: Geo, v0: Disk, s: State, b: nat) returns (t: State)
    requires Reachable(g, v0, s) && |s.disk| == g.nblocks && s.pc == Running && s.outstanding > 0 && OpOpen(s.ops, 0)
    requires b in s.cache && s.cache[b].holder == Some(0)
    requires forall c :: c in s.cache && c != b ==> s.cache[c].holder == None
    requires |s.lh| < g.Capacity() && (b in s.lh || s.ops[0].value.used < MAXOPBLOCKS)
    ensures Reachable(g, v0, t) && NobodyHolds(t)
    ensures t == s.(cache := t.cache, lh := t.lh, ops := t.ops, cur := t.cur, performed := t.performed)
    ensures t.lh == Absorb(s.lh, b) && t.cur == s.cur + [Update(s.ops[0].value.id, b, s.cache[b].data)]
    ensures t.ops == s.ops[0 := Some(Op(s.ops[0].value.id, s.ops[0].value.used + |t.lh| - |s.lh|))]
    ensures |t.performed| == |s.performed|
  {
    hide Reachable;
    var s1 := Do(g, s, LogWrite(0, b));
    ReachNext(g, v0, s, LogWrite(0, b));
    t := Do(g, s1, Release(0, b));
    ReachNext(g, v0, s1, Release(0, b));
  }

  /** One log_write more. */
  lemma WorkNext(g: Geo, v0: Disk, s0: State, us: seq<Update>, s: State, i: nat) returns (t: State)
    requires Reachable(g, v0, s) && Working(g, s0, us, s, i) && i < |us| && LoggableAt(g, |s0.performed|, us, i)
    ensures Reachable(g, v0, t) && Working(g, s0, us, t, i + 1)
  {
    hide Reachable, NobodyHolds;
    assert us[..i + 1][..i] == us[..i] && us[..i + 1] == us[..i] + [us[i]];
    var s1 := HoldAndModify(g, v0, s, us[i].b, us[i].data);
    t := LogAndRelease(g, v0, s1, us[i].b);
  }

  lemma {:induction false} WorkTo(g: Geo, v0: Disk, s0: State, us: seq<Update>, i: nat) returns (s: State)
    requires Reachable(g, v0, s0) && Quiet(g, s0) && i <= |us| && Loggable(g, |s0.performed|, us)
    ensures Reachable(g, v0, s) && Working(g, s0, us, s, i)
  {
    hide Reachable, Working, Quiet, LoggableAt;
    if i == 0 {
      s := WorkStart(g, v0, s0, us);
    } else {
      s := WorkTo(g, v0, s0, us, i - 1);
      s := WorkNext(g, v0, s0, us, s, i - 1);
    }
  }

  // ---------- its commit

  /** The commit of what operation 0 did; `done` says that its header is on disk. */
  ghost predicate Ending(g: Geo, s0: State, us: seq<Update>, s: State) {
    && |s.disk| == g.nblocks && s.outstanding == 0 && s.committing && NobodyHolds(s)
    && |s.ops| == |s0.ops| > 0 && s.ops[0] == None && |s.performed| == |s0.performed| + 1
    && match s.pc
       case WritingLog(t) => t < |s.lh| && s.cur == us && s.txns == s0.txns && s.epoch == s0.epoch
       case WritingHead => s.cur == us && s.txns == s0.txns && s.epoch == s0.epoch
       case Installing(t, boot) => t < |s.lh| && !boot && Recorded(s0, us, s)
       case Clearing(boot) => !boot && Recorded(s0, us, s)
       case Finish => s.lh == [] && Recorded(s0, us, s)
       case _ => false
  }

  ghost predicate Recorded(s0: State, us: seq<Update>, s: State) {
    s.cur == [] && s.epoch == |s.performed| && s.txns == s0.txns + [Txn(s0.epoch, |s0.performed| + 1, us)]
  }

  /** Block writes to come. */
  function ToCome(s: State): nat {
    match s.pc
    case WritingLog(t) => if t < |s.lh| then 2 * |s.lh| - t + 3 else 0
    case WritingHead => |s.lh| + 3
    case Installing(t, _) => if t < |s.lh| then |s.lh| - t + 2 else 0
    case Clearing(_) => 2
    case Finish => 1
    case _ => 0
  }

  lemma EndingStart(g: Geo, v0: Disk, s0: State, us: seq<Update>, s: State) returns (t: State)
    requires Reachable(g, v0, s) && Working(g, s0, us, s, |us|) && us != []
    ensures Reachable(g, v0, t) && Ending(g, s0, us, t)
  {
    hide Reachable;
    assert us[..|us|] == us;
    t := Do(g, s, End(0));
    ReachNext(g, v0, s, End(0));
  }

  lemma EndingNext(g: Geo, v0: Disk, s0: State, us: seq<Update>, s: State) returns (t: State)
    requires Reachable(g, v0, s) && Ending(g, s0, us, s) && s.pc != Finish
    ensures Reachable(g, v0, t) && Ending(g, s0, us, t) && ToCome(t) < ToCome(s)
  {
    hide Reachable, PutEntries;
    CommitProceeds(g, v0, s);
    t := Do(g, s, DiskWrite);
    ReachNext(g, v0, s, DiskWrite);
  }

  lemma {:induction false} EndingTo(g: Geo, v0: Disk, s0: State, us: seq<Update>, s: State) returns (t: State)
    requires Reachable(g, v0, s) && Ending(g, s0, us, s)
    ensures Reachable(g, v0, t) && Ending(g, s0, us, t) && t.pc == Finish
    decreases ToCome(s)
  {
    hide Reachable, Ending, ToCome;
    if s.pc == Finish {
      t := s;
    } else {
      var s1 := EndingNext(g, v0, s0, us, s);
      t := EndingTo(g, v0, s0, us, s1);
    }
  }

  lemma EndingIsQuiet(g: Geo, v0: Disk, s0: State, us: seq<Update>, s: State) returns (t: State)
    requires Reachable(g, v0, s) && Ending(g, s0, us, s) && s.pc == Finish
    ensures Reachable(g, v0, t) && Quiet(g, t) && Recorded(s0, us, t)
    ensures |t.ops| == |s0.ops| && |t.performed| == |s0.performed| + 1
  {
    hide Reachable;
    t := Do(g, s, EndCommit);
    ReachNext(g, v0, s, EndCommit);
  }

  /** From any point at which nothing is under way: some run goes on with one operation that makes just
      these log_writes, and commits it. Recovery from the disk then gives the home blocks as they
      were with the log_writes made. */
  lemma Commits(g: Geo, v0: Disk, s: State, us: seq<Update>) returns (t: State)
    requires Reachable(g, v0, s) && Quiet(g, s) && us != [] && Loggable(g, |s.performed|, us)
    ensures Reachable(g, v0, t) && Quiet(g, t) && |t.ops| == |s.ops| && |t.performed| == |s.performed| + 1
    ensures t.epoch == |t.performed| && t.txns == s.txns + [Txn(s.epoch, |s.performed| + 1, us)]
    ensures HeaderOk(g, t.disk) && SameHome(g, Recover(g, t.disk), Replay(ReplayAll(v0, s.txns), us))
  {
    hide Reachable, Quiet, Working, Ending, Loggable, HeaderOk, SameHome, Recover, Replay, ReplayAll;
    var s1 := WorkTo(g, v0, s, us, |us|);
    var s2 := EndingStart(g, v0, s, us, s1);
    var s3 := EndingTo(g, v0, s, us, s2);
    t := EndingIsQuiet(g, v0, s, us, s3);
    CrashAtomicity(g, v0, t);
    ReplayAllPush(v0, s.txns, Txn(s.epoch, |s.performed| + 1, us));
  }

  // ---------- eviction

  lemma EvictsAt(g: Geo, v0: Disk, s: State, b: nat)
    requires Reachable(g, v0, s) && Quiet(g, s) && b in s.cache
    ensures |s.disk| == g.nblocks && Enabled(g, s, Evict(b))
    ensures Reachable(g, v0, Do(g, s, Evict(b))) && Quiet(g, Do(g, s, Evict(b)))
  {
    ReachableInv(g, v0, s);
    hide InvClients, InvDisk, InvBuf, Reachable;
    ReachNext(g, v0, s, Evict(b));
  }

  /** When nothing is under way every buffer may be evicted, */
  lemma {:induction false} CacheEmpties(g: Geo, v0: Disk, s: State) returns (t: State)
    requires Reachable(g, v0, s) && Quiet(g, s)
    ensures Reachable(g, v0, t) && t == s.(cache := map[])
    decreases |s.cache|
  {
    hide Reachable, Quiet;
    t := s;
    if s.cache != map[] {
      var b :| b in s.cache;
      EvictsAt(g, v0, s, b);
      var s1 := Do(g, s, Evict(b));
      assert s1.cache.Keys == s.cache.Keys - {b};
      t := CacheEmpties(g, v0, s1);
    }
  }

  /** ... and what system calls see is on the disk. */
  lemma AtRest(g: Geo, v0: Disk, s: State, b: nat)
    requires Reachable(g, v0, s) && Quiet(g, s) && g.Home(b)
    ensures |s.disk| == |View(v0, s)| == g.nblocks && s.disk[b] == View(v0, s)[b]
  {
    hide Reachable;
    var t := CacheEmpties(g, v0, s);
    CacheAgrees(g, v0, t, b);
  }

  /** The transactions that operations 0, 1, ... make of these lists, each alone. */
  ghost function Alone(uss: seq<seq<Update>>): seq<Txn> {
    if uss == [] then [] else Alone(Front(uss)) + [Txn(|uss| - 1, |uss|, Last(uss))]
  }

  /** Any sequence of such lists is the sequence of transactions of a run. */
  lemma {:induction false} AllCommit(g: Geo, v0: Disk, uss: seq<seq<Update>>) returns (t: State)
    requires g.Valid() && |v0| == g.nblocks && Word(v0[g.start], 0) == 0
    requires forall k: nat :: k < |uss| ==> uss[k] != [] && Loggable(g, k, uss[k])
    ensures Reachable(g, v0, t) && Quiet(g, t) && t.txns == Alone(uss)
    ensures |t.performed| == t.epoch == |uss|
    decreases |uss|
  {
    hide Reachable, Quiet, Loggable, HeaderOk, SameHome, Recover, Replay, ReplayAll, Word;
    if uss == [] {
      t := Fresh(g, v0);
    } else {
      var s := AllCommit(g, v0, Front(uss));
      t := Commits(g, v0, s, Last(uss));
    }
  }

  lemma Fresh(g: Geo, v0: Disk) returns (s: State)
    requires g.Valid() && |v0| == g.nblocks && Word(v0[g.start], 0) == 0
    ensures Reachable(g, v0, s) && Quiet(g, s) && s.txns == [] && s.performed == [] && s.epoch == 0
  {
    hide Word;
    s := State(v0, map[], [], 0, false, Running, [None], [], [], 0, [], 0);
    assert Init(g, v0, s) && Run(g, s, [], s);
  }

  // ---------- a crash

  /** Recovery of the disk d0 has copied the first k blocks. */
  ghost predicate Rebooting(g: Geo, s0: State, s: State, k: nat)
    requires |s0.disk| == g.nblocks && g.Valid()
  {
    var lh := Header(s0.disk[g.start]);
    && HeaderOk(g, s0.disk) && k <= |lh| && s.lh == lh && |s.disk| == g.nblocks && NobodyHolds(s)
    && s.disk == Install(g, s0.disk, lh, k) && s.outstanding == 0 && !s.committing && |s.ops| == |s0.ops|
    && (forall p :: 0 <= p < |s.ops| ==> s.ops[p] == None) && s.cur == [] && s.txns == s0.txns
    && s.pc == if k < |lh| then Installing(k, true) else Clearing(true)
  }

  /** Recovery reads the log area as it is on disk. */
  lemma LogAreaGet(g: Geo, v0: Disk, s: State, b: nat)
    requires Reachable(g, v0, s) && g.start <= b < g.start + g.size
    ensures |s.disk| == g.nblocks && b < g.nblocks && Get(s, b) == s.disk[b]
  {
    ReachableInv(g, v0, s);
    hide InvClients, InvDisk, Reachable;
    if b in s.cache {
      assert InvBuf(g, s.disk, s.ops, View(v0, s), b, s.cache[b]);
    }
  }

  lemma RebootStart(g: Geo, v0: Disk, s0: State) returns (s: State)
    requires Reachable(g, v0, s0)
    ensures Reachable(g, v0, s) && |s0.disk| == g.nblocks && g.Valid() && Rebooting(g, s0, s, 0)
  {
    hide Reachable, Header;
    CrashAtomicity(g, v0, s0);
    var s1 := Do(g, s0, Crash);
    ReachNext(g, v0, s0, Crash);
    LogAreaGet(g, v0, s1, g.start);
    s := Do(g, s1, ReadHead);
    ReachNext(g, v0, s1, ReadHead);
  }

  lemma RebootNext(g: Geo, v0: Disk, s0: State, s: State, k: nat) returns (t: State)
    requires Reachable(g, v0, s) && |s0.disk| == g.nblocks && g.Valid() && Rebooting(g, s0, s, k)
    requires k < |Header(s0.disk[g.start])|
    ensures Reachable(g, v0, t) && Rebooting(g, s0, t, k + 1)
  {
    hide Reachable, Header, Install;
    CommitProceeds(g, v0, s);
    LogAreaGet(g, v0, s, g.start + 1 + k);
    InstallNext(g, s0.disk, Header(s0.disk[g.start]), k);
    t := Do(g, s, DiskWrite);
    ReachNext(g, v0, s, DiskWrite);
  }

  lemma InstallNext(g: Geo, d: Disk, lh: seq<nat>, k: nat)
    requires g.Valid() && |d| == g.nblocks && GoodHeader(g, lh) && k < |lh|
    ensures Install(g, d, lh, k + 1) == InstallOne(g, Install(g, d, lh, k), lh, k)
  {
  }

  lemma {:induction false} RebootTo(g: Geo, v0: Disk, s0: State, k: nat) returns (s: State)
    requires Reachable(g, v0, s0) && |s0.disk| == g.nblocks && g.Valid() && k <= |Header(s0.disk[g.start])|
    ensures Reachable(g, v0, s) && Rebooting(g, s0, s, k)
  {
    hide Reachable, Rebooting, Header;
    if k == 0 {
      s := RebootStart(g, v0, s0);
    } else {
      s := RebootTo(g, v0, s0, k - 1);
      s := RebootNext(g, v0, s0, s, k - 1);
    }
  }

  lemma RebootEnd(g: Geo, v0: Disk, s0: State, s: State) returns (t: State)
    requires Reachable(g, v0, s) && |s0.disk| == g.nblocks && g.Valid()
    requires Rebooting(g, s0, s, |Header(s0.disk[g.start])|)
    ensures Reachable(g, v0, t) && HeaderOk(g, s0.disk) && t.disk == Recover(g, s0.disk) && t.txns == s0.txns
        && t.cur == []
    ensures |t.ops| == |s0.ops| && (|t.ops| > 0 ==> Quiet(g, t))
  {
    hide Reachable, Header, Install, PutEntries;
    CommitProceeds(g, v0, s);
    LogAreaGet(g, v0, s, g.start);
    t := Do(g, s, DiskWrite);
    ReachNext(g, v0, s, DiskWrite);
  }

  /** A crash at any point of any run can be followed by the whole of recovery: the disk is then the
      one that recovery is specified to give, nothing is under way, and what system calls see is
      what had been committed. */
  lemma Reboots(g: Geo, v0: Disk, s: State) returns (t: State)
    requires Reachable(g, v0, s)
    ensures Reachable(g, v0, t) && t.txns == s.txns && (|t.ops| > 0 ==> Quiet(g, t)) && |t.ops| == |s.ops|
    ensures HeaderOk(g, s.disk) && t.disk == Recover(g, s.disk)
    ensures View(v0, t) == ReplayAll(v0, s.txns)
  {
    hide Reachable, Rebooting, Header, HeaderOk;
    CrashAtomicity(g, v0, s);
    HeaderOkIs(g, s.disk);
    var s1 := RebootTo(g, v0, s, |Header(s.disk[g.start])|);
    t := RebootEnd(g, v0, s, s1);
  }

  lemma HeaderOkIs(g: Geo, d: Disk)
    requires HeaderOk(g, d)
    ensures g.Valid() && |d| == g.nblocks
  {
  }
}

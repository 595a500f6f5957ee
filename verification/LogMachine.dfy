/** log.c over bio.c over the disk as a state machine. A step is one critical section of a
    system call, one block write of commit() or of recovery, an eviction from the buffer
    cache, or a crash; steps of all processes interleave freely. */
module LogMachine {
  import opened Blocks
  import opened LogSpec
  import opened Options
  import opened Param

  /** A cached block (struct buf). `touched`: changed by its holder since the last log_write. */
  datatype Buf = Buf(data: Block, dirty: bool, holder: Option<nat>, touched: bool)

  /** One log_write: operation `op` recorded `data` for block b. */
  datatype Update = Update(op: nat, b: nat, data: Block)

  /** A committed transaction: the log_writes of the operations lo .. hi-1. */
  datatype Txn = Txn(lo: nat, hi: nat, updates: seq<Update>)

  /** An operation between begin_op and end_op; `used` counts the log slots it added. */
  datatype Op = Op(id: nat, used: nat)

  /** Where commit() or recover_from_log() stands; each value but Running, Finish and Down
      names the block write that comes next. */
  datatype Pc =
    | Running
    | WritingLog(tail: nat)
    | WritingHead
    | Installing(tail: nat, boot: bool)
    | Clearing(boot: bool)
    | Finish
    | Down

  datatype State = State(
    disk: Disk,
    cache: map<nat, Buf>,
    lh: seq<nat>,
    outstanding: nat,
    committing: bool,
    pc: Pc,
    ops: seq<Option<Op>>,
    // bookkeeping that no step reads
    cur: seq<Update>,
    txns: seq<Txn>,
    epoch: nat,
    performed: seq<seq<Update>>,
    boot: nat)

  datatype Event =
    | Begin(p: nat)
    | Hold(p: nat, b: nat)
    | Modify(p: nat, b: nat, data: Block)
    | LogWrite(p: nat, b: nat)
    | Release(p: nat, b: nat)
    | End(p: nat)
    | Evict(b: nat)
    | DiskWrite
    | EndCommit
    | Crash
    | ReadHead

  // ---------- bread and log_write

  /** What bread(b) finds: the cached copy, or the disk block. */
  function Get(s: State, b: nat): Block
    requires b < |s.disk|
  {
    if b in s.cache then s.cache[b].data else s.disk[b]
  }

  predicate Free(s: State, b: nat) {
    b !in s.cache || s.cache[b].holder == None
  }

  /** bread(b): the buffer as it is cached, or a fresh clean one read from the disk. */
  function Bread(s: State, b: nat): Buf
    requires b < |s.disk|
  {
    if b in s.cache then s.cache[b] else Buf(s.disk[b], false, None, false)
  }

  /** log absorption: a block already logged keeps its slot. */
  function Absorb(lh: seq<nat>, b: nat): seq<nat> {
    if b in lh then lh else lh + [b]
  }

  /** log.c:218-221. */
  predicate LogWritePanics(g: Geo, s: State) {
    |s.lh| >= LOGSIZE || |s.lh| + 1 >= g.size || s.outstanding < 1
  }

  predicate OpOpen(ops: seq<Option<Op>>, p: nat) {
    p < |ops| && ops[p].Some?
  }

  predicate Holds(s: State, p: nat, b: nat) {
    b in s.cache && s.cache[b].holder == Some(p)
  }

  predicate Booted(pc: Pc) {
    pc != Down && !(pc.Installing? && pc.boot) && !(pc.Clearing? && pc.boot)
  }

  // ---------- the steps

  /** When a step may be taken. The client side of the contract is here: blocks are changed
      inside an operation and while held, every change is log_written before brelse and
      end_op, and an operation adds at most MAXOPBLOCKS blocks to the log. */
  predicate Enabled(g: Geo, s: State, e: Event)
    requires |s.disk| == g.nblocks
  {
    match e
    case Begin(p) =>
      && p < |s.ops| && s.ops[p] == None && Booted(s.pc)
      && !s.committing && |s.lh| + (s.outstanding + 1) * MAXOPBLOCKS <= LOGSIZE
    case Hold(p, b) => g.Home(b) && Free(s, b) && Booted(s.pc)
    case Modify(p, b, data) => OpOpen(s.ops, p) && Holds(s, p, b)
    case LogWrite(p, b) =>
      && OpOpen(s.ops, p) && Holds(s, p, b) && !LogWritePanics(g, s)
      && (b in s.lh || s.ops[p].value.used < MAXOPBLOCKS)
    case Release(p, b) => Holds(s, p, b) && !s.cache[b].touched
    case End(p) =>
      && OpOpen(s.ops, p)
      && (forall b :: b in s.cache && s.cache[b].holder == Some(p) ==> !s.cache[b].touched)
    case Evict(b) => b in s.cache && !s.cache[b].dirty && s.cache[b].holder == None
    case DiskWrite =>
      (match s.pc
       case WritingLog(t) =>
         t < |s.lh| && s.lh[t] < g.nblocks && g.start + 1 + t < g.nblocks
         && Free(s, s.lh[t]) && Free(s, g.start + 1 + t)
       case WritingHead => g.start < g.nblocks && HeadFits(s.lh)
       case Installing(t, _) =>
         t < |s.lh| && s.lh[t] < g.nblocks && g.start + 1 + t < g.nblocks
         && Free(s, s.lh[t]) && Free(s, g.start + 1 + t)
       case Clearing(_) => g.start < g.nblocks
       case _ => false)
    case EndCommit => s.pc == Finish
    case Crash => true
    case ReadHead => s.pc == Down && g.start < g.nblocks
  }

  predicate HeadFits(lh: seq<nat>) {
    |lh| <= LOGSIZE && forall i :: 0 <= i < |lh| ==> lh[i] < UINT
  }

  /** bwrite(b) with the given contents: the disk block and a clean buffer. */
  function Bwrite(s: State, b: nat, data: Block): State
    requires b < |s.disk|
  {
    s.(disk := s.disk[b := data], cache := s.cache[b := Buf(data, false, None, false)])
  }

  function NextInstall(s: State, t: nat, boot: bool): Pc {
    if t < |s.lh| then Installing(t, boot) else Clearing(boot)
  }

  /** One block write of commit() or recovery, read and written through the buffer cache. */
  function DoDiskWrite(g: Geo, s: State): State
    requires |s.disk| == g.nblocks && Enabled(g, s, DiskWrite)
  {
    match s.pc
    case WritingLog(t) =>
      var from := s.lh[t];
      Bwrite(s.(cache := s.cache[from := Bread(s, from)]), g.start + 1 + t, Get(s, from))
        .(pc := if t + 1 < |s.lh| then WritingLog(t + 1) else WritingHead)
    case WritingHead =>
      Bwrite(s, g.start, PutEntries(Get(s, g.start), s.lh, |s.lh|))
        .(pc := NextInstall(s, 0, false),
          txns := s.txns + [Txn(s.epoch, |s.performed|, s.cur)], cur := [], epoch := |s.performed|)
    case Installing(t, boot) =>
      var l := g.start + 1 + t;
      Bwrite(s.(cache := s.cache[l := Bread(s, l)]), s.lh[t], Get(s, l))
        .(pc := NextInstall(s, t + 1, boot))
    case Clearing(boot) =>
      Bwrite(s, g.start, PutEntries(Get(s, g.start), [], 0))
        .(lh := [], pc := if boot then Running else Finish)
  }

  function Do(g: Geo, s: State, e: Event): State
    requires |s.disk| == g.nblocks && Enabled(g, s, e)
  {
    match e
    case Begin(p) =>
      s.(outstanding := s.outstanding + 1, ops := s.ops[p := Some(Op(|s.performed|, 0))],
         performed := s.performed + [[]])
    case Hold(p, b) => s.(cache := s.cache[b := Bread(s, b).(holder := Some(p))])
    case Modify(p, b, data) => s.(cache := s.cache[b := s.cache[b].(data := data, touched := true)])
    case LogWrite(p, b) =>
      var op := s.ops[p].value;
      var u := Update(op.id, b, s.cache[b].data);
      s.(lh := Absorb(s.lh, b),
         cache := s.cache[b := s.cache[b].(dirty := true, touched := false)],
         ops := s.ops[p := Some(op.(used := op.used + if b in s.lh then 0 else 1))],
         cur := s.cur + [u],
         performed := if op.id < |s.performed| then s.performed[op.id := s.performed[op.id] + [u]]
                      else s.performed)
    case Release(p, b) => s.(cache := s.cache[b := s.cache[b].(holder := None)])
    case End(p) =>
      var left := if s.outstanding > 0 then s.outstanding - 1 else 0;
      var t := s.(outstanding := left, ops := s.ops[p := None]);
      if left == 0 then
        t.(committing := true, pc := if s.lh == [] then Finish else WritingLog(0))
      else t
    case Evict(b) => s.(cache := s.cache - {b})
    case DiskWrite => DoDiskWrite(g, s)
    case EndCommit => s.(committing := false, pc := Running)
    case Crash =>
      s.(cache := map[], lh := [], outstanding := 0, committing := false, pc := Down,
         ops := seq(|s.ops|, _ => None), cur := [], epoch := |s.performed|, boot := |s.performed|)
    case ReadHead =>
      var lh := Header(Get(s, g.start));
      s.(cache := s.cache[g.start := Bread(s, g.start)], lh := lh,
         pc := if |lh| > 0 then Installing(0, true) else Clearing(true))
  }

  // ---------- the logical contents

  /** The contents after a list of log_writes, the latest for a block winning. */
  ghost function Replay(v: Disk, us: seq<Update>): (r: Disk)
    ensures |r| == |v|
  {
    if us == [] then v else
      var k := |us| - 1;
      var r := Replay(v, us[..k]);
      if us[k].b < |v| then r[us[k].b := us[k].data] else r
  }

  ghost function ReplayAll(v: Disk, txns: seq<Txn>): (r: Disk)
    ensures |r| == |v|
  {
    if txns == [] then v else Replay(ReplayAll(v, txns[..|txns| - 1]), txns[|txns| - 1].updates)
  }

  /** What a crash now must preserve: every committed transaction, in order. */
  ghost function Durable(v0: Disk, s: State): Disk {
    ReplayAll(v0, s.txns)
  }

  /** What system calls see: the durable contents and the open transaction. */
  ghost function View(v0: Disk, s: State): Disk {
    Replay(Durable(v0, s), s.cur)
  }

  lemma ReplayPush(v: Disk, us: seq<Update>, u: Update)
    requires u.b < |v|
    ensures Replay(v, us + [u]) == Replay(v, us)[u.b := u.data]
  {
    assert (us + [u])[..|us|] == us;
  }

  lemma ReplayAllPush(v: Disk, txns: seq<Txn>, t: Txn)
    ensures ReplayAll(v, txns + [t]) == Replay(ReplayAll(v, txns), t.updates)
  {
    assert (txns + [t])[..|txns|] == txns;
  }

  // ---------- open operations

  function CountOpen(ops: seq<Option<Op>>): nat {
    if ops == [] then 0 else
      CountOpen(ops[1..]) + if ops[0].Some? then 1 else 0
  }

  /** Log slots that the open operations may still use, with k for each. */
  function Unspent(ops: seq<Option<Op>>, k: nat): int {
    if ops == [] then 0 else
      Unspent(ops[1..], k) + if ops[0].Some? then k - ops[0].value.used else 0
  }

  lemma {:induction false} UpdateOps(ops: seq<Option<Op>>, p: nat, o: Option<Op>, k: nat)
    requires p < |ops|
    ensures CountOpen(ops[p := o]) - (if o.Some? then 1 else 0)
         == CountOpen(ops) - (if ops[p].Some? then 1 else 0)
    ensures Unspent(ops[p := o], k) - (if o.Some? then k - o.value.used else 0)
         == Unspent(ops, k) - (if ops[p].Some? then k - ops[p].value.used else 0)
  {
    if p == 0 {
      assert ops[p := o][1..] == ops[1..];
    } else {
      assert ops[p := o][1..] == ops[1..][p - 1 := o];
      UpdateOps(ops[1..], p - 1, o, k);
    }
  }

  lemma MulNext(n: nat, k: nat)
    ensures (n + 1) * k == n * k + k
  {
  }

  lemma {:induction false} OpsBounds(ops: seq<Option<Op>>, k: nat)
    requires forall p :: 0 <= p < |ops| && ops[p].Some? ==> ops[p].value.used <= k
    ensures 0 <= Unspent(ops, k) <= CountOpen(ops) * k
    ensures CountOpen(ops) == 0 <==> forall p :: 0 <= p < |ops| ==> ops[p] == None
  {
    if ops != [] {
      OpsBounds(ops[1..], k);
      MulNext(CountOpen(ops[1..]), k);
      assert forall p :: 1 <= p < |ops| ==> ops[p] == ops[1..][p - 1];
      if CountOpen(ops) == 0 {
        forall p | 0 <= p < |ops|
          ensures ops[p] == None
        {
          if p > 0 {
            assert ops[1..][p - 1] == None;
          }
        }
      }
    }
  }

  // ---------- the invariant

  predicate Committing(pc: Pc) {
    pc.WritingLog? || pc.WritingHead? || pc.Finish? || (pc.Installing? && !pc.boot) || (pc.Clearing? && !pc.boot)
  }

  /** The header block on disk is the list in memory while blocks are being installed,
      and empty otherwise. */
  ghost predicate InvHeader(head: seq<nat>, lh: seq<nat>, pc: Pc, open: bool) {
    match pc
    case Running => head == []
    case WritingLog(_) => head == []
    case WritingHead => head == []
    case Finish => head == [] && lh == []
    case Installing(_, _) => head == lh && !open
    case Clearing(_) => head == lh && !open
    case Down => lh == [] && !open
  }

  ghost predicate CopiedToLog(g: Geo, disk: Disk, lh: seq<nat>, view: Disk, t: nat)
    requires g.Valid() && |disk| == |view| == g.nblocks && GoodHeader(g, lh) && t <= |lh|
  {
    forall i :: 0 <= i < t ==> disk[g.start + 1 + i] == view[lh[i]]
  }

  ghost predicate Installed(g: Geo, disk: Disk, lh: seq<nat>, dur: Disk, t: nat)
    requires g.Valid() && |disk| == |dur| == g.nblocks && GoodHeader(g, lh) && t <= |lh|
  {
    forall i :: 0 <= i < t ==> disk[lh[i]] == dur[lh[i]]
  }

  /** How far the copying to the log, or from the log to the home blocks, has come. */
  ghost predicate InvProgress(g: Geo, disk: Disk, lh: seq<nat>, pc: Pc, dur: Disk, view: Disk)
    requires g.Valid() && |disk| == |dur| == |view| == g.nblocks && GoodHeader(g, lh)
  {
    match pc
    case WritingLog(t) => t < |lh| && CopiedToLog(g, disk, lh, view, t)
    case WritingHead => CopiedToLog(g, disk, lh, view, |lh|)
    case Installing(t, _) => t < |lh| && Installed(g, disk, lh, dur, t)
    case Clearing(_) => Installed(g, disk, lh, dur, |lh|)
    case _ => true
  }

  /** The disk recovers to `dur`; system calls see `view`, which differs from it only on
      logged blocks and only while a transaction is open. */
  ghost predicate InvDisk(g: Geo, disk: Disk, lh: seq<nat>, pc: Pc, open: bool, dur: Disk, view: Disk) {
    && DiskOk(g, disk, dur) && |view| == g.nblocks
    && GoodHeader(g, lh)
    && (forall b :: g.Home(b) && b !in lh ==> view[b] == dur[b])
    && (!open ==> view == dur)
    && InvHeader(Header(disk[g.start]), lh, pc, open)
    && InvProgress(g, disk, lh, pc, dur, view)
  }

  /** The first slot of the list whose block has not been written home. */
  function Unwritten(lh: seq<nat>, pc: Pc): nat {
    match pc
    case Running => 0
    case WritingLog(_) => 0
    case WritingHead => 0
    case Installing(t, boot) => if boot then |lh| else t
    case _ => |lh|
  }

  /** The logged blocks that must stay in the cache: logged and not yet written home. */
  ghost predicate Pinned(lh: seq<nat>, from: nat, b: nat) {
    exists i :: from <= i < |lh| && lh[i] == b
  }

  /** A cached block: changed only by an operation that holds it, otherwise equal to the
      logical contents, and equal to the disk unless it is dirty. */
  ghost predicate InvBuf(g: Geo, disk: Disk, ops: seq<Option<Op>>, view: Disk, b: nat, buf: Buf)
    requires |view| == |disk| == g.nblocks
  {
    && b < g.nblocks
    && (buf.touched ==> buf.holder.Some? && OpOpen(ops, buf.holder.value) && g.Home(b))
    && (!buf.touched && g.Home(b) ==> buf.data == view[b])
    && (!buf.touched && !buf.dirty ==> buf.data == disk[b])
    && (!g.Home(b) ==> !buf.dirty && buf.holder == None)
  }

  ghost predicate InvCache(g: Geo, disk: Disk, cache: map<nat, Buf>, ops: seq<Option<Op>>, lh: seq<nat>, from: nat,
                           view: Disk)
  {
    && |view| == |disk| == g.nblocks
    && (forall b :: b in cache ==> InvBuf(g, disk, ops, view, b, cache[b]))
    && (forall b :: b in cache && cache[b].dirty <==> Pinned(lh, from, b))
  }

  ghost predicate InvOps(ops: seq<Option<Op>>, outstanding: nat, committing: bool, lh: seq<nat>, pc: Pc) {
    && outstanding == CountOpen(ops)
    && (committing <==> Committing(pc))
    && (outstanding > 0 ==> pc == Running)
    && (forall p :: 0 <= p < |ops| && ops[p].Some? ==> ops[p].value.used <= MAXOPBLOCKS)
    && (pc == Running ==> |lh| + Unspent(ops, MAXOPBLOCKS) <= LOGSIZE)
  }

  /** The log_writes of one operation, in order. */
  function OfOp(us: seq<Update>, id: nat): seq<Update> {
    if us == [] then [] else
      var k := |us| - 1;
      OfOp(us[..k], id) + if us[k].op == id then [us[k]] else []
  }

  ghost predicate InInterval(us: seq<Update>, lo: nat, hi: nat) {
    forall k :: 0 <= k < |us| ==> lo <= us[k].op < hi
  }

  /** `us` holds all the log_writes of the operations lo .. hi-1 and no others. */
  ghost predicate AllOf(us: seq<Update>, lo: nat, hi: nat, performed: seq<seq<Update>>) {
    && lo <= hi <= |performed|
    && InInterval(us, lo, hi)
    && (forall id :: lo <= id < hi ==> OfOp(us, id) == performed[id])
  }

  /** Committed transactions hold all the log_writes of disjoint, increasing intervals. */
  ghost predicate InvTxns(txns: seq<Txn>, epoch: nat, performed: seq<seq<Update>>) {
    && (forall i :: 0 <= i < |txns| ==>
          txns[i].hi <= epoch && AllOf(txns[i].updates, txns[i].lo, txns[i].hi, performed))
    && (forall i, j :: 0 <= i < j < |txns| ==> txns[i].hi <= txns[j].lo)
  }

  ghost predicate InvIds(ops: seq<Option<Op>>, epoch: nat, performed: seq<seq<Update>>) {
    && (forall p :: 0 <= p < |ops| && ops[p].Some? ==> epoch <= ops[p].value.id < |performed|)
    && (forall p, q :: 0 <= p < q < |ops| && ops[p].Some? && ops[q].Some? ==>
          ops[p].value.id != ops[q].value.id)
  }

  /** Disk and buffer cache. */
  ghost predicate InvStore(g: Geo, v0: Disk, s: State) {
    && g.Valid() && |v0| == |s.disk| == g.nblocks
    && InvDisk(g, s.disk, s.lh, s.pc, s.cur != [], Durable(v0, s), View(v0, s))
    && InvCache(g, s.disk, s.cache, s.ops, s.lh, Unwritten(s.lh, s.pc), View(v0, s))
  }

  /** Operations and transactions. */
  ghost predicate InvClients(s: State) {
    && InvOps(s.ops, s.outstanding, s.committing, s.lh, s.pc)
    && InvIds(s.ops, s.epoch, s.performed)
    && AllOf(s.cur, s.epoch, |s.performed|, s.performed)
    && InvTxns(s.txns, s.epoch, s.performed)
  }

  ghost predicate Inv(g: Geo, v0: Disk, s: State) {
    InvStore(g, v0, s) && InvClients(s)
  }

  // ---------- every step keeps the invariant

  lemma BeginKeeps(g: Geo, v0: Disk, s: State, p: nat)
    requires Inv(g, v0, s) && Enabled(g, s, Begin(p))
    ensures Inv(g, v0, Do(g, s, Begin(p)))
  {
    BeginClients(g, s, p);
    var ops := s.ops[p := Some(Op(|s.performed|, 0))];
    CacheOps(g, s.disk, s.cache, s.ops, ops, s.lh, 0, View(v0, s));
  }

  lemma BeginClients(g: Geo, s: State, p: nat)
    requires InvClients(s) && |s.disk| == g.nblocks && Enabled(g, s, Begin(p))
    ensures InvClients(Do(g, s, Begin(p)))
    ensures s.pc == Running
  {
    var t := Do(g, s, Begin(p));
    UpdateOps(s.ops, p, t.ops[p], MAXOPBLOCKS);
    OpsBounds(s.ops, MAXOPBLOCKS);
    GrowPerformed(s.cur, s.epoch, s.performed, t.performed);
    TxnsFrame(s.txns, s.epoch, s.performed, t.performed);
    assert InvIds(t.ops, t.epoch, t.performed);
  }

  lemma {:induction false} NotInInterval(us: seq<Update>, lo: nat, hi: nat, id: nat)
    requires InInterval(us, lo, hi) && !(lo <= id < hi)
    ensures OfOp(us, id) == []
  {
    if us != [] {
      NotInInterval(us[..|us| - 1], lo, hi, id);
    }
  }

  lemma GrowPerformed(us: seq<Update>, lo: nat, p: seq<seq<Update>>, q: seq<seq<Update>>)
    requires AllOf(us, lo, |p|, p) && q == p + [[]]
    ensures AllOf(us, lo, |q|, q)
  {
    NotInInterval(us, lo, |p|, |p|);
  }

  /** Transactions already committed do not notice what later operations do. */
  lemma TxnsFrame(txns: seq<Txn>, epoch: nat, p: seq<seq<Update>>, q: seq<seq<Update>>)
    requires InvTxns(txns, epoch, p) && |p| <= |q|
    requires forall id :: 0 <= id < |p| && id < epoch ==> q[id] == p[id]
    ensures InvTxns(txns, epoch, q)
  {
    forall i | 0 <= i < |txns|
      ensures AllOf(txns[i].updates, txns[i].lo, txns[i].hi, q)
    {
      assert AllOf(txns[i].updates, txns[i].lo, txns[i].hi, p);
    }
  }

  lemma CacheOps(g: Geo, disk: Disk, cache: map<nat, Buf>, ops: seq<Option<Op>>, ops': seq<Option<Op>>, lh: seq<nat>,
                 from: nat, view: Disk)
    requires InvCache(g, disk, cache, ops, lh, from, view)
    requires forall b | b in cache && cache[b].touched && cache[b].holder.Some? ::
               OpOpen(ops, cache[b].holder.value) ==> OpOpen(ops', cache[b].holder.value)
    ensures InvCache(g, disk, cache, ops', lh, from, view)
  {
    forall b | b in cache
      ensures InvBuf(g, disk, ops', view, b, cache[b])
    {
      assert InvBuf(g, disk, ops, view, b, cache[b]);
    }
  }

  /** Replacing one buffer by one that is as good and as dirty. */
  lemma CachePut(g: Geo, disk: Disk, cache: map<nat, Buf>, ops: seq<Option<Op>>, lh: seq<nat>, from: nat, view: Disk,
                 b: nat, buf: Buf)
    requires InvCache(g, disk, cache, ops, lh, from, view)
    requires InvBuf(g, disk, ops, view, b, buf)
    requires buf.dirty <==> (b in cache && cache[b].dirty)
    ensures InvCache(g, disk, cache[b := buf], ops, lh, from, view)
  {
  }

  /** A home block that is not cached is on disk as system calls should see it. */
  lemma UncachedIsView(g: Geo, s: State, dur: Disk, view: Disk, b: nat)
    requires InvDisk(g, s.disk, s.lh, s.pc, s.cur != [], dur, view)
    requires InvCache(g, s.disk, s.cache, s.ops, s.lh, Unwritten(s.lh, s.pc), view)
    requires Booted(s.pc) && g.Home(b) && b !in s.cache
    ensures s.disk[b] == view[b]
  {
    if b in s.lh {
      var i :| 0 <= i < |s.lh| && s.lh[i] == b;
      assert !Pinned(s.lh, Unwritten(s.lh, s.pc), b);
      assert i < Unwritten(s.lh, s.pc);
    }
  }

  lemma HoldKeeps(g: Geo, v0: Disk, s: State, p: nat, b: nat)
    requires Inv(g, v0, s) && Enabled(g, s, Hold(p, b))
    ensures Inv(g, v0, Do(g, s, Hold(p, b)))
    // whoever gets a buffer sees the logical contents
    ensures Do(g, s, Hold(p, b)).cache[b].data == View(v0, s)[b]
  {
    var view := View(v0, s);
    if b !in s.cache {
      UncachedIsView(g, s, Durable(v0, s), view, b);
    }
    var buf := Bread(s, b).(holder := Some(p));
    assert b in s.cache ==> InvBuf(g, s.disk, s.ops, view, b, s.cache[b]);
    CachePut(g, s.disk, s.cache, s.ops, s.lh, Unwritten(s.lh, s.pc), view, b, buf);
  }

  lemma ModifyKeeps(g: Geo, v0: Disk, s: State, p: nat, b: nat, data: Block)
    requires Inv(g, v0, s) && Enabled(g, s, Modify(p, b, data))
    ensures Inv(g, v0, Do(g, s, Modify(p, b, data)))
  {
    var view := View(v0, s);
    assert InvBuf(g, s.disk, s.ops, view, b, s.cache[b]);
    CachePut(g, s.disk, s.cache, s.ops, s.lh, Unwritten(s.lh, s.pc), view, b,
             s.cache[b].(data := data, touched := true));
  }

  lemma ReleaseKeeps(g: Geo, v0: Disk, s: State, p: nat, b: nat)
    requires Inv(g, v0, s) && Enabled(g, s, Release(p, b))
    ensures Inv(g, v0, Do(g, s, Release(p, b)))
  {
    var view := View(v0, s);
    assert InvBuf(g, s.disk, s.ops, view, b, s.cache[b]);
    CachePut(g, s.disk, s.cache, s.ops, s.lh, Unwritten(s.lh, s.pc), view, b, s.cache[b].(holder := None));
  }

  lemma EvictKeeps(g: Geo, v0: Disk, s: State, b: nat)
    requires Inv(g, v0, s) && Enabled(g, s, Evict(b))
    ensures Inv(g, v0, Do(g, s, Evict(b)))
  {
    assert InvCache(g, s.disk, s.cache - {b}, s.ops, s.lh, Unwritten(s.lh, s.pc), View(v0, s));
  }

  lemma LogWriteKeeps(g: Geo, v0: Disk, s: State, p: nat, b: nat)
    requires Inv(g, v0, s) && Enabled(g, s, LogWrite(p, b))
    ensures Inv(g, v0, Do(g, s, LogWrite(p, b)))
    ensures b in s.cache && b < |View(v0, s)| && View(v0, Do(g, s, LogWrite(p, b))) == View(v0, s)[b := s.cache[b].data]
  {
    LogWriteClients(g, s, p, b);
    LogWriteStore(g, v0, s, p, b);
  }

  lemma LogWriteStore(g: Geo, v0: Disk, s: State, p: nat, b: nat)
    requires InvStore(g, v0, s) && Enabled(g, s, LogWrite(p, b)) && s.pc == Running
    ensures InvStore(g, v0, Do(g, s, LogWrite(p, b)))
    ensures b in s.cache && b < |View(v0, s)| && View(v0, Do(g, s, LogWrite(p, b))) == View(v0, s)[b := s.cache[b].data]
  {
    hide InvDisk, InvCache, Replay, ReplayAll, Absorb;
    var t := Do(g, s, LogWrite(p, b));
    BufHome(g, s, View(v0, s), b);
    ReplayPush(Durable(v0, s), s.cur, Update(s.ops[p].value.id, b, s.cache[b].data));
    LogWriteDisk(g, s.disk, s.lh, b, s.cache[b].data, s.cur != [], Durable(v0, s), View(v0, s));
    LogWriteCache(g, s.disk, s.cache, s.ops, t.ops, s.lh, View(v0, s), b, t.cache[b]);
  }

  lemma LogWriteDisk(g: Geo, disk: Disk, lh: seq<nat>, b: nat, data: Block, open: bool, dur: Disk, view: Disk)
    requires InvDisk(g, disk, lh, Running, open, dur, view)
    requires g.Home(b) && |lh| < LOGSIZE && |lh| + 1 < g.size
    ensures b < |view| && InvDisk(g, disk, Absorb(lh, b), Running, true, dur, view[b := data])
  {
    AbsorbKeeps(g, lh, b);
    hide Absorb, DiskOk;
  }

  lemma BufHome(g: Geo, s: State, view: Disk, b: nat)
    requires InvCache(g, s.disk, s.cache, s.ops, s.lh, Unwritten(s.lh, s.pc), view)
    requires b in s.cache && s.cache[b].holder.Some?
    ensures g.Home(b)
  {
    assert InvBuf(g, s.disk, s.ops, view, b, s.cache[b]);
  }

  lemma LogWriteClients(g: Geo, s: State, p: nat, b: nat)
    requires InvClients(s) && |s.disk| == g.nblocks && Enabled(g, s, LogWrite(p, b))
    ensures InvClients(Do(g, s, LogWrite(p, b)))
    ensures s.pc == Running
  {
    var t := Do(g, s, LogWrite(p, b));
    UpdateOps(s.ops, p, t.ops[p], MAXOPBLOCKS);
    OpsBounds(s.ops, MAXOPBLOCKS);
    PushUpdate(s.cur, s.epoch, s.performed, Update(s.ops[p].value.id, b, s.cache[b].data));
    TxnsFrame(s.txns, s.epoch, s.performed, t.performed);
    assert InvIds(t.ops, t.epoch, t.performed);
  }

  /** Absorption keeps the logged block numbers pairwise distinct. */
  lemma AbsorbKeeps(g: Geo, lh: seq<nat>, b: nat)
    requires g.Valid() && GoodHeader(g, lh) && g.Home(b) && |lh| < LOGSIZE && |lh| + 1 < g.size
    ensures GoodHeader(g, Absorb(lh, b))
    ensures forall c :: c in Absorb(lh, b) <==> c in lh || c == b
  {
  }

  lemma LogWriteCache(g: Geo, disk: Disk, cache: map<nat, Buf>, ops: seq<Option<Op>>, ops': seq<Option<Op>>,
                      lh: seq<nat>, view: Disk, b: nat, buf: Buf)
    requires InvCache(g, disk, cache, ops, lh, 0, view) && g.Home(b) && buf.dirty && !buf.touched
    requires |ops'| == |ops| && forall p :: 0 <= p < |ops| ==> (ops[p].Some? <==> ops'[p].Some?)
    ensures InvCache(g, disk, cache[b := buf], ops', Absorb(lh, b), 0, view[b := buf.data])
  {
    hide Pinned, Absorb;
    var cache', view' := cache[b := buf], view[b := buf.data];
    forall c | c in cache'
      ensures InvBuf(g, disk, ops', view', c, cache'[c])
    {
      assert c != b ==> InvBuf(g, disk, ops, view, c, cache[c]);
    }
    forall c | c in cache'
      ensures cache'[c].dirty <==> Pinned(Absorb(lh, b), 0, c)
    {
      AbsorbPins(lh, b, c);
    }
    forall c: nat | Pinned(Absorb(lh, b), 0, c)
      ensures c in cache'
    {
      AbsorbPins(lh, b, c);
    }
  }

  lemma AbsorbPins(lh: seq<nat>, b: nat, c: nat)
    ensures Pinned(Absorb(lh, b), 0, c) <==> Pinned(lh, 0, c) || c == b
  {
    assert Pinned(lh, 0, c) <==> c in lh;
    assert Pinned(Absorb(lh, b), 0, c) <==> c in Absorb(lh, b);
  }

  lemma PushUpdate(us: seq<Update>, lo: nat, p: seq<seq<Update>>, u: Update)
    requires AllOf(us, lo, |p|, p) && lo <= u.op < |p|
    ensures AllOf(us + [u], lo, |p|, p[u.op := p[u.op] + [u]])
  {
    assert (us + [u])[..|us|] == us;
  }

  lemma EndKeeps(g: Geo, v0: Disk, s: State, p: nat)
    requires Inv(g, v0, s) && Enabled(g, s, End(p))
    ensures Inv(g, v0, Do(g, s, End(p)))
    // log.c:153: the panic in end_op cannot happen
    ensures !s.committing && s.outstanding > 0
  {
    hide InvDisk, InvCache, InvOps, InvIds, InvTxns, AllOf, CountOpen, Unspent;
    EndClients(g, s, p);
    EndDisk(g, s.disk, s.lh, s.cur != [], Durable(v0, s), View(v0, s), Do(g, s, End(p)).pc);
    EndCache(g, s, p, View(v0, s));
  }

  lemma EndDisk(g: Geo, disk: Disk, lh: seq<nat>, open: bool, dur: Disk, view: Disk, pc: Pc)
    requires InvDisk(g, disk, lh, Running, open, dur, view)
    requires pc == Running || pc == if lh == [] then Finish else WritingLog(0)
    ensures InvDisk(g, disk, lh, pc, open, dur, view)
  {
  }

  lemma EndCache(g: Geo, s: State, p: nat, view: Disk)
    requires |s.disk| == g.nblocks && Enabled(g, s, End(p))
    requires InvCache(g, s.disk, s.cache, s.ops, s.lh, 0, view)
    ensures InvCache(g, s.disk, s.cache, s.ops[p := None], s.lh, if s.lh == [] then |s.lh| else 0, view)
    ensures InvCache(g, s.disk, s.cache, s.ops[p := None], s.lh, 0, view)
  {
    hide InvCache;
    CacheOps(g, s.disk, s.cache, s.ops, s.ops[p := None], s.lh, 0, view);
  }

  lemma EndClients(g: Geo, s: State, p: nat)
    requires InvClients(s) && |s.disk| == g.nblocks && Enabled(g, s, End(p))
    ensures InvClients(Do(g, s, End(p)))
    ensures !s.committing && s.outstanding > 0 && s.pc == Running
  {
    var t := Do(g, s, End(p));
    UpdateOps(s.ops, p, None, MAXOPBLOCKS);
    OpsBounds(s.ops, MAXOPBLOCKS);
    OpsBounds(t.ops, MAXOPBLOCKS);
    assert InvIds(t.ops, t.epoch, t.performed);
  }

  /** A block of the log area is written: home blocks and their buffers do not notice. */
  lemma LogAreaWrite(g: Geo, disk: Disk, cache: map<nat, Buf>, ops: seq<Option<Op>>, lh: seq<nat>, from: nat,
                     view: Disk, b: nat, data: Block)
    requires InvCache(g, disk, cache, ops, lh, from, view)
    requires b < g.nblocks && !g.Home(b) && GoodHeader(g, lh)
    ensures InvCache(g, disk[b := data], cache[b := Buf(data, false, None, false)], ops, lh, from, view)
  {
    var disk', cache' := disk[b := data], cache[b := Buf(data, false, None, false)];
    forall c | c in cache'
      ensures InvBuf(g, disk', ops, view, c, cache'[c])
    {
      assert c != b ==> InvBuf(g, disk, ops, view, c, cache[c]);
    }
    assert !Pinned(lh, from, b);
  }

  /** In the log area the cache never differs from the disk. */
  lemma LogAreaGet(g: Geo, v0: Disk, s: State, b: nat)
    requires InvStore(g, v0, s) && b < g.nblocks && !g.Home(b)
    ensures Get(s, b) == s.disk[b]
    ensures InvBuf(g, s.disk, s.ops, View(v0, s), b, Bread(s, b)) && !Bread(s, b).dirty
  {
    assert b in s.cache ==> InvBuf(g, s.disk, s.ops, View(v0, s), b, s.cache[b]);
  }

  /** Writing a free log slot does not change what the disk promises. */
  lemma SlotWrite(g: Geo, disk: Disk, dur: Disk, b: nat, data: Block)
    requires DiskOk(g, disk, dur) && Header(disk[g.start]) == []
    requires g.start < b < g.start + g.size
    ensures DiskOk(g, disk[b := data], dur) && disk[b := data][g.start] == disk[g.start]
  {
  }

  lemma WriteLogDisk(g: Geo, disk: Disk, lh: seq<nat>, i: nat, open: bool, dur: Disk, view: Disk)
    requires InvDisk(g, disk, lh, WritingLog(i), open, dur, view)
    ensures i < |lh| && lh[i] < |view| && GoodHeader(g, lh)
    ensures InvDisk(g, disk[g.start + 1 + i := view[lh[i]]], lh,
                    if i + 1 < |lh| then WritingLog(i + 1) else WritingHead, open, dur, view)
  {
    var disk' := disk[g.start + 1 + i := view[lh[i]]];
    SlotWrite(g, disk, dur, g.start + 1 + i, view[lh[i]]);
    CopyNext(g, disk, lh, view, i);
  }

  lemma CopyNext(g: Geo, disk: Disk, lh: seq<nat>, view: Disk, i: nat)
    requires g.Valid() && |disk| == |view| == g.nblocks && GoodHeader(g, lh) && i < |lh|
    requires CopiedToLog(g, disk, lh, view, i)
    ensures CopiedToLog(g, disk[g.start + 1 + i := view[lh[i]]], lh, view, i + 1)
  {
    var disk' := disk[g.start + 1 + i := view[lh[i]]];
    forall j | 0 <= j < i + 1
      ensures disk'[g.start + 1 + j] == view[lh[j]]
    {
      if j < i {
        assert disk'[g.start + 1 + j] == disk[g.start + 1 + j];
      }
    }
  }

  /** A block that is still pinned is in the cache with its logical contents. */
  lemma PinnedIsView(g: Geo, s: State, view: Disk, i: nat)
    requires InvCache(g, s.disk, s.cache, s.ops, s.lh, Unwritten(s.lh, s.pc), view) && GoodHeader(g, s.lh)
    requires Unwritten(s.lh, s.pc) <= i < |s.lh| && Free(s, s.lh[i])
    ensures s.lh[i] in s.cache && s.cache[s.lh[i]].data == view[s.lh[i]]
  {
    assert Pinned(s.lh, Unwritten(s.lh, s.pc), s.lh[i]);
    assert InvBuf(g, s.disk, s.ops, view, s.lh[i], s.cache[s.lh[i]]);
  }

  lemma WriteLogStore(g: Geo, v0: Disk, s: State)
    requires InvStore(g, v0, s) && Enabled(g, s, DiskWrite) && s.pc.WritingLog?
    ensures InvStore(g, v0, Do(g, s, DiskWrite))
  {
    hide InvDisk, InvCache;
    var i, view := s.pc.tail, View(v0, s);
    WriteLogDisk(g, s.disk, s.lh, i, s.cur != [], Durable(v0, s), view);
    PinnedIsView(g, s, view, i);
    assert s.cache[s.lh[i] := Bread(s, s.lh[i])] == s.cache;
    LogAreaWrite(g, s.disk, s.cache, s.ops, s.lh, 0, view, g.start + 1 + i, view[s.lh[i]]);
  }

  /** The commit point: once the header is on disk, recovery brings the new contents. */
  lemma CommitPoint(g: Geo, disk: Disk, lh: seq<nat>, dur: Disk, view: Disk, head: Block)
    requires DiskOk(g, disk, dur) && Header(disk[g.start]) == [] && GoodHeader(g, lh) && |view| == g.nblocks
    requires CopiedToLog(g, disk, lh, view, |lh|)
    requires forall b :: g.Home(b) && b !in lh ==> view[b] == dur[b]
    requires Word(head, 0) == |lh| && Header(head) == lh
    ensures DiskOk(g, disk[g.start := head], view)
  {
  }

  lemma WriteHeadDisk(g: Geo, disk: Disk, lh: seq<nat>, open: bool, dur: Disk, view: Disk, head: Block, pc: Pc)
    requires InvDisk(g, disk, lh, WritingHead, open, dur, view)
    requires Word(head, 0) == |lh| && Header(head) == lh
    requires pc == if 0 < |lh| then Installing(0, false) else Clearing(false)
    ensures InvDisk(g, disk[g.start := head], lh, pc, false, view, view) && GoodHeader(g, lh)
  {
    CommitPoint(g, disk, lh, dur, view, head);
  }

  lemma PushTxn(txns: seq<Txn>, epoch: nat, performed: seq<seq<Update>>, cur: seq<Update>)
    requires InvTxns(txns, epoch, performed) && AllOf(cur, epoch, |performed|, performed)
    ensures InvTxns(txns + [Txn(epoch, |performed|, cur)], |performed|, performed)
  {
  }

  lemma WriteHeadStore(g: Geo, v0: Disk, s: State)
    requires InvStore(g, v0, s) && Enabled(g, s, DiskWrite) && s.pc.WritingHead?
    ensures InvStore(g, v0, Do(g, s, DiskWrite))
    ensures Durable(v0, Do(g, s, DiskWrite)) == View(v0, s) == View(v0, Do(g, s, DiskWrite))
  {
    hide InvDisk, InvCache, PutEntries, Header;
    var t, view := Do(g, s, DiskWrite), View(v0, s);
    var head := PutEntries(Get(s, g.start), s.lh, |s.lh|);
    HeaderRoundTrip(Get(s, g.start), s.lh);
    ReplayAllPush(v0, s.txns, Txn(s.epoch, |s.performed|, s.cur));
    WriteHeadDisk(g, s.disk, s.lh, s.cur != [], Durable(v0, s), view, head, t.pc);
    LogAreaWrite(g, s.disk, s.cache, s.ops, s.lh, 0, view, g.start, head);
  }

  lemma DiskWriteClients(g: Geo, s: State)
    requires InvClients(s) && |s.disk| == g.nblocks && Enabled(g, s, DiskWrite)
    ensures InvClients(Do(g, s, DiskWrite))
  {
    OpsBounds(s.ops, MAXOPBLOCKS);
    if s.pc.WritingHead? {
      PushTxn(s.txns, s.epoch, s.performed, s.cur);
    }
  }

  lemma PinnedNext(lh: seq<nat>, from: nat, b: nat)
    requires from < |lh| && Distinct(lh)
    ensures Pinned(lh, from + 1, b) <==> Pinned(lh, from, b) && b != lh[from]
  {
  }

  /** A home block is written with its logical contents and its buffer becomes clean. */
  lemma HomeWrite(g: Geo, disk: Disk, cache: map<nat, Buf>, ops: seq<Option<Op>>, lh: seq<nat>, from: nat,
                  from': nat, view: Disk, b: nat)
    requires InvCache(g, disk, cache, ops, lh, from, view) && g.Home(b)
    requires forall c :: Pinned(lh, from', c) <==> Pinned(lh, from, c) && c != b
    ensures InvCache(g, disk[b := view[b]], cache[b := Buf(view[b], false, None, false)], ops, lh, from', view)
  {
    var disk', cache' := disk[b := view[b]], cache[b := Buf(view[b], false, None, false)];
    forall c | c in cache'
      ensures InvBuf(g, disk', ops, view, c, cache'[c])
    {
      assert c != b ==> InvBuf(g, disk, ops, view, c, cache[c]);
    }
  }

  lemma InstallDisk(g: Geo, disk: Disk, lh: seq<nat>, i: nat, boot: bool, open: bool, dur: Disk, view: Disk)
    requires InvDisk(g, disk, lh, Installing(i, boot), open, dur, view)
    ensures i < |lh| && g.Home(lh[i]) && GoodHeader(g, lh) && !g.Home(g.start + 1 + i)
    ensures g.start + 1 + i < g.nblocks && disk[g.start + 1 + i] == view[lh[i]]
    ensures InvDisk(g, disk[lh[i] := view[lh[i]]], lh,
                    if i + 1 < |lh| then Installing(i + 1, boot) else Clearing(boot), open, dur, view)
  {
    var disk' := disk[lh[i] := view[lh[i]]];
    InstallOneOk(g, disk, lh, dur, i);
    assert InstallOne(g, disk, lh, i) == disk';
    InstallNext(g, disk, lh, dur, i);
  }

  lemma InstallNext(g: Geo, disk: Disk, lh: seq<nat>, dur: Disk, i: nat)
    requires g.Valid() && |disk| == |dur| == g.nblocks && GoodHeader(g, lh) && i < |lh|
    requires Installed(g, disk, lh, dur, i)
    ensures Installed(g, disk[lh[i] := dur[lh[i]]], lh, dur, i + 1)
  {
  }

  lemma InstallPins(lh: seq<nat>, i: nat, boot: bool)
    requires i < |lh| && Distinct(lh)
    ensures var from := Unwritten(lh, Installing(i, boot));
            var from' := if boot then |lh| else i + 1;
            forall c :: Pinned(lh, from', c) <==> Pinned(lh, from, c) && c != lh[i]
  {
    if !boot {
      forall c
        ensures Pinned(lh, i + 1, c) <==> Pinned(lh, i, c) && c != lh[i]
      {
        PinnedNext(lh, i, c);
      }
    }
  }

  lemma InstallStore(g: Geo, v0: Disk, s: State)
    requires InvStore(g, v0, s) && Enabled(g, s, DiskWrite) && s.pc.Installing?
    ensures InvStore(g, v0, Do(g, s, DiskWrite))
  {
    hide InvDisk, InvCache;
    var i, view, from := s.pc.tail, View(v0, s), Unwritten(s.lh, s.pc);
    var l, b := g.start + 1 + i, s.lh[i];
    InstallDisk(g, s.disk, s.lh, i, s.pc.boot, s.cur != [], Durable(v0, s), view);
    LogAreaGet(g, v0, s, l);
    CachePut(g, s.disk, s.cache, s.ops, s.lh, from, view, l, Bread(s, l));
    InstallPins(s.lh, i, s.pc.boot);
    HomeWrite(g, s.disk, s.cache[l := Bread(s, l)], s.ops, s.lh, from,
              if s.pc.boot then |s.lh| else i + 1, view, b);
  }

  lemma ClearPoint(g: Geo, disk: Disk, lh: seq<nat>, dur: Disk, head: Block)
    requires DiskOk(g, disk, dur) && Header(disk[g.start]) == lh && Installed(g, disk, lh, dur, |lh|)
    requires Word(head, 0) == 0 && Header(head) == []
    ensures DiskOk(g, disk[g.start := head], dur)
  {
    forall b | g.Home(b)
      ensures disk[b] == dur[b]
    {
      if b in lh {
        var i :| 0 <= i < |lh| && lh[i] == b;
      }
    }
  }

  lemma ClearDisk(g: Geo, disk: Disk, lh: seq<nat>, boot: bool, open: bool, dur: Disk, view: Disk, head: Block)
    requires InvDisk(g, disk, lh, Clearing(boot), open, dur, view)
    requires Word(head, 0) == 0 && Header(head) == []
    ensures InvDisk(g, disk[g.start := head], [], if boot then Running else Finish, open, dur, view)
    ensures GoodHeader(g, lh)
  {
    ClearPoint(g, disk, lh, dur, head);
  }

  lemma ClearStore(g: Geo, v0: Disk, s: State)
    requires InvStore(g, v0, s) && Enabled(g, s, DiskWrite) && s.pc.Clearing?
    ensures InvStore(g, v0, Do(g, s, DiskWrite))
  {
    hide InvDisk, InvCache, GoodHeader, PutEntries, Header;
    var view := View(v0, s);
    var head := PutEntries(Get(s, g.start), [], 0);
    HeaderRoundTrip(Get(s, g.start), []);
    ClearDisk(g, s.disk, s.lh, s.pc.boot, s.cur != [], Durable(v0, s), view, head);
    LogAreaWrite(g, s.disk, s.cache, s.ops, s.lh, |s.lh|, view, g.start, head);
    NothingPinned(g, s.disk[g.start := head], s.cache[g.start := Buf(head, false, None, false)], s.ops, s.lh, [], view);
  }

  lemma NothingPinned(g: Geo, disk: Disk, cache: map<nat, Buf>, ops: seq<Option<Op>>, lh: seq<nat>, lh': seq<nat>,
                      view: Disk)
    requires InvCache(g, disk, cache, ops, lh, |lh|, view)
    ensures InvCache(g, disk, cache, ops, lh', |lh'|, view)
  {
    assert forall c :: !Pinned(lh, |lh|, c) && !Pinned(lh', |lh'|, c);
  }

  lemma EndCommitKeeps(g: Geo, v0: Disk, s: State)
    requires Inv(g, v0, s) && Enabled(g, s, EndCommit)
    ensures Inv(g, v0, Do(g, s, EndCommit))
  {
    OpsBounds(s.ops, MAXOPBLOCKS);
  }

  lemma CrashKeeps(g: Geo, v0: Disk, s: State)
    requires Inv(g, v0, s)
    ensures Inv(g, v0, Do(g, s, Crash))
    ensures Durable(v0, Do(g, s, Crash)) == Durable(v0, s)
  {
    var t := Do(g, s, Crash);
    OpsBounds(t.ops, MAXOPBLOCKS);
    TxnsFrame(s.txns, s.epoch, s.performed, t.performed);
  }

  lemma ReadHeadKeeps(g: Geo, v0: Disk, s: State)
    requires Inv(g, v0, s) && Enabled(g, s, ReadHead)
    ensures Inv(g, v0, Do(g, s, ReadHead))
  {
    var t, view := Do(g, s, ReadHead), View(v0, s);
    LogAreaGet(g, v0, s, g.start);
    CachePut(g, s.disk, s.cache, s.ops, s.lh, 0, view, g.start, Bread(s, g.start));
    NothingPinned(g, s.disk, t.cache, s.ops, [], t.lh, view);
  }

  lemma DiskWriteKeeps(g: Geo, v0: Disk, s: State)
    requires Inv(g, v0, s) && Enabled(g, s, DiskWrite)
    ensures Inv(g, v0, Do(g, s, DiskWrite))
  {
    hide InvDisk, InvCache, InvClients, Do, Free, HeadFits;
    DiskWriteClients(g, s);
    if s.pc.WritingLog? {
      WriteLogStore(g, v0, s);
    } else if s.pc.WritingHead? {
      WriteHeadStore(g, v0, s);
    } else if s.pc.Installing? {
      InstallStore(g, v0, s);
    } else {
      ClearStore(g, v0, s);
    }
  }

  lemma StepKeeps(g: Geo, v0: Disk, s: State, e: Event)
    requires Inv(g, v0, s) && Enabled(g, s, e)
    ensures Inv(g, v0, Do(g, s, e))
  {
    hide Inv, Enabled, Do;
    match e
    case Begin(p) => BeginKeeps(g, v0, s, p);
    case Hold(p, b) => HoldKeeps(g, v0, s, p, b);
    case Modify(p, b, data) => ModifyKeeps(g, v0, s, p, b, data);
    case LogWrite(p, b) => LogWriteKeeps(g, v0, s, p, b);
    case Release(p, b) => ReleaseKeeps(g, v0, s, p, b);
    case End(p) => EndKeeps(g, v0, s, p);
    case Evict(b) => EvictKeeps(g, v0, s, b);
    case DiskWrite => DiskWriteKeeps(g, v0, s);
    case EndCommit => EndCommitKeeps(g, v0, s);
    case Crash => CrashKeeps(g, v0, s);
    case ReadHead => ReadHeadKeeps(g, v0, s);
  }
}

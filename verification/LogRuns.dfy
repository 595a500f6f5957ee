/** Whole runs of the log: what holds at every point of every run, crashes included. */
module LogRuns {
  import opened Blocks
  import opened LogMachine
  import opened LogSpec
  import opened Options
  import opened Param
  import opened Steps

  /** A freshly formatted disk with an empty log, and nothing going on. */
  ghost predicate Init(g: Geo, v0: Disk, s: State) {
    && g.Valid() && |v0| == g.nblocks && s.disk == v0
    && Word(v0[g.start], 0) == 0
    && s.cache == map[] && s.lh == [] && s.outstanding == 0 && !s.committing && s.pc == Running
    && (forall p :: 0 <= p < |s.ops| ==> s.ops[p] == None)
    && s.cur == [] && s.txns == [] && s.epoch == s.boot == 0 && s.performed == []
  }

  /** s1 is reached from s0 by the steps es. */
  ghost predicate Run(g: Geo, s0: State, es: seq<Event>, s1: State) {
    if es == [] then s0 == s1 else
      exists m :: Run(g, s0, Front(es), m) && StepTo(g, m, Last(es), s1)
  }

  ghost predicate StepTo(g: Geo, s: State, e: Event, s1: State) {
    |s.disk| == g.nblocks && Enabled(g, s, e) && s1 == Do(g, s, e)
  }

  ghost predicate Reachable(g: Geo, v0: Disk, s: State) {
    exists s0, es :: Init(g, v0, s0) && Run(g, s0, es, s)
  }

  lemma InitInv(g: Geo, v0: Disk, s: State)
    requires Init(g, v0, s)
    ensures Inv(g, v0, s)
  {
    OpsBounds(s.ops, MAXOPBLOCKS);
    assert Header(v0[g.start]) == [];
  }

  lemma StepToKeeps(g: Geo, v0: Disk, s: State, e: Event, s1: State)
    requires Inv(g, v0, s) && StepTo(g, s, e, s1)
    ensures Inv(g, v0, s1) && s.txns <= s1.txns
  {
    hide InvStore, InvClients;
    StepKeeps(g, v0, s, e);
  }

  lemma {:induction false} RunKeeps(g: Geo, v0: Disk, s0: State, es: seq<Event>, s: State)
    requires Inv(g, v0, s0) && Run(g, s0, es, s)
    ensures Inv(g, v0, s)
    ensures s0.txns <= s.txns
  {
    hide Inv, StepTo;
    if es != [] {
      var m :| Run(g, s0, Front(es), m) && StepTo(g, m, Last(es), s);
      RunKeeps(g, v0, s0, Front(es), m);
      StepToKeeps(g, v0, m, Last(es), s);
    }
  }

  lemma ReachableInv(g: Geo, v0: Disk, s: State)
    requires Reachable(g, v0, s)
    ensures Inv(g, v0, s)
  {
    hide Inv;
    var s0, es :| Init(g, v0, s0) && Run(g, s0, es, s);
    InitInv(g, v0, s0);
    RunKeeps(g, v0, s0, es, s);
  }

  // ---------- what a finished commit leaves behind

  /** Updates wait for a commit only while it has not written the header; between transactions
      the log is empty. */
  ghost predicate InvOpen(cur: seq<Update>, lh: seq<nat>, pc: Pc, outstanding: nat) {
    && (cur != [] ==> lh != [] && (pc == Running || pc.WritingLog? || pc == WritingHead))
    && (pc == Running && outstanding == 0 ==> lh == []) && (pc == Finish ==> lh == [])
  }

  ghost predicate InSome(txns: seq<Txn>, id: nat) {
    exists i :: 0 <= i < |txns| && txns[i].lo <= id < txns[i].hi
  }

  /** Every operation begun since the last crash and before the open transaction is in a
      committed one. */
  ghost predicate InvCovered(txns: seq<Txn>, boot: nat, epoch: nat) {
    boot <= epoch && forall id: nat :: boot <= id < epoch ==> InSome(txns, id)
  }

  lemma CoveredPush(txns: seq<Txn>, boot: nat, epoch: nat, t: Txn)
    requires InvCovered(txns, boot, epoch) && t.lo == epoch <= t.hi
    ensures InvCovered(txns + [t], boot, t.hi)
  {
    forall id: nat | boot <= id < t.hi
      ensures InSome(txns + [t], id)
    {
      if id < epoch {
        assert InSome(txns, id);
        var i :| 0 <= i < |txns| && txns[i].lo <= id < txns[i].hi;
        assert (txns + [t])[i].lo <= id < (txns + [t])[i].hi;
      } else {
        assert (txns + [t])[|txns|].lo <= id;
      }
    }
  }

  lemma CommitsKeeps(g: Geo, s: State, e: Event)
    requires InvOpen(s.cur, s.lh, s.pc, s.outstanding) && InvCovered(s.txns, s.boot, s.epoch)
    requires |s.disk| == g.nblocks && Enabled(g, s, e) && s.epoch <= |s.performed|
    requires s.committing <==> Committing(s.pc)
    requires (exists p: nat :: OpOpen(s.ops, p)) ==> s.pc == Running
    ensures var t := Do(g, s, e); InvOpen(t.cur, t.lh, t.pc, t.outstanding) && InvCovered(t.txns, t.boot, t.epoch)
  {
    hide InvCovered;
    if e == DiskWrite && s.pc == WritingHead {
      CoveredPush(s.txns, s.boot, s.epoch, Txn(s.epoch, |s.performed|, s.cur));
    }
    if e == Crash {
      CoveredNone(s.txns, |s.performed|);
    }
  }

  lemma CoveredNone(txns: seq<Txn>, n: nat)
    ensures InvCovered(txns, n, n)
  {
  }

  lemma InvFacts(g: Geo, v0: Disk, s: State)
    requires Inv(g, v0, s)
    ensures |s.disk| == g.nblocks && s.epoch <= |s.performed| && (s.committing <==> Committing(s.pc))
    ensures (exists p: nat :: OpOpen(s.ops, p)) ==> s.pc == Running
  {
    OpsBounds(s.ops, MAXOPBLOCKS);
  }

  lemma {:induction false} CommitsRun(g: Geo, v0: Disk, s0: State, es: seq<Event>, s: State)
    requires Init(g, v0, s0) && Run(g, s0, es, s)
    ensures InvOpen(s.cur, s.lh, s.pc, s.outstanding) && InvCovered(s.txns, s.boot, s.epoch)
  {
    hide Inv, InvOpen, InvCovered, Enabled, Do;
    if es == [] {
      CommitsInit(g, v0, s);
    } else {
      var m :| Run(g, s0, Front(es), m) && StepTo(g, m, Last(es), s);
      CommitsRun(g, v0, s0, Front(es), m);
      InitInv(g, v0, s0);
      RunKeeps(g, v0, s0, Front(es), m);
      InvFacts(g, v0, m);
      CommitsKeeps(g, m, Last(es));
    }
  }

  lemma CommitsInit(g: Geo, v0: Disk, s: State)
    requires Init(g, v0, s)
    ensures InvOpen(s.cur, s.lh, s.pc, s.outstanding) && InvCovered(s.txns, s.boot, s.epoch)
  {
  }

  lemma ReachableCommits(g: Geo, v0: Disk, s: State)
    requires Reachable(g, v0, s)
    ensures InvOpen(s.cur, s.lh, s.pc, s.outstanding) && InvCovered(s.txns, s.boot, s.epoch)
  {
    hide InvOpen, InvCovered, Init, Run;
    var s0, es :| Init(g, v0, s0) && Run(g, s0, es, s);
    CommitsRun(g, v0, s0, es, s);
  }

  /** Crash atomicity over whole runs. At every point of every run -- between any two block
      writes, in the middle of a commit, or in the middle of a recovery -- recovering from
      the disk as it is brings the home blocks to the contents after exactly the transactions
      committed so far, in order; and however the run goes on, none of them is ever lost. */
  lemma CrashAtomicity(g: Geo, v0: Disk, s: State)
    requires Reachable(g, v0, s)
    ensures HeaderOk(g, s.disk) && SameHome(g, Recover(g, s.disk), ReplayAll(v0, s.txns))
    ensures forall more, later :: Run(g, s, more, later) ==> s.txns <= later.txns
  {
    hide Inv, Reachable, Run, Promises, HeaderOk;
    ReachableInv(g, v0, s);
    InvRecovers(g, v0, s);
    forall more, later | Run(g, s, more, later)
      ensures s.txns <= later.txns
    {
      RunKeeps(g, v0, s, more, later);
    }
  }

  lemma InvDiskOk(g: Geo, v0: Disk, s: State)
    requires Inv(g, v0, s)
    ensures DiskOk(g, s.disk, Durable(v0, s)) && |Durable(v0, s)| == |View(v0, s)| == |s.disk| == g.nblocks
  {
  }

  /** The commit point is the first write_head of commit(): that block write, and no other
      step, changes what a crash recovers to, from the durable contents to what system calls
      see; and it adds the open transaction to the committed ones. */
  lemma CommittedByWriteHead(g: Geo, v0: Disk, s: State, e: Event)
    requires Reachable(g, v0, s) && |s.disk| == g.nblocks && Enabled(g, s, e)
    ensures var t := Do(g, s, e);
            HeaderOk(g, t.disk)
            && if e == DiskWrite && s.pc == WritingHead then
                 SameHome(g, Recover(g, t.disk), View(v0, s)) && t.txns == s.txns + [Txn(s.epoch, |s.performed|, s.cur)]
               else SameHome(g, Recover(g, t.disk), Durable(v0, s)) && t.txns == s.txns
  {
    hide Inv, Reachable, HeaderOk, Promises, Enabled, Do, Replay, ReplayAll;
    ReachableInv(g, v0, s);
    StepKeeps(g, v0, s, e);
    TxnsAfter(g, v0, s, e);
    InvRecovers(g, v0, Do(g, s, e));
  }

  lemma TxnsAfter(g: Geo, v0: Disk, s: State, e: Event)
    requires |s.disk| == g.nblocks && Enabled(g, s, e)
    ensures var t := Do(g, s, e);
            if e == DiskWrite && s.pc == WritingHead then
              Durable(v0, t) == View(v0, s) && t.txns == s.txns + [Txn(s.epoch, |s.performed|, s.cur)]
            else t.txns == s.txns
  {
    hide Replay, ReplayAll, Header, PutEntries, Absorb, Bread, Get;
    ReplayAllPush(v0, s.txns, Txn(s.epoch, |s.performed|, s.cur));
  }

  lemma InvRecovers(g: Geo, v0: Disk, s: State)
    requires Inv(g, v0, s)
    ensures HeaderOk(g, s.disk) && SameHome(g, Recover(g, s.disk), Durable(v0, s))
  {
    hide Inv, HeaderOk, Promises;
    InvDiskOk(g, v0, s);
    RecoverGives(g, s.disk, Durable(v0, s));
  }

  /** A commit or recovery under way can go on: its next block write waits for nothing but the
      buffer of the logged block, and never for block numbers that do not fit. */
  lemma CommitProceeds(g: Geo, v0: Disk, s: State)
    requires Reachable(g, v0, s)
    ensures |s.disk| == g.nblocks
    ensures s.pc.WritingLog? || s.pc.Installing? ==>
              s.pc.tail < |s.lh| && g.Home(s.lh[s.pc.tail]) && (Free(s, s.lh[s.pc.tail]) ==> Enabled(g, s, DiskWrite))
    ensures s.pc.WritingHead? || s.pc.Clearing? ==> Enabled(g, s, DiskWrite)
    ensures s.pc.Down? ==> Enabled(g, s, ReadHead)
  {
    ReachableInv(g, v0, s);
    hide InvClients, DiskOk, Reachable;
    if s.pc.WritingLog? || s.pc.Installing? {
      LogSlotFree(g, v0, s, s.pc.tail);
    }
  }

  /** Nobody holds a block of the log area. */
  lemma LogSlotFree(g: Geo, v0: Disk, s: State, t: nat)
    requires Inv(g, v0, s) && t < |s.lh|
    ensures g.start + 1 + t < g.nblocks && !g.Home(g.start + 1 + t) && Free(s, g.start + 1 + t)
  {
    var b := g.start + 1 + t;
    if b in s.cache {
      assert InvBuf(g, s.disk, s.ops, View(v0, s), b, s.cache[b]);
    }
  }

  /** Transaction t holds all the log_writes of operation `id`, in order, or none of them. */
  ghost predicate AllOrNone(t: Txn, id: nat, writes: seq<Update>) {
    OfOp(t.updates, id) == if t.lo <= id < t.hi then writes else []
  }

  lemma TxnAllOrNone(txns: seq<Txn>, epoch: nat, performed: seq<seq<Update>>, id: nat, i: nat)
    requires InvTxns(txns, epoch, performed) && id < |performed| && i < |txns|
    ensures AllOrNone(txns[i], id, performed[id])
  {
    var t := txns[i];
    assert AllOf(t.updates, t.lo, t.hi, performed);
    if !(t.lo <= id < t.hi) {
      NotInInterval(t.updates, t.lo, t.hi, id);
    }
  }

  /** All or nothing: the log_writes an operation ever made are together, complete and in
      order in the one committed transaction whose interval has it, or in none; and an
      operation that is still open is in no committed transaction. */
  lemma AllOrNothing(g: Geo, v0: Disk, s: State, id: nat, i: nat)
    requires Reachable(g, v0, s) && id < |s.performed| && i < |s.txns|
    ensures AllOrNone(s.txns[i], id, s.performed[id])
    ensures forall j :: i < j < |s.txns| ==> s.txns[i].hi <= s.txns[j].lo
    ensures forall p: nat :: OpOpen(s.ops, p) ==> s.txns[i].hi <= s.ops[p].value.id
  {
    hide InvStore, InvOps, AllOrNone, Reachable, AllOf;
    ReachableInv(g, v0, s);
    TxnAllOrNone(s.txns, s.epoch, s.performed, id, i);
  }

  /** Between transactions nothing is pending: no commit or recovery has a block write to do, and
      no operation is open. */
  ghost predicate Settled(s: State) {
    s.pc == Finish || (s.pc == Running && s.outstanding == 0)
  }

  /** Durability: once the commit of the last operation has finished, a crash recovers to exactly
      what system calls see, and every operation begun since the last crash has all its
      log_writes in one committed transaction, or made none. */
  lemma Durability(g: Geo, v0: Disk, s: State, id: nat)
    requires Reachable(g, v0, s) && Settled(s) && s.boot <= id < |s.performed|
    ensures HeaderOk(g, s.disk) && SameHome(g, Recover(g, s.disk), View(v0, s))
    ensures s.performed[id] == []
         || exists i :: 0 <= i < |s.txns| && s.txns[i].lo <= id < s.txns[i].hi
             && OfOp(s.txns[i].updates, id) == s.performed[id]
  {
    hide Inv, Reachable, Run, HeaderOk, AllOf, InvStore;
    CrashAtomicity(g, v0, s);
    ReachableCommits(g, v0, s);
    ReachableInv(g, v0, s);
    NothingOpen(g, v0, s, id);
    if id < s.epoch {
      assert InSome(s.txns, id);
      var i: nat :| i < |s.txns| && s.txns[i].lo <= id < s.txns[i].hi;
      TxnsOf(g, v0, s);
      TxnAllOrNone(s.txns, s.epoch, s.performed, id, i);
    }
  }

  lemma NothingOpen(g: Geo, v0: Disk, s: State, id: nat)
    requires Inv(g, v0, s) && s.cur == [] && id < |s.performed|
    ensures View(v0, s) == ReplayAll(v0, s.txns)
    ensures s.epoch <= id ==> s.performed[id] == []
  {
    assert AllOf(s.cur, s.epoch, |s.performed|, s.performed);
  }

  lemma TxnsOf(g: Geo, v0: Disk, s: State)
    requires Inv(g, v0, s)
    ensures InvTxns(s.txns, s.epoch, s.performed)
  {
  }

  /** Group commit: while a commit runs no operation is open, none can begin, and the panic
      in end_op cannot happen. */
  lemma GroupCommit(g: Geo, v0: Disk, s: State)
    requires Reachable(g, v0, s)
    ensures |s.disk| == g.nblocks
    ensures s.committing ==> s.outstanding == 0 && forall p: nat :: !OpOpen(s.ops, p) && !Enabled(g, s, Begin(p))
    ensures forall p: nat :: OpOpen(s.ops, p) ==> !s.committing && s.outstanding > 0
  {
    ReachableInv(g, v0, s);
    OpsBounds(s.ops, MAXOPBLOCKS);
  }

  /** Reservation: logged blocks and unspent reservations together fit the log, absorption
      keeps the logged numbers distinct, and an operation that still has budget meets the
      panic of log.c:218 exactly when the on-disk log is the smaller bound. Whether or not it has
      budget left, a call panics exactly when the log is full; if the on-disk log is larger than
      LOGSIZE, that is when LOGSIZE blocks are logged, and then no operation has budget left. */
  lemma Reservation(g: Geo, v0: Disk, s: State, p: nat)
    requires Reachable(g, v0, s) && OpOpen(s.ops, p)
    ensures |s.lh| + Unspent(s.ops, MAXOPBLOCKS) <= LOGSIZE && 0 <= Unspent(s.ops, MAXOPBLOCKS) && Distinct(s.lh)
    ensures s.ops[p].value.used < MAXOPBLOCKS ==> (LogWritePanics(g, s) <==> |s.lh| + 1 >= g.size)
    ensures LogWritePanics(g, s) <==> |s.lh| >= g.Capacity()
    ensures g.size > LOGSIZE && LogWritePanics(g, s) ==> |s.lh| == LOGSIZE && Unspent(s.ops, MAXOPBLOCKS) == 0
  {
    ReachableInv(g, v0, s);
    hide InvCache, InvIds, InvTxns, AllOf, DiskOk;
    OpsBounds(s.ops, MAXOPBLOCKS);
    UpdateOps(s.ops, p, None, MAXOPBLOCKS);
    OpsBounds(s.ops[p := None], MAXOPBLOCKS);
  }

  /** The cache agrees with the block store: whoever reads a block sees the logical contents,
      a clean unlocked buffer equals the disk, and a logged block stays cached, dirty and
      beyond eviction until it is written home. */
  lemma CacheAgrees(g: Geo, v0: Disk, s: State, b: nat)
    requires Reachable(g, v0, s) && g.Home(b) && Booted(s.pc)
    ensures |s.disk| == g.nblocks == |View(v0, s)|
    ensures Free(s, b) ==> Bread(s, b).data == View(v0, s)[b]
    ensures b in s.cache && Free(s, b) && !s.cache[b].dirty ==> s.cache[b].data == s.disk[b]
    ensures Pinned(s.lh, Unwritten(s.lh, s.pc), b) ==> b in s.cache && s.cache[b].dirty && !Enabled(g, s, Evict(b))
  {
    ReachableInv(g, v0, s);
    hide InvClients, DiskOk;
    if b in s.cache {
      assert InvBuf(g, s.disk, s.ops, View(v0, s), b, s.cache[b]);
    } else {
      UncachedIsView(g, s, Durable(v0, s), View(v0, s), b);
    }
  }
}

/** log.c as it runs: the global `log`, the buffer cache under it and the disk, changed in
    place by its loops. `trace` is every disk a crash could leave, one per block write, and
    `promise` what recovery makes of each; the proof of every loop says what it appends. */
module Log {
  import opened Blocks
  import opened LogMachine
  import opened LogSpec
  import opened Options
  import opened Param

  ghost function Repeat(v: Disk, k: nat): (r: seq<Disk>)
    ensures |r| == k
  {
    if k == 0 then [] else Repeat(v, k - 1) + [v]
  }

  /** Every disk of the trace recovers to the contents promised for it. */
  ghost predicate Kept(g: Geo, trace: seq<Disk>, promise: seq<Disk>) {
    |trace| == |promise| && forall k :: 0 <= k < |trace| ==> DiskOk(g, trace[k], promise[k])
  }

  class Log {
    const g: Geo
    var disk: Disk
    var cache: map<nat, Buf>
    var n: nat
    const block: array<nat>
    var outstanding: nat
    var committing: bool

    ghost var trace: seq<Disk>
    ghost var promise: seq<Disk>
    /** The contents after recovery from the disk as it is, and as system calls see them. */
    ghost var durable: Disk
    ghost var view: Disk

    ghost function Logged(): seq<nat>
      reads this, block
    {
      if n <= block.Length then block[..n] else []
    }

    /** The state with block write `pc` next. */
    ghost predicate At(pc: Pc, open: bool)
      reads this, block
    {
      && g.Valid() && |disk| == g.nblocks && block.Length == LOGSIZE && n <= LOGSIZE
      && InvDisk(g, disk, Logged(), pc, open, durable, view)
      && InvCache(g, disk, cache, [], Logged(), Unwritten(Logged(), pc), view)
      && Kept(g, trace, promise)
    }

    /** Between commits. */
    ghost predicate Valid()
      reads this, block
    {
      At(Running, true)
    }

    /** initlog on the disk a crash left. */
    constructor Boot(g: Geo, d: Disk, ghost v: Disk)
      requires DiskOk(g, d, v)
      ensures Valid() && n == 0 && outstanding == 0 && !committing
      ensures view == v && SameHome(g, disk, v)
      ensures promise == Repeat(v, |Header(d[g.start])| + 1)
    {
      this.g := g;
      disk, cache := d, map[];
      n, block := 0, new nat[LOGSIZE](_ => 0);
      outstanding, committing := 0, false;
      trace, promise, durable, view := [], [], v, v;
      new;
      RecoverFromLog();
    }

    // ---------- bio.c as log.c uses it

    method Bread(b: nat) returns (data: Block)
      requires |disk| == g.nblocks && b < g.nblocks
      modifies this`cache
      ensures cache == if b in old(cache) then old(cache) else old(cache)[b := Buf(disk[b], false, None, false)]
      ensures b in cache && data == cache[b].data
    {
      if b !in cache {
        cache := cache[b := Buf(disk[b], false, None, false)];
      }
      data := cache[b].data;
    }

    /** `ghost v`: what a crash right after this write recovers to. */
    method Bwrite(b: nat, data: Block, ghost v: Disk)
      requires |disk| == g.nblocks && b < g.nblocks
      modifies this`cache, this`disk, this`trace, this`promise
      ensures disk == old(disk)[b := data]
      ensures cache == old(cache)[b := Buf(data, false, None, false)]
      ensures trace == old(trace) + [disk] && promise == old(promise) + [v]
    {
      disk := disk[b := data];
      cache := cache[b := Buf(data, false, None, false)];
      trace, promise := trace + [disk], promise + [v];
    }

    // ---------- log.c

    /** read_head: the header's list into memory. */
    method ReadHead()
      requires |disk| == g.nblocks && g.start < g.nblocks && cache == map[]
      requires block.Length == LOGSIZE && Word(disk[g.start], 0) <= LOGSIZE
      modifies this`n, this`cache, block
      ensures n <= LOGSIZE && Logged() == Header(disk[g.start])
      ensures cache == map[g.start := Buf(disk[g.start], false, None, false)]
    {
      var buf := Bread(g.start);
      assert cache == map[g.start := Buf(disk[g.start], false, None, false)];
      n := Word(buf, 0);
      var i := 0;
      while i < n
        invariant i <= n == Word(buf, 0) && block[..i] == Words(buf, 1, i)
        invariant cache == map[g.start := Buf(disk[g.start], false, None, false)]
      {
        block[i] := Word(buf, i + 1);
        i := i + 1;
      }
    }

    /** recover_from_log: read_head, install_trans, n = 0, write_head. A crash at any of its
        writes still recovers to the contents v that the disk it started from recovers to. */
    method RecoverFromLog()
      requires DiskOk(g, disk, durable) && view == durable && cache == map[] && block.Length == LOGSIZE
      requires trace == [] && promise == []
      modifies this`n, this`cache, this`disk, this`trace, this`promise, block
      ensures Valid() && n == 0 && view == durable && SameHome(g, disk, durable)
      ensures promise == Repeat(durable, |Header(old(disk)[g.start])| + 1)
    {
      ghost var lh := Header(disk[g.start]);
      HeaderFits(g, disk, durable);
      hide InvDisk, InvCache, Kept, InvHeader, CopiedToLog, Installed, InvProgress, InvBuf, Pinned, Distinct, DiskOk,
           Header, Repeat, SameHome;
      ReadHead();
      BootStep(g, disk, cache, lh, durable);
      InstallTrans(true);
      ClearLog(true);
      RepeatNext(durable, |lh|);
      HomeInPlace(g, disk, durable, view);
    }

    /** begin_op, one look at the log: admit the operation or leave it to sleep. */
    method BeginOp() returns (admitted: bool)
      modifies this`outstanding
      ensures admitted <==> !committing && n + (old(outstanding) + 1) * MAXOPBLOCKS <= LOGSIZE
      ensures outstanding == old(outstanding) + if admitted then 1 else 0
    {
      if committing {
        return false;
      } else if n + (outstanding + 1) * MAXOPBLOCKS > LOGSIZE {
        return false;
      } else {
        outstanding := outstanding + 1;
        return true;
      }
    }

    /** log_write of a block the caller changed to `data`: it takes its old slot or a new one
        and is pinned; or the transaction is too big, or there is none. */
    method LogWrite(b: nat, data: Block) returns (panic: bool)
      requires Valid() && g.Home(b)
      modifies this`n, this`cache, this`view, block
      ensures Valid() && (panic <==> old(n) >= LOGSIZE || old(n) + 1 >= g.size || outstanding < 1)
      ensures panic ==> Logged() == old(Logged()) && view == old(view) && cache == old(cache)
      ensures !panic ==> Logged() == Absorb(old(Logged()), b)
      ensures !panic ==> view == old(view)[b := data] && cache == old(cache)[b := Buf(data, true, None, false)]
    {
      hide At;
      panic := n >= LOGSIZE || n + 1 >= g.size || outstanding < 1;
      if !panic {
        Record(b, data);
      }
    }

    /** log_write under log.lock: the search for the block's slot. */
    method Record(b: nat, data: Block)
      requires Valid() && g.Home(b) && n < LOGSIZE && n + 1 < g.size
      modifies this`n, this`cache, this`view, block
      ensures Valid() && Logged() == Absorb(old(Logged()), b)
      ensures view == old(view)[b := data] && cache == old(cache)[b := Buf(data, true, None, false)]
    {
      ghost var lh := Logged();
      LogWriteStep(g, disk, cache, lh, b, data, durable, view);
      hide InvDisk, InvCache, Kept, InvHeader, CopiedToLog, Installed, InvProgress, InvBuf, Pinned, Distinct,
           GoodHeader, Absorb;
      var i := 0;
      while i < n && block[i] != b
        invariant i <= n && forall j :: 0 <= j < i ==> lh[j] != b
      {
        i := i + 1;
      }
      block[i] := b;
      if i == n {
        n := n + 1;
      }
      assert Logged() == if i < |lh| then lh[i := b] else lh + [b];
      SlotIsAbsorb(lh, i, b);
      cache := cache[b := Buf(data, true, None, false)];
      view := view[b := data];
    }

    /** end_op: the last operation to finish commits. */
    method EndOp() returns (panic: bool)
      requires Valid() && outstanding > 0
      modifies this`n, this`cache, this`disk, this`trace, this`promise, this`durable, this`outstanding, this`committing
      ensures panic <==> old(committing)
      ensures outstanding == old(outstanding) - 1
      ensures Valid() && view == old(view) && committing == old(committing)
      ensures !panic && outstanding == 0 ==> n == 0 && SameHome(g, durable, view)
      ensures panic || outstanding > 0 ==> n == old(n) && durable == old(durable) && disk == old(disk)
    {
      hide InvDisk, InvCache, Kept, InvHeader, CopiedToLog, Installed, InvProgress, InvBuf, Pinned, Distinct;
      outstanding := outstanding - 1;
      if committing {
        return true;
      }
      if outstanding == 0 {
        committing := true;
        Commit();
        committing := false;
      }
      return false;
    }

    /** One turn of the loop in write_log: `to` is the log block, `from` the cached block. */
    method CopyToLog(tail: nat)
      requires At(WritingLog(tail), true)
      modifies this`cache, this`disk, this`trace, this`promise
      ensures At(if tail + 1 < n then WritingLog(tail + 1) else WritingHead, true)
      ensures promise == old(promise) + [durable] && old(trace) <= trace
    {
      hide InvDisk, InvCache, GoodHeader, Kept, InvHeader, CopiedToLog, Installed, InvProgress, InvBuf, Pinned,
           Distinct, DiskOk, Promises, HeaderOk, Header, SameHome, Repeat;
      CopyToLogStep(g, disk, cache, Logged(), tail, durable, view);
      var from := Bread(block[tail]);
      Bwrite(g.start + tail + 1, from, durable);
      KeptPush(g, old(trace), old(promise), disk, durable);
    }

    /** write_log. */
    method WriteLog()
      requires At(WritingLog(0), true)
      modifies this`cache, this`disk, this`trace, this`promise
      ensures At(WritingHead, true)
      ensures promise == old(promise) + Repeat(durable, n) && old(trace) <= trace
    {
      hide InvDisk, InvCache, Kept, InvHeader, CopiedToLog, Installed, InvProgress, InvBuf, Pinned, Distinct, Repeat,
           At;
      AtWritingLog(0);
      RepeatNone(promise, durable);
      var tail := 0;
      while tail < n
        invariant tail <= n
        invariant At(if tail < n then WritingLog(tail) else WritingHead, true)
        invariant promise == old(promise) + Repeat(durable, tail) && old(trace) <= trace
      {
        RepeatOnce(old(promise), durable, tail);
        CopyToLog(tail);
        tail := tail + 1;
      }
    }

    /** write_head. `v`: what a crash after its block write recovers to. */
    method WriteHead(ghost v: Disk)
      requires |disk| == g.nblocks && g.start < g.nblocks && block.Length == LOGSIZE && n <= LOGSIZE
      requires forall i :: 0 <= i < n ==> block[i] < UINT
      modifies this`cache, this`disk, this`trace, this`promise
      ensures (var head := PutEntries(if g.start in old(cache) then old(cache)[g.start].data else old(disk)[g.start],
                                      Logged(), n);
               disk == old(disk)[g.start := head] && cache == old(cache)[g.start := Buf(head, false, None, false)])
      ensures trace == old(trace) + [disk] && promise == old(promise) + [v]
    {
      ghost var lh := Logged();
      var buf := Bread(g.start);
      buf := SetWord(buf, 0, n);
      ghost var buf0 := buf;
      var i := 0;
      while i < n
        invariant i <= n && buf == PutWords(buf0, 1, lh, i)
      {
        buf := SetWord(buf, i + 1, block[i]);
        i := i + 1;
      }
      Bwrite(g.start, buf, v);
      assert cache == old(cache)[g.start := Buf(buf, false, None, false)];
    }

    /** The header's block numbers are on disk: the transaction is committed. */
    method CommitHead()
      requires At(WritingHead, true) && n > 0
      modifies this`cache, this`disk, this`trace, this`promise, this`durable
      ensures At(Installing(0, false), false)
      ensures durable == view
      ensures promise == old(promise) + [view] && old(trace) <= trace
    {
      hide InvDisk, InvCache, GoodHeader, Kept, InvHeader, CopiedToLog, Installed, InvProgress, InvBuf, Pinned,
           Distinct, PutEntries;
      CommitHeadStep(g, disk, cache, Logged(), durable, view);
      WriteHead(view);
      durable := view;
      KeptPush(g, old(trace), old(promise), disk, durable);
    }

    /** One turn of the loop in install_trans. */
    method CopyHome(tail: nat, ghost boot: bool)
      requires At(Installing(tail, boot), false)
      modifies this`cache, this`disk, this`trace, this`promise
      ensures At(if tail + 1 < n then Installing(tail + 1, boot) else Clearing(boot), false)
      ensures promise == old(promise) + [durable] && old(trace) <= trace
    {
      hide InvDisk, InvCache, GoodHeader, Kept, InvHeader, CopiedToLog, Installed, InvProgress, InvBuf, Pinned,
           Distinct, DiskOk, Promises, HeaderOk, Header, SameHome, Unwritten, Repeat;
      CopyHomeBounds(g, disk, Logged(), tail, boot, durable, view);
      var data := Bread(g.start + tail + 1);
      ghost var fetched := cache;
      assert fetched == Fetched(disk, old(cache), g.start + tail + 1);
      CopyHomeStep(g, disk, old(cache), Logged(), tail, boot, durable, view,
                   if tail + 1 < n then Installing(tail + 1, boot) else Clearing(boot), data);
      var dst := Bread(block[tail]);
      dst := data;
      Bwrite(block[tail], dst, durable);
      assert cache == fetched[block[tail] := Buf(data, false, None, false)];
      KeptPush(g, old(trace), old(promise), disk, durable);
    }

    /** install_trans: copy the logged blocks home. */
    method InstallTrans(ghost boot: bool)
      requires n > 0 ==> At(Installing(0, boot), false)
      requires n == 0 ==> At(Clearing(boot), false)
      modifies this`cache, this`disk, this`trace, this`promise
      ensures At(Clearing(boot), false)
      ensures promise == old(promise) + Repeat(durable, n) && old(trace) <= trace
    {
      hide InvDisk, InvCache, Kept, InvHeader, CopiedToLog, Installed, InvProgress, InvBuf, Pinned, Distinct, Repeat,
           At;
      RepeatNone(promise, durable);
      var tail := 0;
      while tail < n
        invariant tail <= n
        invariant At(if tail < n then Installing(tail, boot) else Clearing(boot), false)
        invariant promise == old(promise) + Repeat(durable, tail) && old(trace) <= trace
      {
        RepeatOnce(old(promise), durable, tail);
        CopyHome(tail, boot);
        tail := tail + 1;
      }
    }

    /** log.lh.n = 0; write_head: erase the transaction from the log. */
    method ClearLog(ghost boot: bool)
      requires At(Clearing(boot), false)
      modifies this`n, this`cache, this`disk, this`trace, this`promise
      ensures Valid() && n == 0 && view == durable
      ensures promise == old(promise) + [durable] && old(trace) <= trace
    {
      hide InvDisk, InvCache, GoodHeader, Kept, InvHeader, CopiedToLog, Installed, InvProgress, InvBuf, Pinned,
           Distinct, PutEntries;
      ClearLogStep(g, disk, cache, Logged(), boot, durable, view);
      n := 0;
      assert Logged() == [];
      WriteHead(durable);
      KeptPush(g, old(trace), old(promise), disk, durable);
    }

    /** commit(). Its block writes are: one per logged block into the log, after each of which
        a crash still recovers to the old contents; the header, which switches to the new
        contents at once; then the home blocks and the cleared header, which keep them. */
    method Commit()
      requires Valid()
      modifies this`n, this`cache, this`disk, this`trace, this`promise, this`durable
      ensures Valid() && n == 0 && view == old(view) && SameHome(g, durable, view)
      ensures old(n) > 0 ==> durable == view
      ensures promise == old(promise) + if old(n) == 0 then [] else
                Repeat(old(durable), old(n)) + Repeat(view, old(n) + 2)
      ensures old(trace) <= trace
    {
      CommitStart();
      hide At, SameHome;
      if n > 0 {
        CommitLogged();
      }
    }

    method CommitLogged()
      requires n > 0 && At(WritingLog(0), true)
      modifies this`n, this`cache, this`disk, this`trace, this`promise, this`durable
      ensures Valid() && n == 0 && durable == view == old(view)
      ensures promise == old(promise) + (Repeat(old(durable), old(n)) + Repeat(view, old(n) + 2))
      ensures old(trace) <= trace
    {
      hide At, Repeat;
      WriteLog();
      ghost var p1 := promise;
      CommitHead();
      InstallTrans(false);
      ClearLog(false);
      RepeatAround(p1, view, old(n));
      assert promise == p1 + Repeat(view, old(n) + 2);
    }

    lemma AtWritingLog(tail: nat)
      requires At(WritingLog(tail), true)
      ensures tail < n
    {
      WritingLogFits(g, disk, Logged(), tail, durable, view);
    }

    lemma CommitStart()
      requires Valid()
      ensures n > 0 ==> At(WritingLog(0), true)
      ensures n == 0 ==> SameHome(g, durable, view)
      ensures SameHome(g, view, view)
    {
      assert n == 0 ==> Logged() == [];
    }
  }

  lemma KeptPush(g: Geo, trace: seq<Disk>, promise: seq<Disk>, d: Disk, v: Disk)
    requires Kept(g, trace, promise) && DiskOk(g, d, v)
    ensures Kept(g, trace + [d], promise + [v])
  {
  }

  lemma DiskOkOf(g: Geo, disk: Disk, lh: seq<nat>, pc: Pc, open: bool, dur: Disk, view: Disk)
    requires InvDisk(g, disk, lh, pc, open, dur, view)
    ensures DiskOk(g, disk, dur)
  {
  }

  // ---------- one block write each, on values

  /** write_log copies what was logged: the block is pinned in the cache. */
  lemma CopyToLogStep(g: Geo, disk: Disk, cache: map<nat, Buf>, lh: seq<nat>, tail: nat, dur: Disk, view: Disk)
    requires InvDisk(g, disk, lh, WritingLog(tail), true, dur, view)
    requires InvCache(g, disk, cache, [], lh, 0, view)
    ensures tail < |lh| <= LOGSIZE && lh[tail] in cache && lh[tail] < g.nblocks && g.start + tail + 1 < g.nblocks
    ensures var data := cache[lh[tail]].data;
            var disk' := disk[g.start + tail + 1 := data];
            && InvDisk(g, disk', lh, if tail + 1 < |lh| then WritingLog(tail + 1) else WritingHead, true, dur, view)
            && InvCache(g, disk', cache[g.start + tail + 1 := Buf(data, false, None, false)], [], lh, 0, view)
            && DiskOk(g, disk', dur)
  {
    hide InvDisk, InvCache, GoodHeader, DiskOk, InvHeader, CopiedToLog, Installed, InvProgress, Distinct;
    WriteLogDisk(g, disk, lh, tail, true, dur, view);
    CopyToLogFits(g, disk, cache, lh, tail, dur, view);
    DiskOkOf(g, disk[g.start + tail + 1 := view[lh[tail]]], lh,
             if tail + 1 < |lh| then WritingLog(tail + 1) else WritingHead, true, dur, view);
    LogAreaWrite(g, disk, cache, [], lh, 0, view, g.start + tail + 1, view[lh[tail]]);
  }

  lemma CopyToLogFits(g: Geo, disk: Disk, cache: map<nat, Buf>, lh: seq<nat>, tail: nat, dur: Disk, view: Disk)
    requires InvDisk(g, disk, lh, WritingLog(tail), true, dur, view)
    requires InvCache(g, disk, cache, [], lh, 0, view)
    ensures tail < |lh| <= LOGSIZE && lh[tail] in cache && lh[tail] < g.nblocks && g.start + tail + 1 < g.nblocks
    ensures !g.Home(g.start + tail + 1) && cache[lh[tail]].data == view[lh[tail]]
                && |view| == |disk| == g.nblocks && GoodHeader(g, lh)
  {
    assert Pinned(lh, 0, lh[tail]);
    assert InvBuf(g, disk, [], view, lh[tail], cache[lh[tail]]);
  }

  function HeadBuf(g: Geo, disk: Disk, cache: map<nat, Buf>): Block
    requires g.start < |disk|
  {
    if g.start in cache then cache[g.start].data else disk[g.start]
  }

  lemma CommitHeadStep(g: Geo, disk: Disk, cache: map<nat, Buf>, lh: seq<nat>, dur: Disk, view: Disk)
    requires InvDisk(g, disk, lh, WritingHead, true, dur, view) && |lh| > 0
    requires InvCache(g, disk, cache, [], lh, 0, view)
    ensures g.start < g.nblocks && |lh| <= LOGSIZE && forall i :: 0 <= i < |lh| ==> lh[i] < UINT
    ensures var head := PutEntries(HeadBuf(g, disk, cache), lh, |lh|);
            var disk' := disk[g.start := head];
            && InvDisk(g, disk', lh, Installing(0, false), false, view, view)
            && InvCache(g, disk', cache[g.start := Buf(head, false, None, false)], [], lh, 0, view)
            && DiskOk(g, disk', view)
  {
    var head := PutEntries(HeadBuf(g, disk, cache), lh, |lh|);
    HeaderRoundTrip(HeadBuf(g, disk, cache), lh);
    WriteHeadDisk(g, disk, lh, true, dur, view, head, Installing(0, false));
    LogAreaWrite(g, disk, cache, [], lh, 0, view, g.start, head);
  }

  lemma CopyHomeBounds(g: Geo, disk: Disk, lh: seq<nat>, tail: nat, boot: bool, dur: Disk, view: Disk)
    requires InvDisk(g, disk, lh, Installing(tail, boot), false, dur, view)
    ensures tail < |lh| && g.Home(lh[tail]) && g.start + tail + 1 < g.nblocks == |disk| == |view|
  {
  }

  ghost function Fetched(disk: Disk, cache: map<nat, Buf>, b: nat): (r: map<nat, Buf>)
    requires b < |disk|
    ensures b in r
  {
    if b in cache then cache else cache[b := Buf(disk[b], false, None, false)]
  }

  lemma CopyHomeStep(g: Geo, disk: Disk, cache: map<nat, Buf>, lh: seq<nat>, tail: nat, boot: bool, dur: Disk,
                     view: Disk, pc: Pc, data: Block)
    requires tail < |lh| && g.Home(lh[tail]) && g.start + tail + 1 < g.nblocks == |disk| == |view|
    requires InvDisk(g, disk, lh, Installing(tail, boot), false, dur, view)
    requires InvCache(g, disk, cache, [], lh, Unwritten(lh, Installing(tail, boot)), view)
    requires pc == if tail + 1 < |lh| then Installing(tail + 1, boot) else Clearing(boot)
    requires data == Fetched(disk, cache, g.start + tail + 1)[g.start + tail + 1].data
    ensures InvDisk(g, disk[lh[tail] := data], lh, pc, false, dur, view)
    ensures InvCache(g, disk[lh[tail] := data],
                     Fetched(disk, cache, g.start + tail + 1)[lh[tail] := Buf(data, false, None, false)],
                     [], lh, Unwritten(lh, pc), view)
    ensures DiskOk(g, disk[lh[tail] := data], dur)
  {
    hide InvDisk, InvCache, GoodHeader, DiskOk, InvHeader, CopiedToLog, Installed, InvProgress, InvBuf, Pinned,
         Distinct;
    var from, l := Unwritten(lh, Installing(tail, boot)), g.start + tail + 1;
    InstallDisk(g, disk, lh, tail, boot, false, dur, view);
    FetchSlot(g, disk, cache, lh, from, view, l);
    InstallPins(lh, tail, boot);
    HomeWrite(g, disk, Fetched(disk, cache, l), [], lh, from, if boot then |lh| else tail + 1, view, lh[tail]);
    DiskOkOf(g, disk[lh[tail] := data], lh, pc, false, dur, view);
  }

  lemma ClearLogStep(g: Geo, disk: Disk, cache: map<nat, Buf>, lh: seq<nat>, boot: bool, dur: Disk, view: Disk)
    requires InvDisk(g, disk, lh, Clearing(boot), false, dur, view)
    requires InvCache(g, disk, cache, [], lh, |lh|, view)
    ensures g.start < g.nblocks && view == dur
    ensures var head := PutEntries(HeadBuf(g, disk, cache), [], 0);
            var disk' := disk[g.start := head];
            && InvDisk(g, disk', [], Running, true, dur, view)
            && InvCache(g, disk', cache[g.start := Buf(head, false, None, false)], [], [], 0, view)
            && DiskOk(g, disk', dur)
  {
    var head := PutEntries(HeadBuf(g, disk, cache), [], 0);
    HeaderRoundTrip(HeadBuf(g, disk, cache), []);
    ClearDisk(g, disk, lh, boot, false, dur, view, head);
    LogAreaWrite(g, disk, cache, [], lh, |lh|, view, g.start, head);
    NothingPinned(g, disk[g.start := head], cache[g.start := Buf(head, false, None, false)], [], lh, [], view);
  }

  lemma WritingLogFits(g: Geo, disk: Disk, lh: seq<nat>, tail: nat, dur: Disk, view: Disk)
    requires InvDisk(g, disk, lh, WritingLog(tail), true, dur, view)
    ensures tail < |lh|
  {
  }

  /** Reading a block of the log area, cached or not, gives what is on disk. */
  lemma FetchSlot(g: Geo, disk: Disk, cache: map<nat, Buf>, lh: seq<nat>, from: nat, view: Disk, b: nat)
    requires InvCache(g, disk, cache, [], lh, from, view) && b < |disk| && !g.Home(b)
    ensures InvCache(g, disk, Fetched(disk, cache, b), [], lh, from, view)
    ensures Fetched(disk, cache, b)[b].data == disk[b]
  {
    if b in cache {
      assert InvBuf(g, disk, [], view, b, cache[b]);
    } else {
      CachePut(g, disk, cache, [], lh, from, view, b, Buf(disk[b], false, None, false));
    }
  }

  lemma RepeatNone(p: seq<Disk>, v: Disk)
    ensures p == p + Repeat(v, 0)
  {
  }

  lemma RepeatOnce(p: seq<Disk>, v: Disk, k: nat)
    ensures p + Repeat(v, k) + [v] == p + Repeat(v, k + 1)
  {
    assert p + Repeat(v, k) + [v] == p + (Repeat(v, k) + [v]);
  }

  lemma {:induction false} RepeatFront(v: Disk, k: nat)
    ensures [v] + Repeat(v, k) == Repeat(v, k + 1)
  {
    if k > 0 {
      RepeatFront(v, k - 1);
      assert [v] + (Repeat(v, k - 1) + [v]) == ([v] + Repeat(v, k - 1)) + [v];
    }
  }

  lemma RepeatAround(p: seq<Disk>, v: Disk, k: nat)
    ensures p + [v] + Repeat(v, k) + [v] == p + Repeat(v, k + 2)
  {
    RepeatFront(v, k + 1);
    assert p + [v] + Repeat(v, k) + [v] == p + ([v] + (Repeat(v, k) + [v]));
  }

  lemma BootStep(g: Geo, d: Disk, cache: map<nat, Buf>, lh: seq<nat>, v: Disk)
    requires DiskOk(g, d, v) && lh == Header(d[g.start])
    requires cache == map[g.start := Buf(d[g.start], false, None, false)]
    ensures InvDisk(g, d, lh, if |lh| > 0 then Installing(0, true) else Clearing(true), false, v, v)
    ensures InvCache(g, d, cache, [], lh, |lh|, v)
  {
    assert forall c :: !Pinned(lh, |lh|, c);
    assert InvBuf(g, d, [], v, g.start, cache[g.start]);
  }

  lemma HomeInPlace(g: Geo, disk: Disk, v: Disk, view: Disk)
    requires InvDisk(g, disk, [], Running, true, v, view)
    ensures SameHome(g, disk, v)
  {
  }

  lemma LogWriteStep(g: Geo, disk: Disk, cache: map<nat, Buf>, lh: seq<nat>, b: nat, data: Block, dur: Disk, view: Disk)
    requires InvDisk(g, disk, lh, Running, true, dur, view)
    requires InvCache(g, disk, cache, [], lh, 0, view)
    requires g.Home(b) && |lh| < LOGSIZE && |lh| + 1 < g.size
    ensures b < |view|
    ensures InvDisk(g, disk, Absorb(lh, b), Running, true, dur, view[b := data])
    ensures InvCache(g, disk, cache[b := Buf(data, true, None, false)], [], Absorb(lh, b), 0, view[b := data])
  {
    hide InvDisk, InvCache, Absorb;
    LogWriteDisk(g, disk, lh, b, data, true, dur, view);
    LogWriteCache(g, disk, cache, [], [], lh, view, b, Buf(data, true, None, false));
  }

  lemma HeaderFits(g: Geo, d: Disk, v: Disk)
    requires DiskOk(g, d, v)
    ensures g.Valid() && |d| == g.nblocks && Word(d[g.start], 0) == |Header(d[g.start])| <= LOGSIZE
    ensures Kept(g, [], [])
  {
  }

  lemma RepeatNext(v: Disk, k: nat)
    ensures [] + Repeat(v, k) + [v] == Repeat(v, k + 1)
  {
  }

  lemma SlotIsAbsorb(lh: seq<nat>, i: nat, b: nat)
    requires i <= |lh| && (forall j :: 0 <= j < i ==> lh[j] != b) && (i < |lh| ==> lh[i] == b)
    ensures Absorb(lh, b) == if i < |lh| then lh[i := b] else lh + [b]
  {
  }
}

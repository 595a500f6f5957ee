/** fs.c on top of log.c: when each transaction is the work of file system operations, what a crash
    leaves is a file system, that of the last commit. */
module LogFs {
  import opened Blocks
  import opened FsFile
  import opened FsInv
  import opened FsRoom
  import opened FsSpec
  import opened FsSteps
  import opened FsTrunc
  import opened Param
  import opened Steps
  import LogCommits
  import LogMachine
  import LogRuns
  import LogSpec

  /** The blocks hold inodes and a bitmap that agree: every block that is marked is metadata or in
      one slot of one inode, and every block in a slot is marked. */
  ghost predicate Consistent(sb: Super, blk: seq<Block>) {
    exists inos, owner :: Inv(sb, blk, inos, owner, -1)
  }

  // ---------- operations

  /** writei and readi that go through, itrunc, and iupdate after a change of type, device numbers or
      link count. */
  datatype Call =
    | Writes(i: nat, off: nat, src: seq<byte>)
    | Reads(i: nat, off: nat, n: nat)
    | Truncs(i: nat)
    | Updates(i: nat, d: Dino)

  /** What a call does to the file system, as the methods of class Fs promise; `owed` is the inode
      that has yet to be written, -1 for none. */
  ghost predicate Does(sb: Super, c: Call, v: View, owed: int, v': View, owed': int) {
    c.i < |v.inos| && v.inos[c.i].Valid() &&
    match c
    case Writes(i, off, src) =>
      && owed == -1 && owed' == Owed(v.inos[i], i, off, |src|) && Wrote(sb, v, v', i, off, src, owed')
      && InodeLeft(sb, v, v', i, off, |src|) && Adds(v, v', i, Wanted(off, |src|))
    case Reads(i, off, n) =>
      && owed == -1 && owed' == Owed(v.inos[i], i, off, n) && Read(sb, v, v', i, off, n)
      && InodeLeft(sb, v, v', i, off, n) && Adds(v, v', i, Wanted(off, n))
    case Truncs(i) =>
      && (owed == -1 || owed == i) && owed' == -1 && Inv(sb, v'.blk, v'.inos, v'.owner, -1)
      && v'.inos == v.inos[i := Emptied(v.inos[i])] && v'.owner == Without(v.owner, i)
      && AllValid(v.inos) && AllValid(v'.inos) && OthersSame(v.blk, v.inos, v'.blk, v'.inos, i)
      && Low(sb, v.blk, v'.blk)
    case Updates(i, d) =>
      && (owed == -1 || owed == i) && owed' == -1 && Inv(sb, v'.blk, v'.inos, v'.owner, -1)
      && d.Valid() && d.addrs == v.inos[i].addrs && d.size == v.inos[i].size
      && v'.inos == v.inos[i := d] && v'.owner == v.owner
      && SameOn(v.blk, v'.blk, v.owner.Keys) && Low(sb, v.blk, v'.blk)
  }

  ghost predicate Calls(sb: Super, v: View, owed: int, cs: seq<Call>, v': View, owed': int)
    decreases |cs|
  {
    if cs == [] then v' == v && owed' == owed
    else exists w, o :: Calls(sb, v, owed, Front(cs), w, o) && Does(sb, Last(cs), w, o, v', owed')
  }

  /** The inode on disk, d, lacks a block that the inode in memory has. */
  ghost predicate StaleAs(sb: Super, v: View, i: nat, d: Dino) {
    && sb.Valid() && |v.blk| == sb.size && i < sb.ninodes && i < |v.inos| && v.inos[i].Valid() && d.Valid()
    && OnDisk(sb, v.blk, d, i)
    && (forall k :: 0 <= k <= NDIRECT && d.addrs[k] != 0 ==> v.inos[i].addrs[k] == d.addrs[k])
    && exists k :: 0 <= k <= NDIRECT && d.addrs[k] == 0 && v.inos[i].addrs[k] != 0
  }

  ghost predicate Good(sb: Super, v: View, owed: int) {
    && Inv(sb, v.blk, v.inos, v.owner, owed)
    && (owed == -1 || (owed >= 0 && exists d :: StaleAs(sb, v, owed, d)))
  }

  /** A call that leaves its inode unwritten leaves a stale one on disk. */
  lemma LeftIsStale(sb: Super, v: View, v': View, i: nat, off: nat, n: nat)
    requires Inv(sb, v.blk, v.inos, v.owner, -1) && Inv(sb, v'.blk, v'.inos, v'.owner, i)
    requires Adds(v, v', i, Wanted(off, n)) && InodeLeft(sb, v, v', i, off, n) && Owed(v.inos[i], i, off, n) == i
    requires v'.inos[i].Valid() && v'.inos[i].(addrs := v.inos[i].addrs) == v.inos[i]
    ensures StaleAs(sb, v', i, v.inos[i])
  {
    hide Inv, Adds, Wanted, OnDisk;
    forall k: nat | k <= NDIRECT && v.inos[i].addrs[k] != 0
      ensures v'.inos[i].addrs[k] == v.inos[i].addrs[k]
    {
      assert Addr(v.blk, v.inos[i], k) == v.inos[i].addrs[k] && Addr(v'.blk, v'.inos[i], k) == v'.inos[i].addrs[k];
      StillEmpty(sb, v, v', i, Wanted(off, n), -1, i, k);
    }
    var a, a' := v.inos[i].addrs, v'.inos[i].addrs;
    assert a' != a;
    assert exists k :: 0 <= k < |a| && a'[k] != a[k];
  }

  lemma DoesKeeps(sb: Super, c: Call, v: View, owed: int, v': View, owed': int)
    requires Good(sb, v, owed) && Does(sb, c, v, owed, v', owed')
    ensures Good(sb, v', owed')
  {
    hide Inv, Adds, Wanted, SameFile, Content, Splice, NewAddr, HoleFree, StaleAs, OnDisk;
    if c.Writes? && owed' != -1 {
      WriteKeepsSize(sb, v, v', c.i, c.off, c.src, owed');
      LeftIsStale(sb, v, v', c.i, c.off, |c.src|);
    }
    if c.Reads? && owed' != -1 {
      LeftIsStale(sb, v, v', c.i, c.off, c.n);
    }
  }

  lemma WriteKeepsSize(sb: Super, v: View, v': View, i: nat, off: nat, src: seq<byte>, owed: int)
    requires i < |v.inos| && v.inos[i].Valid() && Wrote(sb, v, v', i, off, src, owed)
    requires off + |src| <= v.inos[i].size
    ensures v'.inos[i].(addrs := v.inos[i].addrs) == v.inos[i]
  {
    hide Inv, OthersSame, HoleFree;
  }

  lemma {:induction false} CallsKeep(sb: Super, v: View, owed: int, cs: seq<Call>, v': View, owed': int)
    requires Good(sb, v, owed) && Calls(sb, v, owed, cs, v', owed')
    ensures Good(sb, v', owed')
    decreases |cs|
  {
    hide Good, Does;
    if cs != [] {
      var w, o :| Calls(sb, v, owed, Front(cs), w, o) && Does(sb, Last(cs), w, o, v', owed');
      CallsKeep(sb, v, owed, Front(cs), w, o);
      DoesKeeps(sb, Last(cs), w, o, v', owed');
    }
  }

  // ---------- what is on disk

  /** Inodes that are on disk are those that the blocks spell out. */
  lemma SameInodes(sb: Super, blk: seq<Block>, inos: seq<Dino>, inos2: seq<Dino>, i: int, j: nat)
    requires sb.Valid() && |blk| == sb.size && |inos| == |inos2| == sb.ninodes && j < |inos|
    requires Synced(sb, blk, inos, i) && Synced(sb, blk, inos2, -1) && j != i
    ensures inos2[j] == inos[j]
  {
    assert OnDisk(sb, blk, inos[j], j) && OnDisk(sb, blk, inos2[j], j);
  }

  /** A block that only the inode in memory has is marked, but no inode on disk has it. */
  lemma StaleIsInconsistent(sb: Super, v: View, i: nat, d: Dino, inos: seq<Dino>, owner: map<nat, Slot>)
    requires Inv(sb, v.blk, v.inos, v.owner, i) && StaleAs(sb, v, i, d)
    ensures !Inv(sb, v.blk, inos, owner, -1)
  {
    if Inv(sb, v.blk, inos, owner, -1) {
      InvShape(sb, v.blk, inos, owner, -1);
      InvShape(sb, v.blk, v.inos, v.owner, i);
      var k: nat :| k <= NDIRECT && d.addrs[k] == 0 && v.inos[i].addrs[k] != 0;
      var a := v.inos[i].addrs[k];
      StillMarked(sb, v, i, inos, owner, k);
      var s := owner[a];
      OwnerIs(sb, v.blk, inos, owner, a);
      if s.i != i {
        SameInodes(sb, v.blk, v.inos, inos, i, s.i);
      } else {
        assert inos[i] == d by {
          assert OnDisk(sb, v.blk, inos[i], i);
        }
        OldSlot(v.blk, d, v.inos[i], s.k);
      }
      assert Addr(v.blk, v.inos[s.i], s.k) == a;
      OwnerAt(sb, v.blk, v.inos, v.owner, s.i, s.k);
      OwnerAt(sb, v.blk, v.inos, v.owner, i, k);
      assert false;
    }
  }

  lemma OwnerIs(sb: Super, blk: seq<Block>, inos: seq<Dino>, owner: map<nat, Slot>, a: nat)
    requires Inv(sb, blk, inos, owner, -1) && a in owner
    ensures owner[a].i < |inos| && owner[a].k < NSLOT && inos[owner[a].i].Valid()
    ensures Addr(blk, inos[owner[a].i], owner[a].k) == a
  {
    assert OwnerOk(sb, blk, inos, owner[a], a);
  }

  lemma StillMarked(sb: Super, v: View, i: nat, inos: seq<Dino>, owner: map<nat, Slot>, k: nat)
    requires Inv(sb, v.blk, v.inos, v.owner, i) && Inv(sb, v.blk, inos, owner, -1)
    requires i < |v.inos| && v.inos[i].Valid() && k <= NDIRECT && v.inos[i].addrs[k] != 0
    ensures v.inos[i].addrs[k] in owner
  {
    hide Synced;
    var a := v.inos[i].addrs[k];
    assert Addr(v.blk, v.inos[i], k) == a;
    OwnerAt(sb, v.blk, v.inos, v.owner, i, k);
    assert BitOk(sb, v.blk, v.owner.Keys, a) && BitOk(sb, v.blk, owner.Keys, a);
  }

  /** A slot that the old inode fills, the new one fills with the same block. */
  lemma OldSlot(blk: seq<Block>, d: Dino, d': Dino, k: nat)
    requires d.Valid() && d'.Valid() && k < NSLOT && Addr(blk, d, k) != 0
    requires forall m :: 0 <= m <= NDIRECT && d.addrs[m] != 0 ==> d'.addrs[m] == d.addrs[m]
    ensures Addr(blk, d', k) == Addr(blk, d, k)
  {
  }

  /** The exact condition: what is on disk is a file system if and only if no inode is owed. */
  lemma ConsistentUnlessOwed(sb: Super, v: View, owed: int)
    requires Good(sb, v, owed)
    ensures Consistent(sb, v.blk) <==> owed == -1
  {
    if owed != -1 {
      var d :| StaleAs(sb, v, owed, d);
      forall inos, owner
        ensures !Inv(sb, v.blk, inos, owner, -1)
      {
        StaleIsInconsistent(sb, v, owed, d, inos, owner);
      }
    }
  }

  // ---------- over the log

  /** The file system lies behind the log. */
  ghost predicate Fits(g: LogSpec.Geo, sb: Super) {
    g.Valid() && sb.Valid() && g.nblocks == sb.size && g.start + g.size <= sb.inodestart
  }

  /** The transaction's log_writes, in whatever order they were made, come to what some calls do one
      after the other. */
  ghost predicate IsWork(sb: Super, v: View, owed: int, t: LogMachine.Txn, v': View, owed': int) {
    LogMachine.Replay(v.blk, t.updates) == v'.blk && exists cs :: Calls(sb, v, owed, cs, v', owed')
  }

  /** The file system after each of the committed transactions. */
  ghost predicate History(sb: Super, v0: seq<Block>, txns: seq<LogMachine.Txn>, vs: seq<View>, owed: seq<int>) {
    && |vs| == |owed| == |txns| + 1 && vs[0].blk == v0 && owed[0] == -1
    && Inv(sb, v0, vs[0].inos, vs[0].owner, -1)
    && forall k: nat :: k < |txns| ==> IsWork(sb, vs[k], owed[k], txns[k], vs[k + 1], owed[k + 1])
  }

  lemma {:induction false} HistoryKeeps(sb: Super, v0: seq<Block>, txns: seq<LogMachine.Txn>, vs: seq<View>,
                                        owed: seq<int>, k: nat)
    requires History(sb, v0, txns, vs, owed) && k <= |txns|
    ensures vs[k].blk == LogMachine.ReplayAll(v0, txns[..k]) && Good(sb, vs[k], owed[k])
  {
    hide Calls, Inv, StaleAs;
    if k > 0 {
      HistoryKeeps(sb, v0, txns, vs, owed, k - 1);
      assert IsWork(sb, vs[k - 1], owed[k - 1], txns[k - 1], vs[k], owed[k]);
      var cs :| Calls(sb, vs[k - 1], owed[k - 1], cs, vs[k], owed[k]);
      CallsKeep(sb, vs[k - 1], owed[k - 1], cs, vs[k], owed[k]);
      assert txns[..k][..k - 1] == txns[..k - 1];
    }
  }

  /** Nothing before the inode blocks matters. */
  ghost predicate SameBehind(sb: Super, blk: seq<Block>, blk': seq<Block>) {
    |blk'| == |blk| == sb.size && forall b: nat :: sb.inodestart <= b < sb.size ==> blk'[b] == blk[b]
  }

  lemma Behind(sb: Super, v: View, blk': seq<Block>, owed: int)
    requires Inv(sb, v.blk, v.inos, v.owner, owed) && SameBehind(sb, v.blk, blk')
    ensures Inv(sb, blk', v.inos, v.owner, owed)
    ensures forall i: nat :: i < |v.inos| && v.inos[i].Valid() ==> SameFile(v.blk, v.inos[i], blk', v.inos[i])
  {
    InvShape(sb, v.blk, v.inos, v.owner, owed);
    forall b | b in v.owner.Keys && b < |v.blk|
      ensures blk'[b] == v.blk[b]
    {
      assert OwnerOk(sb, v.blk, v.inos, v.owner[b], b);
    }
    TablesFrame(sb, v.blk, blk', v.inos, v.owner);
    BitsFrame(sb, v.blk, blk', v.owner.Keys);
    SyncedFrame(sb, v.blk, blk', v.inos, owed);
    forall i: nat | i < |v.inos| && v.inos[i].Valid()
      ensures SameFile(v.blk, v.inos[i], blk', v.inos[i])
    {
      FileFrame(sb, v.blk, blk', v.inos, v.owner, i);
    }
  }

  lemma GoodBehind(sb: Super, v: View, blk': seq<Block>, owed: int)
    requires Good(sb, v, owed) && SameBehind(sb, v.blk, blk')
    ensures Good(sb, v.(blk := blk'), owed)
  {
    hide Tables, Bits, Synced;
    Behind(sb, v, blk', owed);
    if owed != -1 {
      var d :| StaleAs(sb, v, owed, d);
      Layout(sb, owed, 0);
      assert StaleAs(sb, v.(blk := blk'), owed, d);
    }
  }

  /** After a crash at any point of any run in which transactions are the work of file system calls,
      recovery leaves the file system of the last commit: its inodes, its bitmap, and all its
      files. It is consistent exactly if that commit owed no inode. */
  lemma AfterCrash(g: LogSpec.Geo, sb: Super, v0: seq<Block>, s: LogMachine.State, vs: seq<View>, owed: seq<int>)
    requires LogRuns.Reachable(g, v0, s) && Fits(g, sb) && History(sb, v0, s.txns, vs, owed)
    ensures LogSpec.HeaderOk(g, s.disk)
    ensures var n := |s.txns|; var disk := LogSpec.Recover(g, s.disk);
            && Inv(sb, disk, vs[n].inos, vs[n].owner, owed[n])
            && (Consistent(sb, disk) <==> owed[n] == -1)
            && forall i: nat :: i < |vs[n].inos| && vs[n].inos[i].Valid() ==>
                 SameFile(vs[n].blk, vs[n].inos[i], disk, vs[n].inos[i])
  {
    hide Inv, StaleAs, Consistent, SameFile;
    var n := |s.txns|;
    LogRuns.CrashAtomicity(g, v0, s);
    var disk := LogSpec.Recover(g, s.disk);
    HistoryKeeps(sb, v0, s.txns, vs, owed, n);
    assert s.txns[..n] == s.txns;
    assert SameBehind(sb, vs[n].blk, disk);
    Behind(sb, vs[n], disk, owed[n]);
    GoodBehind(sb, vs[n], disk, owed[n]);
    ConsistentUnlessOwed(sb, vs[n].(blk := disk), owed[n]);
  }

  // ---------- files without holes

  ghost predicate NoHoles(v: View) {
    AllValid(v.inos) && forall i: nat :: i < |v.inos| ==> HoleFree(v.blk, v.inos[i])
  }

  lemma OthersHoleFree(v: View, v': View, i: nat)
    requires NoHoles(v) && AllValid(v'.inos) && OthersSame(v.blk, v.inos, v'.blk, v'.inos, i)
    requires i < |v'.inos| && HoleFree(v'.blk, v'.inos[i])
    ensures NoHoles(v')
  {
    hide HoleFree;
    forall j: nat | j < |v'.inos|
      ensures HoleFree(v'.blk, v'.inos[j])
    {
      if j != i {
        assert SameFile(v.blk, v.inos[j], v'.blk, v'.inos[j]);
        SameFileHoleFree(v.blk, v.inos[j], v'.blk);
      }
    }
  }

  lemma SameSizeHoleFree(blk: seq<Block>, d: Dino, d': Dino)
    requires d.Valid() && d'.Valid() && HoleFree(blk, d) && d'.addrs == d.addrs && d'.size == d.size
    ensures HoleFree(blk, d')
  {
    forall bn: nat | bn < MAXFILE && bn * BSIZE < d.size
      ensures Addr(blk, d', DataSlot(bn)) != 0
    {
      assert Addr(blk, d, DataSlot(bn)) != 0;
    }
  }

  /** Without holes no call owes an inode, and no call makes a hole. */
  lemma NoHolesKept(sb: Super, c: Call, v: View, v': View, owed': int)
    requires Good(sb, v, -1) && NoHoles(v) && Does(sb, c, v, -1, v', owed')
    ensures owed' == -1 && NoHoles(v')
  {
    hide Tables, Bits, Synced, Adds, Wanted, SameFile, Content, Splice, NewAddr, HoleFree, OnDisk, InodeLeft, StaleAs;
    match c
    case Writes(i, off, src) =>
      if off + |src| <= v.inos[i].size {
        NoNewAddr(v.blk, v.inos[i], off, |src|);
      }
      OthersHoleFree(v, v', i);
    case Reads(i, off, n) =>
      NoNewAddr(v.blk, v.inos[i], off, n);
    case Truncs(i) =>
      EmptyHoleFree(v'.blk, v.inos[i]);
      OthersHoleFree(v, v', i);
    case Updates(i, d) =>
      UpdateOthers(sb, v, v', i);
      UpdateHoleFree(sb, v, v', i, d);
      OthersHoleFree(v, v', i);
  }

  lemma EmptyHoleFree(blk: seq<Block>, d: Dino)
    requires d.Valid()
    ensures Emptied(d).Valid() && HoleFree(blk, Emptied(d))
  {
  }

  lemma UpdateOthers(sb: Super, v: View, v': View, i: nat)
    requires Inv(sb, v.blk, v.inos, v.owner, -1) && Inv(sb, v'.blk, v'.inos, v'.owner, -1)
    requires i < |v.inos| && |v'.inos| == |v.inos| && v'.owner == v.owner && SameOn(v.blk, v'.blk, v.owner.Keys)
    requires forall j: nat :: j < |v.inos| && j != i ==> v'.inos[j] == v.inos[j]
    ensures AllValid(v.inos) && AllValid(v'.inos) && OthersSame(v.blk, v.inos, v'.blk, v'.inos, i)
  {
    OthersFrame(sb, v.blk, v'.blk, v.inos, v'.inos, v.owner, i);
  }

  lemma UpdateHoleFree(sb: Super, v: View, v': View, i: nat, d: Dino)
    requires Inv(sb, v.blk, v.inos, v.owner, -1) && SameOn(v.blk, v'.blk, v.owner.Keys) && i < |v.inos|
    requires v.inos[i].Valid() && HoleFree(v.blk, v.inos[i]) && d.Valid() && d.addrs == v.inos[i].addrs
    requires d.size == v.inos[i].size
    ensures HoleFree(v'.blk, d)
  {
    FileFrame(sb, v.blk, v'.blk, v.inos, v.owner, i);
    SameFileHoleFree(v.blk, v.inos[i], v'.blk);
    SameSizeHoleFree(v'.blk, v.inos[i], d);
  }

  lemma {:induction false} NoHolesCalls(sb: Super, v: View, cs: seq<Call>, v': View, owed': int)
    requires Good(sb, v, -1) && NoHoles(v) && Calls(sb, v, -1, cs, v', owed')
    ensures owed' == -1 && NoHoles(v')
    decreases |cs|
  {
    hide Good, Does, NoHoles;
    if cs != [] {
      var w, o :| Calls(sb, v, -1, Front(cs), w, o) && Does(sb, Last(cs), w, o, v', owed');
      NoHolesCalls(sb, v, Front(cs), w, o);
      CallsKeep(sb, v, -1, Front(cs), w, o);
      NoHolesKept(sb, Last(cs), w, v', owed');
    }
  }

  lemma {:induction false} NoHolesHistory(sb: Super, v0: seq<Block>, txns: seq<LogMachine.Txn>, vs: seq<View>,
                                          owed: seq<int>, k: nat)
    requires History(sb, v0, txns, vs, owed) && k <= |txns| && NoHoles(vs[0])
    ensures owed[k] == -1 && NoHoles(vs[k])
  {
    hide Calls, Inv, NoHoles, Good;
    if k > 0 {
      NoHolesHistory(sb, v0, txns, vs, owed, k - 1);
      HistoryKeeps(sb, v0, txns, vs, owed, k - 1);
      assert IsWork(sb, vs[k - 1], owed[k - 1], txns[k - 1], vs[k], owed[k]);
      var cs :| Calls(sb, vs[k - 1], owed[k - 1], cs, vs[k], owed[k]);
      NoHolesCalls(sb, vs[k - 1], cs, vs[k], owed[k]);
    }
  }

  /** A file system that starts without holes is consistent after every crash of every run. */
  lemma AlwaysConsistent(g: LogSpec.Geo, sb: Super, v0: seq<Block>, s: LogMachine.State, vs: seq<View>, owed: seq<int>)
    requires LogRuns.Reachable(g, v0, s) && Fits(g, sb) && History(sb, v0, s.txns, vs, owed) && NoHoles(vs[0])
    ensures LogSpec.HeaderOk(g, s.disk) && Consistent(sb, LogSpec.Recover(g, s.disk))
  {
    hide Inv, Consistent, NoHoles, SameFile, LogRuns.Reachable;
    AfterCrash(g, sb, v0, s, vs, owed);
    NoHolesHistory(sb, v0, s.txns, vs, owed, |s.txns|);
  }

  // ---------- log_writes

  /** Whatever a call changes can be written with one log_write for each block that it logs. */
  lemma {:induction false} ByLogWrites(blk: seq<Block>, blk': seq<Block>, bs: set<nat>, id: nat)
    returns (us: seq<LogMachine.Update>)
    requires |blk'| == |blk| && forall b: nat :: b < |blk| && blk'[b] != blk[b] ==> b in bs
    ensures LogMachine.Replay(blk, us) == blk' && |us| <= |bs|
    ensures forall j :: 0 <= j < |us| ==> us[j].op == id && us[j].b in bs && us[j].b < |blk|
    decreases |bs|
  {
    if bs == {} {
      us := [];
      assert blk' == blk;
    } else {
      var b :| b in bs;
      var back := if b < |blk| then blk'[b := blk[b]] else blk';
      us := ByLogWrites(blk, back, bs - {b}, id);
      if b < |blk| {
        LogMachine.ReplayPush(blk, us, LogMachine.Update(id, b, blk'[b]));
        us := us + [LogMachine.Update(id, b, blk'[b])];
      }
    }
  }

  ghost function Changed(blk: seq<Block>, blk': seq<Block>): set<nat>
    requires |blk'| == |blk|
  {
    set b | 0 <= b < |blk| && blk'[b] != blk[b]
  }

  lemma {:induction false} ListedShort(us: seq<LogMachine.Update>)
    ensures |LogCommits.Listed(us)| <= |us|
  {
    if us != [] {
      ListedShort(us[..|us| - 1]);
    }
  }

  lemma DoesLow(sb: Super, c: Call, v: View, owed: int, v': View, owed': int)
    requires Does(sb, c, v, owed, v', owed')
    ensures Low(sb, v.blk, v'.blk)
  {
    hide Inv, Adds, InodeLeft, OthersSame, HoleFree, Content, Splice, Lacks;
  }

  /** Updates of as many blocks behind the log as an operation may write can be logged. */
  lemma FewAreLoggable(g: LogSpec.Geo, sb: Super, id: nat, us: seq<LogMachine.Update>)
    requires Fits(g, sb) && |us| <= MAXOPBLOCKS && |us| <= g.Capacity()
    requires forall j :: 0 <= j < |us| ==> us[j].op == id && sb.inodestart <= us[j].b < sb.size
    ensures LogCommits.Loggable(g, id, us)
  {
    forall i: nat | i < |us|
      ensures LogCommits.LoggableAt(g, id, us, i)
    {
      ListedShort(us[..i]);
    }
  }

  /** Every call that changes no more blocks than an operation may write is the transaction of some
      run, from any point at which nothing is under way. */
  lemma CallCommits(g: LogSpec.Geo, sb: Super, v0: seq<Block>, s: LogMachine.State, c: Call, v: View, owed: int,
                    v': View, owed': int) returns (t: LogMachine.State, txn: LogMachine.Txn)
    requires LogRuns.Reachable(g, v0, s) && LogCommits.Quiet(g, s) && Fits(g, sb)
    requires LogMachine.ReplayAll(v0, s.txns) == v.blk && Does(sb, c, v, owed, v', owed') && v'.blk != v.blk
    requires |v'.blk| == |v.blk| == sb.size
    requires |Changed(v.blk, v'.blk)| <= MAXOPBLOCKS && |Changed(v.blk, v'.blk)| <= g.Capacity()
    ensures LogRuns.Reachable(g, v0, t) && LogCommits.Quiet(g, t) && t.txns == s.txns + [txn]
    ensures IsWork(sb, v, owed, txn, v', owed') && LogMachine.ReplayAll(v0, t.txns) == v'.blk
  {
    hide Does, LogRuns.Reachable, LogCommits.Quiet, LogCommits.Loggable;
    DoesLow(sb, c, v, owed, v', owed');
    var us := ByLogWrites(v.blk, v'.blk, Changed(v.blk, v'.blk), |s.performed|);
    assert us != [];
    FewAreLoggable(g, sb, |s.performed|, us);
    t := LogCommits.Commits(g, v0, s, us);
    txn := LogMachine.Txn(s.epoch, |s.performed| + 1, us);
    LogMachine.ReplayAllPush(v0, s.txns, txn);
    OneCall(sb, c, v, owed, v', owed');
  }

  lemma OneCall(sb: Super, c: Call, v: View, owed: int, v': View, owed': int)
    requires Does(sb, c, v, owed, v', owed')
    ensures exists cs :: Calls(sb, v, owed, cs, v', owed')
  {
    hide Does;
    assert Calls(sb, v, owed, [], v, owed) && Front([c]) == [];
    assert Calls(sb, v, owed, [c], v', owed');
  }
}

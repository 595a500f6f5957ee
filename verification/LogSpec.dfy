/** The redo log of log.c as a function of disk contents: header format, the block
    writes of a commit in order, recovery, and what one disk means after a crash. */
module LogSpec {
  import opened Blocks
  import opened Param

  /** A disk of `nblocks` blocks whose log area is `start .. start+size-1`: the header
      block first, then the logged blocks. */
  datatype Geo = Geo(nblocks: nat, start: nat, size: nat) {
    ghost predicate Valid() {
      0 < size && start + size <= nblocks < UINT
    }

    predicate Home(b: int) {
      0 <= b < nblocks && !(start <= b < start + size)
    }

    /** The most blocks one transaction may log (log.c:218). */
    function Capacity(): nat {
      if size == 0 then 0 else if size - 1 < LOGSIZE then size - 1 else LOGSIZE
    }
  }

  type Disk = seq<Block>

  ghost predicate Distinct(lh: seq<nat>) {
    forall i, j :: 0 <= i < j < |lh| ==> lh[i] != lh[j]
  }

  /** A list of block numbers that may stand in the log header. */
  ghost predicate GoodHeader(g: Geo, lh: seq<nat>) {
    && |lh| <= g.Capacity()
    && Distinct(lh)
    && (forall i :: 0 <= i < |lh| ==> g.Home(lh[i]))
  }

  // ---------- the header block

  /** `struct logheader`: word 0 is n, words 1 .. n are the block numbers. */
  function Header(b: Block): seq<nat> {
    if Word(b, 0) < NWORDS then Words(b, 1, Word(b, 0)) else []
  }

  /** The assignments of write_head: n first, then the first k entries. */
  function PutEntries(b: Block, lh: seq<nat>, k: nat): Block
    requires k <= |lh| <= LOGSIZE
    requires forall i :: 0 <= i < |lh| ==> lh[i] < UINT
  {
    PutWords(SetWord(b, 0, |lh|), 1, lh, k)
  }

  /** What write_head leaves in the header block is read back by read_head. */
  lemma HeaderRoundTrip(b: Block, lh: seq<nat>)
    requires |lh| <= LOGSIZE
    requires forall i :: 0 <= i < |lh| ==> lh[i] < UINT
    ensures Word(PutEntries(b, lh, |lh|), 0) == |lh|
    ensures Header(PutEntries(b, lh, |lh|)) == lh
  {
    WordOfSetWord(b, 0, |lh|, 0);
    WordOfPutWords(SetWord(b, 0, |lh|), 1, lh, |lh|, 0);
    WordsOfPutWords(SetWord(b, 0, |lh|), 1, lh);
  }

  // ---------- the block writes

  /** write_head with `lh` in memory. */
  function WriteHead(g: Geo, d: Disk, lh: seq<nat>): Disk
    requires g.start < |d| && |lh| <= LOGSIZE
    requires forall i :: 0 <= i < |lh| ==> lh[i] < UINT
  {
    d[g.start := PutEntries(d[g.start], lh, |lh|)]
  }

  /** One turn of the loop in install_trans. */
  function InstallOne(g: Geo, d: Disk, lh: seq<nat>, tail: nat): Disk
    requires tail < |lh| && g.start + 1 + tail < |d| && lh[tail] < |d|
  {
    d[lh[tail] := d[g.start + 1 + tail]]
  }

  /** The disk after the first k turns of install_trans. */
  function Install(g: Geo, d: Disk, lh: seq<nat>, k: nat): (r: Disk)
    requires g.Valid() && |d| == g.nblocks && GoodHeader(g, lh) && k <= |lh|
    ensures |r| == |d|
  {
    if k == 0 then d else InstallOne(g, Install(g, d, lh, k - 1), lh, k - 1)
  }

  /** The header block holds a count that fits and good block numbers. */
  ghost predicate HeaderOk(g: Geo, d: Disk) {
    && g.Valid() && |d| == g.nblocks
    && Word(d[g.start], 0) <= g.Capacity()
    && GoodHeader(g, Header(d[g.start]))
  }

  /** recover_from_log run to its end: read_head, install_trans, n = 0, write_head. */
  ghost function Recover(g: Geo, d: Disk): (r: Disk)
    requires HeaderOk(g, d)
    ensures |r| == |d|
  {
    WriteHead(g, Install(g, d, Header(d[g.start]), |Header(d[g.start])|), [])
  }

  /** The disk after the first k block writes of a recovery started from d. */
  ghost function RecoverPrefix(g: Geo, d: Disk, k: nat): (r: Disk)
    requires HeaderOk(g, d)
    ensures |r| == |d|
  {
    if k <= |Header(d[g.start])| then Install(g, d, Header(d[g.start]), k) else Recover(g, d)
  }

  // ---------- what a disk means

  /** With `lh` in the header, `v` is the content the home blocks must have after recovery:
      a logged block's content is its copy in the log area, any other is already in place. */
  ghost predicate Promises(g: Geo, d: Disk, lh: seq<nat>, v: Disk) {
    && g.Valid() && |d| == g.nblocks == |v| && GoodHeader(g, lh)
    && (forall i :: 0 <= i < |lh| ==> d[g.start + 1 + i] == v[lh[i]])
    && (forall b :: g.Home(b) && b !in lh ==> d[b] == v[b])
  }

  ghost predicate DiskOk(g: Geo, d: Disk, v: Disk) {
    HeaderOk(g, d) && Promises(g, d, Header(d[g.start]), v)
  }

  ghost predicate SameHome(g: Geo, d: Disk, v: Disk) {
    |d| == |v| == g.nblocks && forall b :: g.Home(b) ==> d[b] == v[b]
  }

  /** Blocks off the list keep their content; a block on it gets its log copy. */
  lemma {:induction false} InstallAt(g: Geo, d: Disk, lh: seq<nat>, k: nat, b: nat)
    requires g.Valid() && |d| == g.nblocks && GoodHeader(g, lh) && k <= |lh| && b < |d|
    ensures b !in lh[..k] ==> Install(g, d, lh, k)[b] == d[b]
    ensures forall i :: 0 <= i < k && lh[i] == b ==> Install(g, d, lh, k)[b] == d[g.start + 1 + i]
  {
    if k > 0 {
      assert lh[..k] == lh[..k - 1] + [lh[k - 1]];
      InstallAt(g, d, lh, k - 1, g.start + k);
      InstallAt(g, d, lh, k - 1, b);
      assert g.Home(lh[k - 1]);
      assert g.start + k !in lh[..k - 1];
    }
  }

  lemma InstallWhole(g: Geo, d: Disk, lh: seq<nat>)
    requires g.Valid() && |d| == g.nblocks && GoodHeader(g, lh)
    ensures forall i :: 0 <= i < |lh| ==> Install(g, d, lh, |lh|)[lh[i]] == d[g.start + 1 + i]
    ensures forall b :: 0 <= b < |d| && b !in lh ==> Install(g, d, lh, |lh|)[b] == d[b]
    ensures Install(g, d, lh, |lh|)[g.start] == d[g.start]
  {
    var r := Install(g, d, lh, |lh|);
    assert lh[..|lh|] == lh;
    forall i | 0 <= i < |lh|
      ensures r[lh[i]] == d[g.start + 1 + i]
    {
      InstallAt(g, d, lh, |lh|, lh[i]);
    }
    forall b | 0 <= b < |d| && b !in lh
      ensures r[b] == d[b]
    {
      InstallAt(g, d, lh, |lh|, b);
    }
    assert g.start !in lh;
  }

  /** A promise is exactly what installing the whole list brings about. */
  lemma InstallGives(g: Geo, d: Disk, lh: seq<nat>, v: Disk)
    requires g.Valid() && |d| == g.nblocks == |v| && GoodHeader(g, lh)
    ensures Promises(g, d, lh, v) <==> SameHome(g, Install(g, d, lh, |lh|), v)
  {
    InstallWhole(g, d, lh);
    ghost var r := Install(g, d, lh, |lh|);
    PromiseOfEndpoint(g, d, lh, r, v);
  }

  lemma PromiseOfEndpoint(g: Geo, d: Disk, lh: seq<nat>, r: Disk, v: Disk)
    requires g.Valid() && |d| == |r| == g.nblocks == |v| && GoodHeader(g, lh)
    requires forall i :: 0 <= i < |lh| ==> r[lh[i]] == d[g.start + 1 + i]
    requires forall b :: 0 <= b < |d| && b !in lh ==> r[b] == d[b]
    ensures Promises(g, d, lh, v) <==> SameHome(g, r, v)
  {
    if SameHome(g, r, v) {
      assert forall i :: 0 <= i < |lh| ==> g.Home(lh[i]);
    }
    if Promises(g, d, lh, v) {
      forall b | g.Home(b)
        ensures r[b] == v[b]
      {
        if b in lh {
          var i :| 0 <= i < |lh| && lh[i] == b;
        }
      }
    }
  }

  lemma RecoverGives(g: Geo, d: Disk, v: Disk)
    requires HeaderOk(g, d) && |v| == g.nblocks
    ensures DiskOk(g, d, v) <==> SameHome(g, Recover(g, d), v)
    ensures Header(Recover(g, d)[g.start]) == [] && HeaderOk(g, Recover(g, d))
  {
    var lh := Header(d[g.start]);
    var full := Install(g, d, lh, |lh|);
    InstallGives(g, d, lh, v);
    InstallWhole(g, d, lh);
    HeaderRoundTrip(full[g.start], []);
    assert forall b :: g.Home(b) ==> Recover(g, d)[b] == full[b];
    assert SameHome(g, full, v) <==> SameHome(g, Recover(g, d), v);
  }

  lemma InstallOneOk(g: Geo, d: Disk, lh: seq<nat>, v: Disk, tail: nat)
    requires Promises(g, d, lh, v) && tail < |lh|
    ensures Promises(g, InstallOne(g, d, lh, tail), lh, v)
    ensures InstallOne(g, d, lh, tail)[g.start] == d[g.start]
  {
    assert g.Home(lh[tail]);
  }

  lemma {:induction false} InstallPrefixOk(g: Geo, d: Disk, lh: seq<nat>, v: Disk, k: nat)
    requires Promises(g, d, lh, v) && k <= |lh|
    ensures Promises(g, Install(g, d, lh, k), lh, v)
    ensures Install(g, d, lh, k)[g.start] == d[g.start]
  {
    hide InstallOne, Header, Distinct;
    if k > 0 {
      InstallPrefixOk(g, d, lh, v, k - 1);
      InstallOneOk(g, Install(g, d, lh, k - 1), lh, v, k - 1);
    }
  }

  /** A recovery cut off after any number of its writes leaves a disk that promises the same. */
  lemma RecoverPrefixOk(g: Geo, d: Disk, v: Disk, k: nat)
    requires DiskOk(g, d, v)
    ensures DiskOk(g, RecoverPrefix(g, d, k), v)
  {
    var lh := Header(d[g.start]);
    if k <= |lh| {
      InstallPrefixOk(g, d, lh, v, k);
    } else {
      RecoverGives(g, d, v);
      RecoverGives(g, Recover(g, d), v);
      RecoverOfClean(g, Recover(g, d));
    }
  }

  /** With an empty header, recovery only writes the count 0 again. */
  lemma RecoverOfClean(g: Geo, d: Disk)
    requires HeaderOk(g, d) && Header(d[g.start]) == []
    ensures SameHome(g, Recover(g, d), d)
    ensures forall b :: 0 <= b < |d| && b != g.start ==> Recover(g, d)[b] == d[b]
  {
  }

  /** Outside the home blocks a recovery changes the header's count and nothing else. */
  lemma RecoverLogArea(g: Geo, d: Disk, k: nat, b: nat)
    requires HeaderOk(g, d)
    requires b < g.nblocks && !g.Home(b)
    ensures Recover(g, d)[b] == if b == g.start then SetWord(d[b], 0, 0) else d[b]
    ensures RecoverPrefix(g, d, k)[b]
         == if b == g.start && k > |Header(d[b])| then SetWord(d[b], 0, 0) else d[b]
  {
    var lh := Header(d[g.start]);
    assert b !in lh;
    InstallAt(g, d, lh, |lh|, b);
    InstallAt(g, d, lh, |lh|, g.start);
    if k <= |lh| {
      InstallAt(g, d, lh, k, b);
    }
  }

  lemma ResumeRecovery(g: Geo, d: Disk, k: nat)
    requires HeaderOk(g, d)
    ensures HeaderOk(g, RecoverPrefix(g, d, k))
    ensures Recover(g, RecoverPrefix(g, d, k)) == Recover(g, d)
  {
    var v, d1 := Recover(g, d), RecoverPrefix(g, d, k);
    RecoverGives(g, d, v);
    RecoverPrefixOk(g, d, v, k);
    RecoverGives(g, d1, v);
    forall b | 0 <= b < g.nblocks
      ensures Recover(g, d1)[b] == v[b]
    {
      if !g.Home(b) {
        RecoverLogArea(g, d, k, b);
        RecoverLogArea(g, d1, 0, b);
        ClearTwice(d[b]);
      }
    }
  }

  lemma ClearTwice(b: Block)
    ensures SetWord(SetWord(b, 0, 0), 0, 0) == SetWord(b, 0, 0)
  {
  }

  /** The disk after a history of crashed recoveries, the i-th cut off after crashes[i] writes. */
  ghost function AfterCrashes(g: Geo, d: Disk, crashes: seq<nat>): (r: Disk)
    requires HeaderOk(g, d)
    ensures HeaderOk(g, r)
  {
    if crashes == [] then d else
      var k := |crashes| - 1;
      var before := AfterCrashes(g, d, crashes[..k]);
      ResumeRecovery(g, before, crashes[k]);
      RecoverPrefix(g, before, crashes[k])
  }

  /** Recovery is idempotent: however many recoveries crash, each at any of its writes,
      the next complete one leaves the very disk a single uninterrupted one leaves. */
  lemma {:induction false} RecoveryIdempotent(g: Geo, d: Disk, crashes: seq<nat>)
    requires HeaderOk(g, d)
    ensures Recover(g, AfterCrashes(g, d, crashes)) == Recover(g, d)
  {
    if crashes != [] {
      var k := |crashes| - 1;
      RecoveryIdempotent(g, d, crashes[..k]);
      ResumeRecovery(g, AfterCrashes(g, d, crashes[..k]), crashes[k]);
    }
  }
}

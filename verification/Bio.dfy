/** bio.c, over the disk of memide.c: a fixed set of buffers on a doubly linked ring, most
    recently released first. */
module Bio {
  import opened Blocks
  import opened Options

  // ---------- the ring

  /** The node at place i on the way round from the head: the head, the listed buffers, the head. */
  function At(head: nat, ring: seq<nat>, i: nat): nat
    requires i <= |ring| + 1
  {
    if i == 0 || i == |ring| + 1 then head else ring[i - 1]
  }

  ghost predicate Linked(head: nat, prev: seq<nat>, next: seq<nat>, ring: seq<nat>) {
    && |prev| == |next| == head + 1
    && (forall i: nat :: i < |ring| ==> ring[i] < head)
    && (forall i: nat, j: nat :: i < j < |ring| ==> ring[i] != ring[j])
    && (forall i: nat :: i <= |ring| ==> LinkAt(head, prev, next, ring, i))
  }

  ghost predicate LinkAt(head: nat, prev: seq<nat>, next: seq<nat>, ring: seq<nat>, i: nat)
    requires i <= |ring|
  {
    var a, b := At(head, ring, i), At(head, ring, i + 1);
    a < |next| && b < |prev| && next[a] == b && prev[b] == a
  }

  /** No node but the head is passed twice, and the head only at the start and the end. */
  lemma AtDiffer(head: nat, ring: seq<nat>, i: nat, k: nat)
    requires i <= |ring| && k <= |ring| && forall j: nat :: j < |ring| ==> ring[j] < head
    requires forall i: nat, j: nat :: i < j < |ring| ==> ring[i] != ring[j]
    ensures i != k ==> At(head, ring, i) != At(head, ring, k)
    ensures i + 1 != k + 2 && k + 2 <= |ring| + 1 ==> At(head, ring, i + 1) != At(head, ring, k + 2)
  {
  }

  function Without(ring: seq<nat>, k: nat): seq<nat>
    requires k < |ring|
  {
    ring[..k] + ring[k + 1..]
  }

  /** Two assignments, to the neighbours of ring[k], take it out. */
  lemma Unlink(head: nat, prev: seq<nat>, next: seq<nat>, ring: seq<nat>, k: nat)
    requires Linked(head, prev, next, ring) && k < |ring|
    ensures var b := ring[k];
            && b < head && |prev| == |next| == head + 1 && next[b] < |prev| && prev[b] < |next|
            && Linked(head, prev[next[b] := prev[b]], next[prev[b] := next[b]], Without(ring, k))
            && b !in Without(ring, k)
  {
    var b, rest := ring[k], Without(ring, k);
    assert LinkAt(head, prev, next, ring, k) && LinkAt(head, prev, next, ring, k + 1);
    var prev', next' := prev[next[b] := prev[b]], next[prev[b] := next[b]];
    forall i: nat | i <= |rest|
      ensures LinkAt(head, prev', next', rest, i)
    {
      var j := if i <= k then i else i + 1;
      assert LinkAt(head, prev, next, ring, j);
      assert At(head, rest, i) == At(head, ring, j);
      assert At(head, rest, i + 1) == if i == k then At(head, ring, k + 2) else At(head, ring, j + 1);
      AtDiffer(head, ring, j, k);
    }
  }

  /** Four assignments put b between the head and what was first. */
  lemma PushFront(head: nat, prev: seq<nat>, next: seq<nat>, ring: seq<nat>, b: nat)
    requires Linked(head, prev, next, ring) && b < head && b !in ring
    ensures next[head] < |prev|
    ensures Linked(head, prev[b := head][next[head] := b], next[b := next[head]][head := b], [b] + ring)
  {
    assert LinkAt(head, prev, next, ring, 0);
    var ring', prev', next' := [b] + ring, prev[b := head][next[head] := b], next[b := next[head]][head := b];
    forall i: nat | i <= |ring'|
      ensures LinkAt(head, prev', next', ring', i)
    {
      if i > 0 {
        assert LinkAt(head, prev, next, ring, i - 1);
      }
    }
  }

  /** Every buffer is on the ring. */
  ghost predicate All(head: nat, ring: seq<nat>) {
    forall b: nat :: b < head ==> b in ring
  }

  lemma AllMoved(head: nat, ring: seq<nat>, k: nat)
    requires All(head, ring) && k < |ring|
    ensures All(head, [ring[k]] + Without(ring, k))
  {
    forall b: nat | b < head
      ensures b in [ring[k]] + Without(ring, k)
    {
      assert b in ring;
      var i: nat :| i < |ring| && ring[i] == b;
      if i < k {
        assert Without(ring, k)[i] == b;
      } else if i > k {
        assert Without(ring, k)[i - 1] == b;
      }
    }
  }

  /** A buffer released later stands nearer to the head. */
  ghost predicate Recent(ring: seq<nat>, when: seq<int>, clock: int) {
    && (forall i: nat :: i < |ring| ==> ring[i] < |when| && when[ring[i]] < clock)
    && (forall i: nat, j: nat :: i < j < |ring| ==> when[ring[j]] < when[ring[i]])
  }

  lemma RecentMoved(ring: seq<nat>, when: seq<int>, clock: int, k: nat)
    requires Recent(ring, when, clock) && k < |ring| && forall i: nat, j: nat :: i < j < |ring| ==> ring[i] != ring[j]
    ensures ring[k] < |when| && Recent([ring[k]] + Without(ring, k), when[ring[k] := clock], clock + 1)
  {
  }

  // ---------- buffers

  datatype Buf = Buf(dev: nat, blockno: nat, refcnt: nat, valid: bool, dirty: bool, data: Block) {
    predicate Match(d: nat, b: nat) {
      dev == d && blockno == b
    }

    /** May be given another block. */
    predicate Idle() {
      refcnt == 0 && !dirty
    }
  }

  /** At most one buffer for a block of a nonzero device. */
  ghost predicate Unique(buf: seq<Buf>) {
    forall i: nat, j: nat :: i < j < |buf| && buf[i].dev != 0 ==> !buf[j].Match(buf[i].dev, buf[i].blockno)
  }

  /** References are the holder of the lock, those who wait for it, and those who have released it
      and are about to drop their reference. */
  ghost predicate Counted(buf: seq<Buf>, holder: seq<nat>, waiting: seq<nat>, leaving: seq<nat>) {
    |buf| == |holder| == |waiting| == |leaving|
    && forall b: nat :: b < |buf| ==> buf[b].refcnt == waiting[b] + leaving[b] + if holder[b] != 0 then 1 else 0
  }

  /** A valid buffer is of a disk block; unlocked and clean, it agrees with the disk. */
  ghost predicate Agrees(buf: seq<Buf>, holder: seq<nat>, disk: seq<Block>) {
    |buf| == |holder| && forall b: nat :: b < |buf| ==> BufAgrees(buf[b], holder[b], disk)
  }

  ghost predicate BufAgrees(f: Buf, holder: nat, disk: seq<Block>) {
    && (f.valid ==> f.dev == 1 && f.blockno < |disk|)
    && (f.valid && !f.dirty && holder == 0 ==> f.data == disk[f.blockno])
  }

  /** A clean buffer of a block other than x, or locked, does not mind what becomes of x on disk. */
  lemma AgreesWrite(buf: seq<Buf>, holder: seq<nat>, disk: seq<Block>, b: nat, f: Buf)
    requires Agrees(buf, holder, disk) && Unique(buf) && b < |buf| && holder[b] != 0
    requires buf[b].dev == 1 && buf[b].blockno < |disk|
    requires f.dev == buf[b].dev && f.blockno == buf[b].blockno
    ensures Agrees(buf[b := f], holder, disk[buf[b].blockno := f.data]) && Unique(buf[b := f])
  {
    var x := buf[b].blockno;
    forall c: nat | c < |buf|
      ensures BufAgrees(buf[b := f][c], holder[c], disk[x := f.data])
    {
      assert BufAgrees(buf[c], holder[c], disk);
    }
  }

  class Bcache {
    /** NBUF; also the index of the list head. */
    const n: nat
    var buf: seq<Buf>
    var prev: seq<nat>
    var next: seq<nat>
    /** The pid that has locked each buffer, 0 if none. */
    var holder: seq<nat>
    var disk: seq<Block>
    ghost var waiting: seq<nat>
    ghost var leaving: seq<nat>
    ghost var ring: seq<nat>
    /** When each buffer was last released by all, or put on the list. */
    ghost var when: seq<int>
    ghost var clock: int

    ghost predicate Valid()
      reads this
    {
      && |buf| == n && |when| == n && Linked(n, prev, next, ring) && All(n, ring) && Recent(ring, when, clock)
      && Unique(buf) && Counted(buf, holder, waiting, leaving) && Agrees(buf, holder, disk)
    }

    /** binit. */
    constructor (n: nat, disk: seq<Block>)
      ensures Valid() && this.n == n && this.disk == disk && holder == seq(n, _ => 0)
      ensures forall b: nat :: b < n ==> buf[b].Idle() && !buf[b].valid && buf[b].dev == 0
    {
      hide Linked, Unique, Counted, Agrees, All, Recent, Descending;
      this.n, this.disk := n, disk;
      buf := seq(n, _ => Buf(0, 0, 0, false, false, ZeroBlock()));
      holder, waiting, leaving := seq(n, _ => 0), seq(n, _ => 0), seq(n, _ => 0);
      prev, next := seq(n + 1, _ => n), seq(n + 1, _ => n);
      ring, when, clock := [], seq(n, i => i), n;
      new;
      EmptyRing(n, prev, next);
      FreshBuffers(n, buf, holder, disk);
      ghost var buf0, when0 := buf, when;
      DescendingHas(0);
      var b := 0;
      while b < n
        invariant b <= n && Linked(n, prev, next, ring) && ring == Descending(b)
        invariant buf == buf0 && when == when0 && clock == n && this.disk == disk
        invariant holder == waiting == leaving == seq(n, _ => 0)
      {
        DescendingHas(b);
        DescendingHas(b + 1);
        PutFirst(b);
        b := b + 1;
      }
      DescendingRecent(n, when);
    }

    /** b, which is off the list, to its head. */
    method PutFirst(b: nat)
      requires Linked(n, prev, next, ring) && b < n && b !in ring
      modifies this`prev, this`next, this`ring
      ensures Linked(n, prev, next, ring) && ring == [b] + old(ring)
    {
      PushFront(n, prev, next, ring, b);
      next := next[b := next[n]];
      prev := prev[b := n];
      prev := prev[next[n] := b];
      next := next[n := b];
      ring := [b] + ring;
    }

    /** bget, up to the release of bcache.lock: the buffer of a block, with one more reference; if
        there is none, of the idle buffers the one least recently released; None is the panic. */
    method Bget(dev: nat, blockno: nat) returns (r: Option<nat>)
      requires Valid()
      modifies this`buf, this`waiting
      ensures Valid()
      ensures r.None? ==> buf == old(buf) && waiting == old(waiting)
      ensures r.None? <==> forall b: nat :: b < n ==> !old(buf)[b].Match(dev, blockno) && !old(buf)[b].Idle()
      ensures r.Some? ==> r.value < n && waiting == old(waiting)[r.value := old(waiting)[r.value] + 1]
      ensures r.Some? ==> var f := old(buf)[r.value];
                          if f.Match(dev, blockno) then buf == old(buf)[r.value := f.(refcnt := f.refcnt + 1)]
                          else
                            && buf == old(buf)[r.value := Buf(dev, blockno, 1, false, false, f.data)] && f.Idle()
                            && (forall b: nat :: b < n ==> !old(buf)[b].Match(dev, blockno))
                            && (forall b: nat :: b < n && old(buf)[b].Idle() ==> when[r.value] <= when[b])
    {
      hide Linked, LinkAt, All, Recent, Unique, Counted, Agrees, BufAgrees;
      var b := FindCached(dev, blockno);
      if b != n {
        Referenced(buf, holder, waiting, leaving, disk, b);
        buf := buf[b := buf[b].(refcnt := buf[b].refcnt + 1)];
        waiting := waiting[b := waiting[b] + 1];
        return Some(b);
      }
      b := FindIdle();
      if b != n {
        Recycled(buf, holder, waiting, leaving, disk, b, dev, blockno);
        buf := buf[b := Buf(dev, blockno, 1, false, false, buf[b].data)];
        waiting := waiting[b := waiting[b] + 1];
        return Some(b);
      }
      return None;
    }

    /** The first loop of bget; n, the head, if the block is not cached. */
    method FindCached(dev: nat, blockno: nat) returns (b: nat)
      requires Valid()
      ensures b <= n && (b < n ==> buf[b].Match(dev, blockno))
      ensures b == n ==> forall c: nat :: c < n ==> !buf[c].Match(dev, blockno)
    {
      hide Linked, LinkAt, All, Recent, Unique, Counted, Agrees, BufAgrees;
      ghost var i: nat := 0;
      FirstNode(n, prev, next, ring);
      b := next[n];
      while b != n
        invariant i <= |ring| && b == At(n, ring, i + 1) && b <= n < |next| && n < |prev|
        invariant forall j: nat :: j < i ==> ring[j] < |buf| && !buf[ring[j]].Match(dev, blockno)
        decreases |ring| - i
      {
        NextNode(n, prev, next, ring, i);
        if buf[b].dev == dev && buf[b].blockno == blockno {
          return;
        }
        b := next[b];
        i := i + 1;
      }
      NoneMatches(n, prev, next, ring, buf, dev, blockno, i);
    }

    /** The second loop of bget, from the least recently released; n if no buffer is idle. */
    method FindIdle() returns (b: nat)
      requires Valid()
      ensures b <= n && (b == n ==> forall c: nat :: c < n ==> !buf[c].Idle())
      ensures b < n ==> buf[b].Idle() && forall c: nat :: c < n && buf[c].Idle() ==> when[b] <= when[c]
    {
      hide Linked, LinkAt, All, Recent, Unique, Counted, Agrees, BufAgrees;
      ghost var i: nat := |ring|;
      LastNode(n, prev, next, ring);
      b := prev[n];
      while b != n
        invariant i <= |ring| && b == At(n, ring, i) && b <= n < |prev|
        invariant forall j: nat :: i <= j < |ring| ==> ring[j] < |buf| && !buf[ring[j]].Idle()
        decreases i
      {
        PrevNode(n, prev, next, ring, i);
        if buf[b].refcnt == 0 && !buf[b].dirty {
          LeastRecent(n, ring, when, clock, buf, i - 1);
          return;
        }
        b := prev[b];
        i := i - 1;
      }
      NoneIdle(n, prev, next, ring, buf, i);
    }

    /** acquiresleep, when it gets the lock. */
    method Lock(b: nat, pid: nat)
      requires Valid() && b < n && waiting[b] > 0 && holder[b] == 0 && pid != 0
      modifies this`holder, this`waiting
      ensures Valid() && holder == old(holder)[b := pid] && waiting == old(waiting)[b := old(waiting)[b] - 1]
    {
      hide Linked, All, Recent, Unique;
      holder, waiting := holder[b := pid], waiting[b := waiting[b] - 1];
      forall c: nat | c < n
        ensures BufAgrees(buf[c], holder[c], disk)
      {
        assert old(BufAgrees(buf[c], holder[c], disk));
      }
    }

    /** iderw of memide.c. */
    method Iderw(b: nat, pid: nat) returns (panic: bool)
      requires Valid() && b < n && pid != 0
      modifies this`buf, this`disk
      ensures Valid()
      ensures var f := old(buf)[b];
              && (panic <==> holder[b] != pid || (f.valid && !f.dirty) || f.dev != 1 || f.blockno >= |old(disk)|)
              && (panic ==> buf == old(buf) && disk == old(disk))
              && (!panic && f.dirty ==> disk == old(disk)[f.blockno := f.data])
              && (!panic && f.dirty ==> buf == old(buf)[b := f.(valid := true, dirty := false)])
              && (!panic && !f.dirty ==> disk == old(disk))
              && (!panic && !f.dirty ==> buf == old(buf)[b := f.(valid := true, data := disk[f.blockno])])
    {
      hide Linked, All, Recent;
      if holder[b] != pid {
        return true;
      }
      if buf[b].valid && !buf[b].dirty {
        return true;
      }
      if buf[b].dev != 1 || buf[b].blockno >= |disk| {
        return true;
      }
      var f := buf[b];
      if f.dirty {
        AgreesWrite(buf, holder, disk, b, f.(valid := true, dirty := false));
        disk := disk[f.blockno := f.data];
        buf := buf[b := f.(valid := true, dirty := false)];
      } else {
        AgreesWrite(buf, holder, disk, b, f.(valid := true, data := disk[f.blockno]));
        assert disk[f.blockno := disk[f.blockno]] == disk;
        buf := buf[b := f.(valid := true, data := disk[f.blockno])];
      }
      panic := false;
    }

    /** bread, from where its bget gets the lock: the buffer comes back valid, and if it is clean with
        what is on disk. */
    method Bread(b: nat, pid: nat) returns (panic: bool)
      requires Valid() && b < n && waiting[b] > 0 && holder[b] == 0 && pid != 0
      modifies this`buf, this`disk, this`holder, this`waiting
      ensures Valid() && holder == old(holder)[b := pid] && waiting == old(waiting)[b := old(waiting)[b] - 1]
      ensures panic <==> !old(buf)[b].valid && (old(buf)[b].dev != 1 || old(buf)[b].blockno >= |disk|)
      ensures !panic ==> buf[b].valid && buf[b].dev == 1 && buf[b].blockno == old(buf)[b].blockno < |disk|
      ensures !panic && !buf[b].dirty ==> buf[b].data == disk[buf[b].blockno]
      ensures old(buf)[b].valid || !old(buf)[b].dirty ==> disk == old(disk) && buf[b].dirty == old(buf)[b].dirty
      ensures old(buf)[b].valid ==> buf == old(buf)
      ensures forall c: nat :: c < n && c != b ==> buf[c] == old(buf)[c]
    {
      hide Linked, All, Recent, Unique, Counted;
      assert BufAgrees(buf[b], holder[b], disk);
      Lock(b, pid);
      panic := Fill(b, pid);
    }

    /** The test of bread. */
    method Fill(b: nat, pid: nat) returns (panic: bool)
      requires Valid() && b < n && pid != 0 && holder[b] == pid
      modifies this`buf, this`disk
      ensures Valid()
      ensures var f := old(buf)[b];
              && (f.valid ==> !panic && buf == old(buf) && disk == old(disk))
              && (!f.valid ==> |disk| == |old(disk)| && (panic <==> f.dev != 1 || f.blockno >= |disk|))
              && (panic ==> buf == old(buf) && disk == old(disk))
              && (!f.valid && f.dirty && !panic ==> disk == old(disk)[f.blockno := f.data])
              && (!f.valid && f.dirty && !panic ==> buf == old(buf)[b := f.(valid := true, dirty := false)])
              && (!f.valid && !f.dirty ==> disk == old(disk))
              && (!f.valid && !f.dirty && !panic ==> buf == old(buf)[b := f.(valid := true, data := disk[f.blockno])])
    {
      panic := false;
      if !buf[b].valid {
        panic := Iderw(b, pid);
      }
    }

    /** The holder of the lock writes b->data. */
    method Modify(b: nat, pid: nat, data: Block)
      requires Valid() && b < n && pid != 0 && holder[b] == pid
      modifies this`buf
      ensures Valid() && buf == old(buf)[b := old(buf)[b].(data := data)]
    {
      hide Linked, All, Recent;
      LockedChange(buf, holder, waiting, leaving, disk, b, buf[b].(data := data));
      buf := buf[b := buf[b].(data := data)];
    }

    /** `b->flags |= B_DIRTY` of log_write: b stays in the cache until it is written. */
    method Pin(b: nat, pid: nat)
      requires Valid() && b < n && pid != 0 && holder[b] == pid
      modifies this`buf
      ensures Valid() && buf == old(buf)[b := old(buf)[b].(dirty := true)]
    {
      hide Linked, All, Recent;
      LockedChange(buf, holder, waiting, leaving, disk, b, buf[b].(dirty := true));
      buf := buf[b := buf[b].(dirty := true)];
    }

    /** bwrite. */
    method Bwrite(b: nat, pid: nat) returns (panic: bool)
      requires Valid() && b < n && pid != 0
      modifies this`buf, this`disk
      ensures Valid()
      ensures var f := old(buf)[b];
              && (panic <==> holder[b] != pid || f.dev != 1 || f.blockno >= |old(disk)|)
              && (panic ==> disk == old(disk))
              && (!panic ==> disk == old(disk)[f.blockno := f.data]
                             && buf == old(buf)[b := f.(valid := true, dirty := false)])
    {
      if holder[b] != pid {
        return true;
      }
      ghost var f := buf[b];
      Pin(b, pid);
      panic := Iderw(b, pid);
      ghost var written := f.(valid := true, dirty := false);
      assert old(buf)[b := f.(dirty := true)][b := written] == old(buf)[b := written];
    }

    /** brelse up to releasesleep. A holder that changed the data must have logged or written it. */
    method BrelseUnlock(b: nat, pid: nat) returns (panic: bool)
      requires Valid() && b < n && pid != 0
      requires holder[b] == pid && buf[b].valid && !buf[b].dirty ==> buf[b].data == disk[buf[b].blockno]
      modifies this`holder, this`leaving
      ensures Valid() && (panic <==> old(holder)[b] != pid)
      ensures panic ==> holder == old(holder) && leaving == old(leaving)
      ensures !panic ==> holder == old(holder)[b := 0] && leaving == old(leaving)[b := old(leaving)[b] + 1]
    {
      if holder[b] != pid {
        return true;
      }
      Unlocked(buf, holder, waiting, leaving, disk, b);
      holder, leaving := holder[b := 0], leaving[b := leaving[b] + 1];
      panic := false;
    }

    /** The rest of brelse, under bcache.lock; others may have locked b since. */
    method BrelseDrop(b: nat)
      requires Valid() && b < n && leaving[b] > 0
      modifies this`buf, this`leaving, this`prev, this`next, this`ring, this`when, this`clock
      ensures Valid() && leaving == old(leaving)[b := old(leaving)[b] - 1]
      ensures old(buf)[b].refcnt > 0 && buf == old(buf)[b := old(buf)[b].(refcnt := old(buf)[b].refcnt - 1)]
      ensures buf[b].refcnt > 0 ==> ring == old(ring) && when == old(when)
      ensures buf[b].refcnt == 0 ==> |ring| > 0 && ring[0] == b && when == old(when)[b := old(clock)]
                                     && clock > old(clock)
    {
      hide Linked, All, Recent, Unique, Counted, Agrees;
      Dropped(buf, holder, waiting, leaving, disk, b);
      buf := buf[b := buf[b].(refcnt := buf[b].refcnt - 1)];
      leaving := leaving[b := leaving[b] - 1];
      if buf[b].refcnt == 0 {
        ToFront(b);
      }
    }

    /** The end of brelse: b to the head of the list. */
    method ToFront(b: nat)
      requires |when| == n && Linked(n, prev, next, ring) && All(n, ring) && Recent(ring, when, clock) && b < n
      modifies this`prev, this`next, this`ring, this`when, this`clock
      ensures Linked(n, prev, next, ring) && All(n, ring) && Recent(ring, when, clock)
      ensures |ring| > 0 && ring[0] == b && when == old(when)[b := old(clock)] && clock == old(clock) + 1
    {
      hide LinkAt, All, Recent, Linked;
      ghost var k := PlaceOf(n, prev, next, ring, b);
      AllMoved(n, ring, k);
      RecentMoved(ring, when, clock, k);
      Unlink(n, prev, next, ring, k);
      prev := prev[next[b] := prev[b]];
      next := next[prev[b] := next[b]];
      ring := Without(ring, k);
      PutFirst(b);
      when, clock := when[b := clock], clock + 1;
    }
  }

  // ---------- facts for the methods

  lemma FirstNode(head: nat, prev: seq<nat>, next: seq<nat>, ring: seq<nat>)
    requires Linked(head, prev, next, ring)
    ensures |prev| == |next| == head + 1 && next[head] == At(head, ring, 1) && next[head] <= head
  {
    assert LinkAt(head, prev, next, ring, 0);
  }

  lemma LastNode(head: nat, prev: seq<nat>, next: seq<nat>, ring: seq<nat>)
    requires Linked(head, prev, next, ring)
    ensures |prev| == |next| == head + 1 && prev[head] == At(head, ring, |ring|) && prev[head] <= head
  {
    assert LinkAt(head, prev, next, ring, |ring|);
  }

  lemma NextNode(head: nat, prev: seq<nat>, next: seq<nat>, ring: seq<nat>, i: nat)
    requires Linked(head, prev, next, ring) && i <= |ring| && At(head, ring, i + 1) != head
    ensures i < |ring| && ring[i] < head && |next| == head + 1
    ensures next[ring[i]] == At(head, ring, i + 2) && next[ring[i]] <= head
  {
    assert LinkAt(head, prev, next, ring, i + 1);
  }

  lemma PrevNode(head: nat, prev: seq<nat>, next: seq<nat>, ring: seq<nat>, i: nat)
    requires Linked(head, prev, next, ring) && i <= |ring| && At(head, ring, i) != head
    ensures 0 < i && ring[i - 1] < head && |prev| == head + 1
    ensures prev[ring[i - 1]] == At(head, ring, i - 1) && prev[ring[i - 1]] <= head
  {
    assert LinkAt(head, prev, next, ring, i - 1);
  }

  lemma NoneMatches(head: nat, prev: seq<nat>, next: seq<nat>, ring: seq<nat>, buf: seq<Buf>, dev: nat, blockno: nat,
                    i: nat)
    requires Linked(head, prev, next, ring) && All(head, ring) && |buf| == head && i <= |ring|
        && At(head, ring, i + 1) == head
    requires forall j: nat :: j < i ==> ring[j] < |buf| && !buf[ring[j]].Match(dev, blockno)
    ensures forall b: nat :: b < head ==> !buf[b].Match(dev, blockno)
  {
    assert i == |ring|;
    forall b: nat | b < head
      ensures !buf[b].Match(dev, blockno)
    {
      assert b in ring;
    }
  }

  lemma NoneIdle(head: nat, prev: seq<nat>, next: seq<nat>, ring: seq<nat>, buf: seq<Buf>, i: nat)
    requires Linked(head, prev, next, ring) && All(head, ring) && |buf| == head && i <= |ring|
        && At(head, ring, i) == head
    requires forall j: nat :: i <= j < |ring| ==> ring[j] < |buf| && !buf[ring[j]].Idle()
    ensures forall b: nat :: b < head ==> !buf[b].Idle()
  {
    assert i == 0;
    forall b: nat | b < head
      ensures !buf[b].Idle()
    {
      assert b in ring;
    }
  }

  lemma LeastRecent(head: nat, ring: seq<nat>, when: seq<int>, clock: int, buf: seq<Buf>, i: nat)
    requires All(head, ring) && Recent(ring, when, clock) && |buf| == |when| == head && i < |ring|
    requires forall j: nat :: i < j < |ring| ==> ring[j] < |buf| && !buf[ring[j]].Idle()
    ensures ring[i] < |when| && forall b: nat :: b < head && buf[b].Idle() ==> when[ring[i]] <= when[b]
  {
    forall b: nat | b < head && buf[b].Idle()
      ensures when[ring[i]] <= when[b]
    {
      assert b in ring;
      var j: nat :| j < |ring| && ring[j] == b;
    }
  }

  lemma Referenced(buf: seq<Buf>, holder: seq<nat>, waiting: seq<nat>, leaving: seq<nat>, disk: seq<Block>, b: nat)
    requires Unique(buf) && Counted(buf, holder, waiting, leaving) && Agrees(buf, holder, disk) && b < |buf|
    ensures |waiting| == |buf|
    ensures var buf' := buf[b := buf[b].(refcnt := buf[b].refcnt + 1)];
            Unique(buf') && Counted(buf', holder, waiting[b := waiting[b] + 1], leaving) && Agrees(buf', holder, disk)
  {
    var buf' := buf[b := buf[b].(refcnt := buf[b].refcnt + 1)];
    forall c: nat | c < |buf|
      ensures BufAgrees(buf'[c], holder[c], disk)
    {
      assert BufAgrees(buf[c], holder[c], disk);
    }
  }

  lemma Recycled(buf: seq<Buf>, holder: seq<nat>, waiting: seq<nat>, leaving: seq<nat>, disk: seq<Block>, b: nat,
                 dev: nat, blockno: nat)
    requires Unique(buf) && Counted(buf, holder, waiting, leaving) && Agrees(buf, holder, disk) && b < |buf|
                 && buf[b].Idle()
    requires forall c: nat :: c < |buf| ==> !buf[c].Match(dev, blockno)
    ensures |waiting| == |buf|
    ensures var buf' := buf[b := Buf(dev, blockno, 1, false, false, buf[b].data)];
            Unique(buf') && Counted(buf', holder, waiting[b := waiting[b] + 1], leaving) && Agrees(buf', holder, disk)
  {
    var buf' := buf[b := Buf(dev, blockno, 1, false, false, buf[b].data)];
    forall c: nat | c < |buf|
      ensures BufAgrees(buf'[c], holder[c], disk)
    {
      assert BufAgrees(buf[c], holder[c], disk);
    }
  }

  lemma LockedChange(buf: seq<Buf>, holder: seq<nat>, waiting: seq<nat>, leaving: seq<nat>, disk: seq<Block>, b: nat,
                     f: Buf)
    requires Unique(buf) && Counted(buf, holder, waiting, leaving) && Agrees(buf, holder, disk) && b < |buf|
                 && holder[b] != 0
    requires f == buf[b].(data := f.data, dirty := f.dirty)
    ensures Unique(buf[b := f]) && Counted(buf[b := f], holder, waiting, leaving) && Agrees(buf[b := f], holder, disk)
  {
    forall c: nat | c < |buf|
      ensures BufAgrees(buf[b := f][c], holder[c], disk)
    {
      assert BufAgrees(buf[c], holder[c], disk);
    }
  }

  lemma Unlocked(buf: seq<Buf>, holder: seq<nat>, waiting: seq<nat>, leaving: seq<nat>, disk: seq<Block>, b: nat)
    requires Unique(buf) && Counted(buf, holder, waiting, leaving) && Agrees(buf, holder, disk) && b < |buf|
                 && holder[b] != 0
    requires buf[b].valid && !buf[b].dirty ==> buf[b].blockno < |disk| && buf[b].data == disk[buf[b].blockno]
    ensures Counted(buf, holder[b := 0], waiting, leaving[b := leaving[b] + 1]) && Agrees(buf, holder[b := 0], disk)
  {
    forall c: nat | c < |buf|
      ensures BufAgrees(buf[c], holder[b := 0][c], disk)
    {
      assert BufAgrees(buf[c], holder[c], disk);
    }
  }

  lemma Dropped(buf: seq<Buf>, holder: seq<nat>, waiting: seq<nat>, leaving: seq<nat>, disk: seq<Block>, b: nat)
    requires Unique(buf) && Counted(buf, holder, waiting, leaving) && Agrees(buf, holder, disk) && b < |buf|
                 && leaving[b] > 0
    ensures buf[b].refcnt > 0 && |leaving| == |buf|
    ensures var buf' := buf[b := buf[b].(refcnt := buf[b].refcnt - 1)];
            Unique(buf') && Counted(buf', holder, waiting, leaving[b := leaving[b] - 1]) && Agrees(buf', holder, disk)
  {
    var buf' := buf[b := buf[b].(refcnt := buf[b].refcnt - 1)];
    forall c: nat | c < |buf|
      ensures BufAgrees(buf'[c], holder[c], disk)
    {
      assert BufAgrees(buf[c], holder[c], disk);
    }
  }

  /** The list that binit leaves after b turns. */
  function Descending(b: nat): (r: seq<nat>)
    ensures |r| == b && forall i: nat :: i < b ==> r[i] == b - 1 - i
  {
    if b == 0 then [] else [b - 1] + Descending(b - 1)
  }

  lemma EmptyRing(head: nat, prev: seq<nat>, next: seq<nat>)
    requires |prev| == |next| == head + 1 && next[head] == prev[head] == head
    ensures Linked(head, prev, next, [])
  {
  }

  lemma DescendingHas(b: nat)
    ensures b !in Descending(b) && Descending(b) == if b == 0 then [] else [b - 1] + Descending(b - 1)
  {
  }

  lemma FreshBuffers(n: nat, buf: seq<Buf>, holder: seq<nat>, disk: seq<Block>)
    requires buf == seq(n, _ => Buf(0, 0, 0, false, false, ZeroBlock())) && holder == seq(n, _ => 0)
    ensures Unique(buf) && Counted(buf, holder, holder, holder) && Agrees(buf, holder, disk)
    ensures forall b: nat :: b < n ==> buf[b].Idle() && !buf[b].valid && buf[b].dev == 0
  {
  }

  lemma DescendingRecent(n: nat, when: seq<int>)
    requires |when| == n && forall i: nat :: i < n ==> when[i] == i
    ensures All(n, Descending(n)) && Recent(Descending(n), when, n)
  {
    forall c: nat | c < n
      ensures c in Descending(n)
    {
      assert Descending(n)[n - 1 - c] == c;
    }
  }

  lemma PlaceOf(head: nat, prev: seq<nat>, next: seq<nat>, ring: seq<nat>, b: nat) returns (k: nat)
    requires All(head, ring) && Linked(head, prev, next, ring) && b < head
    ensures k < |ring| && ring[k] == b && forall i: nat, j: nat :: i < j < |ring| ==> ring[i] != ring[j]
  {
    assert b in ring;
    k :| k < |ring| && ring[k] == b;
  }
}

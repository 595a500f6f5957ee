/** The process table of proc.c. Each method is one stretch under ptable.lock (or, for the end of a
    fork that fails, one unlocked write), so the invariant holds whenever the lock is free, whatever
    the order in which processes call them. */
module Proc {
  import opened Options

  datatype PState = UNUSED | EMBRYO | SLEEPING | RUNNABLE | RUNNING | ZOMBIE

  /** What a process sleeps on: the address of a table entry, or of anything else. */
  datatype Chan = Nothing | Entry(p: nat) | Other(a: nat)

  datatype Proc = Proc(state: PState, pid: nat, parent: Option<nat>, killed: bool, chan: Chan) {
    predicate Live() {
      state == SLEEPING || state == RUNNABLE || state == RUNNING
    }

    predicate Sleeps(c: Chan) {
      state == SLEEPING && chan == c
    }
  }

  // ---------- invariant

  /** Everyone but init, alive or a zombie, has a living parent; entries not yet or no more in use have none. */
  ghost predicate ParentOk(t: seq<Proc>, init: nat, i: nat)
    requires i < |t|
  {
    if i == init || t[i].state == UNUSED || t[i].state == EMBRYO then t[i].parent == None
    else t[i].parent.Some? && t[i].parent.value < |t| && t[i].parent.value != i && t[t[i].parent.value].Live()
  }

  /** Nobody sleeps in wait while a child of his is a zombie. */
  ghost predicate WaitOk(t: seq<Proc>, i: nat)
    requires i < |t|
  {
    t[i].state == ZOMBIE && t[i].parent.Some? && t[i].parent.value < |t| ==>
      !t[t[i].parent.value].Sleeps(Entry(t[i].parent.value))
  }

  /** Pids are given out once. */
  ghost predicate Pids(t: seq<Proc>, nextpid: nat) {
    && 0 < nextpid
    && (forall i: nat :: i < |t| ==> t[i].pid < nextpid && (t[i].state != UNUSED ==> 0 < t[i].pid))
    && (forall i: nat, j: nat :: i < j < |t| && t[i].state != UNUSED && t[j].state != UNUSED ==> t[i].pid != t[j].pid)
  }

  /** The pids that exited are those reaped, each once, and those of the zombies. */
  ghost predicate Reaping(t: seq<Proc>, nextpid: nat, exited: set<nat>, reaped: seq<nat>) {
    && (forall i: nat, j: nat :: i < j < |reaped| ==> reaped[i] != reaped[j])
    && (forall pid :: pid in reaped ==> pid in exited && pid < nextpid)
    && (forall i: nat :: i < |t| && t[i].state != UNUSED ==> t[i].pid !in reaped)
    && (forall i: nat :: i < |t| && t[i].state != UNUSED ==> (t[i].pid in exited <==> t[i].state == ZOMBIE))
    && (forall pid :: pid in exited ==> pid in reaped || HasZombie(t, pid))
  }

  ghost predicate HasZombie(t: seq<Proc>, pid: nat) {
    exists i: nat :: i < |t| && t[i].state == ZOMBIE && t[i].pid == pid
  }

  ghost predicate Family(t: seq<Proc>, init: nat) {
    && init < |t| && t[init].Live()
    && (forall i: nat :: i < |t| ==> ParentOk(t, init, i))
    && (forall i: nat :: i < |t| ==> WaitOk(t, i))
  }

  // ---------- marks of kill

  /** What has happened to `killed`: kill(pid) found entry i in some state, or wait gave i back. */
  datatype Mark = Struck(i: nat, pid: nat, state: PState) | Cleared(i: nat)

  /** Mark k is a kill that hit entry i, which has not been given back since. */
  ghost predicate StruckAt(marks: seq<Mark>, i: nat, k: nat) {
    && k < |marks| && marks[k].Struck? && marks[k].i == i
    && forall j: nat :: k < j < |marks| ==> marks[j] != Cleared(i)
  }

  ghost predicate Marked(marks: seq<Mark>, i: nat) {
    exists k: nat :: StruckAt(marks, i, k)
  }

  predicate NotYet(s: PState) {
    s == UNUSED || s == EMBRYO
  }

  /** ... and i was no process when the kill hit it. */
  ghost predicate Stray(marks: seq<Mark>, i: nat) {
    exists k: nat :: StruckAt(marks, i, k) && NotYet(marks[k].state)
  }

  /** `killed` is the mark of a kill; an entry that is no process has it from a kill that hit no
      process. Such a kill named pid 0, or the pid of a fork that failed or was under way. */
  ghost predicate Marks(t: seq<Proc>, marks: seq<Mark>, failed: set<nat>) {
    && (forall i: nat :: i < |t| ==> MarkOk(t[i], marks, failed, i))
    && (forall k: nat :: k < |marks| && marks[k].Struck? && marks[k].state == UNUSED ==>
          marks[k].pid == 0 || marks[k].pid in failed)
  }

  ghost predicate MarkOk(q: Proc, marks: seq<Mark>, failed: set<nat>, i: nat) {
    && (q.killed <==> Marked(marks, i)) && (NotYet(q.state) && Marked(marks, i) ==> Stray(marks, i))
    && (q.state == UNUSED ==> q.pid == 0 || q.pid in failed)
  }

  lemma MarkNext(marks: seq<Mark>, x: Mark, i: nat)
    ensures Marked(marks + [x], i) <==> if x.i == i then x.Struck? else Marked(marks, i)
    ensures x.i != i ==> (Stray(marks + [x], i) <==> Stray(marks, i))
    ensures x.i == i && x.Struck? && NotYet(x.state) ==> Stray(marks + [x], i)
  {
    var marks' := marks + [x];
    forall k: nat | k < |marks|
      ensures StruckAt(marks', i, k) <==> StruckAt(marks, i, k) && x != Cleared(i)
    {
      assert marks'[|marks|] == x;
      if StruckAt(marks', i, k) {
        forall j: nat | k < j < |marks|
          ensures marks[j] != Cleared(i)
        {
          assert marks'[j] == marks[j];
        }
      }
    }
    if x.i == i && x.Struck? {
      assert StruckAt(marks', i, |marks|);
    }
    if k: nat :| StruckAt(marks', i, k) && k < |marks| && NotYet(marks'[k].state) {
      assert StruckAt(marks, i, k) && NotYet(marks[k].state);
    }
    if k: nat :| StruckAt(marks, i, k) && x != Cleared(i) && NotYet(marks[k].state) {
      assert StruckAt(marks', i, k) && NotYet(marks'[k].state);
    }
  }

  /** A change of the table that no kill and no wait makes. */
  ghost predicate SameMarks(t: seq<Proc>, t': seq<Proc>) {
    |t'| == |t| && forall i: nat :: i < |t| ==>
      && t'[i].killed == t[i].killed && (NotYet(t'[i].state) ==> NotYet(t[i].state))
      && (t'[i].state == UNUSED ==> t[i].state == UNUSED && t'[i].pid == t[i].pid)
  }

  lemma SameMarksKeep(t: seq<Proc>, t': seq<Proc>, marks: seq<Mark>, failed: set<nat>)
    requires Marks(t, marks, failed) && SameMarks(t, t')
    ensures Marks(t', marks, failed)
  {
    hide Marked, Stray;
    forall i: nat | i < |t|
      ensures MarkOk(t'[i], marks, failed, i)
    {
      assert MarkOk(t[i], marks, failed, i);
    }
  }

  /** A fork fails: its pid joins those left behind. */
  lemma AbandonMarks(t: seq<Proc>, marks: seq<Mark>, failed: set<nat>, i: nat)
    requires Marks(t, marks, failed) && i < |t| && t[i].state == EMBRYO
    ensures Marks(t[i := t[i].(state := UNUSED)], marks, failed + {t[i].pid})
  {
    hide Marked, Stray;
    var t', failed' := t[i := t[i].(state := UNUSED)], failed + {t[i].pid};
    forall j: nat | j < |t|
      ensures MarkOk(t'[j], marks, failed', j)
    {
      assert MarkOk(t[j], marks, failed, j);
    }
  }

  lemma KillMarks(t: seq<Proc>, marks: seq<Mark>, failed: set<nat>, i: nat)
    requires Marks(t, marks, failed) && i < |t|
    ensures Marks(t[i := t[i].(killed := true, state := if t[i].state == SLEEPING then RUNNABLE else t[i].state)],
                  marks + [Struck(i, t[i].pid, t[i].state)], failed)
  {
    hide Marked, Stray;
    var t' := t[i := t[i].(killed := true, state := if t[i].state == SLEEPING then RUNNABLE else t[i].state)];
    var marks' := marks + [Struck(i, t[i].pid, t[i].state)];
    assert MarkOk(t[i], marks, failed, i);
    forall j: nat | j < |t|
      ensures MarkOk(t'[j], marks', failed, j)
    {
      assert MarkOk(t[j], marks, failed, j);
      MarkNext(marks, Struck(i, t[i].pid, t[i].state), j);
    }
  }

  lemma ReapMarks(t: seq<Proc>, marks: seq<Mark>, failed: set<nat>, z: nat)
    requires Marks(t, marks, failed) && z < |t|
    ensures Marks(t[z := Proc(UNUSED, 0, None, false, t[z].chan)], marks + [Cleared(z)], failed)
  {
    hide Marked, Stray;
    var t', marks' := t[z := Proc(UNUSED, 0, None, false, t[z].chan)], marks + [Cleared(z)];
    forall j: nat | j < |t|
      ensures MarkOk(t'[j], marks', failed, j)
    {
      assert MarkOk(t[j], marks, failed, j);
      MarkNext(marks, Cleared(z), j);
    }
  }

  lemma UnusedPids(t: seq<Proc>, marks: seq<Mark>, failed: set<nat>, i: nat)
    requires Marks(t, marks, failed)
    ensures forall k: nat :: StruckAt(marks, i, k) && marks[k].state == UNUSED ==>
              marks[k].pid == 0 || marks[k].pid in failed
  {
  }

  lemma StrayIsMarked(t: seq<Proc>, marks: seq<Mark>, failed: set<nat>, i: nat)
    requires Marks(t, marks, failed) && i < |t| && NotYet(t[i].state)
    ensures t[i].killed <==> Stray(marks, i)
  {
    assert MarkOk(t[i], marks, failed, i);
  }

  // ---------- specifications

  /** wakeup1. */
  function Woken(t: seq<Proc>, c: Chan): (r: seq<Proc>)
    ensures |r| == |t|
    ensures forall i: nat :: i < |t| ==> r[i] == if t[i].Sleeps(c) then t[i].(state := RUNNABLE) else t[i]
  {
    seq(|t|, i requires 0 <= i < |t| => if t[i].Sleeps(c) then t[i].(state := RUNNABLE) else t[i])
  }

  /** Entry q after exit's loop: a child of cur goes to init, and init, if it slept, may be awake. */
  function Adopted(q: Proc, cur: nat, init: nat, passed: bool, woke: bool): Proc {
    var q1 := if passed && q.parent == Some(cur) then q.(parent := Some(init)) else q;
    if woke && q1.Sleeps(Entry(init)) then q1.(state := RUNNABLE) else q1
  }

  /** A zombie that cur leaves behind among the first k entries. */
  ghost predicate Orphan(t: seq<Proc>, cur: nat, k: nat) {
    exists i: nat :: i < k && i < |t| && t[i].state == ZOMBIE && t[i].parent == Some(cur)
  }

  predicate ZombieChild(q: Proc, cur: nat) {
    q.parent == Some(cur) && q.state == ZOMBIE
  }

  /** How wait ends, or that it goes to sleep. */
  datatype WaitEnd = Reaped(pid: nat) | Failed | Asleep

  // ---------- steps over values

  /** Pids and who is a zombie are all that the account of reaping sees. */
  lemma SameZombies(t: seq<Proc>, t': seq<Proc>, nextpid: nat, exited: set<nat>, reaped: seq<nat>)
    requires Pids(t, nextpid) && Reaping(t, nextpid, exited, reaped) && |t'| == |t|
    requires forall i: nat :: i < |t| ==>
               t'[i].pid == t[i].pid && (t'[i].state == UNUSED <==> t[i].state == UNUSED)
               && (t'[i].state == ZOMBIE <==> t[i].state == ZOMBIE)
    ensures Pids(t', nextpid) && Reaping(t', nextpid, exited, reaped)
  {
    forall pid | pid in exited
      ensures pid in reaped || HasZombie(t', pid)
    {
      if pid !in reaped {
        assert HasZombie(t, pid);
        var i: nat :| i < |t| && t[i].state == ZOMBIE && t[i].pid == pid;
        assert t'[i].state == ZOMBIE;
      }
    }
  }

  /** Any change that wakes sleepers and marks processes killed, and nothing else. */
  lemma WakingKeeps(t: seq<Proc>, t': seq<Proc>, init: nat, nextpid: nat, exited: set<nat>, reaped: seq<nat>)
    requires Family(t, init) && Pids(t, nextpid) && Reaping(t, nextpid, exited, reaped) && |t'| == |t|
    requires forall i: nat :: i < |t| ==>
               t'[i].pid == t[i].pid && t'[i].parent == t[i].parent
               && ((t'[i].state == t[i].state && t'[i].chan == t[i].chan)
                   || (t[i].Live() && (t'[i].state == RUNNABLE || t'[i].state == RUNNING)))
    ensures Family(t', init) && Pids(t', nextpid) && Reaping(t', nextpid, exited, reaped)
  {
    hide Pids, Reaping;
    forall i: nat | i < |t|
      ensures ParentOk(t', init, i) && WaitOk(t', i)
    {
      assert ParentOk(t, init, i) && WaitOk(t, i);
    }
    SameZombies(t, t', nextpid, exited, reaped);
  }

  /** A live process goes to sleep; not on its own entry if a child of it is a zombie. */
  lemma SleepKeeps(t: seq<Proc>, init: nat, nextpid: nat, exited: set<nat>, reaped: seq<nat>, cur: nat, c: Chan)
    requires Family(t, init) && Pids(t, nextpid) && Reaping(t, nextpid, exited, reaped) && cur < |t| && t[cur].Live()
    requires c == Entry(cur) ==> forall i: nat :: i < |t| ==> !ZombieChild(t[i], cur)
    ensures var t' := t[cur := t[cur].(state := SLEEPING, chan := c)];
            Family(t', init) && Pids(t', nextpid) && Reaping(t', nextpid, exited, reaped)
  {
    hide Pids, Reaping;
    var t' := t[cur := t[cur].(state := SLEEPING, chan := c)];
    forall i: nat | i < |t|
      ensures ParentOk(t', init, i) && WaitOk(t', i)
    {
      assert ParentOk(t, init, i) && WaitOk(t, i);
    }
    SameZombies(t, t', nextpid, exited, reaped);
  }

  /** An entry that no one knows of yet, or no longer: UNUSED, EMBRYO, or a new child. */
  lemma EntryKeeps(t: seq<Proc>, init: nat, nextpid: nat, exited: set<nat>, reaped: seq<nat>, i: nat, q: Proc,
                   nextpid': nat)
    requires Family(t, init) && Pids(t, nextpid) && Reaping(t, nextpid, exited, reaped) && i < |t| && i != init
    requires t[i].state == UNUSED || t[i].state == EMBRYO
    requires q.state == UNUSED || q.state == EMBRYO || q.state == RUNNABLE
    requires q.state != RUNNABLE ==> q.parent == None
    requires q.state == RUNNABLE ==> q.parent.Some? && q.parent.value < |t| && q.parent.value != i
                                     && t[q.parent.value].Live()
    requires if t[i].state == UNUSED then q.pid == nextpid && nextpid' == nextpid + 1
             else q.pid == t[i].pid && nextpid' == nextpid
    requires q.pid == nextpid ==> nextpid !in exited && nextpid !in reaped
    ensures Family(t[i := q], init) && Pids(t[i := q], nextpid') && Reaping(t[i := q], nextpid', exited, reaped)
  {
    hide Family, Pids, Reaping;
    EntryFamily(t, init, i, q);
    EntryReaping(t, nextpid, exited, reaped, i, q, nextpid');
  }

  lemma EntryFamily(t: seq<Proc>, init: nat, i: nat, q: Proc)
    requires Family(t, init) && i < |t| && i != init && (t[i].state == UNUSED || t[i].state == EMBRYO)
    requires q.state == UNUSED || q.state == EMBRYO || q.state == RUNNABLE
    requires q.state != RUNNABLE ==> q.parent == None
    requires q.state == RUNNABLE ==> q.parent.Some? && q.parent.value < |t| && q.parent.value != i
                                     && t[q.parent.value].Live()
    ensures Family(t[i := q], init)
  {
    var t' := t[i := q];
    forall j: nat | j < |t|
      ensures ParentOk(t', init, j) && WaitOk(t', j)
    {
      assert ParentOk(t, init, j) && WaitOk(t, j);
    }
  }

  lemma EntryReaping(t: seq<Proc>, nextpid: nat, exited: set<nat>, reaped: seq<nat>, i: nat, q: Proc, nextpid': nat)
    requires Pids(t, nextpid) && Reaping(t, nextpid, exited, reaped) && i < |t|
    requires t[i].state == UNUSED || t[i].state == EMBRYO
    requires q.state == UNUSED || q.state == EMBRYO || q.state == RUNNABLE
    requires if t[i].state == UNUSED then q.pid == nextpid && nextpid' == nextpid + 1
             else q.pid == t[i].pid && nextpid' == nextpid
    requires q.pid == nextpid ==> nextpid !in exited && nextpid !in reaped
    ensures Pids(t[i := q], nextpid') && Reaping(t[i := q], nextpid', exited, reaped)
  {
    var t' := t[i := q];
    forall pid | pid in exited
      ensures pid in reaped || HasZombie(t', pid)
    {
      if pid !in reaped {
        assert HasZombie(t, pid);
        var j: nat :| j < |t| && t[j].state == ZOMBIE && t[j].pid == pid;
        assert t'[j].state == ZOMBIE;
      }
    }
  }

  lemma EntryFacts(t: seq<Proc>, init: nat, i: nat)
    requires Family(t, init) && i < |t|
    ensures t[i].state == UNUSED || t[i].state == EMBRYO ==> i != init && t[i].parent == None
    ensures t[i].Live() && i != init ==> t[i].parent.Some? && t[i].parent.value < |t|
  {
    assert ParentOk(t, init, i);
  }

  lemma FreshPid(t: seq<Proc>, nextpid: nat, exited: set<nat>, reaped: seq<nat>)
    requires Pids(t, nextpid) && Reaping(t, nextpid, exited, reaped)
    ensures nextpid !in exited && nextpid !in reaped
  {
    assert nextpid in exited ==> nextpid in reaped || HasZombie(t, nextpid);
  }

  /** The tables that exit goes through: t, t1 after wakeup1 of the parent, t2 after the loop. */
  ghost predicate Exits(t: seq<Proc>, t1: seq<Proc>, t2: seq<Proc>, init: nat, cur: nat) {
    && cur < |t| && cur != init && t[cur].state == RUNNING && |t1| == |t2| == |t|
    && t[cur].parent.Some? && t1 == Woken(t, Entry(t[cur].parent.value))
    && forall i: nat :: i < |t| ==> t2[i] == Adopted(t1[i], cur, init, true, Orphan(t1, cur, |t|))
  }

  /** What exit makes of an entry other than cur: its parent, and at most a wakeup. */
  lemma ExitEntry(t: seq<Proc>, t1: seq<Proc>, t2: seq<Proc>, init: nat, cur: nat, i: nat)
    requires Exits(t, t1, t2, init, cur) && i < |t|
    ensures t2[i].parent == if t[i].parent == Some(cur) then Some(init) else t[i].parent
    ensures t2[i].state == t[i].state || (t[i].state == SLEEPING && t2[i].state == RUNNABLE)
  {
    hide Orphan;
  }

  lemma ExitParent(t: seq<Proc>, t1: seq<Proc>, t2: seq<Proc>, init: nat, cur: nat, i: nat)
    requires Family(t, init) && Exits(t, t1, t2, init, cur) && i < |t|
    ensures t2[cur].state == RUNNING && ParentOk(t2[cur := t2[cur].(state := ZOMBIE)], init, i)
  {
    hide WaitOk, Orphan, Woken, Adopted;
    assert ParentOk(t, init, i) && ParentOk(t, init, init) && ParentOk(t, init, cur);
    ExitEntry(t, t1, t2, init, cur, i);
    ExitEntry(t, t1, t2, init, cur, cur);
    ExitEntry(t, t1, t2, init, cur, init);
    if t[i].parent.Some? && t[i].parent.value < |t| {
      ExitEntry(t, t1, t2, init, cur, t[i].parent.value);
    }
  }

  lemma ExitWait(t: seq<Proc>, t1: seq<Proc>, t2: seq<Proc>, init: nat, cur: nat, i: nat)
    requires Family(t, init) && Exits(t, t1, t2, init, cur) && i < |t|
    ensures WaitOk(t2[cur := t2[cur].(state := ZOMBIE)], i)
  {
    assert ParentOk(t, init, cur) && ParentOk(t, init, i) && WaitOk(t, i);
    assert t1[i].state == ZOMBIE && t1[i].parent == Some(cur) ==> Orphan(t1, cur, |t|);
  }

  /** exit, once the loop is through: cur becomes a zombie. */
  lemma ExitKeeps(t: seq<Proc>, t1: seq<Proc>, t2: seq<Proc>, init: nat, nextpid: nat, exited: set<nat>,
                  reaped: seq<nat>, cur: nat)
    requires Family(t, init) && Pids(t, nextpid) && Reaping(t, nextpid, exited, reaped) && Exits(t, t1, t2, init, cur)
    ensures t2[cur].state == RUNNING
    ensures var t' := t2[cur := t2[cur].(state := ZOMBIE)];
            Family(t', init) && Pids(t', nextpid) && Reaping(t', nextpid, exited + {t[cur].pid}, reaped)
  {
    hide ParentOk, WaitOk, Orphan, Pids, Reaping;
    var t' := t2[cur := t2[cur].(state := ZOMBIE)];
    forall i: nat | i < |t|
      ensures ParentOk(t', init, i) && WaitOk(t', i)
    {
      ExitParent(t, t1, t2, init, cur, i);
      ExitWait(t, t1, t2, init, cur, i);
    }
    ExitReaping(t, t', nextpid, exited, reaped, cur);
  }

  lemma ExitReaping(t: seq<Proc>, t': seq<Proc>, nextpid: nat, exited: set<nat>, reaped: seq<nat>, cur: nat)
    requires Pids(t, nextpid) && Reaping(t, nextpid, exited, reaped) && cur < |t| == |t'| && t[cur].state == RUNNING
    requires t'[cur].state == ZOMBIE && forall i: nat :: i < |t| ==> t'[i].pid == t[i].pid
    requires forall i: nat :: i < |t| && i != cur ==>
               (t'[i].state == UNUSED <==> t[i].state == UNUSED) && (t'[i].state == ZOMBIE <==> t[i].state == ZOMBIE)
    ensures Pids(t', nextpid) && Reaping(t', nextpid, exited + {t[cur].pid}, reaped)
  {
    forall pid | pid in exited + {t[cur].pid}
      ensures pid in reaped || HasZombie(t', pid)
    {
      if pid == t[cur].pid {
        assert t'[cur].pid == pid;
      } else if pid !in reaped {
        assert HasZombie(t, pid);
        var i: nat :| i < |t| && t[i].state == ZOMBIE && t[i].pid == pid;
        assert t'[i].state == ZOMBIE;
      }
    }
  }

  /** wait that has found the zombie child z. */
  lemma ReapKeeps(t: seq<Proc>, init: nat, nextpid: nat, exited: set<nat>, reaped: seq<nat>, z: nat)
    requires Family(t, init) && Pids(t, nextpid) && Reaping(t, nextpid, exited, reaped) && z < |t|
        && t[z].state == ZOMBIE
    ensures z != init && t[z].pid in exited && t[z].pid !in reaped
    ensures var t' := t[z := Proc(UNUSED, 0, None, false, t[z].chan)];
            Family(t', init) && Pids(t', nextpid) && Reaping(t', nextpid, exited, reaped + [t[z].pid])
  {
    var t', reaped' := t[z := Proc(UNUSED, 0, None, false, t[z].chan)], reaped + [t[z].pid];
    forall i: nat | i < |t|
      ensures ParentOk(t', init, i) && WaitOk(t', i)
    {
      assert ParentOk(t, init, i) && WaitOk(t, i);
    }
    forall pid | pid in exited
      ensures pid in reaped' || HasZombie(t', pid)
    {
      if pid !in reaped' {
        assert HasZombie(t, pid);
        var i: nat :| i < |t| && t[i].state == ZOMBIE && t[i].pid == pid;
        assert t'[i].state == ZOMBIE;
      }
    }
  }

  class Ptable {
    var proc: seq<Proc>
    var nextpid: nat
    const initproc: nat
    /** Pids that exited, and those that wait returned, in order. */
    ghost var exited: set<nat>
    ghost var reaped: seq<nat>
    /** What kill and wait did to `killed`, in order, and the pids of forks that failed. */
    ghost var marks: seq<Mark>
    ghost var failed: set<nat>

    ghost predicate Valid()
      reads this
    {
      && Family(proc, initproc) && Pids(proc, nextpid) && Reaping(proc, nextpid, exited, reaped)
      && Marks(proc, marks, failed)
    }

    /** userinit, in a table of n entries. */
    constructor (n: nat)
      requires 0 < n
      ensures Valid() && |proc| == n && exited == {} && reaped == [] && marks == [] && failed == {}
    {
      initproc := 0;
      proc := seq(n, i => if i == 0 then Proc(RUNNABLE, 1, None, false, Nothing)
                          else Proc(UNUSED, 0, None, false, Nothing));
      nextpid, exited, reaped, marks, failed := 2, {}, [], [], {};
    }

    /** wakeup1. */
    method Wakeup1(chan: Chan)
      modifies this`proc
      ensures proc == Woken(old(proc), chan)
    {
      var p := 0;
      while p < |proc|
        invariant p <= |proc| == |old(proc)|
        invariant forall i: nat :: i < |proc| ==> proc[i] == if i < p then Woken(old(proc), chan)[i] else old(proc)[i]
      {
        if proc[p].state == SLEEPING && proc[p].chan == chan {
          proc := proc[p := proc[p].(state := RUNNABLE)];
        }
        p := p + 1;
      }
    }

    /** wakeup. */
    method Wakeup(chan: Chan)
      requires Valid()
      modifies this`proc
      ensures Valid() && proc == Woken(old(proc), chan)
    {
      hide Family, ParentOk, WaitOk, Pids, Reaping, HasZombie, Marks;
      Wakeup1(chan);
      WakingKeeps(old(proc), proc, initproc, nextpid, exited, reaped);
      SameMarksKeep(old(proc), proc, marks, failed);
    }

    /** sleep, up to the switch to the scheduler; only wait sleeps on a table entry. */
    method Sleep(cur: nat, chan: Chan)
      requires Valid() && cur < |proc| && proc[cur].state == RUNNING && !chan.Entry?
      modifies this`proc
      ensures Valid() && proc == old(proc)[cur := old(proc)[cur].(state := SLEEPING, chan := chan)]
    {
      hide Family, ParentOk, WaitOk, Pids, Reaping, HasZombie, Marks;
      SleepKeeps(proc, initproc, nextpid, exited, reaped, cur, chan);
      proc := proc[cur := proc[cur].(chan := chan, state := SLEEPING)];
      SameMarksKeep(old(proc), proc, marks, failed);
    }

    /** The scheduler runs p; if p comes out of sleep it clears its chan before it gives up the lock. */
    method Dispatch(p: nat)
      requires Valid() && p < |proc| && proc[p].state == RUNNABLE
      modifies this`proc
      ensures Valid() && proc == old(proc)[p := old(proc)[p].(state := RUNNING, chan := Nothing)]
    {
      hide Family, ParentOk, WaitOk, Pids, Reaping, HasZombie, Marks;
      proc := proc[p := proc[p].(state := RUNNING, chan := Nothing)];
      WakingKeeps(old(proc), proc, initproc, nextpid, exited, reaped);
      SameMarksKeep(old(proc), proc, marks, failed);
    }

    /** yield, up to the switch to the scheduler. */
    method Yield(cur: nat)
      requires Valid() && cur < |proc| && proc[cur].state == RUNNING
      modifies this`proc
      ensures Valid() && proc == old(proc)[cur := old(proc)[cur].(state := RUNNABLE)]
    {
      hide Family, ParentOk, WaitOk, Pids, Reaping, HasZombie, Marks;
      proc := proc[cur := proc[cur].(state := RUNNABLE)];
      WakingKeeps(old(proc), proc, initproc, nextpid, exited, reaped);
      SameMarksKeep(old(proc), proc, marks, failed);
    }

    /** kill: marks the first entry with the pid, whatever its state, and ends its sleep. */
    method Kill(pid: nat) returns (r: int)
      requires Valid()
      modifies this`proc, this`marks
      ensures Valid() && (r == 0 || r == -1)
      ensures r == -1 ==> proc == old(proc) && marks == old(marks)
      ensures r == -1 ==> forall i: nat :: i < |proc| ==> proc[i].pid != pid
      ensures r == 0 ==> exists i: nat :: i < |old(proc)| && KilledAt(old(proc), proc, pid, i)
                                          && marks == old(marks) + [Struck(i, pid, old(proc)[i].state)]
    {
      hide Family, ParentOk, WaitOk, Pids, Reaping, HasZombie, Marks;
      var p := 0;
      while p < |proc|
        invariant p <= |proc| && proc == old(proc) && marks == old(marks)
        invariant forall i: nat :: i < p ==> proc[i].pid != pid
      {
        if proc[p].pid == pid {
          proc := proc[p := proc[p].(killed := true)];
          if proc[p].state == SLEEPING {
            proc := proc[p := proc[p].(state := RUNNABLE)];
          }
          WakingKeeps(old(proc), proc, initproc, nextpid, exited, reaped);
          KillMarks(old(proc), marks, failed, p);
          marks := marks + [Struck(p, pid, old(proc)[p].state)];
          assert KilledAt(old(proc), proc, pid, p);
          return 0;
        }
        p := p + 1;
      }
      return -1;
    }

    /** The locked part of allocproc: the first unused entry, with a new pid. */
    method Allocproc() returns (r: Option<nat>)
      requires Valid()
      modifies this`proc, this`nextpid
      ensures Valid()
      ensures r.None? ==> proc == old(proc) && nextpid == old(nextpid)
                          && forall i: nat :: i < |proc| ==> proc[i].state != UNUSED
      ensures r.Some? ==>
        && r.value < |old(proc)| && old(proc)[r.value].state == UNUSED && nextpid == old(nextpid) + 1
        && proc == old(proc)[r.value := old(proc)[r.value].(state := EMBRYO, pid := old(nextpid))]
        && forall i: nat :: i < r.value ==> old(proc)[i].state != UNUSED
    {
      hide Family, ParentOk, WaitOk, Pids, Reaping, HasZombie, Marks;
      var p := 0;
      while p < |proc|
        invariant p <= |proc| && proc == old(proc) && nextpid == old(nextpid)
        invariant forall i: nat :: i < p ==> proc[i].state != UNUSED
      {
        if proc[p].state == UNUSED {
          EntryFacts(proc, initproc, p);
          FreshPid(proc, nextpid, exited, reaped);
          EntryKeeps(proc, initproc, nextpid, exited, reaped, p, proc[p].(state := EMBRYO, pid := nextpid),
              nextpid + 1);
          proc := proc[p := proc[p].(state := EMBRYO, pid := nextpid)];
          nextpid := nextpid + 1;
          SameMarksKeep(old(proc), proc, marks, failed);
          return Some(p);
        }
        p := p + 1;
      }
      return None;
    }

    /** A fork that finds no memory gives its entry up; the pid stays behind in it. */
    method Abandon(np: nat)
      requires Valid() && np < |proc| && proc[np].state == EMBRYO
      modifies this`proc, this`failed
      ensures Valid() && proc == old(proc)[np := old(proc)[np].(state := UNUSED)]
      ensures failed == old(failed) + {old(proc)[np].pid}
    {
      hide Family, ParentOk, WaitOk, Pids, Reaping, HasZombie, Marks;
      EntryFacts(proc, initproc, np);
      FreshPid(proc, nextpid, exited, reaped);
      EntryKeeps(proc, initproc, nextpid, exited, reaped, np, proc[np].(state := UNUSED), nextpid);
      AbandonMarks(proc, marks, failed, np);
      failed := failed + {proc[np].pid};
      proc := proc[np := proc[np].(state := UNUSED)];
    }

    /** The end of a fork by cur. The child starts killed exactly if a kill has hit its entry while it
        was no process, since it was last given back: allocproc does not clear the mark. */
    method Finish(cur: nat, np: nat) returns (pid: nat)
      requires Valid() && cur < |proc| && proc[cur].state == RUNNING && np < |proc| && proc[np].state == EMBRYO
      modifies this`proc
      ensures Valid() && pid == old(proc)[np].pid
      ensures proc == old(proc)[np := old(proc)[np].(state := RUNNABLE, parent := Some(cur))]
      ensures proc[np].killed <==> Stray(marks, np)
      ensures forall k: nat :: StruckAt(marks, np, k) && marks[k].state == UNUSED ==>
                marks[k].pid == 0 || marks[k].pid in failed
    {
      hide Family, ParentOk, WaitOk, Pids, Reaping, HasZombie, Marks;
      EntryFacts(proc, initproc, np);
      FreshPid(proc, nextpid, exited, reaped);
      EntryKeeps(proc, initproc, nextpid, exited, reaped, np, proc[np].(state := RUNNABLE, parent := Some(cur)),
          nextpid);
      StrayIsMarked(proc, marks, failed, np);
      UnusedPids(proc, marks, failed, np);
      proc := proc[np := proc[np].(parent := Some(cur))];
      pid := proc[np].pid;
      proc := proc[np := proc[np].(state := RUNNABLE)];
      assert proc == old(proc)[np := old(proc)[np].(state := RUNNABLE, parent := Some(cur))];
      SameMarksKeep(old(proc), proc, marks, failed);
    }

    /** The loop of exit: children go to init, which is woken for a zombie. */
    method Adopt(cur: nat)
      requires cur < |proc|
      modifies this`proc
      ensures |proc| == |old(proc)|
      ensures forall i: nat :: i < |proc| ==>
                proc[i] == Adopted(old(proc)[i], cur, initproc, true, Orphan(old(proc), cur, |proc|))
    {
      hide Orphan;
      ghost var t1 := proc;
      OrphanNone(t1, cur);
      var p := 0;
      while p < |proc|
        invariant p <= |proc| == |t1|
        invariant forall i: nat :: i < |proc| ==> proc[i] == Adopted(t1[i], cur, initproc, i < p, Orphan(t1, cur, p))
      {
        OrphanNext(t1, cur, p);
        if proc[p].parent == Some(cur) {
          proc := proc[p := proc[p].(parent := Some(initproc))];
          if proc[p].state == ZOMBIE {
            Wakeup1(Entry(initproc));
          }
        }
        p := p + 1;
      }
    }

    /** exit, up to the switch to the scheduler; init must not exit. */
    method Exit(cur: nat) returns (panic: bool)
      requires Valid() && cur < |proc| && proc[cur].state == RUNNING
      modifies this`proc, this`exited
      ensures Valid() && |proc| == |old(proc)| && (panic <==> cur == initproc)
      ensures panic ==> proc == old(proc) && exited == old(exited)
      ensures !panic ==> exited == old(exited) + {old(proc)[cur].pid} && proc[cur].state == ZOMBIE
      ensures !panic ==> forall i: nat :: i < |proc| ==>
                proc[i].parent == if old(proc)[i].parent == Some(cur) then Some(initproc) else old(proc)[i].parent
      ensures !panic ==> forall i: nat :: i < |proc| && i != cur ==>
                proc[i].state == if WokenByExit(old(proc), cur, initproc, i) then RUNNABLE else old(proc)[i].state
      ensures !panic ==> forall i: nat :: i < |proc| ==>
                proc[i].pid == old(proc)[i].pid && proc[i].killed == old(proc)[i].killed
                    && proc[i].chan == old(proc)[i].chan
      ensures !panic ==> forall i: nat :: i < |proc| && old(proc)[cur].parent == Some(i) ==> !proc[i].Sleeps(Entry(i))
    {
      hide Family, ParentOk, WaitOk, Pids, Reaping, HasZombie, Orphan, Marks;
      if cur == initproc {
        return true;
      }
      EntryFacts(proc, initproc, cur);
      Wakeup1(Entry(proc[cur].parent.value));
      ghost var t1 := proc;
      Adopt(cur);
      ExitWakes(old(proc), t1, proc, initproc, cur);
      ExitKeeps(old(proc), t1, proc, initproc, nextpid, exited, reaped, cur);
      exited := exited + {proc[cur].pid};
      proc := proc[cur := proc[cur].(state := ZOMBIE)];
      SameMarksKeep(old(proc), proc, marks, failed);
      panic := false;
    }

    /** wait, from the lock taken to a return or to sleep. */
    method Wait(cur: nat) returns (r: WaitEnd)
      requires Valid() && cur < |proc| && proc[cur].state == RUNNING
      modifies this`proc, this`reaped, this`marks
      ensures Valid()
      ensures r.Reaped? ==> r.pid in exited && r.pid !in old(reaped) && reaped == old(reaped) + [r.pid]
      ensures r.Reaped? ==> exists z: nat :: z < |old(proc)| && ReapedAt(old(proc), proc, cur, r.pid, z)
                                                  && marks == old(marks) + [Cleared(z)]
      ensures !r.Reaped? ==> reaped == old(reaped) && marks == old(marks)
                             && forall i: nat :: i < |old(proc)| ==> !ZombieChild(old(proc)[i], cur)
      ensures r.Failed? ==> proc == old(proc)
                            && (proc[cur].killed || forall i: nat :: i < |proc| ==> proc[i].parent != Some(cur))
      ensures r.Asleep? ==> !old(proc)[cur].killed
                            && exists i: nat :: i < |old(proc)| && old(proc)[i].parent == Some(cur)
      ensures r.Asleep? ==> proc == old(proc)[cur := old(proc)[cur].(state := SLEEPING, chan := Entry(cur))]
    {
      hide Family, ParentOk, WaitOk, Pids, Reaping, HasZombie, Marks;
      var havekids, p := false, 0;
      while p < |proc|
        invariant p <= |proc| && proc == old(proc) && reaped == old(reaped) && marks == old(marks)
        invariant forall i: nat :: i < p ==> !ZombieChild(proc[i], cur)
        invariant havekids <==> exists i: nat :: i < p && proc[i].parent == Some(cur)
      {
        if proc[p].parent == Some(cur) {
          havekids := true;
          if proc[p].state == ZOMBIE {
            var pid := proc[p].pid;
            ReapKeeps(proc, initproc, nextpid, exited, reaped, p);
            proc := proc[p := Proc(UNUSED, 0, None, false, proc[p].chan)];
            reaped := reaped + [pid];
            ReapMarks(old(proc), marks, failed, p);
            marks := marks + [Cleared(p)];
            assert ReapedAt(old(proc), proc, cur, pid, p);
            return Reaped(pid);
          }
        }
        p := p + 1;
      }
      if !havekids || proc[cur].killed {
        return Failed;
      }
      SleepKeeps(proc, initproc, nextpid, exited, reaped, cur, Entry(cur));
      proc := proc[cur := proc[cur].(chan := Entry(cur), state := SLEEPING)];
      SameMarksKeep(old(proc), proc, marks, failed);
      return Asleep;
    }
  }

  /** z is the first zombie child of cur, and its entry is given back. */
  ghost predicate ReapedAt(t: seq<Proc>, t': seq<Proc>, cur: nat, pid: nat, z: nat)
    requires z < |t|
  {
    && ZombieChild(t[z], cur) && t[z].pid == pid && (forall j: nat :: j < z ==> !ZombieChild(t[j], cur))
    && t' == t[z := Proc(UNUSED, 0, None, false, t[z].chan)]
  }

  /** An exit of cur wakes whoever sleeps, in wait, as its parent; and as init, exactly if cur leaves a
      zombie behind. */
  ghost predicate WokenByExit(t: seq<Proc>, cur: nat, init: nat, i: nat)
    requires i < |t| && cur < |t|
  {
    (t[cur].parent.Some? && t[i].Sleeps(Entry(t[cur].parent.value)))
    || (t[i].Sleeps(Entry(init)) && Orphan(t, cur, |t|))
  }

  lemma ExitWakes(t: seq<Proc>, t1: seq<Proc>, t2: seq<Proc>, init: nat, cur: nat)
    requires Exits(t, t1, t2, init, cur)
    ensures forall i: nat :: i < |t| ==>
              t2[i].state == if WokenByExit(t, cur, init, i) then RUNNABLE else t[i].state
  {
    assert Orphan(t1, cur, |t|) == Orphan(t, cur, |t|) by {
      SameOrphans(t, t1, cur, |t|);
    }
    hide Orphan;
  }

  /** wakeup1 makes no zombie and no orphan. */
  lemma SameOrphans(t: seq<Proc>, t1: seq<Proc>, cur: nat, k: nat)
    requires |t1| == |t| && forall i: nat :: i < |t| ==>
               t1[i].parent == t[i].parent && (t1[i].state == ZOMBIE <==> t[i].state == ZOMBIE)
    ensures Orphan(t1, cur, k) <==> Orphan(t, cur, k)
  {
    if i: nat :| i < k && i < |t| && t[i].state == ZOMBIE && t[i].parent == Some(cur) {
      assert t1[i].state == ZOMBIE;
    }
    if i: nat :| i < k && i < |t1| && t1[i].state == ZOMBIE && t1[i].parent == Some(cur) {
      assert t[i].state == ZOMBIE;
    }
  }

  lemma OrphanNone(t: seq<Proc>, cur: nat)
    ensures !Orphan(t, cur, 0)
  {
  }

  lemma OrphanNext(t: seq<Proc>, cur: nat, k: nat)
    requires k < |t|
    ensures Orphan(t, cur, k + 1) <==> Orphan(t, cur, k) || (t[k].state == ZOMBIE && t[k].parent == Some(cur))
  {
    if Orphan(t, cur, k) {
      var i: nat :| i < k && i < |t| && t[i].state == ZOMBIE && t[i].parent == Some(cur);
      assert i < k + 1;
    }
  }

  ghost predicate KilledAt(t: seq<Proc>, t': seq<Proc>, pid: nat, i: nat)
    requires i < |t|
  {
    && t[i].pid == pid && (forall j: nat :: j < i ==> t[j].pid != pid)
    && t' == t[i := t[i].(killed := true, state := if t[i].state == SLEEPING then RUNNABLE else t[i].state)]
  }
}

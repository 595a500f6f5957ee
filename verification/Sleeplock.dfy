/** sleeplock.c over sleep and wakeup of proc.c, as a state machine over the lock operations of any
    number of processes: lk is the spin lock inside the sleep lock, pt is ptable.lock. */
module Sleeplock {
  import opened Options
  import opened Steps

  /** Where a process is.
        acquiresleep: Starting to take lk, Testing `locked`, then Took it; or, to sleep, WantPt with
        lk held, GotPt with both, Dropped lk, Asleep, Woken (runnable), Resumed with pt, Retaking lk.
        releasesleep: Releasing (taking lk), Clearing, then WantWake with lk held, Waking with both,
        Woke with lk. */
  datatype Pc =
    | Idle | Starting | Testing | Took | Holding
    | WantPt | GotPt | Dropped | Asleep | Woken | Resumed | Retaking
    | Releasing | Clearing | WantWake | Waking | Woke

  /** lk, pt: the process that holds the spin lock; owner: the pid in the sleep lock. */
  datatype State = State(lk: Option<nat>, pt: Option<nat>, locked: bool, owner: Option<nat>, pc: seq<Pc>)

  datatype Event = Go(p: nat) | Kill(p: nat)

  function Init(n: nat): State {
    State(None, None, false, None, seq(n, _ => Idle))
  }

  function At(s: State, p: nat, pc: Pc): State
    requires p < |s.pc|
  {
    s.(pc := s.pc[p := pc])
  }

  /** wakeup1: every sleeper on the lock becomes runnable. */
  function WakeAll(pc: seq<Pc>): (r: seq<Pc>)
    ensures |r| == |pc| && forall i: nat :: i < |pc| ==> r[i] == if pc[i] == Asleep then Woken else pc[i]
  {
    seq(|pc|, i requires 0 <= i < |pc| => if pc[i] == Asleep then Woken else pc[i])
  }

  /** A step can be taken unless it waits for a spin lock or sleeps. `early` is a sleep that gave up
      lk before it took pt; the sleep of proc.c is not early. */
  predicate Enabled(early: bool, s: State, e: Event) {
    match e
    case Kill(p) => p < |s.pc| && s.pt.None?
    case Go(p) =>
      p < |s.pc| &&
      match s.pc[p]
      case Starting => s.lk.None?
      case Retaking => s.lk.None?
      case Releasing => s.lk.None?
      case WantPt => s.pt.None?
      case WantWake => s.pt.None?
      case Woken => s.pt.None?
      case Asleep => false
      case _ => true
  }

  function Step(early: bool, s: State, e: Event): State
    requires Enabled(early, s, e)
  {
    match e
    // kill: with pt, a sleeper is made runnable
    case Kill(p) => if s.pc[p] == Asleep then At(s, p, Woken) else s
    case Go(p) =>
      match s.pc[p]
      case Idle => At(s, p, Starting)
      case Starting => At(s, p, Testing).(lk := Some(p))
      case Testing => if s.locked then (if early then At(s, p, WantPt).(lk := None) else At(s, p, WantPt))
                      else At(s, p, Took).(locked := true, owner := Some(p))
      case Took => At(s, p, Holding).(lk := None)
      case Holding => At(s, p, Releasing)
      // sleep(lk, &lk->lk)
      case WantPt => At(s, p, GotPt).(pt := Some(p))
      case GotPt => if early then At(s, p, Dropped) else At(s, p, Dropped).(lk := None)
      case Dropped => At(s, p, Asleep).(pt := None)
      case Asleep => s
      case Woken => At(s, p, Resumed).(pt := Some(p))
      case Resumed => At(s, p, Retaking).(pt := None)
      case Retaking => At(s, p, Testing).(lk := Some(p))
      // releasesleep
      case Releasing => At(s, p, Clearing).(lk := Some(p))
      case Clearing => At(s, p, WantWake).(locked := false, owner := None)
      case WantWake => At(s, p, Waking).(pt := Some(p))
      case Waking => At(s, p, Woke).(pc := WakeAll(s.pc)[p := Woke], pt := None)
      case Woke => At(s, p, Idle).(lk := None)
  }

  ghost predicate Next(early: bool, s: State, e: Event, s': State) {
    Enabled(early, s, e) && s' == Step(early, s, e)
  }

  /** The events es lead from s0 to s. */
  ghost predicate Goes(early: bool, s0: State, es: seq<Event>, s: State)
    decreases |es|
  {
    if es == [] then s == s0
    else exists r: State :: Goes(early, s0, Front(es), r) && Next(early, r, Last(es), s)
  }

  /** s comes about by the events es, for n processes. */
  ghost predicate Run(early: bool, n: nat, es: seq<Event>, s: State) {
    Goes(early, Init(n), es, s)
  }

  // ---------- invariant

  predicate HoldsLk(pc: Pc) {
    pc in {Testing, Took, WantPt, GotPt, Clearing, WantWake, Waking, Woke}
  }

  predicate HoldsPt(pc: Pc) {
    pc in {GotPt, Dropped, Resumed, Waking}
  }

  /** Has the sleep lock. */
  predicate Owns(pc: Pc) {
    pc in {Took, Holding, Releasing, Clearing}
  }

  /** Is going to sleep, or asleep. */
  predicate Sleepy(pc: Pc) {
    pc in {WantPt, GotPt, Dropped, Asleep}
  }

  /** A releaser has cleared the lock and is not through with wakeup. */
  ghost predicate WakeupDue(s: State) {
    s.lk.Some? && s.lk.value < |s.pc| && s.pc[s.lk.value] in {WantWake, Waking}
  }

  ghost predicate ProcOk(s: State, p: nat)
    requires p < |s.pc|
  {
    && (HoldsLk(s.pc[p]) <==> s.lk == Some(p))
    && (HoldsPt(s.pc[p]) <==> s.pt == Some(p))
    && (Owns(s.pc[p]) <==> s.owner == Some(p))
    && (Sleepy(s.pc[p]) ==> s.locked || WakeupDue(s))
  }

  ghost predicate Inv(n: nat, s: State) {
    && |s.pc| == n && (s.locked <==> s.owner.Some?) && (s.owner.Some? ==> s.owner.value < n)
    && (s.lk.Some? ==> s.lk.value < n) && (s.pt.Some? ==> s.pt.value < n)
    && forall p: nat :: p < n ==> ProcOk(s, p)
  }

  /** The process that steps. */
  lemma StepSelf(n: nat, s: State, e: Event)
    requires Inv(n, s) && Enabled(false, s, e)
    ensures e.p < n && ProcOk(Step(false, s, e), e.p)
  {
    assert ProcOk(s, e.p);
    if s.lk.Some? {
      assert ProcOk(s, s.lk.value);
    }
  }

  /** The others. */
  lemma StepOther(n: nat, s: State, e: Event, q: nat)
    requires Inv(n, s) && Enabled(false, s, e) && q < n && q != e.p
    ensures |Step(false, s, e).pc| == n && ProcOk(Step(false, s, e), q)
  {
    assert ProcOk(s, e.p) && ProcOk(s, q);
    if e.Go? {
      StepFrame(s, e.p, q);
    }
  }

  /** A step of p moves another process only from Asleep to Woken. */
  lemma StepFrame(s: State, p: nat, q: nat)
    requires Enabled(false, s, Go(p)) && q < |s.pc| && q != p
    ensures var s' := Step(false, s, Go(p));
            && |s'.pc| == |s.pc|
            && (if s.pc[p] == Waking && s.pc[q] == Asleep then s'.pc[q] == Woken else s'.pc[q] == s.pc[q])
  {
  }

  lemma StepKeeps(n: nat, s: State, e: Event)
    requires Inv(n, s) && Enabled(false, s, e)
    ensures Inv(n, Step(false, s, e))
  {
    hide ProcOk;
    StepShape(n, s, e);
    forall q: nat | q < n
      ensures ProcOk(Step(false, s, e), q)
    {
      if q == e.p {
        StepSelf(n, s, e);
      } else {
        StepOther(n, s, e, q);
      }
    }
  }

  lemma StepShape(n: nat, s: State, e: Event)
    requires Inv(n, s) && Enabled(false, s, e)
    ensures var s' := Step(false, s, e);
            && |s'.pc| == n && (s'.locked <==> s'.owner.Some?) && (s'.owner.Some? ==> s'.owner.value < n)
            && (s'.lk.Some? ==> s'.lk.value < n) && (s'.pt.Some? ==> s'.pt.value < n)
  {
  }

  lemma {:induction false} RunKeeps(n: nat, es: seq<Event>, s: State)
    requires Run(false, n, es, s)
    ensures Inv(n, s)
    decreases |es|
  {
    if es != [] {
      var r: State :| Goes(false, Init(n), Front(es), r) && Next(false, r, Last(es), s);
      RunKeeps(n, Front(es), r);
      StepKeeps(n, r, Last(es));
    }
  }

  /** holdingsleep. */
  predicate Holdingsleep(s: State, p: nat) {
    s.locked && s.owner == Some(p)
  }

  /** In every run at most one process has the lock, and holdingsleep tells it apart. */
  lemma MutualExclusion(n: nat, es: seq<Event>, s: State, p: nat, q: nat)
    requires Run(false, n, es, s) && p < n && q < n
    ensures |s.pc| == n && (Owns(s.pc[p]) <==> Holdingsleep(s, p))
    ensures Owns(s.pc[p]) && Owns(s.pc[q]) ==> p == q
  {
    RunKeeps(n, es, s);
    assert ProcOk(s, p) && ProcOk(s, q);
  }

  /** In every run whoever sleeps on the lock sleeps because it is taken, or will be woken by a
      releaser that has yet to finish its wakeup. */
  lemma NoLostWakeup(n: nat, es: seq<Event>, s: State, p: nat)
    requires Run(false, n, es, s) && p < n
    ensures |s.pc| == n && (s.pc[p] == Asleep ==> s.locked || WakeupDue(s))
  {
    RunKeeps(n, es, s);
    assert ProcOk(s, p);
  }

  // ---------- progress

  /** Nobody is stuck for good: while anyone sleeps, some process can take a step. */
  lemma SomeoneSteps(n: nat, es: seq<Event>, s: State, p: nat) returns (q: nat)
    requires Run(false, n, es, s) && p < n && |s.pc| == n && s.pc[p] == Asleep
    ensures q < n && Enabled(false, s, Go(q))
  {
    RunKeeps(n, es, s);
    assert ProcOk(s, p);
    if s.pt.Some? {
      q := s.pt.value;
      assert ProcOk(s, q);
    } else if s.lk.Some? {
      q := s.lk.value;
      assert ProcOk(s, q);
    } else {
      q := s.owner.value;
      assert ProcOk(s, q);
    }
  }

  lemma GoesOn(early: bool, s0: State, es: seq<Event>, r: State, e: Event, s: State)
    requires Goes(early, s0, es, r) && Next(early, r, e, s)
    ensures Goes(early, s0, es + [e], s)
  {
    FrontLast(es, e);
    assert Goes(early, s0, Front(es + [e]), r);
  }

  /** Some events lead from s0 to s. */
  ghost predicate Leads(s0: State, s: State) {
    exists es :: Goes(false, s0, es, s)
  }

  lemma LeadsNowhere(s: State)
    ensures Leads(s, s) && Goes(false, s, [], s)
  {
    assert Goes(false, s, [], s);
  }

  lemma LeadsOn(s0: State, r: State, e: Event, s: State)
    requires Leads(s0, r) && Next(false, r, e, s)
    ensures Leads(s0, s)
  {
    var es :| Goes(false, s0, es, r);
    GoesOn(false, s0, es, r, e, s);
  }

  /** Steps until the process gives up the spin locks that it has. */
  function Left(s: State): nat {
    LeftOf(s, s.lk) + if s.pt == s.lk then 0 else LeftOf(s, s.pt)
  }

  function LeftOf(s: State, p: Option<nat>): nat {
    if p.None? || p.value >= |s.pc| then 0
    else
      match s.pc[p.value]
      case Testing => 6
      case WantPt => 5
      case GotPt | Clearing => 4
      case Dropped | WantWake => 3
      case Waking => 2
      case Took | Woke | Resumed => 1
      case _ => 0
  }

  /** Whoever has a spin lock can go on until both are free. */
  lemma {:induction false} SpinLocksFree(n: nat, s0: State, s: State) returns (t: State)
    requires Leads(s0, s) && Inv(n, s)
    ensures Leads(s0, t) && Inv(n, t) && t.lk.None? && t.pt.None?
    decreases Left(s)
  {
    hide Leads;
    t := s;
    if s.lk.Some? || s.pt.Some? {
      var q := if s.pt.Some? then s.pt.value else s.lk.value;
      HolderSteps(n, s, q);
      LeadsOn(s0, s, Go(q), Step(false, s, Go(q)));
      StepKeeps(n, s, Go(q));
      t := SpinLocksFree(n, s0, Step(false, s, Go(q)));
    }
  }

  lemma HolderSteps(n: nat, s: State, q: nat)
    requires Inv(n, s) && (s.pt == Some(q) || (s.pt.None? && s.lk == Some(q)))
    ensures Enabled(false, s, Go(q)) && Left(Step(false, s, Go(q))) < Left(s)
  {
    assert ProcOk(s, q);
    if s.lk.Some? {
      assert ProcOk(s, s.lk.value);
    }
  }

  /** No other process has one of the three locks. */
  ghost predicate OthersFree(s: State, p: nat) {
    (s.lk.Some? ==> s.lk.value == p) && (s.pt.Some? ==> s.pt.value == p) && (s.owner.Some? ==> s.owner.value == p)
  }

  /** Steps until p is back at Idle, if nobody is in its way. */
  function ToIdle(pc: Pc): nat {
    match pc
    case Woken => 12
    case Resumed => 11
    case Starting | Retaking => 10
    case Testing => 9
    case Took => 8
    case Holding => 7
    case Releasing => 6
    case Clearing => 5
    case WantWake => 4
    case Waking => 3
    case Woke => 2
    case _ => 0
  }

  /** p takes the lock if it has not got it, releases it and is through. */
  lemma {:induction false} Finishes(n: nat, s0: State, s: State, p: nat) returns (t: State)
    requires Leads(s0, s) && Inv(n, s) && p < n && OthersFree(s, p)
    ensures Leads(s0, t) && Inv(n, t) && t.pc[p] == Idle && t.lk.None? && t.pt.None? && t.owner.None?
    ensures forall q: nat :: q < n && q != p && s.pc[q] == Idle ==> t.pc[q] == Idle
    decreases ToIdle(s.pc[p])
  {
    hide Leads;
    assert ProcOk(s, p);
    t := s;
    if s.pc[p] != Idle {
      var s1 := Step(false, s, Go(p));
      LeadsOn(s0, s, Go(p), s1);
      StepKeeps(n, s, Go(p));
      t := Finishes(n, s0, s1, p);
    }
  }

  lemma {:induction false} AllFinish(n: nat, s0: State, s: State, k: nat) returns (t: State)
    requires Leads(s0, s) && Inv(n, s) && k <= n && s.lk.None? && s.pt.None? && s.owner.None?
    ensures Leads(s0, t) && Inv(n, t) && t.lk.None? && t.pt.None? && t.owner.None?
    ensures forall p: nat :: p < k ==> t.pc[p] == Idle
  {
    hide Leads, Inv;
    t := s;
    if k > 0 {
      t := AllFinish(n, s0, s, k - 1);
      t := Finishes(n, s0, t, k - 1);
    }
  }

  /** From every state of every run all processes can be brought to an end of what they do. */
  lemma CanReturn(n: nat, es: seq<Event>, s: State)
    requires Run(false, n, es, s)
    ensures Leads(s, Init(n))
  {
    hide Goes;
    RunKeeps(n, es, s);
    LeadsNowhere(s);
    var t := SpinLocksFree(n, s, s);
    if t.owner.Some? {
      t := Finishes(n, s, t, t.owner.value);
    }
    t := AllFinish(n, s, t, n);
    assert t == Init(n);
  }

  /** p is at pc, the others are idle; or, if `held`, q has the lock. */
  function Place(n: nat, p: nat, q: nat, pc: Pc, held: bool): State
    requires p < n && q < n
  {
    var owner := if Owns(pc) then Some(p) else if held then Some(q) else None;
    State(if HoldsLk(pc) then Some(p) else None, if HoldsPt(pc) then Some(p) else None, owner.Some?, owner,
          Init(n).pc[q := if held then Holding else Idle][p := pc])
  }

  /** Places on the way to the lock when it is free, and when it is taken. */
  predicate OnTheWay(pc: Pc, held: bool) {
    pc in {Idle, Starting, Testing}
    || (if held then pc in {WantPt, GotPt, Dropped, Woken, Resumed}
        else pc in {Took, Holding, Releasing, Clearing, WantWake, Waking})
  }

  function After(pc: Pc, held: bool): Pc
    requires OnTheWay(pc, held)
  {
    match pc
    case Idle => Starting
    case Starting => Testing
    case Testing => if held then WantPt else Took
    case WantPt => GotPt
    case GotPt => Dropped
    case Dropped => Asleep
    case Woken => Resumed
    case Resumed => Retaking
    case Took => Holding
    case Holding => Releasing
    case Releasing => Clearing
    case Clearing => WantWake
    case WantWake => Waking
    case Waking => Woke
  }

  lemma On(n: nat, s0: State, p: nat, q: nat, pc: Pc, held: bool)
    requires p < n && q < n && p != q && Leads(s0, Place(n, p, q, pc, held)) && OnTheWay(pc, held)
    ensures Leads(s0, Place(n, p, q, After(pc, held), held))
  {
    hide Leads;
    LeadsOn(s0, Place(n, p, q, pc, held), Go(p), Place(n, p, q, After(pc, held), held));
  }

  /** p takes the lock, step by step. */
  lemma Takes(n: nat, s0: State, p: nat, q: nat)
    requires p < n && q < n && p != q && Leads(s0, Init(n))
    ensures forall pc :: pc in {Idle, Starting, Testing, Took, Holding} ==> Leads(s0, Place(n, p, q, pc, false))
  {
    assert Place(n, p, q, Idle, false) == Init(n);
    hide Leads, Place;
    On(n, s0, p, q, Idle, false);
    On(n, s0, p, q, Starting, false);
    On(n, s0, p, q, Testing, false);
    On(n, s0, p, q, Took, false);
  }

  /** ... and gives it back. */
  lemma GivesBack(n: nat, s0: State, p: nat, q: nat)
    requires p < n && q < n && p != q && Leads(s0, Init(n))
    ensures forall pc :: pc in {Releasing, Clearing, WantWake, Waking, Woke} ==> Leads(s0, Place(n, p, q, pc, false))
  {
    hide Leads, Place;
    Takes(n, s0, p, q);
    On(n, s0, p, q, Holding, false);
    On(n, s0, p, q, Releasing, false);
    On(n, s0, p, q, Clearing, false);
    On(n, s0, p, q, WantWake, false);
    On(n, s0, p, q, Waking, false);
  }

  /** p finds the lock taken by q and sleeps, step by step, until it is killed and tries again. */
  lemma Behind(n: nat, s0: State, p: nat, q: nat)
    requires p < n && q < n && p != q && Leads(s0, Init(n))
    ensures forall pc :: pc in {WantPt, GotPt, Dropped, Asleep} ==> Leads(s0, Place(n, p, q, pc, true))
    ensures forall pc :: pc in {Woken, Resumed, Retaking} ==> Leads(s0, Place(n, p, q, pc, true))
  {
    Takes(n, s0, q, p);
    Meet(n, p, q);
    hide Leads, Place, Step, Enabled;
    On(n, s0, p, q, Idle, true);
    On(n, s0, p, q, Starting, true);
    On(n, s0, p, q, Testing, true);
    On(n, s0, p, q, WantPt, true);
    On(n, s0, p, q, GotPt, true);
    On(n, s0, p, q, Dropped, true);
    LeadsOn(s0, Place(n, p, q, Asleep, true), Kill(p), Place(n, p, q, Woken, true));
    On(n, s0, p, q, Woken, true);
    On(n, s0, p, q, Resumed, true);
  }

  lemma Meet(n: nat, p: nat, q: nat)
    requires p < n && q < n && p != q
    ensures Place(n, p, q, Idle, true) == Place(n, q, p, Holding, false)
    ensures Next(false, Place(n, p, q, Asleep, true), Kill(p), Place(n, p, q, Woken, true))
  {
  }

  /** From every state of every run every process can come to every place in the two functions. */
  lemma CanReach(n: nat, es: seq<Event>, s: State, p: nat, pc: Pc) returns (t: State)
    requires Run(false, n, es, s) && p < n && 2 <= n
    ensures Leads(s, t) && |t.pc| == n && t.pc[p] == pc
  {
    hide Leads, Run;
    var q := if p == 0 then 1 else 0;
    CanReturn(n, es, s);
    Takes(n, s, p, q);
    GivesBack(n, s, p, q);
    Behind(n, s, p, q);
    t := Place(n, p, q, pc, pc in {WantPt, GotPt, Dropped, Asleep, Woken, Resumed, Retaking});
  }

  /** kill wakes a sleeper: it tests the lock again, though no one else has moved. */
  lemma KilledTests(n: nat, es: seq<Event>, s: State, p: nat)
    requires Run(false, n, es, s) && p < n && |s.pc| == n && s.pc[p] == Asleep && s.lk.None? && s.pt.None?
    ensures Goes(false, s, [Kill(p), Go(p), Go(p), Go(p)], At(s, p, Testing).(lk := Some(p)))
  {
    hide Goes;
    var s1 := At(s, p, Woken);
    var s2 := At(s, p, Resumed).(pt := Some(p));
    var s3 := At(s, p, Retaking);
    LeadsNowhere(s);
    assert [] + [Kill(p)] == [Kill(p)] && [Kill(p)] + [Go(p)] == [Kill(p), Go(p)];
    assert [Kill(p), Go(p)] + [Go(p)] == [Kill(p), Go(p), Go(p)];
    GoesOn(false, s, [], s, Kill(p), s1);
    GoesOn(false, s, [Kill(p)], s1, Go(p), s2);
    GoesOn(false, s, [Kill(p), Go(p)], s2, Go(p), s3);
    GoesOn(false, s, [Kill(p), Go(p), Go(p)], s3, Go(p), At(s, p, Testing).(lk := Some(p)));
    assert [Kill(p), Go(p), Go(p)] + [Go(p)] == [Kill(p), Go(p), Go(p), Go(p)];
  }

  // ---------- why sleep takes ptable.lock before it drops lk

  /** A run of two processes goes on with a step of p, to the state spelled out. */
  lemma Then(es: seq<Event>, r: State, p: nat, s: State) returns (es': seq<Event>)
    requires Run(true, 2, es, r) && Enabled(true, r, Go(p)) && Step(true, r, Go(p)) == s
    ensures Run(true, 2, es', s)
  {
    es' := es + [Go(p)];
    GoesOn(true, Init(2), es, r, Go(p), s);
  }

  function Two(lk: Option<nat>, pt: Option<nat>, owner: Option<nat>, a: Pc, b: Pc): State {
    State(lk, pt, owner.Some?, owner, [a, b])
  }

  lemma EarlyStart() returns (es: seq<Event>)
    ensures Run(true, 2, es, Two(None, None, None, Idle, Idle))
  {
    es := [];
    assert Init(2) == Two(None, None, None, Idle, Idle);
  }

  /** 0 has the lock, 1 finds it taken and drops lk. */
  lemma EarlyTests() returns (es: seq<Event>)
    ensures Run(true, 2, es, Two(None, None, Some(0), Holding, WantPt))
  {
    hide Run;
    es := EarlyStart();
    es := Then(es, Two(None, None, None, Idle, Idle), 0, Two(None, None, None, Starting, Idle));
    es := Then(es, Two(None, None, None, Starting, Idle), 0, Two(Some(0), None, None, Testing, Idle));
    es := Then(es, Two(Some(0), None, None, Testing, Idle), 0, Two(Some(0), None, Some(0), Took, Idle));
    es := Then(es, Two(Some(0), None, Some(0), Took, Idle), 0, Two(None, None, Some(0), Holding, Idle));
    es := Then(es, Two(None, None, Some(0), Holding, Idle), 1, Two(None, None, Some(0), Holding, Starting));
    es := Then(es, Two(None, None, Some(0), Holding, Starting), 1, Two(Some(1), None, Some(0), Holding, Testing));
    es := Then(es, Two(Some(1), None, Some(0), Holding, Testing), 1, Two(None, None, Some(0), Holding, WantPt));
  }

  /** 0 releases the lock, and its wakeup finds nobody asleep. */
  lemma EarlyReleases() returns (es: seq<Event>)
    ensures Run(true, 2, es, Two(None, None, None, Idle, WantPt))
  {
    hide Run;
    es := EarlyTests();
    es := Then(es, Two(None, None, Some(0), Holding, WantPt), 0, Two(None, None, Some(0), Releasing, WantPt));
    es := Then(es, Two(None, None, Some(0), Releasing, WantPt), 0, Two(Some(0), None, Some(0), Clearing, WantPt));
    es := Then(es, Two(Some(0), None, Some(0), Clearing, WantPt), 0, Two(Some(0), None, None, WantWake, WantPt));
    es := Then(es, Two(Some(0), None, None, WantWake, WantPt), 0, Two(Some(0), Some(0), None, Waking, WantPt));
    es := Then(es, Two(Some(0), Some(0), None, Waking, WantPt), 0, Two(Some(0), None, None, Woke, WantPt));
    es := Then(es, Two(Some(0), None, None, Woke, WantPt), 0, Two(None, None, None, Idle, WantPt));
  }

  /** The other way round a wakeup is lost: 0 releases the lock and wakes nobody; then 1 goes to
      sleep, on a free lock, with nobody left to wake it. */
  lemma EarlyLosesWakeup() returns (es: seq<Event>, s: State)
    ensures Run(true, 2, es, s) && |s.pc| == 2 && s.pc[1] == Asleep && !s.locked && !WakeupDue(s)
  {
    hide Run;
    es := EarlyReleases();
    es := Then(es, Two(None, None, None, Idle, WantPt), 1, Two(None, Some(1), None, Idle, GotPt));
    es := Then(es, Two(None, Some(1), None, Idle, GotPt), 1, Two(None, Some(1), None, Idle, Dropped));
    s := Two(None, None, None, Idle, Asleep);
    es := Then(es, Two(None, Some(1), None, Idle, Dropped), 1, s);
  }
}

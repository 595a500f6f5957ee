/** The dining philosophers of philo_sem4.c and philo_sem2.c, for any number n of them, as state
    machines whose steps are the semaphore operations of single threads, in any order. */
module Philo {
  import opened Steps

  function Left(i: nat): nat {
    i
  }

  function Right(n: nat, i: nat): nat
    requires i < n
  {
    if i + 1 == n then 0 else i + 1
  }

  /** The philosopher whose right chopstick is c. */
  function Prev(n: nat, c: nat): nat
    requires c < n
  {
    if c == 0 then n - 1 else c - 1
  }

  /** How many of the steps are thread i's. */
  ghost function Turns(steps: seq<nat>, i: nat): nat
    decreases |steps|
  {
    if steps == [] then 0 else Turns(Front(steps), i) + if Last(steps) == i then 1 else 0
  }

  /** Some member of a ring is in the set and its right neighbour is not, unless all or none are. */
  lemma {:induction false} Border(n: nat, s: set<nat>, a: nat, b: nat) returns (i: nat)
    requires a < n && b < n && a in s && b !in s
    ensures i < n && i in s && Right(n, i) !in s
    decreases if a <= b then b - a else n + b - a
  {
    if Right(n, a) !in s {
      i := a;
    } else {
      i := Border(n, s, Right(n, a), b);
    }
  }
}

/** philo_sem4.c: a room that at most `permits` may enter; then the left chopstick, then the right. */
module PhiloRoom {
  import opened Philo
  import opened Steps

  /** Where a philosopher is in the loop of eat_or_think. */
  datatype Pc = Outside | Entered | HasLeft | Eating | Eaten | RightDown | BothDown

  datatype State = State(waiter: nat, chop: seq<nat>, pc: seq<Pc>, ate: seq<nat>)

  ghost predicate Shape(n: nat, s: State) {
    |s.chop| == n && |s.pc| == n && |s.ate| == n
  }

  /** main, before the threads run. */
  function Init(n: nat, permits: nat): State {
    State(permits, seq(n, _ => 1), seq(n, _ => Outside), seq(n, _ => 0))
  }

  /** A thread is blocked only in sem_wait on a semaphore at 0. */
  ghost predicate Enabled(n: nat, s: State, i: nat)
    requires Shape(n, s) && i < n
  {
    match s.pc[i]
    case Outside => s.waiter > 0
    case Entered => s.chop[Left(i)] > 0
    case HasLeft => s.chop[Right(n, i)] > 0
    case _ => true
  }

  function Wait(chop: seq<nat>, c: nat): seq<nat>
    requires c < |chop| && chop[c] > 0
  {
    chop[c := chop[c] - 1]
  }

  function Post(chop: seq<nat>, c: nat): seq<nat>
    requires c < |chop|
  {
    chop[c := chop[c] + 1]
  }

  /** The next step of thread i. */
  ghost function Step(n: nat, s: State, i: nat): State
    requires Shape(n, s) && i < n && Enabled(n, s, i)
  {
    match s.pc[i]
    case Outside => State(s.waiter - 1, s.chop, s.pc[i := Entered], s.ate)
    case Entered => State(s.waiter, Wait(s.chop, Left(i)), s.pc[i := HasLeft], s.ate)
    case HasLeft => State(s.waiter, Wait(s.chop, Right(n, i)), s.pc[i := Eating], s.ate)
    case Eating => State(s.waiter, s.chop, s.pc[i := Eaten], s.ate[i := s.ate[i] + 1])
    case Eaten => State(s.waiter, Post(s.chop, Right(n, i)), s.pc[i := RightDown], s.ate)
    case RightDown => State(s.waiter, Post(s.chop, Left(i)), s.pc[i := BothDown], s.ate)
    case BothDown => State(s.waiter + 1, s.chop, s.pc[i := Outside], s.ate)
  }

  /** A run: the threads that step, in order, up to state s. */
  ghost predicate Run(n: nat, permits: nat, steps: seq<nat>, s: State)
    decreases |steps|
  {
    if steps == [] then s == Init(n, permits)
    else exists r: State :: Run(n, permits, Front(steps), r) && Next(n, r, Last(steps), s)
  }

  ghost predicate Next(n: nat, s: State, i: nat, s': State) {
    Shape(n, s) && i < n && Enabled(n, s, i) && s' == Step(n, s, i)
  }

  ghost predicate Deadlock(n: nat, s: State)
    requires Shape(n, s)
  {
    forall i: nat :: i < n ==> !Enabled(n, s, i)
  }

  // ---------- invariant

  predicate HoldsLeft(pc: Pc) {
    pc == HasLeft || pc == Eating || pc == Eaten || pc == RightDown
  }

  predicate HoldsRight(pc: Pc) {
    pc == Eating || pc == Eaten
  }

  function One(b: bool): nat {
    if b then 1 else 0
  }

  /** Each chopstick is on the table or with one neighbour. */
  ghost predicate ChopOk(n: nat, s: State, c: nat)
    requires Shape(n, s) && c < n
  {
    s.chop[c] + One(HoldsLeft(s.pc[c])) + One(HoldsRight(s.pc[Prev(n, c)])) == 1
  }

  ghost function Room(pc: seq<Pc>): set<nat> {
    set i: nat | i < |pc| && pc[i] != Outside
  }

  ghost predicate Inv(n: nat, permits: nat, s: State) {
    && Shape(n, s) && s.waiter + |Room(s.pc)| == permits
    && forall c: nat :: c < n ==> ChopOk(n, s, c)
  }

  lemma StepKeeps(n: nat, permits: nat, s: State, i: nat)
    requires 2 <= n && Inv(n, permits, s) && i < n && Enabled(n, s, i)
    ensures Inv(n, permits, Step(n, s, i))
  {
    hide ChopOk, Enabled, Step, Room;
    StepRoom(n, s, i);
    forall c: nat | c < n
      ensures ChopOk(n, Step(n, s, i), c)
    {
      StepChop(n, s, i, c);
    }
  }

  lemma StepChop(n: nat, s: State, i: nat, c: nat)
    requires 2 <= n && Shape(n, s) && i < n && c < n && ChopOk(n, s, c) && Enabled(n, s, i)
    ensures Shape(n, Step(n, s, i)) && ChopOk(n, Step(n, s, i), c)
  {
    assert Prev(n, c) == i <==> c == Right(n, i);
  }

  lemma StepRoom(n: nat, s: State, i: nat)
    requires Shape(n, s) && i < n && Enabled(n, s, i)
    ensures Shape(n, Step(n, s, i))
    ensures Step(n, s, i).waiter + |Room(Step(n, s, i).pc)| == s.waiter + |Room(s.pc)|
  {
    hide Room;
    assert Step(n, s, i).pc == s.pc[i := Step(n, s, i).pc[i]];
    RoomMoves(s.pc, i, Step(n, s, i).pc[i]);
  }

  lemma RoomIs(pc: seq<Pc>, i: nat)
    ensures i in Room(pc) <==> i < |pc| && pc[i] != Outside
  {
  }

  lemma RoomMoves(pc: seq<Pc>, i: nat, to: Pc)
    requires i < |pc|
    ensures |Room(pc[i := to])| == |Room(pc)| + One(to != Outside) - One(pc[i] != Outside)
  {
    hide Room;
    var before, after := Room(pc), Room(pc[i := to]);
    forall j: nat
      ensures j in after <==> if j == i then to != Outside else j in before
      ensures i in before <==> pc[i] != Outside
    {
      RoomIs(pc, j);
      RoomIs(pc, i);
      RoomIs(pc[i := to], j);
    }
    if (pc[i] == Outside) == (to == Outside) {
      assert after == before;
    } else if to == Outside {
      assert before == after + {i} && i !in after;
    } else {
      assert after == before + {i} && i !in before;
    }
  }

  lemma {:induction false} RunKeeps(n: nat, permits: nat, steps: seq<nat>, s: State)
    requires 2 <= n && Run(n, permits, steps, s)
    ensures Inv(n, permits, s)
    decreases |steps|
  {
    if steps == [] {
      assert Room(s.pc) == {};
    } else {
      var r: State :| Run(n, permits, Front(steps), r) && Next(n, r, Last(steps), s);
      RunKeeps(n, permits, Front(steps), r);
      StepKeeps(n, permits, r, Last(steps));
    }
  }

  /** In no run do neighbours eat at the same time. */
  lemma NeighboursApart(n: nat, permits: nat, steps: seq<nat>, s: State, i: nat)
    requires 2 <= n && Run(n, permits, steps, s) && i < n
    ensures Shape(n, s) && !(HoldsRight(s.pc[i]) && HoldsRight(s.pc[Right(n, i)]))
  {
    RunKeeps(n, permits, steps, s);
    assert ChopOk(n, s, Right(n, i));
  }

  // ---------- meals

  /** Statements of the loop before pc. */
  function Place(pc: Pc): nat {
    match pc
    case Outside => 0
    case Entered => 1
    case HasLeft => 2
    case Eating => 3
    case Eaten => 4
    case RightDown => 5
    case BothDown => 6
  }

  /** After t steps of its own: one meal for every seven of them, at the fourth. */
  predicate Counted(t: nat, ate: nat, pc: Pc) {
    ate == (t + 3) / 7 && Place(pc) == t % 7
  }

  /** In every run times_eating counts a philosopher's meals. */
  lemma {:induction false} Meals(n: nat, permits: nat, steps: seq<nat>, s: State, i: nat)
    requires Run(n, permits, steps, s) && i < n
    ensures Shape(n, s) && Counted(Turns(steps, i), s.ate[i], s.pc[i])
    decreases |steps|
  {
    hide Counted, Step, Enabled;
    if steps == [] {
      NoMeal();
    } else {
      var r: State :| Run(n, permits, Front(steps), r) && Next(n, r, Last(steps), s);
      Meals(n, permits, Front(steps), r, i);
      StepMeals(n, r, Last(steps), s, i);
      if Last(steps) == i {
        NextMeal(Turns(Front(steps), i), r.ate[i], r.pc[i], s.ate[i], s.pc[i]);
      }
    }
  }

  lemma NoMeal()
    ensures Counted(0, 0, Outside)
  {
  }

  lemma NextMeal(t: nat, ate: nat, pc: Pc, ate': nat, pc': Pc)
    requires Counted(t, ate, pc) && Place(pc') == (Place(pc) + 1) % 7
    requires ate' == ate + if Place(pc) == 3 then 1 else 0
    ensures Counted(t + 1, ate', pc')
  {
    assert t + 1 == 7 * (t / 7) + (t % 7 + 1) && t + 1 + 3 == 7 * (t / 7) + (t % 7 + 1 + 3);
  }

  lemma StepMeals(n: nat, s: State, j: nat, s': State, i: nat)
    requires Next(n, s, j, s') && i < n
    ensures Shape(n, s) && Shape(n, s')
    ensures if i == j then Place(s'.pc[i]) == (Place(s.pc[i]) + 1) % 7
                           && s'.ate[i] == s.ate[i] + (if Place(s.pc[i]) == 3 then 1 else 0)
            else s'.pc[i] == s.pc[i] && s'.ate[i] == s.ate[i]
  {
  }

  // ---------- deadlock

  /** Fewer than n of n leave one out. */
  lemma {:induction false} LeftOut(n: nat, s: set<nat>) returns (o: nat)
    requires |s| < n
    ensures o < n && o !in s
  {
    if n - 1 !in s {
      o := n - 1;
    } else {
      o := LeftOut(n - 1, s - {n - 1});
    }
  }

  /** With at least one permit and fewer than n, some philosopher can step, in every state of every run. */
  lemma SomeoneSteps(n: nat, permits: nat, steps: seq<nat>, s: State) returns (i: nat)
    requires 2 <= n && 0 < permits < n && Run(n, permits, steps, s)
    ensures i < n && Shape(n, s) && Enabled(n, s, i)
  {
    RunKeeps(n, permits, steps, s);
    if j: nat :| j < n && s.pc[j] != Outside && s.pc[j] != Entered && s.pc[j] != HasLeft {
      i := j;
    } else if j: nat :| j < n && s.pc[j] == Entered {
      assert ChopOk(n, s, j);
      i := j;
    } else if j: nat :| j < n && s.pc[j] == HasLeft {
      var o := LeftOut(n, Room(s.pc));
      i := Border(n, Room(s.pc), j, o);
      assert ChopOk(n, s, Right(n, i));
      assert Prev(n, Right(n, i)) == i;
    } else {
      assert Room(s.pc) == {};
      i := 0;
    }
  }

  /** The first k philosophers have their left chopsticks, the others are outside. */
  ghost function Waiting(n: nat, permits: nat, k: nat): State
    requires k <= n && k <= permits
  {
    State(permits - k, seq(n, i => if i < k then 0 else 1), seq(n, i => if i < k then HasLeft else Outside),
          seq(n, _ => 0))
  }

  lemma WaitingStep(n: nat, permits: nat, i: nat) returns (m: State)
    requires i < n && i < permits
    ensures Next(n, Waiting(n, permits, i), i, m) && Next(n, m, i, Waiting(n, permits, i + 1))
  {
    var r, s := Waiting(n, permits, i), Waiting(n, permits, i + 1);
    m := State(r.waiter - 1, r.chop, r.pc[i := Entered], r.ate);
    var pc: seq<Pc> := m.pc[i := HasLeft];
    forall j | 0 <= j < n
      ensures Wait(m.chop, i)[j] == s.chop[j] && pc[j] == s.pc[j]
    {
    }
    assert Wait(m.chop, i) == s.chop && pc == s.pc;
  }

  lemma WaitingNone(n: nat, permits: nat)
    ensures Waiting(n, permits, 0) == Init(n, permits)
  {
  }

  lemma {:induction false} WaitingRun(n: nat, permits: nat, k: nat) returns (steps: seq<nat>)
    requires k <= n && k <= permits
    ensures Run(n, permits, steps, Waiting(n, permits, k))
  {
    hide Waiting, Next;
    if k == 0 {
      steps := [];
      WaitingNone(n, permits);
    } else {
      var i := k - 1;
      var before := WaitingRun(n, permits, i);
      var m := WaitingStep(n, permits, i);
      RunOn(n, permits, before, Waiting(n, permits, i), i, m);
      RunOn(n, permits, before + [i], m, i, Waiting(n, permits, k));
      steps := before + [i] + [i];
    }
  }

  lemma RunOn(n: nat, permits: nat, steps: seq<nat>, r: State, i: nat, s: State)
    requires Run(n, permits, steps, r) && Next(n, r, i, s)
    ensures Run(n, permits, steps + [i], s)
  {
    hide Next;
    FrontLast(steps, i);
    assert Run(n, permits, Front(steps + [i]), r);
  }

  /** With n permits or more there is a run into a deadlock: everyone has a left chopstick. */
  lemma CanDeadlock(n: nat, permits: nat) returns (steps: seq<nat>, s: State)
    requires 2 <= n && (permits == 0 || n <= permits)
    ensures Run(n, permits, steps, s) && Shape(n, s) && Deadlock(n, s)
  {
    if permits == 0 {
      steps, s := [], Init(n, 0);
    } else {
      s := Waiting(n, permits, n);
      steps := WaitingRun(n, permits, n);
    }
  }

  /** The runs are free of deadlock exactly for 1 to n - 1 permits; philo_sem4.c has n - 1. */
  lemma DeadlockFree(n: nat, permits: nat)
    requires 2 <= n
    ensures 0 < permits < n <==> forall steps, s :: Run(n, permits, steps, s) ==> Shape(n, s) && !Deadlock(n, s)
  {
    if 0 < permits < n {
      forall steps, s | Run(n, permits, steps, s)
        ensures Shape(n, s) && !Deadlock(n, s)
      {
        var i := SomeoneSteps(n, permits, steps, s);
      }
    } else {
      var steps, s := CanDeadlock(n, permits);
      assert Run(n, permits, steps, s);
    }
  }
}

/** philo_sem2.c: even philosophers take the right chopstick first, odd ones the left. */
module PhiloParity {
  import opened Philo
  import opened Steps

  datatype Pc = Thinking | HasFirst | Eating | Eaten | RightDown

  datatype State = State(chop: seq<nat>, pc: seq<Pc>, ate: seq<nat>)

  ghost predicate Shape(n: nat, s: State) {
    |s.chop| == n && |s.pc| == n && |s.ate| == n
  }

  function Init(n: nat): State {
    State(seq(n, _ => 1), seq(n, _ => Thinking), seq(n, _ => 0))
  }

  function First(n: nat, i: nat): nat
    requires i < n
  {
    if i % 2 == 0 then Right(n, i) else Left(i)
  }

  function Second(n: nat, i: nat): nat
    requires i < n
  {
    if i % 2 == 0 then Left(i) else Right(n, i)
  }

  ghost predicate Enabled(n: nat, s: State, i: nat)
    requires Shape(n, s) && i < n
  {
    match s.pc[i]
    case Thinking => s.chop[First(n, i)] > 0
    case HasFirst => s.chop[Second(n, i)] > 0
    case _ => true
  }

  ghost function Step(n: nat, s: State, i: nat): State
    requires Shape(n, s) && i < n && Enabled(n, s, i)
  {
    match s.pc[i]
    case Thinking => State(s.chop[First(n, i) := s.chop[First(n, i)] - 1], s.pc[i := HasFirst], s.ate)
    case HasFirst => State(s.chop[Second(n, i) := s.chop[Second(n, i)] - 1], s.pc[i := Eating], s.ate)
    case Eating => State(s.chop, s.pc[i := Eaten], s.ate[i := s.ate[i] + 1])
    case Eaten => State(s.chop[Right(n, i) := s.chop[Right(n, i)] + 1], s.pc[i := RightDown], s.ate)
    case RightDown => State(s.chop[Left(i) := s.chop[Left(i)] + 1], s.pc[i := Thinking], s.ate)
  }

  ghost predicate Run(n: nat, steps: seq<nat>, s: State)
    decreases |steps|
  {
    if steps == [] then s == Init(n)
    else exists r: State :: Run(n, Front(steps), r) && Next(n, r, Last(steps), s)
  }

  ghost predicate Next(n: nat, s: State, i: nat, s': State) {
    Shape(n, s) && i < n && Enabled(n, s, i) && s' == Step(n, s, i)
  }

  /** Does philosopher i, at pc, hold the chopstick c? */
  predicate Holds(n: nat, i: nat, pc: Pc, c: nat)
    requires i < n
  {
    match pc
    case Thinking => false
    case HasFirst => c == First(n, i)
    case RightDown => c == Left(i)
    case _ => c == Left(i) || c == Right(n, i)
  }

  function One(b: bool): nat {
    if b then 1 else 0
  }

  ghost predicate ChopOk(n: nat, s: State, c: nat)
    requires Shape(n, s) && c < n
  {
    s.chop[c] + One(Holds(n, c, s.pc[c], c)) + One(Holds(n, Prev(n, c), s.pc[Prev(n, c)], c)) == 1
  }

  ghost predicate Inv(n: nat, s: State) {
    Shape(n, s) && forall c: nat :: c < n ==> ChopOk(n, s, c)
  }

  lemma StepKeeps(n: nat, s: State, i: nat)
    requires 2 <= n && Inv(n, s) && i < n && Enabled(n, s, i)
    ensures Inv(n, Step(n, s, i))
  {
    var s' := Step(n, s, i);
    forall c: nat | c < n
      ensures ChopOk(n, s', c)
    {
      assert ChopOk(n, s, c);
      assert Prev(n, c) == i <==> c == Right(n, i);
    }
  }

  lemma {:induction false} RunKeeps(n: nat, steps: seq<nat>, s: State)
    requires 2 <= n && Run(n, steps, s)
    ensures Inv(n, s)
    decreases |steps|
  {
    if steps != [] {
      var r: State :| Run(n, Front(steps), r) && Next(n, r, Last(steps), s);
      RunKeeps(n, Front(steps), r);
      StepKeeps(n, r, Last(steps));
    }
  }

  lemma NeighboursApart(n: nat, steps: seq<nat>, s: State, i: nat)
    requires 2 <= n && Run(n, steps, s) && i < n
    ensures Shape(n, s)
    ensures !((s.pc[i] == Eating || s.pc[i] == Eaten) && (s.pc[Right(n, i)] == Eating || s.pc[Right(n, i)] == Eaten))
  {
    RunKeeps(n, steps, s);
    assert ChopOk(n, s, Right(n, i));
  }

  /** Statements of the loop before pc. */
  function Place(pc: Pc): nat {
    match pc
    case Thinking => 0
    case HasFirst => 1
    case Eating => 2
    case Eaten => 3
    case RightDown => 4
  }

  /** After t steps of its own: one meal for every five of them, at the third. */
  predicate Counted(t: nat, ate: nat, pc: Pc) {
    ate == (t + 2) / 5 && Place(pc) == t % 5
  }

  /** In every run times_eating counts a philosopher's meals. */
  lemma {:induction false} Meals(n: nat, steps: seq<nat>, s: State, i: nat)
    requires Run(n, steps, s) && i < n
    ensures Shape(n, s) && Counted(Turns(steps, i), s.ate[i], s.pc[i])
    decreases |steps|
  {
    hide Counted, Step, Enabled;
    if steps == [] {
      NoMeal();
    } else {
      var r: State :| Run(n, Front(steps), r) && Next(n, r, Last(steps), s);
      Meals(n, Front(steps), r, i);
      StepMeals(n, r, Last(steps), s, i);
      if Last(steps) == i {
        NextMeal(Turns(Front(steps), i), r.ate[i], r.pc[i], s.ate[i], s.pc[i]);
      }
    }
  }

  lemma NoMeal()
    ensures Counted(0, 0, Thinking)
  {
  }

  lemma NextMeal(t: nat, ate: nat, pc: Pc, ate': nat, pc': Pc)
    requires Counted(t, ate, pc) && Place(pc') == (Place(pc) + 1) % 5
    requires ate' == ate + if Place(pc) == 2 then 1 else 0
    ensures Counted(t + 1, ate', pc')
  {
    assert t + 1 == 5 * (t / 5) + (t % 5 + 1) && t + 1 + 2 == 5 * (t / 5) + (t % 5 + 1 + 2);
  }

  lemma StepMeals(n: nat, s: State, j: nat, s': State, i: nat)
    requires Next(n, s, j, s') && i < n
    ensures Shape(n, s) && Shape(n, s')
    ensures if i == j then Place(s'.pc[i]) == (Place(s.pc[i]) + 1) % 5
                           && s'.ate[i] == s.ate[i] + (if Place(s.pc[i]) == 2 then 1 else 0)
            else s'.pc[i] == s.pc[i] && s'.ate[i] == s.ate[i]
  {
  }

  /** A second chopstick is somebody's first only in one place: the last philosopher of an odd
      number takes first what philosopher 0 takes second. */
  lemma SecondIsFirst(n: nat, i: nat, j: nat)
    requires 2 <= n && i < n && j < n && i != j && Second(n, i) == First(n, j)
    ensures i == 0 && j == n - 1 && n % 2 == 1
  {
  }

  /** Some philosopher can step in every state of every run. */
  lemma SomeoneSteps(n: nat, steps: seq<nat>, s: State) returns (i: nat)
    requires 2 <= n && Run(n, steps, s)
    ensures i < n && Shape(n, s) && Enabled(n, s, i)
  {
    RunKeeps(n, steps, s);
    if j: nat :| j < n && s.pc[j] != Thinking && s.pc[j] != HasFirst {
      i := j;
    } else if s.pc[n - 1] == HasFirst {
      i := n - 1;
      SecondFree(n, s, i);
    } else if j: nat :| j < n && s.pc[j] == HasFirst {
      i := j;
      SecondFree(n, s, i);
    } else {
      i := 0;
      assert ChopOk(n, s, First(n, 0));
    }
  }

  lemma SecondFree(n: nat, s: State, i: nat)
    requires 2 <= n && Inv(n, s) && i < n && s.pc[i] == HasFirst
    requires forall j: nat :: j < n ==> s.pc[j] == Thinking || s.pc[j] == HasFirst
    requires i == n - 1 || s.pc[n - 1] != HasFirst
    ensures s.chop[Second(n, i)] > 0
  {
    var c := Second(n, i);
    assert ChopOk(n, s, c);
    var j := if c == i then Prev(n, c) else c;
    assert i == c || i == Prev(n, c);
    assert j != i;
    if Holds(n, j, s.pc[j], c) {
      SecondIsFirst(n, i, j);
    }
  }
}

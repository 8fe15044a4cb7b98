/** The ring of semaphores of `dining_philosophers.c`, for any number N >= 2 of
    philosophers and any numbers of meals.  Everybody takes the left chopstick first. */
module DiningPhilosophers {
  import opened Wrappers
  import opened Traces
  import opened Counting

  datatype Pc = WaitLeft | WaitRight | Eat | PostRight | PostLeft | Done
  datatype Philosopher = Philosopher(meals: nat, i: nat, pc: Pc)

  /** `chopsticks[k]` is the value of the semaphore to the left of philosopher k. */
  datatype State = State(chopsticks: seq<int>, phils: seq<Philosopher>)

  predicate Shape(s: State) { |s.phils| == |s.chopsticks| >= 2 }

  /** The neighbour to the right: `(i + 1) % N`. */
  function Next(n: nat, i: nat): (r: nat)
    requires i < n
    ensures r < n
  {
    if i + 1 == n then 0 else i + 1
  }

  function Right(s: State, i: nat): (r: nat)
    requires Shape(s) && i < |s.phils|
    ensures r < |s.phils|
  {
    Next(|s.phils|, i)
  }

  function LeftOf(s: State, k: nat): (i: nat)
    requires Shape(s) && k < |s.phils|
    ensures i < |s.phils| && Right(s, i) == k && i != k
  {
    if k == 0 then |s.phils| - 1 else k - 1
  }

  function LoopTest(p: Philosopher): Philosopher { p.(pc := if p.i < p.meals then WaitLeft else Done) }

  function Goto(s: State, i: nat, pc: Pc): State
    requires i < |s.phils|
  {
    s.(phils := s.phils[i := s.phils[i].(pc := pc)])
  }

  /** The next operation of philosopher i; `None` when it waits or is done. */
  function Step(s: State, i: nat): Option<State> {
    if !Shape(s) || i >= |s.phils| then None
    else
      var me, r := s.phils[i], Right(s, i);
      match me.pc
      case WaitLeft =>
        if s.chopsticks[i] > 0 then Some(Goto(s, i, WaitRight).(chopsticks := s.chopsticks[i := s.chopsticks[i] - 1]))
        else None
      case WaitRight =>
        if s.chopsticks[r] > 0 then Some(Goto(s, i, Eat).(chopsticks := s.chopsticks[r := s.chopsticks[r] - 1]))
        else None
      case Eat => Some(Goto(s, i, PostRight))
      case PostRight => Some(Goto(s, i, PostLeft).(chopsticks := s.chopsticks[r := s.chopsticks[r] + 1]))
      case PostLeft =>
        Some(State(s.chopsticks[i := s.chopsticks[i] + 1], s.phils[i := LoopTest(me.(i := me.i + 1))]))
      case Done => None
  }

  predicate Init(s: State) {
    && Shape(s)
    && forall k :: 0 <= k < |s.phils| ==> s.chopsticks[k] == 1 && s.phils[k] == LoopTest(s.phils[k].(i := 0))
  }

  // ---- Invariant: every chopstick is on the table or in one hand ----

  function HoldsLeft(p: Philosopher): int { One(!p.pc.WaitLeft? && !p.pc.Done?) }
  function HoldsRight(p: Philosopher): int { One(p.pc.Eat? || p.pc.PostRight?) }

  ghost predicate Inv(s: State) {
    && Shape(s)
    && (forall k {:trigger ChopstickInv(s, k)} :: 0 <= k < |s.phils| ==> ChopstickInv(s, k))
    && (forall k :: 0 <= k < |s.phils| ==> MealsInv(s.phils[k]))
  }

  predicate ChopstickInv(s: State, k: nat)
    requires Shape(s) && k < |s.phils|
  {
    s.chopsticks[k] >= 0 &&
    s.chopsticks[k] + HoldsLeft(s.phils[k]) + HoldsRight(s.phils[LeftOf(s, k)]) == 1
  }

  predicate MealsInv(p: Philosopher) { p.i <= p.meals && (p.pc.Done? <==> p.i == p.meals) }

  lemma RightIsNext(s: State, i: nat)
    requires Shape(s) && i < |s.phils|
    ensures LeftOf(s, Right(s, i)) == i && Right(s, i) != i
  {
  }

  lemma StepKeepsInv(s: State, i: nat)
    requires Inv(s) && Step(s, i).Some?
    ensures Inv(Step(s, i).value)
  {
    var s' := Step(s, i).value;
    RightIsNext(s, i);
    forall k | 0 <= k < |s.phils| ensures ChopstickInv(s', k) {
      assert ChopstickInv(s, k);
      RightIsNext(s, LeftOf(s, k));
    }
  }

  /** Meals are never changed, and neither is the number of philosophers. */
  predicate SameTable(s: State, s': State) {
    |s.phils| == |s'.phils| && forall k :: 0 <= k < |s.phils| ==> s.phils[k].meals == s'.phils[k].meals
  }

  lemma StepKeepsTable(s: State, i: nat)
    requires Step(s, i).Some?
    ensures SameTable(s, Step(s, i).value)
  {
  }

  ghost predicate Reaches(init: State, s: State) {
    Init(init) && exists schedule: seq<nat> :: Run(Step, init, schedule) == Some(s)
  }

  lemma ReachableInv(init: State, s: State)
    requires Reaches(init, s)
    ensures Inv(s) && SameTable(init, s)
  {
    hide Step;
    var schedule: seq<nat> :| Run(Step, init, schedule) == Some(s);
    var inv := s => Inv(s) && SameTable(init, s);
    forall s, i | inv(s) && Step(s, i).Some? ensures inv(Step(s, i).value) {
      StepKeepsInv(s, i);
      StepKeepsTable(s, i);
    }
    Invariance(Step, inv, init, schedule);
  }

  /** Neighbours never eat at the same time. */
  lemma NeighboursDoNotEat(init: State, s: State, i: nat)
    requires Reaches(init, s) && i < |s.phils|
    ensures Shape(s) && !(s.phils[i].pc.Eat? && s.phils[Right(s, i)].pc.Eat?)
  {
    ReachableInv(init, s);
    RightIsNext(s, i);
    assert ChopstickInv(s, Right(s, i));
  }

  // ---- Deadlock ----

  predicate AllDone(s: State) { forall k :: 0 <= k < |s.phils| ==> s.phils[k].pc.Done? }

  ghost predicate Stuck(s: State) {
    !AllDone(s) && forall i :: 0 <= i < |s.phils| ==> Step(s, i).None?
  }

  /** Everybody holds the left chopstick and waits for the right one. */
  predicate Circle(s: State) { forall k :: 0 <= k < |s.phils| ==> s.phils[k].pc.WaitRight? }

  /** Who cannot get the right chopstick waits for a neighbour that holds it as its left. */
  lemma BlockedRight(s: State, i: nat)
    requires Inv(s) && i < |s.phils| && s.phils[i].pc.WaitRight? && Step(s, i).None?
    ensures HoldsLeft(s.phils[Right(s, i)]) == 1
  {
    RightIsNext(s, i);
    assert ChopstickInv(s, Right(s, i));
  }

  lemma BlockedLeft(s: State, i: nat)
    requires Inv(s) && i < |s.phils| && s.phils[i].pc.WaitLeft? && Step(s, i).None?
    ensures Step(s, LeftOf(s, i)).Some?
  {
    assert ChopstickInv(s, i);
  }

  /** How far it is from i to k, going right. */
  function Distance(s: State, i: nat, k: nat): nat
    requires i < |s.phils| && k < |s.phils|
  {
    if k >= i then k - i else k - i + |s.phils|
  }

  /** Blocked right-waiters spread along the ring, from i to k. */
  lemma {:induction false} Around(s: State, i: nat, k: nat)
    requires Inv(s) && i < |s.phils| && k < |s.phils| && s.phils[i].pc.WaitRight?
    requires forall k :: 0 <= k < |s.phils| ==> Step(s, k).None?
    ensures s.phils[k].pc.WaitRight?
    decreases Distance(s, i, k)
  {
    if i != k {
      assert Step(s, i).None?;
      BlockedRight(s, i);
      assert Step(s, Right(s, i)).None?;
      Around(s, Right(s, i), k);
    }
  }

  lemma StuckIsCircle(s: State)
    requires Inv(s)
    ensures Stuck(s) <==> Circle(s)
  {
    if Stuck(s) {
      var i :| 0 <= i < |s.phils| && !s.phils[i].pc.Done?;
      assert Step(s, i).None?;
      if s.phils[i].pc.WaitLeft? {
        BlockedLeft(s, i);
      }
      forall k | 0 <= k < |s.phils| ensures s.phils[k].pc.WaitRight? {
        Around(s, i, k);
      }
    }
    if Circle(s) {
      assert !s.phils[0].pc.Done?;
      forall i | 0 <= i < |s.phils| ensures Step(s, i).None? {
        assert ChopstickInv(s, Right(s, i));
      }
    }
  }

  /** A reachable state with work left and nobody able to move is the full circle, and conversely. */
  lemma DeadlockExactly(init: State, s: State)
    requires Reaches(init, s)
    ensures Stuck(s) <==> Circle(s)
  {
    ReachableInv(init, s);
    StuckIsCircle(s);
  }

  // ---- Outside the circle everybody can still finish ----

  function Work(p: Philosopher): int {
    5 * (p.meals - p.i) - (match p.pc
      case WaitLeft => 0 case WaitRight => 1 case Eat => 2 case PostRight => 3 case PostLeft => 4 case Done => 0)
  }

  lemma StepReducesWork(s: State, i: nat)
    requires Inv(s) && Step(s, i).Some?
    ensures Total(Step(s, i).value.phils, Work) < Total(s.phils, Work)
  {
    hide Total;
    var s' := Step(s, i).value;
    assert MealsInv(s.phils[i]);
    assert s'.phils == s.phils[i := s'.phils[i]];
    TotalUpdate(s.phils, Work, i, s'.phils[i]);
  }

  /** Going right from somebody who waits for the right chopstick to somebody who
      does not, there is one whose right chopstick is free. */
  lemma {:induction false} FreeRight(s: State, i: nat, k: nat) returns (j: nat)
    requires Inv(s) && i < |s.phils| && k < |s.phils|
    requires s.phils[i].pc.WaitRight? && !s.phils[k].pc.WaitRight?
    requires forall k :: 0 <= k < |s.phils| ==> HoldsRight(s.phils[k]) == 0 && !s.phils[k].pc.PostLeft?
    ensures j < |s.phils| && s.phils[j].pc.WaitRight? && Step(s, j).Some?
    decreases Distance(s, i, k)
  {
    if s.phils[Right(s, i)].pc.WaitRight? {
      j := FreeRight(s, Right(s, i), k);
    } else {
      j := i;
      RightIsNext(s, i);
      assert ChopstickInv(s, Right(s, i));
    }
  }

  /** A step that does not close the circle. */
  lemma SafeStep(s: State) returns (i: nat)
    requires Inv(s) && !AllDone(s) && !Circle(s)
    ensures Step(s, i).Some? && !Circle(Step(s, i).value)
  {
    if busy: nat :| busy < |s.phils| && (HoldsRight(s.phils[busy]) == 1 || s.phils[busy].pc.PostLeft?) {
      i := busy;
      assert !Step(s, i).value.phils[i].pc.WaitRight?;
    } else if w: nat :| w < |s.phils| && s.phils[w].pc.WaitRight? {
      var k :| 0 <= k < |s.phils| && !s.phils[k].pc.WaitRight?;
      i := FreeRight(s, w, k);
      assert Step(s, i).value.phils[i].pc.Eat?;
    } else {
      i :| 0 <= i < |s.phils| && !s.phils[i].pc.Done?;
      assert ChopstickInv(s, i);
      assert !Step(s, i).value.phils[Right(s, i)].pc.WaitRight? by { RightIsNext(s, i); }
    }
  }

  lemma {:induction false} CanFinishFrom(s: State) returns (schedule: seq<nat>)
    requires Inv(s) && !Circle(s)
    ensures Run(Step, s, schedule).Some? && AllDone(Run(Step, s, schedule).value)
    decreases Total(s.phils, Work)
  {
    if AllDone(s) {
      schedule := [];
    } else {
      var i := SafeStep(s);
      StepKeepsInv(s, i);
      StepReducesWork(s, i);
      forall k | 0 <= k < |s.phils| ensures Work(s.phils[k]) >= 0 {
        assert MealsInv(s.phils[k]);
      }
      TotalNonNegative(s.phils, Work);
      var rest := CanFinishFrom(Step(s, i).value);
      schedule := [i] + rest;
      assert schedule[1..] == rest;
    }
  }

  ghost predicate CanFinish(s: State) {
    exists schedule: seq<nat> :: Run(Step, s, schedule).Some? && AllDone(Run(Step, s, schedule).value)
  }

  /** The circle is the only danger: from every other reachable state all can still finish. */
  lemma OnlyTheCircleIsFatal(init: State, s: State)
    requires Reaches(init, s)
    ensures CanFinish(s) <==> !Circle(s)
  {
    ReachableInv(init, s);
    StuckIsCircle(s);
    if Circle(s) {
      forall schedule: seq<nat>
        ensures !(Run(Step, s, schedule).Some? && AllDone(Run(Step, s, schedule).value))
      {
        if schedule != [] { assert Step(s, schedule[0]).None?; }
      }
    } else {
      var schedule := CanFinishFrom(s);
    }
  }

  /** And it can be reached, whatever N, as soon as everybody wants to eat at all. */
  lemma {:induction false} TakeLeft(init: State, n: nat) returns (s: State, schedule: seq<nat>)
    requires Init(init) && n <= |init.phils|
    requires forall k :: 0 <= k < |init.phils| ==> init.phils[k].meals > 0
    ensures Run(Step, init, schedule) == Some(s) && Shape(s) && |s.phils| == |init.phils|
    ensures forall k :: 0 <= k < |s.phils| ==>
              s.phils[k].pc == (if k < n then WaitRight else WaitLeft) && s.chopsticks[k] == (if k < n then 0 else 1)
  {
    if n == 0 {
      s, schedule := init, [];
    } else {
      var t, before := TakeLeft(init, n - 1);
      s := Step(t, n - 1).value;
      var last: seq<nat> := [n - 1];
      schedule := before + last;
      RunConcat(Step, init, before, last);
      assert Run(Step, t, last) == Some(s);
    }
  }

  lemma DeadlockReachableExactly(init: State)
    requires Init(init)
    ensures (exists s :: Reaches(init, s) && Stuck(s)) <==>
            forall k :: 0 <= k < |init.phils| ==> init.phils[k].meals > 0
  {
    if forall k :: 0 <= k < |init.phils| ==> init.phils[k].meals > 0 {
      var s, schedule := TakeLeft(init, |init.phils|);
      assert Reaches(init, s);
      ReachableInv(init, s);
      StuckIsCircle(s);
    }
    if s :| Reaches(init, s) && Stuck(s) {
      ReachableInv(init, s);
      StuckIsCircle(s);
      forall k | 0 <= k < |init.phils| ensures init.phils[k].meals > 0 {
        assert MealsInv(s.phils[k]);
      }
    }
  }

  // ---- Meals ----

  /** How often philosopher i comes to eat in a run. */
  function Eats(s: State, schedule: seq<nat>, i: nat): nat
    decreases |schedule|
  {
    if schedule == [] || Step(s, schedule[0]).None? then 0
    else
      var s' := Step(s, schedule[0]).value;
      One(ComesToEat(s, s', i)) + Eats(s', schedule[1..], i)
  }

  predicate ComesToEat(s: State, s': State, i: nat) {
    i < |s.phils| && i < |s'.phils| && !s.phils[i].pc.Eat? && s'.phils[i].pc.Eat?
  }

  /** Meals begun. */
  function Begun(p: Philosopher): nat { p.i + One(p.pc.Eat? || p.pc.PostRight? || p.pc.PostLeft?) }

  lemma StepBegins(s: State, j: nat, i: nat)
    requires Step(s, j).Some? && i < |s.phils|
    ensures var s' := Step(s, j).value;
            |s'.phils| == |s.phils| && Begun(s'.phils[i]) == Begun(s.phils[i]) + One(ComesToEat(s, s', i))
  {
  }

  lemma {:induction false} EatsAreMeals(s: State, schedule: seq<nat>, i: nat)
    requires i < |s.phils| && Run(Step, s, schedule).Some?
    ensures var s' := Run(Step, s, schedule).value;
            |s'.phils| == |s.phils| && Begun(s'.phils[i]) == Begun(s.phils[i]) + Eats(s, schedule, i)
    decreases |schedule|
  {
    assert Eats(s, [], i) == 0;
    assert schedule != [] ==>
        var s' := Step(s, schedule[0]).value;
        Eats(s, schedule, i) == One(ComesToEat(s, s', i)) + Eats(s', schedule[1..], i);
    hide Step, Eats, ComesToEat;
    if schedule != [] {
      StepBegins(s, schedule[0], i);
      EatsAreMeals(Step(s, schedule[0]).value, schedule[1..], i);
    }
  }

  /** Who is done has eaten as many times as it has meals. */
  lemma EverybodyEats(init: State, schedule: seq<nat>, i: nat)
    requires Init(init) && i < |init.phils| && Run(Step, init, schedule).Some?
    ensures var s := Run(Step, init, schedule).value;
            |s.phils| == |init.phils| && (s.phils[i].pc.Done? ==> Eats(init, schedule, i) == init.phils[i].meals)
  {
    EatsAreMeals(init, schedule, i);
    var s := Run(Step, init, schedule).value;
    assert Reaches(init, s);
    ReachableInv(init, s);
    assert MealsInv(s.phils[i]);
  }

  // ---- The program itself ----

  class Table {
    const chopsticks: array<int>
    const phils: array<Philosopher>

    constructor (n: nat, meals: nat)
      requires n >= 2
      ensures fresh(chopsticks) && fresh(phils) && phils.Length == n && Init(View())
      ensures forall k :: 0 <= k < n ==> phils[k].meals == meals
    {
      chopsticks := new int[n](_ => 1);
      phils := new Philosopher[n](_ => LoopTest(Philosopher(meals, 0, Done)));
    }

    ghost function View(): State reads this, chopsticks, phils { State(chopsticks[..], phils[..]) }

    /** The next operation of philosopher i, which is able to go on. */
    method Philosophize(i: nat)
      requires i < phils.Length && Step(View(), i).Some?
      modifies chopsticks, phils
      ensures Step(old(View()), i) == Some(View())
    {
      var me := phils[i];
      var right := (i + 1) % phils.Length;
      match me.pc {
        case WaitLeft => chopsticks[i] := chopsticks[i] - 1; phils[i] := me.(pc := WaitRight);
        case WaitRight => chopsticks[right] := chopsticks[right] - 1; phils[i] := me.(pc := Eat);
        case Eat => phils[i] := me.(pc := PostRight);
        case PostRight => chopsticks[right] := chopsticks[right] + 1; phils[i] := me.(pc := PostLeft);
        case PostLeft => chopsticks[i] := chopsticks[i] + 1; phils[i] := LoopTest(me.(i := me.i + 1));
      }
    }
  }
}

/** The student counters of `prog20.c`, for any number of students.  Each year has
    a counter and a mutex; `+= 1` and `-= 1` are a load and a store.  A cancelled
    student is expelled by its cleanup handler, but only at its next sleep, the one
    cancellation point of its thread. */
module Students {
  import opened Wrappers
  import opened Traces
  import opened Counting

  /** Who changes the counter: `increment_counter`, `decrement_counter` run by
      `pthread_cleanup_pop(1)`, or the same run by cancellation. */
  datatype Op = Add | Leave | Expel

  /** `overdue`: the student had been struck off before it called `nanosleep`. */
  datatype Pc =
    | Lock(op: Op) | Load(op: Op) | Store(op: Op, v: int) | Unlock(op: Op)
    | Asleep(overdue: bool)
    | Graduated | Cancelled

  /** `removed` is the main thread's `removed[i]`, set together with the cancellation request. */
  datatype Student = Student(year: nat, pc: Pc, removed: bool)

  /** `kicked`: `kick_student` has been called; `joining`: the four seconds are over. */
  datatype State = State(
    values: seq<int>, holder: seq<Option<nat>>, students: seq<Student>, present: int, kicked: bool, joining: bool)

  datatype Action =
    | Advance(i: nat)     // the next operation of student i
    | Cancel(i: nat)      // the request is acted upon in student i's sleep
    | Kick(i: nat)        // kick_student by the main thread, picking i (it does nothing once `present` is 0)
    | Join                // the main thread stops kicking

  const YEARS := 4

  function Goto(s: State, i: nat, pc: Pc): State
    requires i < |s.students|
  {
    s.(students := s.students[i := s.students[i].(pc := pc)])
  }

  function AfterUnlock(me: Student, op: Op): Student {
    match op
    case Add => me.(pc := if me.year < 3 then Asleep(me.removed) else Graduated)
    case Leave => me.(year := me.year + 1, pc := Lock(Add))
    case Expel => me.(pc := Cancelled)
  }

  function AdvanceBy(s: State, i: nat): Option<State>
    requires i < |s.students| && s.students[i].year < |s.values| && |s.values| == |s.holder|
  {
    var me := s.students[i];
    var y := me.year;
    match me.pc
    case Lock(op) => if s.holder[y].None? then Some(Goto(s, i, Load(op)).(holder := s.holder[y := Some(i)])) else None
    case Load(op) => Some(Goto(s, i, Store(op, s.values[y])))
    case Store(op, v) => Some(Goto(s, i, Unlock(op)).(values := s.values[y := if op.Add? then v + 1 else v - 1]))
    case Unlock(op) => Some(s.(holder := s.holder[y := None], students := s.students[i := AfterUnlock(me, op)]))
    case Asleep(overdue) => if overdue then None else Some(Goto(s, i, Lock(Leave)))
    case _ => None
  }

  function Step(s: State, a: Action): Option<State> {
    var n := |s.students|;
    match a
    case Advance(i) =>
      if i < n && s.students[i].year < |s.values| && |s.values| == |s.holder| then AdvanceBy(s, i) else None
    case Cancel(i) =>
      if i < n && s.students[i].pc.Asleep? && s.students[i].removed then Some(Goto(s, i, Lock(Expel))) else None
    case Kick(i) =>
      if !s.joining && s.present != 0 && i < n && !s.students[i].removed then
        Some(s.(students := s.students[i := s.students[i].(removed := true)], present := s.present - 1, kicked := true))
      else None
    case Join =>
      if s.kicked && !s.joining then Some(s.(joining := true)) else None
  }

  predicate Init(s: State) {
    && |s.students| > 0 && (forall i :: 0 <= i < |s.students| ==> s.students[i] == Student(0, Lock(Add), false))
    && s.values == [0, 0, 0, 0] && s.holder == [None, None, None, None]
    && s.present == |s.students| && !s.kicked && !s.joining
  }

  // ---- Invariant ----

  predicate Holds(pc: Pc) { pc.Load? || pc.Store? || pc.Unlock? }

  /** Has stored its increment of this year's counter and not yet its decrement. */
  predicate Counted(pc: Pc) {
    match pc
    case Lock(op) => !op.Add?
    case Load(op) => !op.Add?
    case Store(op, _) => !op.Add?
    case Unlock(op) => op.Add?
    case Asleep(_) => true
    case Graduated => true
    case Cancelled => false
  }

  function Studying(y: nat): Student -> int { (st: Student) => One(st.year == y && Counted(st.pc)) }

  function Present(st: Student): int { One(!st.removed) }

  predicate Expelling(pc: Pc) {
    match pc
    case Lock(op) => op.Expel?
    case Load(op) => op.Expel?
    case Store(op, _) => op.Expel?
    case Unlock(op) => op.Expel?
    case Asleep(overdue) => overdue
    case Graduated => false
    case Cancelled => true
  }

  predicate Adding(pc: Pc) {
    match pc
    case Lock(op) => op.Add?
    case Load(op) => op.Add?
    case Store(op, _) => op.Add?
    case Unlock(op) => op.Add?
    case _ => pc.Graduated?
  }

  predicate Shape(s: State) { |s.values| == YEARS && |s.holder| == YEARS && |s.students| > 0 }

  predicate StudentInv(s: State, i: nat)
    requires Shape(s) && i < |s.students|
  {
    var st := s.students[i];
    && st.year < YEARS
    && (!Adding(st.pc) ==> st.year < 3) && (st.pc.Graduated? ==> st.year == 3)
    && (Expelling(st.pc) ==> st.removed)
    && (Holds(st.pc) ==> s.holder[st.year] == Some(i))
    && (st.pc.Store? ==> st.pc.v == s.values[st.year])
  }

  predicate HolderInv(s: State, y: nat)
    requires Shape(s) && y < YEARS
  {
    s.holder[y].Some? ==>
      var k := s.holder[y].value;
      k < |s.students| && s.students[k].year == y && Holds(s.students[k].pc)
  }

  predicate LockInv(s: State)
    requires Shape(s)
  {
    && (forall i :: 0 <= i < |s.students| ==> StudentInv(s, i))
    && (forall y :: 0 <= y < YEARS ==> HolderInv(s, y))
  }

  predicate CountInv(s: State)
    requires Shape(s)
  {
    && (forall y :: 0 <= y < YEARS ==> s.values[y] == Total(s.students, Studying(y)))
    && s.present == Total(s.students, Present)
    && (s.joining ==> s.kicked) && (s.kicked ==> s.present < |s.students|)
  }

  predicate Inv(s: State) { Shape(s) && LockInv(s) && CountInv(s) }

  /** A step by or about student i leaves the others, and the other years' counters and mutexes. */
  lemma StepIsLocal(s: State, a: Action)
    requires Shape(s) && Step(s, a).Some? && !a.Join?
    ensures var s' := Step(s, a).value;
            && a.i < |s.students| && Shape(s') && s'.students == s.students[a.i := s'.students[a.i]]
            && forall y :: 0 <= y < YEARS && y != s.students[a.i].year ==>
                 s'.values[y] == s.values[y] && s'.holder[y] == s.holder[y]
  {
  }

  lemma StepKeepsOwn(s: State, a: Action)
    requires Shape(s) && Step(s, a).Some? && !a.Join? && a.i < |s.students| && StudentInv(s, a.i)
    requires Shape(Step(s, a).value) && a.i < |Step(s, a).value.students|
    ensures StudentInv(Step(s, a).value, a.i)
  {
    var s' := Step(s, a).value;
    if a.Advance? {
      assert s' == AdvanceBy(s, a.i).value;
    }
  }

  /** Another student's mutex is not taken, and what it has loaded is not overwritten. */
  lemma StepKeepsOther(s: State, a: Action, k: nat)
    requires Shape(s) && Step(s, a).Some? && !a.Join? && a.i < |s.students| && StudentInv(s, a.i)
    requires Shape(Step(s, a).value) && |Step(s, a).value.students| == |s.students|
    requires k < |s.students| && k != a.i && StudentInv(s, k) && Step(s, a).value.students[k] == s.students[k]
    ensures StudentInv(Step(s, a).value, k)
  {
  }

  lemma StepKeepsHolder(s: State, a: Action, y: nat)
    requires Shape(s) && Step(s, a).Some? && !a.Join? && a.i < |s.students| && StudentInv(s, a.i)
    requires Shape(Step(s, a).value) && |Step(s, a).value.students| == |s.students|
    requires forall k :: 0 <= k < |s.students| && k != a.i ==> Step(s, a).value.students[k] == s.students[k]
    requires y < YEARS && HolderInv(s, y)
    ensures HolderInv(Step(s, a).value, y)
  {
  }

  lemma StepKeepsLock(s: State, a: Action)
    requires Shape(s) && LockInv(s) && Step(s, a).Some?
    ensures Shape(Step(s, a).value) && LockInv(Step(s, a).value)
  {
    var s' := Step(s, a).value;
    if a.Join? {
      assert forall k :: 0 <= k < |s.students| ==> StudentInv(s, k) && StudentInv(s', k);
      assert forall y :: 0 <= y < YEARS ==> HolderInv(s, y) && HolderInv(s', y);
    } else {
      StepIsLocal(s, a);
      assert StudentInv(s, a.i);
      StepKeepsOwn(s, a);
      forall k | 0 <= k < |s'.students| && k != a.i ensures StudentInv(s', k) {
        assert StudentInv(s, k);
        StepKeepsOther(s, a, k);
      }
      forall y | 0 <= y < YEARS ensures HolderInv(s', y) {
        assert HolderInv(s, y);
        StepKeepsHolder(s, a, y);
      }
    }
  }

  /** The year's counter changes exactly when the student starts or stops counting. */
  lemma StepBalances(s: State, a: Action, y: nat)
    requires Shape(s) && Step(s, a).Some? && !a.Join? && a.i < |s.students| && StudentInv(s, a.i)
    requires Shape(Step(s, a).value) && |Step(s, a).value.students| == |s.students| && y < YEARS
    ensures var s' := Step(s, a).value;
            && s'.values[y] - s.values[y] == Studying(y)(s'.students[a.i]) - Studying(y)(s.students[a.i])
            && s'.present - s.present == Present(s'.students[a.i]) - Present(s.students[a.i])
  {
  }

  lemma StepKeepsCounts(s: State, a: Action)
    requires Inv(s) && Step(s, a).Some? && Shape(Step(s, a).value)
    ensures CountInv(Step(s, a).value)
  {
    hide Total;
    var s' := Step(s, a).value;
    if !a.Join? {
      StepIsLocal(s, a);
      assert StudentInv(s, a.i);
      StepBalances(s, a, 0);
      forall y | 0 <= y < YEARS ensures s'.values[y] == Total(s'.students, Studying(y)) {
        StepBalances(s, a, y);
        TotalUpdate(s.students, Studying(y), a.i, s'.students[a.i]);
      }
      TotalUpdate(s.students, Present, a.i, s'.students[a.i]);
      PresentAtMostAll(s.students);
    }
  }

  lemma {:induction false} PresentAtMostAll(students: seq<Student>)
    ensures Total(students, Present) <= |students|
  {
    if students != [] { PresentAtMostAll(students[1..]); }
  }

  lemma StepKeepsInv(s: State, a: Action)
    requires Inv(s) && Step(s, a).Some?
    ensures Inv(Step(s, a).value)
  {
    StepKeepsLock(s, a);
    StepKeepsCounts(s, a);
  }

  lemma InitInv(s: State)
    requires Init(s)
    ensures Inv(s)
  {
    forall y | 0 <= y < YEARS ensures s.values[y] == Total(s.students, Studying(y)) {
      TotalZero(s.students, Studying(y));
    }
    TotalConstant(s.students, Present, 1);
  }

  predicate InvOf(s: State, n: nat) { Inv(s) && |s.students| == n }

  ghost predicate Reaches(init: State, s: State) {
    Init(init) && exists actions: seq<Action> :: Run(Step, init, actions) == Some(s)
  }

  lemma ReachableInv(init: State, s: State)
    requires Reaches(init, s)
    ensures Inv(s) && |s.students| == |init.students|
  {
    var actions: seq<Action> :| Run(Step, init, actions) == Some(s);
    InitInv(init);
    InvIsKept(init, actions);
  }

  lemma InvIsKept(s: State, actions: seq<Action>)
    requires Inv(s) && Run(Step, s, actions).Some?
    ensures var s' := Run(Step, s, actions).value; Inv(s') && |s'.students| == |s.students|
  {
    var inv := t => InvOf(t, |s.students|);
    forall t, a | inv(t) && Step(t, a).Some? ensures inv(Step(t, a).value) {
      StepKeepsInv(t, a);
      if !a.Join? { StepIsLocal(t, a); }
    }
    Invariance(Step, inv, s, actions);
  }

  // ---- What holds in every run ----

  /** At every step each counter is the number of students counted in that year. */
  lemma CountersAreExact(init: State, s: State, y: nat)
    requires Reaches(init, s) && y < YEARS
    ensures |s.values| == YEARS && s.values[y] == Total(s.students, Studying(y))
  {
    ReachableInv(init, s);
  }

  predicate Over(pc: Pc) { pc.Graduated? || pc.Cancelled? }

  predicate AllOver(s: State) { forall i :: 0 <= i < |s.students| ==> Over(s.students[i].pc) }

  /** Cancellation never leaves a mutex locked: its holder is neither asleep nor gone. */
  lemma NoMutexIsLost(init: State, s: State, y: nat)
    requires Reaches(init, s) && y < |s.holder| && s.holder[y].Some?
    ensures var k := s.holder[y].value;
            && k < |s.students| && !s.students[k].pc.Asleep? && !Over(s.students[k].pc)
            && Step(s, Advance(k)).Some?
  {
    ReachableInv(init, s);
    assert HolderInv(s, y);
    assert StudentInv(s, s.holder[y].value);
  }

  function Struck(st: Student): int { One(st.pc.Cancelled?) }

  lemma OverStudents(s: State)
    requires Inv(s) && AllOver(s)
    ensures forall i :: 0 <= i < |s.students| ==>
              var st := s.students[i];
              (st.pc.Cancelled? && st.year < 3 && st.removed) || (st.pc.Graduated? && st.year == 3)
  {
    forall i | 0 <= i < |s.students|
      ensures var st := s.students[i];
              (st.pc.Cancelled? && st.year < 3 && st.removed) || (st.pc.Graduated? && st.year == 3)
    {
      assert StudentInv(s, i);
    }
  }

  /** When all students are over: nobody is left in the three years, the engineers
      are all but the cancelled, and at least everybody who was never struck off. */
  lemma FinalCounters(init: State, s: State)
    requires Reaches(init, s) && AllOver(s)
    ensures |s.values| == YEARS && s.values[0] == s.values[1] == s.values[2] == 0
    ensures s.values[3] + Total(s.students, Struck) == |init.students|
    ensures s.values[3] >= s.present
    ensures s.joining ==> s.present < |init.students|
  {
    ReachableInv(init, s);
    OverStudents(s);
    TotalZero(s.students, Studying(0));
    TotalZero(s.students, Studying(1));
    TotalZero(s.students, Studying(2));
    GraduatesAndStruck(s.students);
    TotalMonotone(s.students, Present, Studying(3));
  }

  lemma {:induction false} GraduatesAndStruck(students: seq<Student>)
    requires forall i :: 0 <= i < |students| ==>
               students[i].pc.Cancelled? || (students[i].pc.Graduated? && students[i].year == 3)
    ensures Total(students, Studying(3)) + Total(students, Struck) == |students|
  {
    if students != [] { GraduatesAndStruck(students[1..]); }
  }

  /** `kick_student` has somebody to pick exactly while `present` is not 0. */
  lemma SomebodyToKick(init: State, s: State)
    requires Reaches(init, s)
    ensures s.present != 0 <==> exists i :: 0 <= i < |s.students| && !s.students[i].removed
  {
    ReachableInv(init, s);
    TotalNonNegative(s.students, Present);
    if s.present > 0 {
      var i := TotalWitness(s.students, Present);
      assert !s.students[i].removed;
    } else {
      forall i | 0 <= i < |s.students| ensures s.students[i].removed {
        TotalAtLeast(s.students, Present, i);
      }
    }
  }

  // ---- Whom a request reaches ----

  /** A request that finds the student with a sleep still to begin, or in one begun after it. */
  predicate Doomed(st: Student) {
    && st.removed
    && (Expelling(st.pc) || (Adding(st.pc) && st.year < 3) || (!Adding(st.pc) && st.year < 2))
  }

  lemma StepKeepsDoomed(s: State, a: Action, i: nat)
    requires Shape(s) && i < |s.students| && StudentInv(s, i) && Doomed(s.students[i]) && Step(s, a).Some?
    ensures var s' := Step(s, a).value; i < |s'.students| && Doomed(s'.students[i])
  {
    if !a.Join? && a.i != i { StepIsLocal(s, a); }
  }

  lemma {:induction false} DoomedStays(s: State, actions: seq<Action>, i: nat)
    requires Inv(s) && i < |s.students| && Doomed(s.students[i]) && Run(Step, s, actions).Some?
    ensures var s' := Run(Step, s, actions).value;
            Inv(s') && i < |s'.students| && Doomed(s'.students[i])
    decreases |actions|
  {
    if actions != [] {
      var s1 := Step(s, actions[0]).value;
      StepKeepsInv(s, actions[0]);
      assert StudentInv(s, i);
      StepKeepsDoomed(s, actions[0], i);
      DoomedStays(s1, actions[1..], i);
    }
  }

  /** Struck off with a sleep still ahead, a student never becomes an engineer;
      never struck off, it always does. */
  lemma RequestsAreHonoured(init: State, s: State, actions: seq<Action>, i: nat)
    requires Reaches(init, s) && i < |s.students| && Run(Step, s, actions).Some? && AllOver(Run(Step, s, actions).value)
    ensures var s' := Run(Step, s, actions).value;
            && i < |s'.students|
            && (Doomed(s.students[i]) ==> s'.students[i].pc.Cancelled?)
            && (!s'.students[i].removed ==> s'.students[i].pc.Graduated?)
  {
    ReachableInv(init, s);
    var s' := Run(Step, s, actions).value;
    InvIsKept(s, actions);
    assert StudentInv(s', i) && Over(s'.students[i].pc);
    if Doomed(s.students[i]) {
      DoomedStays(s, actions, i);
    }
  }

  // ---- Every run ends, and ends with all students over ----

  function Stage(pc: Pc): nat {
    match pc
    case Lock(op) => if op.Add? then 9 else 4
    case Load(op) => if op.Add? then 8 else 3
    case Store(op, _) => if op.Add? then 7 else 2
    case Unlock(op) => if op.Add? then 6 else 1
    case Asleep(_) => 5
    case Graduated => 0
    case Cancelled => 0
  }

  function Weight(st: Student): int {
    if Over(st.pc) || st.year > 3 then 0 else 10 * (3 - st.year) + Stage(st.pc)
  }

  function Work(s: State): int {
    Total(s.students, Weight) + s.present + One(!s.joining)
  }

  lemma StepReducesWeight(s: State, a: Action)
    requires Shape(s) && Step(s, a).Some? && !a.Join? && a.i < |s.students| && StudentInv(s, a.i)
    requires |Step(s, a).value.students| == |s.students|
    ensures var s' := Step(s, a).value;
            Weight(s'.students[a.i]) + s'.present < Weight(s.students[a.i]) + s.present && s'.joining == s.joining
  {
  }

  lemma StepReducesWork(s: State, a: Action)
    requires Inv(s) && Step(s, a).Some?
    ensures Work(Step(s, a).value) < Work(s)
  {
    hide Total;
    var s' := Step(s, a).value;
    if !a.Join? {
      StepIsLocal(s, a);
      assert StudentInv(s, a.i);
      StepReducesWeight(s, a);
      TotalUpdate(s.students, Weight, a.i, s'.students[a.i]);
    }
  }

  lemma {:induction false} RunLength(s: State, actions: seq<Action>)
    requires Inv(s) && Run(Step, s, actions).Some?
    ensures |actions| <= Work(s)
    decreases |actions|
  {
    TotalNonNegative(s.students, Weight);
    TotalNonNegative(s.students, Present);
    if actions != [] {
      StepKeepsInv(s, actions[0]);
      StepReducesWork(s, actions[0]);
      RunLength(Step(s, actions[0]).value, actions[1..]);
    }
  }

  /** No schedule goes on for ever: 40 steps for each student and one to join. */
  lemma EveryRunEnds(init: State, actions: seq<Action>)
    requires Init(init) && Run(Step, init, actions).Some?
    ensures |actions| <= 40 * |init.students| + 1
  {
    InitInv(init);
    RunLength(init, actions);
    TotalConstant(init.students, Weight, 39);
  }

  /** And none stops early: a student that is not over can step, or the mutex it wants has a holder that can. */
  lemma NeverStuck(init: State, s: State, i: nat)
    requires Reaches(init, s) && i < |s.students| && !Over(s.students[i].pc)
    ensures exists k :: Step(s, Advance(k)).Some? || Step(s, Cancel(k)).Some?
  {
    ReachableInv(init, s);
    var st := s.students[i];
    assert StudentInv(s, i) && HolderInv(s, st.year);
    if st.pc.Asleep? && st.pc.overdue {
      assert Step(s, Cancel(i)).Some?;
    } else if st.pc.Lock? && s.holder[st.year].Some? {
      NoMutexIsLost(init, s, st.year);
    } else {
      assert Step(s, Advance(i)).Some?;
    }
  }

  // ---- The program itself ----

  class Faculty {
    const values: array<int>
    const holder: array<Option<nat>>
    const students: array<Student>
    var present: int
    var kicked: bool
    var joining: bool

    constructor (n: nat)
      requires n > 0
      ensures fresh(values) && fresh(holder) && fresh(students)
      ensures Init(View()) && students.Length == n
    {
      values := new int[4](_ => 0);
      holder := new Option<nat>[4](_ => None);
      students := new Student[n](_ => Student(0, Lock(Add), false));
      present := n;
      kicked := false;
      joining := false;
      new;
      assert values[..] == [0, 0, 0, 0] && holder[..] == [None, None, None, None];
    }

    ghost function View(): State reads this, values, holder, students {
      State(values[..], holder[..], students[..], present, kicked, joining)
    }

    /** `student_life`, `increment_counter` and `decrement_counter`: the next operation of student i. */
    method Live(i: nat)
      requires Step(View(), Advance(i)).Some?
      modifies values, holder, students
      ensures Step(old(View()), Advance(i)) == Some(View())
    {
      var me := students[i];
      var y := me.year;
      match me.pc {
        case Lock(op) =>
          holder[y] := Some(i);
          students[i] := me.(pc := Load(op));
        case Load(op) => students[i] := me.(pc := Store(op, values[y]));
        case Store(op, v) =>
          values[y] := if op.Add? then v + 1 else v - 1;
          students[i] := me.(pc := Unlock(op));
        case Unlock(op) =>
          holder[y] := None;
          match op {
            case Add =>
              if me.year < 3 {
                students[i] := me.(pc := Asleep(me.removed));
              } else {
                students[i] := me.(pc := Graduated);
              }
            case Leave => students[i] := me.(year := me.year + 1, pc := Lock(Add));
            case Expel => students[i] := me.(pc := Cancelled);
          }
        case Asleep(_) => students[i] := me.(pc := Lock(Leave));
      }
    }

    /** `kick_student`; `picks` are the random draws, of which the last is the first not yet removed. */
    method KickStudent(picks: seq<nat>) returns (idx: nat)
      requires present != 0 && !joining
      requires exists k :: 0 <= k < |picks| && picks[k] < students.Length && !students[picks[k]].removed
      requires forall k :: 0 <= k < |picks| ==> picks[k] < students.Length
      modifies this, students
      ensures idx in picks && Step(old(View()), Kick(idx)) == Some(View())
    {
      var draw := 0;
      idx := picks[0];
      while students[idx].removed
        invariant draw < |picks| && idx == picks[draw]
        invariant exists k :: draw <= k < |picks| && !students[picks[k]].removed
        decreases |picks| - draw
      {
        draw := draw + 1;
        idx := picks[draw];
      }
      students[idx] := students[idx].(removed := true);
      present := present - 1;
      kicked := true;
    }
  }
}

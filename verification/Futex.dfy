/** The futex mutex of `futex.c`, run by any number of incrementers and
    decrementers.  Every atomic operation, every access to the plain counter and
    every system call is one step; `FUTEX_WAIT` compares and sleeps in one step,
    and a sleeper may also wake up for no reason. */
module Futex {
  import opened Wrappers
  import opened Traces
  import opened Counting

  datatype Role = Incrementer | Decrementer {
    function Delta(): int { if Incrementer? then 1 else -1 }
  }

  /** The next operation of a thread. */
  datatype Pc =
    | CompareExchange        // lock: 0 -> 1
    | Exchange               // lock: exchange in 2
    | FutexWait              // lock: about to compare with 2 and sleep
    | Asleep                 // lock: in the kernel's queue
    | Load                   // critical section: read the counter
    | Store(v: int)          // critical section: write v + delta
    | FetchSub               // unlock: subtract 1
    | StoreZero              // unlock: second stage
    | FutexWake              // unlock: wake one sleeper
    | Done

  datatype Thread = Thread(role: Role, iterations: nat, i: nat, pc: Pc)
  datatype State = State(word: int, counter: int, threads: seq<Thread>)

  datatype Action =
    | Perform(t: nat)               // thread t performs its next operation
    | WakeUp(t: nat, sleeper: nat)  // t's FUTEX_WAKE wakes this sleeper
    | Spurious(t: nat)              // t's FUTEX_WAIT returns for no reason

  function LoopTest(t: Thread): Thread {
    if t.i < t.iterations then t.(pc := CompareExchange) else t.(pc := Done)
  }

  function AfterUnlock(t: Thread): Thread {
    LoopTest(t.(i := t.i + 1))
  }

  predicate NobodyAsleep(s: State) {
    forall k :: 0 <= k < |s.threads| ==> !s.threads[k].pc.Asleep?
  }

  /** The next operation of thread `t`; `None` when it cannot perform one alone. */
  function PerformBy(s: State, t: nat): Option<State>
    requires t < |s.threads|
  {
    var me := s.threads[t];
    match me.pc
    case CompareExchange =>
      if s.word == 0 then Some(s.(word := 1, threads := s.threads[t := me.(pc := Load)]))
      else Some(s.(threads := s.threads[t := me.(pc := Exchange)]))
    case Exchange =>
      Some(s.(word := 2, threads := s.threads[t := me.(pc := if s.word != 0 then FutexWait else Load)]))
    case FutexWait =>
      Some(s.(threads := s.threads[t := me.(pc := if s.word == 2 then Asleep else Exchange)]))
    case Asleep => None
    case Load =>
      Some(s.(threads := s.threads[t := me.(pc := Store(s.counter))]))
    case Store(v) =>
      Some(s.(counter := v + me.role.Delta(), threads := s.threads[t := me.(pc := FetchSub)]))
    case FetchSub =>
      Some(s.(word := s.word - 1,
              threads := s.threads[t := if s.word != 1 then me.(pc := StoreZero) else AfterUnlock(me)]))
    case StoreZero =>
      Some(s.(word := 0, threads := s.threads[t := me.(pc := FutexWake)]))
    case FutexWake =>
      if NobodyAsleep(s) then Some(s.(threads := s.threads[t := AfterUnlock(me)])) else None
    case Done => None
  }

  function Step(s: State, a: Action): Option<State> {
    match a
    case Perform(t) => if t < |s.threads| then PerformBy(s, t) else None
    case WakeUp(t, z) =>
      if t < |s.threads| && z < |s.threads| && s.threads[t].pc.FutexWake? && s.threads[z].pc.Asleep? then
        Some(s.(threads := s.threads[t := AfterUnlock(s.threads[t])][z := s.threads[z].(pc := Exchange)]))
      else None
    case Spurious(z) =>
      if z < |s.threads| && s.threads[z].pc.Asleep? then
        Some(s.(threads := s.threads[z := s.threads[z].(pc := Exchange)]))
      else None
  }

  predicate Init(s: State) {
    && s.word == 0 && s.counter == 0
    && forall k :: 0 <= k < |s.threads| ==> s.threads[k] == LoopTest(s.threads[k].(i := 0))
  }

  // ---- Weights: what is counted over the threads ----

  /** Holds the lock: in the critical section or between the two stages of unlock. */
  function Owner(t: Thread): int {
    One(t.pc.Load? || t.pc.Store? || t.pc.FetchSub? || t.pc.StoreZero?)
  }

  function Sleeper(t: Thread): int { One(t.pc.Asleep?) }

  /** Will make sure that a sleeper is seen to: about to store 0 and wake,
      about to wake, or awake and about to exchange in 2. */
  function Rescuer(t: Thread): int {
    One(t.pc.StoreZero? || t.pc.FutexWake? || t.pc.Exchange?)
  }

  function Stored(t: Thread): int {
    t.i + One(t.pc.FetchSub? || t.pc.StoreZero? || t.pc.FutexWake?)
  }

  /** What the thread has added to the counter so far. */
  function Contribution(t: Thread): int {
    if t.role.Incrementer? then Stored(t) else -Stored(t)
  }

  ghost predicate Inv(s: State) {
    && 0 <= s.word <= 2
    && Total(s.threads, Owner) == One(s.word != 0)
    && (Total(s.threads, Sleeper) > 0 ==> s.word == 2 || Total(s.threads, Rescuer) > 0)
    && s.counter == Total(s.threads, Contribution)
    && forall k :: 0 <= k < |s.threads| ==> ThreadInv(s.threads[k], s.counter)
  }

  predicate ThreadInv(t: Thread, counter: int) {
    && (t.pc.Done? <==> t.i == t.iterations)
    && t.i <= t.iterations
    && (t.pc.Store? ==> t.pc.v == counter)
  }

  lemma OwnersAreUnique(s: State, i: nat, j: nat)
    requires Inv(s) && i < |s.threads| && j < |s.threads| && i != j
    ensures Owner(s.threads[i]) + Owner(s.threads[j]) <= 1
  {
    TotalAtLeastTwo(s.threads, Owner, if i < j then i else j, if i < j then j else i);
  }

  lemma UpdateTotals(threads: seq<Thread>, t: nat, x: Thread)
    requires t < |threads|
    ensures Total(threads[t := x], Owner) == Total(threads, Owner) - Owner(threads[t]) + Owner(x)
    ensures Total(threads[t := x], Sleeper) == Total(threads, Sleeper) - Sleeper(threads[t]) + Sleeper(x)
    ensures Total(threads[t := x], Rescuer) == Total(threads, Rescuer) - Rescuer(threads[t]) + Rescuer(x)
    ensures Total(threads[t := x], Contribution) ==
            Total(threads, Contribution) - Contribution(threads[t]) + Contribution(x)
  {
    TotalUpdate(threads, Owner, t, x);
    TotalUpdate(threads, Sleeper, t, x);
    TotalUpdate(threads, Rescuer, t, x);
    TotalUpdate(threads, Contribution, t, x);
  }

  lemma Bounds(threads: seq<Thread>, t: nat)
    requires t < |threads|
    ensures Total(threads, Owner) >= Owner(threads[t])
    ensures Total(threads, Sleeper) >= Sleeper(threads[t]) && Total(threads, Rescuer) >= Rescuer(threads[t])
  {
    TotalAtLeast(threads, Owner, t);
    TotalAtLeast(threads, Sleeper, t);
    TotalAtLeast(threads, Rescuer, t);
  }

  lemma SleeperTotal(s: State)
    ensures NobodyAsleep(s) ==> Total(s.threads, Sleeper) == 0
  {
    TotalNonNegative(s.threads, Sleeper);
    if Total(s.threads, Sleeper) > 0 {
      var k := TotalWitness(s.threads, Sleeper);
    }
  }

  /** The part of the invariant that speaks of one thread at a time. */
  lemma PerformKeepsThreads(s: State, t: nat)
    requires Inv(s) && t < |s.threads| && PerformBy(s, t).Some?
    ensures var s' := PerformBy(s, t).value;
            forall k :: 0 <= k < |s.threads| ==> ThreadInv(s'.threads[k], s'.counter)
  {
    var s' := PerformBy(s, t).value;
    assert ThreadInv(s.threads[t], s.counter);
    forall k | 0 <= k < |s.threads| ensures ThreadInv(s'.threads[k], s'.counter) {
      assert ThreadInv(s.threads[k], s.counter);
      if k != t {
        OwnersAreUnique(s, k, t);
      }
    }
  }

  /** The part that speaks of totals. */
  lemma PerformKeepsTotals(s: State, t: nat)
    requires Inv(s) && t < |s.threads| && PerformBy(s, t).Some?
    ensures var s' := PerformBy(s, t).value;
            && 0 <= s'.word <= 2
            && Total(s'.threads, Owner) == One(s'.word != 0)
            && (Total(s'.threads, Sleeper) > 0 ==> s'.word == 2 || Total(s'.threads, Rescuer) > 0)
            && s'.counter == Total(s'.threads, Contribution)
  {
    hide Total;
    var s' := PerformBy(s, t).value;
    var x := s'.threads[t];
    assert s'.threads == s.threads[t := x];
    UpdateTotals(s.threads, t, x);
    Bounds(s.threads, t);
    Bounds(s'.threads, t);
    SleeperTotal(s);
    assert ThreadInv(s.threads[t], s.counter);
  }

  lemma PerformKeepsInv(s: State, t: nat)
    requires Inv(s) && t < |s.threads| && PerformBy(s, t).Some?
    ensures Inv(PerformBy(s, t).value)
  {
    PerformKeepsThreads(s, t);
    PerformKeepsTotals(s, t);
  }

  lemma WakeUpKeepsInv(s: State, t: nat, z: nat)
    requires Inv(s) && Step(s, WakeUp(t, z)).Some?
    ensures Inv(Step(s, WakeUp(t, z)).value)
  {
    hide Total;
    var x := AfterUnlock(s.threads[t]);
    var woken := s.threads[z].(pc := Exchange);
    var threads := s.threads[t := x];
    var threads' := threads[z := woken];
    assert ThreadInv(s.threads[t], s.counter) && ThreadInv(s.threads[z], s.counter);
    UpdateTotals(s.threads, t, x);
    UpdateTotals(threads, z, woken);
    Bounds(threads', z);
    assert Step(s, WakeUp(t, z)).value.threads == threads';
  }

  lemma SpuriousKeepsInv(s: State, z: nat)
    requires Inv(s) && Step(s, Spurious(z)).Some?
    ensures Inv(Step(s, Spurious(z)).value)
  {
    var woken := s.threads[z].(pc := Exchange);
    assert ThreadInv(s.threads[z], s.counter);
    UpdateTotals(s.threads, z, woken);
    Bounds(s.threads[z := woken], z);
  }

  lemma StepKeepsInv(s: State, a: Action)
    requires Inv(s) && Step(s, a).Some?
    ensures Inv(Step(s, a).value)
  {
    match a
    case Perform(t) => PerformKeepsInv(s, t);
    case WakeUp(t, z) => WakeUpKeepsInv(s, t, z);
    case Spurious(z) => SpuriousKeepsInv(s, z);
  }

  lemma InitInv(s: State)
    requires Init(s)
    ensures Inv(s)
  {
    TotalZero(s.threads, Owner);
    TotalZero(s.threads, Sleeper);
    TotalZero(s.threads, Contribution);
  }

  /** Threads never change their role or their number of iterations. */
  predicate SameProgram(s: State, s': State) {
    && |s.threads| == |s'.threads|
    && forall k :: 0 <= k < |s.threads| ==>
         s.threads[k].role == s'.threads[k].role && s.threads[k].iterations == s'.threads[k].iterations
  }

  lemma StepKeepsProgram(s: State, a: Action)
    requires Step(s, a).Some?
    ensures SameProgram(s, Step(s, a).value)
  {
  }

  /** `s` is reached from `init` by some interleaving. */
  ghost predicate Reaches(init: State, s: State) {
    Init(init) && exists actions: seq<Action> :: Run(Step, init, actions) == Some(s)
  }

  lemma ReachableInv(init: State, s: State)
    requires Reaches(init, s)
    ensures Inv(s) && SameProgram(init, s)
  {
    hide Step;
    var actions: seq<Action> :| Run(Step, init, actions) == Some(s);
    InitInv(init);
    var inv := s => Inv(s) && SameProgram(init, s);
    forall s, a | inv(s) && Step(s, a).Some? ensures inv(Step(s, a).value) {
      StepKeepsInv(s, a);
      StepKeepsProgram(s, a);
    }
    Invariance(Step, inv, init, actions);
  }

  // ---- Safety over all interleavings ----

  /** At most one thread owns the lock; the lock word is 0 exactly when none does. */
  lemma MutualExclusion(init: State, s: State)
    requires Reaches(init, s)
    ensures s.word in {0, 1, 2}
    ensures forall i, j :: 0 <= i < j < |s.threads| ==> Owner(s.threads[i]) + Owner(s.threads[j]) <= 1
    ensures s.word == 0 <==> forall k :: 0 <= k < |s.threads| ==> Owner(s.threads[k]) == 0
  {
    ReachableInv(init, s);
    forall i, j | 0 <= i < j < |s.threads| ensures Owner(s.threads[i]) + Owner(s.threads[j]) <= 1 {
      OwnersAreUnique(s, i, j);
    }
    forall k | 0 <= k < |s.threads| ensures Owner(s.threads[k]) <= Total(s.threads, Owner) {
      Bounds(s.threads, k);
    }
    if s.word != 0 {
      var k := TotalWitness(s.threads, Owner);
    }
  }

  /** No lost wake-up: whoever sleeps, somebody is still bound to act. */
  lemma NoLostWakeUp(init: State, s: State, z: nat)
    requires Reaches(init, s) && z < |s.threads| && s.threads[z].pc.Asleep?
    ensures s.word == 2 || exists k :: 0 <= k < |s.threads| && Rescuer(s.threads[k]) == 1
    ensures exists k :: 0 <= k < |s.threads| && !s.threads[k].pc.Asleep? && !s.threads[k].pc.Done?
  {
    ReachableInv(init, s);
    Bounds(s.threads, z);
    var k;
    if s.word == 2 {
      k := TotalWitness(s.threads, Owner);
    } else {
      k := TotalWitness(s.threads, Rescuer);
      assert Rescuer(s.threads[k]) == 1;
    }
    assert !s.threads[k].pc.Asleep? && !s.threads[k].pc.Done?;
  }

  // ---- Every reachable state can be finished ----

  predicate AllDone(s: State) {
    forall k :: 0 <= k < |s.threads| ==> s.threads[k].pc.Done?
  }

  function PcRank(pc: Pc): nat {
    match pc
    case FutexWait => 8 case Asleep => 8 case CompareExchange => 7 case Exchange => 7
    case Load => 6 case Store(_) => 5 case FetchSub => 4 case StoreZero => 3 case FutexWake => 2 case Done => 0
  }

  /** Steps the thread still needs if nobody gets in its way. */
  function Work(t: Thread): int { 10 * (t.iterations - t.i) + PcRank(t.pc) }

  lemma WorkNonNegative(s: State)
    requires Inv(s)
    ensures Total(s.threads, Work) >= 0
  {
    forall k | 0 <= k < |s.threads| ensures Work(s.threads[k]) >= 0 {
      assert ThreadInv(s.threads[k], s.counter);
    }
    TotalNonNegative(s.threads, Work);
  }

  /** With the lock free, a thread that is neither done nor asleep exists if any is unfinished. */
  lemma SomebodyAwake(s: State) returns (t: nat)
    requires Inv(s) && !AllDone(s) && s.word == 0
    ensures t < |s.threads| && !s.threads[t].pc.Done? && !s.threads[t].pc.Asleep?
  {
    t :| 0 <= t < |s.threads| && !s.threads[t].pc.Done?;
    if s.threads[t].pc.Asleep? {
      Bounds(s.threads, t);
      t := TotalWitness(s.threads, Rescuer);
    }
  }

  lemma PerformReducesWork(s: State, t: nat)
    requires Inv(s) && t < |s.threads| && PerformBy(s, t).Some?
    requires s.word == 0 || Owner(s.threads[t]) == 1
    ensures Total(PerformBy(s, t).value.threads, Work) < Total(s.threads, Work)
  {
    var s' := PerformBy(s, t).value;
    Bounds(s.threads, t);
    assert ThreadInv(s.threads[t], s.counter);
    assert s'.threads == s.threads[t := s'.threads[t]];
    TotalUpdate(s.threads, Work, t, s'.threads[t]);
  }

  /** The owner if there is one, else anybody awake: one step nearer the end. */
  lemma Progress(s: State) returns (a: Action)
    requires Inv(s) && !AllDone(s)
    ensures Step(s, a).Some? && !a.Spurious?
    ensures Total(Step(s, a).value.threads, Work) < Total(s.threads, Work)
  {
    var t: nat;
    if s.word != 0 {
      t := TotalWitness(s.threads, Owner);
    } else {
      t := SomebodyAwake(s);
    }
    if s.threads[t].pc.FutexWake? && !NobodyAsleep(s) {
      var z :| 0 <= z < |s.threads| && s.threads[z].pc.Asleep?;
      a := WakeUp(t, z);
      assert ThreadInv(s.threads[t], s.counter);
      var x := AfterUnlock(s.threads[t]);
      TotalUpdate(s.threads, Work, t, x);
      TotalUpdate(s.threads[t := x], Work, z, s.threads[z].(pc := Exchange));
    } else {
      a := Perform(t);
      PerformReducesWork(s, t);
    }
  }

  /** From every state that keeps the invariant all threads can still end,
      without relying on a single spurious wake-up. */
  lemma {:induction false} CanFinishFrom(s: State) returns (actions: seq<Action>)
    requires Inv(s)
    ensures Run(Step, s, actions).Some? && AllDone(Run(Step, s, actions).value)
    ensures forall k :: 0 <= k < |actions| ==> !actions[k].Spurious?
    decreases Total(s.threads, Work)
  {
    if AllDone(s) {
      actions := [];
    } else {
      var a := Progress(s);
      StepKeepsInv(s, a);
      WorkNonNegative(s);
      var rest := CanFinishFrom(Step(s, a).value);
      actions := [a] + rest;
      assert actions[1..] == rest;
    }
  }

  lemma CanFinish(init: State, s: State) returns (actions: seq<Action>)
    requires Reaches(init, s)
    ensures Run(Step, s, actions).Some? && AllDone(Run(Step, s, actions).value)
    ensures forall k :: 0 <= k < |actions| ==> !actions[k].Spurious?
  {
    ReachableInv(init, s);
    actions := CanFinishFrom(s);
  }

  // ---- What a round costs ----

  /** Alone at a free lock, a round takes four operations, no system call, and leaves
      the lock free; the counter has moved by one. */
  lemma FreeRound(s: State, t: nat)
    requires t < |s.threads| && s.word == 0 && s.threads[t].pc.CompareExchange?
    ensures var p := Perform(t);
            && Run(Step, s, [p, p, p, p]).Some?
            && var s', me := Run(Step, s, [p, p, p, p]).value, s.threads[t];
               && s'.word == 0 && s'.counter == s.counter + (if me.role.Incrementer? then 1 else -1)
               && |s'.threads| == |s.threads| && s'.threads[t].i == me.i + 1
               && s'.threads[t].pc == (if me.i + 1 < me.iterations then CompareExchange else Done)
               && forall k :: 0 <= k < |s.threads| && k != t ==> s'.threads[k] == s.threads[k]
  {
    var p := Perform(t);
    var s1 := Step(s, p).value;
    var s2 := Step(s1, p).value;
    var s3 := Step(s2, p).value;
    var s4 := Step(s3, p).value;
    assert [p, p, p, p][1..] == [p, p, p] && [p, p, p][1..] == [p, p] && [p, p][1..] == [p] && [p][1..] == [];
    assert Run(Step, s2, [p, p]) == Run(Step, s3, [p]) == Run(Step, s4, []) == Some(s4);
    assert Run(Step, s, [p, p, p, p]) == Run(Step, s1, [p, p, p]) == Run(Step, s2, [p, p]);
  }

  /** At a lock that is taken, three operations put the thread to sleep, with the word
      telling the owner that somebody waits. */
  lemma TakenPutsToSleep(s: State, t: nat)
    requires t < |s.threads| && s.word in {1, 2} && s.threads[t].pc.CompareExchange?
    ensures var p := Perform(t);
            && Run(Step, s, [p, p, p]).Some?
            && var s' := Run(Step, s, [p, p, p]).value;
               && s'.word == 2 && s'.counter == s.counter
               && s'.threads == s.threads[t := s.threads[t].(pc := Asleep)]
  {
    var p := Perform(t);
    var s1 := Step(s, p).value;
    var s2 := Step(s1, p).value;
    var s3 := Step(s2, p).value;
    assert [p, p, p][1..] == [p, p] && [p, p][1..] == [p] && [p][1..] == [];
    assert Run(Step, s, [p, p, p]) == Run(Step, s1, [p, p]) == Run(Step, s2, [p]) == Run(Step, s3, []) == Some(s3);
  }

  /** The owner of a lock at which somebody sleeps frees it and wakes one sleeper, no more. */
  lemma UnlockWakesOne(s: State, t: nat, z: nat)
    requires t < |s.threads| && z < |s.threads| && s.word == 2 && s.threads[t].pc.FetchSub? && s.threads[z].pc.Asleep?
    ensures var steps := [Perform(t), Perform(t), WakeUp(t, z)];
            && Run(Step, s, steps).Some?
            && var s' := Run(Step, s, steps).value;
               && s'.word == 0 && |s'.threads| == |s.threads|
               && s'.threads[z].pc.Exchange? && s'.threads[t] == AfterUnlock(s.threads[t])
               && forall k :: 0 <= k < |s.threads| && k != t && k != z ==> s'.threads[k] == s.threads[k]
  {
    var p, w := Perform(t), WakeUp(t, z);
    var s1 := Step(s, p).value;
    var s2 := Step(s1, p).value;
    var s3 := Step(s2, w).value;
    assert [p, p, w][1..] == [p, w] && [p, w][1..] == [w] && [w][1..] == [];
    assert Run(Step, s, [p, p, w]) == Run(Step, s1, [p, w]) == Run(Step, s2, [w]) == Run(Step, s3, []) == Some(s3);
  }

  // ---- The counter ----

  /** What a thread is going to add in all. */
  function Promise(t: Thread): int {
    if t.role.Incrementer? then t.iterations else 0 - t.iterations
  }

  function Positive(t: Thread): int { if t.role.Incrementer? then t.iterations else 0 }
  function Negative(t: Thread): int { if t.role.Incrementer? then 0 else 0 - t.iterations }
  function Sign(t: Thread): int { t.role.Delta() }

  /** No update is lost: when all threads have ended the counter is increments minus decrements. */
  lemma FinalCounter(init: State, s: State)
    requires Reaches(init, s) && AllDone(s)
    ensures s.counter == Total(init.threads, Promise)
  {
    ReachableInv(init, s);
    forall k | 0 <= k < |s.threads| ensures Contribution(s.threads[k]) == Promise(init.threads[k]) {
      assert ThreadInv(s.threads[k], s.counter);
    }
    TotalCongruent(s.threads, init.threads, Contribution, Promise);
  }

  lemma {:induction false} EqualIterations(threads: seq<Thread>, n: nat)
    requires forall k :: 0 <= k < |threads| ==> threads[k].iterations == n
    ensures Total(threads, Promise) == n * Total(threads, Sign)
  {
    if threads != [] { EqualIterations(threads[1..], n); }
  }

  /** The program of `main`: as many decrementers as incrementers leave 0. */
  lemma BalancedProgramEndsAtZero(init: State, s: State, n: nat)
    requires Reaches(init, s) && AllDone(s)
    requires forall k :: 0 <= k < |init.threads| ==> init.threads[k].iterations == n
    requires Total(init.threads, Sign) == 0
    ensures s.counter == 0
  {
    FinalCounter(init, s);
    EqualIterations(init.threads, n);
  }

  /** The counter stays within what the threads can add and subtract, so with
      the source's 4 * 10000000 steps either way an `int` never overflows. */
  lemma CounterRange(init: State, s: State)
    requires Reaches(init, s)
    ensures Total(init.threads, Negative) <= s.counter <= Total(init.threads, Positive)
  {
    ReachableInv(init, s);
    forall k | 0 <= k < |s.threads|
      ensures Negative(s.threads[k]) <= Contribution(s.threads[k]) <= Positive(s.threads[k])
    {
      assert ThreadInv(s.threads[k], s.counter);
    }
    TotalMonotone(s.threads, Negative, Contribution);
    TotalMonotone(s.threads, Contribution, Positive);
    TotalCongruent(s.threads, init.threads, Negative, Negative);
    TotalCongruent(s.threads, init.threads, Positive, Positive);
  }

  // ---- The program itself: threads share two words of memory ----

  class Program {
    var word: int              // futex_mutex_t.state
    var counter: int
    const threads: array<Thread>

    constructor (roles: seq<Role>, iterations: nat)
      ensures fresh(threads) && Init(View())
      ensures threads.Length == |roles|
      ensures forall k :: 0 <= k < |roles| ==>
                threads[k].role == roles[k] && threads[k].iterations == iterations && threads[k].i == 0
    {
      word, counter := 0, 0;
      threads := new Thread[|roles|](k requires 0 <= k < |roles| =>
        LoopTest(Thread(roles[k], iterations, 0, Done)));
    }

    ghost function View(): State reads this, threads {
      State(word, counter, threads[..])
    }

    /** `lock`: one atomic operation on the lock word or one system call. */
    method Lock(t: nat)
      requires t < threads.Length
      requires threads[t].pc.CompareExchange? || threads[t].pc.Exchange? || threads[t].pc.FutexWait?
      modifies this`word, threads
      ensures Step(old(View()), Perform(t)) == Some(View())
    {
      match threads[t].pc {
        case CompareExchange =>
          if word == 0 {
            word := 1;
            threads[t] := threads[t].(pc := Load);
          } else {
            threads[t] := threads[t].(pc := Exchange);
          }
        case Exchange =>
          var previous := word;
          word := 2;
          threads[t] := threads[t].(pc := if previous != 0 then FutexWait else Load);
        case FutexWait =>
          threads[t] := threads[t].(pc := if word == 2 then Asleep else Exchange);
      }
    }

    /** `(*counter)++` and `(*counter)--`: a load, then a store. */
    method Access(t: nat)
      requires t < threads.Length && (threads[t].pc.Load? || threads[t].pc.Store?)
      modifies this`counter, threads
      ensures Step(old(View()), Perform(t)) == Some(View())
    {
      if threads[t].pc.Load? {
        threads[t] := threads[t].(pc := Store(counter));
      } else {
        counter := threads[t].pc.v + threads[t].role.Delta();
        threads[t] := threads[t].(pc := FetchSub);
      }
    }

    /** `unlock`: one operation; `sleeper` is the kernel's choice, if it has one. */
    method Unlock(t: nat, sleeper: Option<nat>)
      requires t < threads.Length
      requires threads[t].pc.FetchSub? || threads[t].pc.StoreZero? || threads[t].pc.FutexWake?
      requires sleeper.Some? <==> threads[t].pc.FutexWake? && !NobodyAsleep(View())
      requires sleeper.Some? ==> sleeper.value < threads.Length && threads[sleeper.value].pc.Asleep?
      modifies this`word, threads
      ensures Step(old(View()), if sleeper.Some? then WakeUp(t, sleeper.value) else Perform(t)) == Some(View())
    {
      match threads[t].pc {
        case FetchSub =>
          word := word - 1;
          threads[t] := if word != 0 then threads[t].(pc := StoreZero) else AfterUnlock(threads[t]);
        case StoreZero =>
          word := 0;
          threads[t] := threads[t].(pc := FutexWake);
        case FutexWake =>
          threads[t] := AfterUnlock(threads[t]);
          if sleeper.Some? {
            threads[sleeper.value] := threads[sleeper.value].(pc := Exchange);
          }
      }
    }
  }
}

/** The monitor of `readers_writers_cv.c`, for any numbers of readers and writers.
    One condition variable serves both; a leaving writer broadcasts, the last
    leaving reader only signals.  Waiting releases the mutex and joins the wait
    set in one step; a waiter may also wake up for no reason. */
module ReadersWriters {
  import opened Wrappers
  import opened Traces
  import opened Counting

  datatype Role = Reader | Writer

  datatype Pc =
    | Lock           // entry: lock the mutex
    | Test           // entry: the loop test, mutex held
    | Waiting        // in the wait set
    | Woken          // has to lock the mutex again
    | Count          // readers_count++ or writers_count++
    | Unlock         // leave the entry section
    | Load           // writer: load shared_data
    | Store(v: int)  // writer: store v + 10
    | Read           // reader: print shared_data
    | Relock         // exit: lock the mutex
    | Uncount        // readers_count-- or writers_count--
    | Notify         // broadcast, or signal if no reader is left
    | UnlockExit     // leave the exit section

  datatype Thread = Thread(role: Role, pc: Pc)

  datatype State = State(locked: bool, readers: int, writers: int, data: int, threads: seq<Thread>)

  datatype Action =
    | Perform(t: nat)
    | Signal(t: nat, z: nat)   // t's pthread_cond_signal wakes z
    | Spurious(z: nat)         // z wakes for no reason

  predicate MustWait(s: State, role: Role) {
    if role.Writer? then s.readers > 0 || s.writers > 0 else s.writers > 0
  }

  predicate NobodyWaits(s: State) {
    forall k :: 0 <= k < |s.threads| ==> !s.threads[k].pc.Waiting?
  }

  function Goto(s: State, t: nat, pc: Pc): State
    requires t < |s.threads|
  {
    s.(threads := s.threads[t := s.threads[t].(pc := pc)])
  }

  function Awaken(t: Thread): Thread { if t.pc.Waiting? then t.(pc := Woken) else t }

  function Broadcast(threads: seq<Thread>): seq<Thread> {
    seq(|threads|, k requires 0 <= k < |threads| => Awaken(threads[k]))
  }

  /** The next operation of thread t; `None` when it has to wait. */
  function PerformBy(s: State, t: nat): Option<State>
    requires t < |s.threads|
  {
    var me := s.threads[t];
    var w := me.role.Writer?;
    match me.pc
    case Lock => if s.locked then None else Some(Goto(s, t, Test).(locked := true))
    case Woken => if s.locked then None else Some(Goto(s, t, Test).(locked := true))
    case Test =>
      if MustWait(s, me.role) then Some(Goto(s, t, Waiting).(locked := false)) else Some(Goto(s, t, Count))
    case Waiting => None
    case Count =>
      var s' := Goto(s, t, Unlock);
      Some(if w then s'.(writers := s.writers + 1) else s'.(readers := s.readers + 1))
    case Unlock => Some(Goto(s, t, if w then Load else Read).(locked := false))
    case Load => if w then Some(Goto(s, t, Store(s.data))) else None
    case Store(v) => if w then Some(Goto(s, t, Relock).(data := v + 10)) else None
    case Read => if w then None else Some(Goto(s, t, Relock))
    case Relock => if s.locked then None else Some(Goto(s, t, Uncount).(locked := true))
    case Uncount =>
      var s' := Goto(s, t, Notify);
      Some(if w then s'.(writers := s.writers - 1) else s'.(readers := s.readers - 1))
    case Notify =>
      if w then Some(Goto(s.(threads := Broadcast(s.threads)), t, UnlockExit))
      else if s.readers == 0 && !NobodyWaits(s) then None
      else Some(Goto(s, t, UnlockExit))
    case UnlockExit => Some(Goto(s, t, Lock).(locked := false))
  }

  function Step(s: State, a: Action): Option<State> {
    match a
    case Perform(t) => if t < |s.threads| then PerformBy(s, t) else None
    case Signal(t, z) =>
      if t < |s.threads| && z < |s.threads| && s.threads[t] == Thread(Reader, Notify) && s.readers == 0 &&
         s.threads[z].pc.Waiting?
      then Some(Goto(Goto(s, t, UnlockExit), z, Woken))
      else None
    case Spurious(z) =>
      if z < |s.threads| && s.threads[z].pc.Waiting? then Some(Goto(s, z, Woken)) else None
  }

  predicate Init(s: State) {
    && !s.locked && s.readers == 0 && s.writers == 0 && s.data == 0
    && forall k :: 0 <= k < |s.threads| ==> s.threads[k].pc.Lock?
  }

  // ---- What is counted over the threads ----

  function Holding(t: Thread): int {
    One(t.pc.Test? || t.pc.Count? || t.pc.Unlock? || t.pc.Uncount? || t.pc.Notify? || t.pc.UnlockExit?)
  }

  predicate Inside(t: Thread) {
    t.pc.Unlock? || t.pc.Load? || t.pc.Store? || t.pc.Read? || t.pc.Relock? || t.pc.Uncount?
  }

  function WriterInside(t: Thread): int { One(t.role.Writer? && Inside(t)) }
  function ReaderInside(t: Thread): int { One(t.role.Reader? && Inside(t)) }

  function Waiter(t: Thread): int { One(t.pc.Waiting?) }
  function WaitingReader(t: Thread): int { One(t.role.Reader? && t.pc.Waiting?) }
  function Broadcaster(t: Thread): int { One(t.role.Writer? && t.pc.Notify?) }

  /** About to notify, or a writer that has been woken and not yet entered. */
  function Helper(t: Thread): int {
    One(t.pc.Notify? || (t.role.Writer? && (t.pc.Woken? || t.pc.Test? || t.pc.Count?)))
  }

  // ---- Invariant ----

  predicate ThreadInv(s: State, t: Thread) {
    && (t.pc.Count? ==> !MustWait(s, t.role))
    && (t.pc.Notify? && t.role.Reader? ==> s.writers == 0)
    && (t.pc.Store? ==> t.role.Writer? && t.pc.v == s.data)
    && (t.pc.Load? ==> t.role.Writer?)
    && (t.pc.Read? ==> t.role.Reader?)
  }

  ghost predicate CountInv(s: State) {
    && Total(s.threads, Holding) == One(s.locked)
    && s.writers == Total(s.threads, WriterInside)
    && s.readers == Total(s.threads, ReaderInside)
  }

  ghost predicate AccessInv(s: State) {
    && 0 <= s.writers <= 1 && 0 <= s.readers && (s.writers == 1 ==> s.readers == 0)
    && forall k :: 0 <= k < |s.threads| ==> ThreadInv(s, s.threads[k])
  }

  /** Readers wait only for a writer; nobody waits without somebody bound to notify. */
  ghost predicate WakeInv(s: State) {
    && (Total(s.threads, WaitingReader) > 0 ==> s.writers > 0 || Total(s.threads, Broadcaster) > 0)
    && (Total(s.threads, Waiter) > 0 ==> s.readers > 0 || s.writers > 0 || Total(s.threads, Helper) > 0)
  }

  ghost predicate Inv(s: State) { CountInv(s) && AccessInv(s) && WakeInv(s) }

  lemma UpdateCounts(threads: seq<Thread>, t: nat, x: Thread)
    requires t < |threads|
    ensures Total(threads[t := x], Holding) == Total(threads, Holding) - Holding(threads[t]) + Holding(x)
    ensures Total(threads[t := x], WriterInside) ==
            Total(threads, WriterInside) - WriterInside(threads[t]) + WriterInside(x)
    ensures Total(threads[t := x], ReaderInside) ==
            Total(threads, ReaderInside) - ReaderInside(threads[t]) + ReaderInside(x)
  {
    TotalUpdate(threads, Holding, t, x);
    TotalUpdate(threads, WriterInside, t, x);
    TotalUpdate(threads, ReaderInside, t, x);
  }

  lemma UpdateWakes(threads: seq<Thread>, t: nat, x: Thread)
    requires t < |threads|
    ensures Total(threads[t := x], Waiter) == Total(threads, Waiter) - Waiter(threads[t]) + Waiter(x)
    ensures Total(threads[t := x], WaitingReader) ==
            Total(threads, WaitingReader) - WaitingReader(threads[t]) + WaitingReader(x)
    ensures Total(threads[t := x], Broadcaster) ==
            Total(threads, Broadcaster) - Broadcaster(threads[t]) + Broadcaster(x)
    ensures Total(threads[t := x], Helper) == Total(threads, Helper) - Helper(threads[t]) + Helper(x)
    ensures Total(threads[t := x], Waiter) >= Waiter(x) && Total(threads[t := x], Helper) >= Helper(x)
    ensures Total(threads[t := x], Broadcaster) >= Broadcaster(x)
    ensures Total(threads[t := x], WaitingReader) >= 0
  {
    TotalUpdate(threads, Waiter, t, x);
    TotalUpdate(threads, WaitingReader, t, x);
    TotalUpdate(threads, Broadcaster, t, x);
    TotalUpdate(threads, Helper, t, x);
    TotalAtLeast(threads[t := x], Waiter, t);
    TotalAtLeast(threads[t := x], Helper, t);
    TotalAtLeast(threads[t := x], Broadcaster, t);
    TotalNonNegative(threads[t := x], WaitingReader);
  }

  lemma BroadcastTotals(threads: seq<Thread>)
    ensures Total(Broadcast(threads), Holding) == Total(threads, Holding)
    ensures Total(Broadcast(threads), WriterInside) == Total(threads, WriterInside)
    ensures Total(Broadcast(threads), ReaderInside) == Total(threads, ReaderInside)
    ensures Total(Broadcast(threads), Waiter) == 0 && Total(Broadcast(threads), WaitingReader) == 0
  {
    TotalCongruent(Broadcast(threads), threads, Holding, Holding);
    TotalCongruent(Broadcast(threads), threads, WriterInside, WriterInside);
    TotalCongruent(Broadcast(threads), threads, ReaderInside, ReaderInside);
    TotalZero(Broadcast(threads), Waiter);
    TotalZero(Broadcast(threads), WaitingReader);
  }

  /** At most one thread holds the mutex, at most one writer is inside. */
  lemma Exclusive(s: State, i: nat, j: nat)
    requires CountInv(s) && s.writers <= 1 && i < |s.threads| && j < |s.threads| && i != j
    ensures Holding(s.threads[i]) + Holding(s.threads[j]) <= 1
    ensures WriterInside(s.threads[i]) + WriterInside(s.threads[j]) <= 1
  {
    var a, b := if i < j then i else j, if i < j then j else i;
    TotalAtLeastTwo(s.threads, Holding, a, b);
    TotalAtLeastTwo(s.threads, WriterInside, a, b);
  }

  lemma Bounds(s: State, t: nat)
    requires t < |s.threads|
    ensures Total(s.threads, Holding) >= Holding(s.threads[t])
    ensures Total(s.threads, WriterInside) >= WriterInside(s.threads[t])
    ensures Total(s.threads, ReaderInside) >= ReaderInside(s.threads[t])
  {
    TotalAtLeast(s.threads, Holding, t);
    TotalAtLeast(s.threads, WriterInside, t);
    TotalAtLeast(s.threads, ReaderInside, t);
  }

  predicate Broadcasts(s: State, t: nat)
    requires t < |s.threads|
  {
    s.threads[t] == Thread(Writer, Notify)
  }

  /** What one operation does to the mutex and the counts, the thread accounts for. */
  lemma PerformBalances(s: State, t: nat)
    requires t < |s.threads| && PerformBy(s, t).Some?
    requires Holding(s.threads[t]) == 1 ==> s.locked
    ensures |PerformBy(s, t).value.threads| == |s.threads|
    ensures PerformBy(s, t).value.threads ==
            (if Broadcasts(s, t) then Broadcast(s.threads) else s.threads)[t := PerformBy(s, t).value.threads[t]]
    ensures Accounts(s, PerformBy(s, t).value, t)
  {
    PerformAccounts(s, t);
  }

  predicate Accounts(s: State, s': State, t: nat)
    requires t < |s.threads| == |s'.threads|
  {
    && One(s'.locked) - Holding(s'.threads[t]) == One(s.locked) - Holding(s.threads[t])
    && s'.writers - WriterInside(s'.threads[t]) == s.writers - WriterInside(s.threads[t])
    && s'.readers - ReaderInside(s'.threads[t]) == s.readers - ReaderInside(s.threads[t])
  }

  lemma PerformAccounts(s: State, t: nat)
    requires t < |s.threads| && PerformBy(s, t).Some? && |PerformBy(s, t).value.threads| == |s.threads|
    requires Holding(s.threads[t]) == 1 ==> s.locked
    ensures Accounts(s, PerformBy(s, t).value, t)
  {
  }

  lemma PerformKeepsCounts(s: State, t: nat)
    requires CountInv(s) && t < |s.threads| && PerformBy(s, t).Some?
    ensures CountInv(PerformBy(s, t).value)
  {
    Bounds(s, t);
    PerformBalances(s, t);
    BroadcastTotals(s.threads);
    UpdateCounts(if Broadcasts(s, t) then Broadcast(s.threads) else s.threads, t, PerformBy(s, t).value.threads[t]);
  }

  lemma OwnThreadInv(s: State, t: nat)
    requires CountInv(s) && AccessInv(s) && t < |s.threads| && PerformBy(s, t).Some?
    ensures var s' := PerformBy(s, t).value;
            && 0 <= s'.writers <= 1 && 0 <= s'.readers && (s'.writers == 1 ==> s'.readers == 0)
            && ThreadInv(s', s'.threads[t])
  {
    assert ThreadInv(s, s.threads[t]);
    Bounds(s, t);
  }

  lemma OtherThreadInv(s: State, t: nat, k: nat)
    requires CountInv(s) && AccessInv(s) && t < |s.threads| && PerformBy(s, t).Some?
    requires k < |s.threads| && k != t
    ensures ThreadInv(PerformBy(s, t).value, PerformBy(s, t).value.threads[k])
  {
    assert ThreadInv(s, s.threads[k]) && ThreadInv(s, s.threads[t]);
    Bounds(s, k);
    Exclusive(s, k, t);
  }

  lemma PerformKeepsAccess(s: State, t: nat)
    requires CountInv(s) && AccessInv(s) && t < |s.threads| && PerformBy(s, t).Some?
    ensures AccessInv(PerformBy(s, t).value)
  {
    var s' := PerformBy(s, t).value;
    OwnThreadInv(s, t);
    forall k | 0 <= k < |s'.threads| ensures ThreadInv(s', s'.threads[k]) {
      if k != t { OtherThreadInv(s, t, k); }
    }
  }

  lemma PerformKeepsWake(s: State, t: nat)
    requires Inv(s) && t < |s.threads| && PerformBy(s, t).Some?
    ensures WakeInv(PerformBy(s, t).value)
  {
    var s' := PerformBy(s, t).value;
    Bounds(s, t);
    PerformBalances(s, t);
    assert ThreadInv(s, s.threads[t]);
    if Broadcasts(s, t) {
      BroadcastTotals(s.threads);
      UpdateWakes(Broadcast(s.threads), t, s'.threads[t]);
    } else {
      WaiterTotal(s);
      UpdateWakes(s.threads, t, s'.threads[t]);
    }
  }

  lemma WaiterTotal(s: State)
    ensures NobodyWaits(s) ==> Total(s.threads, Waiter) == 0
  {
    if NobodyWaits(s) { TotalZero(s.threads, Waiter); }
  }

  /** The last reader's signal cannot be caught by a reader: none is waiting. */
  lemma SignalReachesWriter(s: State, t: nat, z: nat)
    requires Inv(s) && Step(s, Signal(t, z)).Some?
    ensures s.threads[z].role.Writer?
  {
    assert ThreadInv(s, s.threads[t]);
    if s.threads[z].role.Reader? {
      TotalAtLeast(s.threads, WaitingReader, z);
      var b := TotalWitness(s.threads, Broadcaster);
      Exclusive(s, b, t);
    }
  }

  lemma SignalKeepsInv(s: State, t: nat, z: nat)
    requires Inv(s) && Step(s, Signal(t, z)).Some?
    ensures Inv(Step(s, Signal(t, z)).value)
  {
    hide Total;
    SignalReachesWriter(s, t, z);
    var x := s.threads[t].(pc := UnlockExit);
    var y := s.threads[z].(pc := Woken);
    UpdateCounts(s.threads, t, x);
    UpdateCounts(s.threads[t := x], z, y);
    UpdateWakes(s.threads, t, x);
    UpdateWakes(s.threads[t := x], z, y);
    var s' := Step(s, Signal(t, z)).value;
    forall k | 0 <= k < |s.threads| ensures ThreadInv(s', s'.threads[k]) {
      assert ThreadInv(s, s.threads[k]);
    }
  }

  lemma SpuriousKeepsInv(s: State, z: nat)
    requires Inv(s) && Step(s, Spurious(z)).Some?
    ensures Inv(Step(s, Spurious(z)).value)
  {
    var y := s.threads[z].(pc := Woken);
    UpdateCounts(s.threads, z, y);
    UpdateWakes(s.threads, z, y);
    var s' := Step(s, Spurious(z)).value;
    forall k | 0 <= k < |s.threads| ensures ThreadInv(s', s'.threads[k]) {
      assert ThreadInv(s, s.threads[k]);
    }
  }

  lemma StepKeepsInv(s: State, a: Action)
    requires Inv(s) && Step(s, a).Some?
    ensures Inv(Step(s, a).value)
  {
    match a
    case Perform(t) =>
      PerformKeepsCounts(s, t);
      PerformKeepsAccess(s, t);
      PerformKeepsWake(s, t);
    case Signal(t, z) => SignalKeepsInv(s, t, z);
    case Spurious(z) => SpuriousKeepsInv(s, z);
  }

  lemma InitInv(s: State)
    requires Init(s)
    ensures Inv(s)
  {
    TotalZero(s.threads, Holding);
    TotalZero(s.threads, WriterInside);
    TotalZero(s.threads, ReaderInside);
    TotalZero(s.threads, Waiter);
    TotalZero(s.threads, WaitingReader);
  }

  ghost predicate Reaches(init: State, s: State) {
    Init(init) && exists actions: seq<Action> :: Run(Step, init, actions) == Some(s)
  }

  lemma ReachableInv(init: State, s: State)
    requires Reaches(init, s)
    ensures Inv(s)
  {
    hide Step;
    var actions: seq<Action> :| Run(Step, init, actions) == Some(s);
    InitInv(init);
    forall s, a | Inv(s) && Step(s, a).Some? ensures Inv(Step(s, a).value) {
      StepKeepsInv(s, a);
    }
    Invariance(Step, s => Inv(s), init, actions);
  }

  // ---- Safety over all interleavings ----

  /** In the body between the entry and the exit section. */
  predicate InBody(t: Thread) { t.pc.Load? || t.pc.Store? || t.pc.Read? }

  /** A writer inside excludes everybody else. */
  lemma Exclusion(init: State, s: State, i: nat, j: nat)
    requires Reaches(init, s) && i < |s.threads| && j < |s.threads| && i != j
    requires InBody(s.threads[i]) && s.threads[i].role.Writer?
    ensures !InBody(s.threads[j])
    ensures s.writers == 1 && s.readers == 0
  {
    ReachableInv(init, s);
    Bounds(s, i);
    Bounds(s, j);
    Exclusive(s, i, j);
  }

  /** A writer leaves its body: it was there before the step and is not after it. */
  predicate WriterLeaves(s: State, s': State, t: nat) {
    && t < |s.threads| && t < |s'.threads| && s.threads[t].role.Writer?
    && InBody(s.threads[t]) && !InBody(s'.threads[t])
  }

  /** How many times that happens in a run. */
  function Updates(s: State, actions: seq<Action>): nat
    decreases |actions|
  {
    if actions == [] || Step(s, actions[0]).None? then 0
    else
      var a, s' := actions[0], Step(s, actions[0]).value;
      One(a.Perform? && WriterLeaves(s, s', a.t)) + Updates(s', actions[1..])
  }

  lemma StepUpdates(s: State, a: Action)
    requires Inv(s) && Step(s, a).Some?
    ensures var s' := Step(s, a).value;
            s'.data == s.data + 10 * One(a.Perform? && WriterLeaves(s, s', a.t))
  {
    if a.Perform? { assert ThreadInv(s, s.threads[a.t]); }
  }

  lemma {:induction false} DataAfter(s: State, actions: seq<Action>)
    requires Inv(s) && Run(Step, s, actions).Some?
    ensures Run(Step, s, actions).value.data == s.data + 10 * Updates(s, actions)
    decreases |actions|
  {
    assert Updates(s, []) == 0;
    assert actions != [] ==>
        var a, s' := actions[0], Step(s, actions[0]).value;
        Updates(s, actions) == One(a.Perform? && WriterLeaves(s, s', a.t)) + Updates(s', actions[1..]);
    hide Step, Inv, Updates, WriterLeaves;
    if actions != [] {
      StepKeepsInv(s, actions[0]);
      StepUpdates(s, actions[0]);
      DataAfter(Step(s, actions[0]).value, actions[1..]);
    }
  }

  /** No update of shared_data is lost: it is ten for each time a writer has left its body. */
  lemma SharedData(init: State, actions: seq<Action>)
    requires Init(init) && Run(Step, init, actions).Some?
    ensures Run(Step, init, actions).value.data == 10 * Updates(init, actions)
  {
    InitInv(init);
    DataAfter(init, actions);
  }

  /** What a thread finds at the entry, with the mutex free: it has to wait exactly if a
      writer is inside, or, for a writer, anybody.  Readers do not keep readers out. */
  lemma EntersExactly(s: State, t: nat)
    requires t < |s.threads| && !s.locked && (s.threads[t].pc.Lock? || s.threads[t].pc.Woken?)
    ensures var role := s.threads[t].role;
            var waits := s.writers > 0 || (role.Writer? && s.readers > 0);
            var steps := if waits then [Perform(t), Perform(t)] else [Perform(t), Perform(t), Perform(t), Perform(t)];
            && Run(Step, s, steps).Some?
            && var s' := Run(Step, s, steps).value;
               && |s'.threads| == |s.threads| && !s'.locked
               && (if waits then s'.threads[t].pc.Waiting? else InBody(s'.threads[t]))
               && (forall k :: 0 <= k < |s.threads| && k != t ==> s'.threads[k] == s.threads[k])
  {
    var p := Perform(t);
    assert [p, p][1..] == [p] && [p][1..] == [];
    assert [p, p, p, p][1..] == [p, p, p] && [p, p, p][1..] == [p, p];
    var s1 := Step(s, p).value;
    var s2 := Step(s1, p).value;
    assert Run(Step, s, [p, p]) == Run(Step, s1, [p]) == Run(Step, s2, []) == Some(s2);
    if !(s.writers > 0 || (s.threads[t].role.Writer? && s.readers > 0)) {
      var s3 := Step(s2, p).value;
      var s4 := Step(s3, p).value;
      assert Run(Step, s2, [p, p]) == Run(Step, s3, [p]) == Run(Step, s4, []) == Some(s4);
      assert Run(Step, s, [p, p, p, p]) == Run(Step, s1, [p, p, p]) == Run(Step, s2, [p, p]);
    }
  }

  /** A leaving writer wakes everybody that waits; a leaving reader wakes nobody unless it is the last. */
  lemma WhoWakes(s: State, t: nat)
    requires t < |s.threads| && s.threads[t].pc.Notify?
    ensures s.threads[t].role.Writer? ==>
              Step(s, Perform(t)).Some? && NobodyWaits(Step(s, Perform(t)).value)
    ensures forall z {:trigger Step(s, Signal(t, z))} :: Step(s, Signal(t, z)).Some? ==>
              s.threads[t].role.Reader? && s.readers == 0
    ensures s.threads[t].role.Reader? && s.readers > 0 ==>
              && Step(s, Perform(t)).Some?
              && forall k :: 0 <= k < |s.threads| && k != t ==> Step(s, Perform(t)).value.threads[k] == s.threads[k]
  {
  }

  /** With the mutex free and no writer inside, no reader is in the wait set. */
  lemma NoReaderWaits(init: State, s: State, z: nat)
    requires Reaches(init, s) && !s.locked && s.writers == 0
    requires z < |s.threads| && s.threads[z].pc.Waiting?
    ensures s.threads[z].role.Writer?
  {
    ReachableInv(init, s);
    if s.threads[z].role.Reader? {
      TotalAtLeast(s.threads, WaitingReader, z);
      var b := TotalWitness(s.threads, Broadcaster);
      Bounds(s, b);
    }
  }

  /** The one signal of the last reader goes to a writer. */
  lemma SignalWakesWriter(init: State, s: State, t: nat, z: nat)
    requires Reaches(init, s) && Step(s, Signal(t, z)).Some?
    ensures s.threads[z].role.Writer?
  {
    ReachableInv(init, s);
    SignalReachesWriter(s, t, z);
  }

  /** With nobody inside and the mutex free, a waiter is never alone: a woken
      writer is there, and it can lock the mutex and will not have to wait again. */
  lemma WokenWriterCanProceed(init: State, s: State, z: nat)
    requires Reaches(init, s) && !s.locked && s.readers == 0 && s.writers == 0
    requires z < |s.threads| && s.threads[z].pc.Waiting?
    ensures exists k :: 0 <= k < |s.threads| && s.threads[k] == Thread(Writer, Woken) &&
              Step(s, Perform(k)).Some? && !MustWait(Step(s, Perform(k)).value, Writer)
  {
    ReachableInv(init, s);
    var k := HelperIsWokenWriter(s, z);
  }

  lemma HelperIsWokenWriter(s: State, z: nat) returns (k: nat)
    requires Inv(s) && !s.locked && s.readers == 0 && s.writers == 0
    requires z < |s.threads| && s.threads[z].pc.Waiting?
    ensures k < |s.threads| && s.threads[k] == Thread(Writer, Woken)
  {
    TotalAtLeast(s.threads, Waiter, z);
    k := TotalWitness(s.threads, Helper);
    Bounds(s, k);
  }

  // ---- Nobody is stranded: every thread can still get in ----

  predicate TestFails(s: State, t: Thread) { t.pc.Test? && MustWait(s, t.role) }

  ghost predicate SomeTestFails(s: State) {
    exists k :: 0 <= k < |s.threads| && TestFails(s, s.threads[k])
  }

  /** Steps to the end of the round, for a thread that has only to get out of the way. */
  function Rank(t: Thread): int {
    match t.pc
    case Waiting => 10 case Woken => 10 case Test => 9 case Count => 8 case Unlock => 7
    case Load => 6 case Read => 6 case Store(_) => 5 case Relock => 4 case Uncount => 3
    case Notify => 2 case UnlockExit => 1 case Lock => 0
  }

  /** Steps to its next stay inside, for the thread that we want to get in. */
  function TargetRank(t: Thread): int {
    match t.pc
    case Load => 0 case Store(_) => 0 case Read => 0
    case Relock => 12 case Uncount => 11 case Notify => 10 case UnlockExit => 9
    case Lock => 8 case Waiting => 8 case Woken => 8 case Test => 7 case Count => 6 case Unlock => 5
  }

  function Measure(s: State, t: nat): int
    requires t < |s.threads|
  {
    Total(s.threads, Rank) - Rank(s.threads[t]) + TargetRank(s.threads[t])
  }

  /** An action that brings thread t nearer without any help from chance. */
  ghost predicate Brings(s: State, a: Action, t: nat)
    requires t < |s.threads|
  {
    && Step(s, a).Some? && !a.Spurious?
    && var s' := Step(s, a).value;
       && |s'.threads| == |s.threads|
       && if SomeTestFails(s) then !SomeTestFails(s') else !SomeTestFails(s') && Measure(s', t) < Measure(s, t)
  }

  lemma RankUpdate(threads: seq<Thread>, u: nat, x: Thread)
    requires u < |threads|
    ensures Total(threads[u := x], Rank) == Total(threads, Rank) - Rank(threads[u]) + Rank(x)
    ensures Total(Broadcast(threads), Rank) == Total(threads, Rank)
    ensures Total(Broadcast(threads)[u := x], Rank) == Total(threads, Rank) - Rank(threads[u]) + Rank(x)
  {
    TotalUpdate(threads, Rank, u, x);
    TotalCongruent(Broadcast(threads), threads, Rank, Rank);
    TotalUpdate(Broadcast(threads), Rank, u, x);
  }

  /** The thread that steps moves nearer to its own goal, except when its test fails. */
  lemma OwnRankFalls(s: State, u: nat)
    requires u < |s.threads| && PerformBy(s, u).Some? && !TestFails(s, s.threads[u])
    ensures |PerformBy(s, u).value.threads| == |s.threads|
    ensures var x := PerformBy(s, u).value.threads[u];
            && (!s.threads[u].pc.Lock? ==> Rank(x) < Rank(s.threads[u]))
            && (!InBody(s.threads[u]) ==> TargetRank(x) < TargetRank(s.threads[u]))
  {
  }

  lemma PerformLowersRank(s: State, u: nat, t: nat)
    requires Inv(s) && u < |s.threads| && t < |s.threads| && PerformBy(s, u).Some?
    requires !TestFails(s, s.threads[u])
    requires u == t ==> !InBody(s.threads[t])
    requires s.threads[u].pc.Lock? ==> u == t
    ensures |PerformBy(s, u).value.threads| == |s.threads|
    ensures Measure(PerformBy(s, u).value, t) < Measure(s, t)
  {
    hide Total;
    var x := PerformBy(s, u).value.threads[u];
    Bounds(s, u);
    PerformBalances(s, u);
    OwnRankFalls(s, u);
    RankUpdate(s.threads, u, x);
  }

  /** The holder of the mutex is the only one whose test can fail. */
  lemma OnlyHolderTests(s: State, h: nat)
    requires Inv(s) && h < |s.threads| && Holding(s.threads[h]) == 1
    ensures SomeTestFails(s) ==> TestFails(s, s.threads[h])
  {
    if SomeTestFails(s) {
      var k :| 0 <= k < |s.threads| && TestFails(s, s.threads[k]);
      if k != h { Exclusive(s, k, h); }
    }
  }

  lemma UnlockedNobodyTests(s: State)
    requires Inv(s) && !s.locked
    ensures !SomeTestFails(s)
  {
    if SomeTestFails(s) {
      var k :| 0 <= k < |s.threads| && TestFails(s, s.threads[k]);
      Bounds(s, k);
    }
  }

  /** After a step by the thread that held or took the mutex, a failing test can only be its own. */
  lemma TestsAfter(s: State, h: nat)
    requires Inv(s) && h < |s.threads| && (s.locked ==> Holding(s.threads[h]) == 1)
    ensures SomeTestFails(s) ==> TestFails(s, s.threads[h])
  {
    if s.locked {
      OnlyHolderTests(s, h);
    } else {
      UnlockedNobodyTests(s);
    }
  }

  lemma SignalBrings(s: State, h: nat, z: nat, t: nat)
    requires Inv(s) && Step(s, Signal(h, z)).Some? && t < |s.threads|
    ensures Brings(s, Signal(h, z), t)
  {
    hide Total;
    var s' := Step(s, Signal(h, z)).value;
    SignalKeepsInv(s, h, z);
    Bounds(s, h);
    OnlyHolderTests(s, h);
    TestsAfter(s', h);
    var x := s.threads[h].(pc := UnlockExit);
    var y := s.threads[z].(pc := Woken);
    RankUpdate(s.threads, h, x);
    RankUpdate(s.threads[h := x], z, y);
  }

  lemma PerformBrings(s: State, h: nat, t: nat)
    requires Inv(s) && h < |s.threads| && t < |s.threads| && PerformBy(s, h).Some?
    requires s.locked ==> Holding(s.threads[h]) == 1
    requires !s.locked && (s.threads[h].pc.Lock? || s.threads[h].pc.Woken?) ==> s.readers == 0 && s.writers == 0
    requires h == t ==> !InBody(s.threads[t])
    requires s.threads[h].pc.Lock? ==> h == t
    ensures Brings(s, Perform(h), t)
  {
    var s' := PerformBy(s, h).value;
    StepKeepsInv(s, Perform(h));
    Bounds(s, h);
    PerformBalances(s, h);
    TestsAfter(s, h);
    AfterPerform(s, h);
    TestsAfter(s', h);
    if !TestFails(s, s.threads[h]) { PerformLowersRank(s, h, t); }
  }

  /** The stepping thread never ends up at a test that will fail. */
  lemma AfterPerform(s: State, h: nat)
    requires Inv(s) && h < |s.threads| && PerformBy(s, h).Some?
    requires s.locked ==> Holding(s.threads[h]) == 1
    requires !s.locked && (s.threads[h].pc.Lock? || s.threads[h].pc.Woken?) ==> s.readers == 0 && s.writers == 0
    ensures var s' := PerformBy(s, h).value;
            h < |s'.threads| && !TestFails(s', s'.threads[h]) && (s'.locked ==> Holding(s'.threads[h]) == 1)
  {
    Bounds(s, h);
  }

  lemma HolderBrings(s: State, h: nat, t: nat) returns (a: Action)
    requires Inv(s) && s.locked && h < |s.threads| && Holding(s.threads[h]) == 1 && t < |s.threads|
    ensures Brings(s, a, t)
  {
    if s.threads[h] == Thread(Reader, Notify) && s.readers == 0 && !NobodyWaits(s) {
      var z :| 0 <= z < |s.threads| && s.threads[z].pc.Waiting?;
      a := Signal(h, z);
      SignalBrings(s, h, z, t);
    } else {
      a := Perform(h);
      PerformBrings(s, h, t);
    }
  }

  /** With the mutex free: whoever is inside leaves, else a woken writer or t itself goes on. */
  lemma FreeBrings(s: State, t: nat) returns (a: Action)
    requires Inv(s) && !s.locked && t < |s.threads| && !InBody(s.threads[t])
    ensures Brings(s, a, t)
  {
    var u: nat;
    if s.writers > 0 {
      u := TotalWitness(s.threads, WriterInside);
    } else if s.readers > 0 {
      u := TotalWitness(s.threads, ReaderInside);
    } else if s.threads[t].pc.Waiting? {
      u := HelperIsWokenWriter(s, t);
    } else {
      u := t;
    }
    Bounds(s, u);
    assert ThreadInv(s, s.threads[u]);
    a := Perform(u);
    PerformBrings(s, u, t);
  }

  lemma MeasureNonNegative(s: State, t: nat)
    requires t < |s.threads|
    ensures Measure(s, t) >= 0
  {
    TotalAtLeast(s.threads, Rank, t);
  }

  lemma {:induction false} CanEnterFrom(s: State, t: nat) returns (actions: seq<Action>)
    requires Inv(s) && t < |s.threads|
    ensures forall k :: 0 <= k < |actions| ==> !actions[k].Spurious?
    ensures Run(Step, s, actions).Some?
    ensures var s' := Run(Step, s, actions).value; |s'.threads| == |s.threads| && InBody(s'.threads[t])
    decreases SomeTestFails(s), Measure(s, t)
  {
    if InBody(s.threads[t]) {
      actions := [];
    } else {
      var a;
      if s.locked {
        var h := TotalWitness(s.threads, Holding);
        a := HolderBrings(s, h, t);
      } else {
        a := FreeBrings(s, t);
      }
      StepKeepsInv(s, a);
      MeasureNonNegative(s, t);
      var rest := CanEnterFrom(Step(s, a).value, t);
      actions := [a] + rest;
      assert actions[1..] == rest;
    }
  }

  /** From every reachable state every thread can still get inside, without
      relying on a spurious wake-up: mixing signal and broadcast strands nobody. */
  lemma NobodyStranded(init: State, s: State, t: nat) returns (actions: seq<Action>)
    requires Reaches(init, s) && t < |s.threads|
    ensures forall k :: 0 <= k < |actions| ==> !actions[k].Spurious?
    ensures Run(Step, s, actions).Some?
    ensures var s' := Run(Step, s, actions).value; |s'.threads| == |s.threads| && InBody(s'.threads[t])
  {
    ReachableInv(init, s);
    actions := CanEnterFrom(s, t);
  }

  // ---- The program itself ----

  class Monitor {
    var locked: bool           // mtx
    var readersCount: int
    var writersCount: int
    var sharedData: int
    const threads: array<Thread>

    constructor (readers: nat, writers: nat)
      ensures fresh(threads) && threads.Length == readers + writers && Init(View())
      ensures forall k :: 0 <= k < threads.Length ==>
                threads[k].role == if k < readers then Reader else Writer
    {
      locked, readersCount, writersCount, sharedData := false, 0, 0, 0;
      threads := new Thread[readers + writers](k => Thread(if k < readers then Reader else Writer, Lock));
    }

    ghost function View(): State reads this, threads {
      State(locked, readersCount, writersCount, sharedData, threads[..])
    }

    /** The next operation of a writer that is able to go on. */
    method WriterStep(t: nat)
      requires t < threads.Length && threads[t].role.Writer? && Step(View(), Perform(t)).Some?
      modifies this, threads
      ensures Step(old(View()), Perform(t)) == Some(View())
    {
      var me := threads[t];
      match me.pc {
        case Lock => locked := true; threads[t] := me.(pc := Test);
        case Woken => locked := true; threads[t] := me.(pc := Test);
        case Test =>
          if readersCount > 0 || writersCount > 0 {
            locked := false;
            threads[t] := me.(pc := Waiting);
          } else {
            threads[t] := me.(pc := Count);
          }
        case Count => writersCount := writersCount + 1; threads[t] := me.(pc := Unlock);
        case Unlock => locked := false; threads[t] := me.(pc := Load);
        case Load => threads[t] := me.(pc := Store(sharedData));
        case Store(v) => sharedData := v + 10; threads[t] := me.(pc := Relock);
        case Relock => locked := true; threads[t] := me.(pc := Uncount);
        case Uncount => writersCount := writersCount - 1; threads[t] := me.(pc := Notify);
        case Notify =>
          forall k | 0 <= k < threads.Length { threads[k] := Awaken(threads[k]); }
          assert threads[..] == Broadcast(old(threads[..]));
          threads[t] := me.(pc := UnlockExit);
        case UnlockExit => locked := false; threads[t] := me.(pc := Lock);
      }
    }

    /** The next operation of a reader; `z` is the waiter its signal wakes, if there is one. */
    method ReaderStep(t: nat, z: Option<nat>)
      requires t < threads.Length && threads[t].role.Reader?
      requires Step(View(), if z.Some? then Signal(t, z.value) else Perform(t)).Some?
      modifies this, threads
      ensures Step(old(View()), if z.Some? then Signal(t, z.value) else Perform(t)) == Some(View())
    {
      var me := threads[t];
      match me.pc {
        case Lock => locked := true; threads[t] := me.(pc := Test);
        case Woken => locked := true; threads[t] := me.(pc := Test);
        case Test =>
          if writersCount > 0 {
            locked := false;
            threads[t] := me.(pc := Waiting);
          } else {
            threads[t] := me.(pc := Count);
          }
        case Count => readersCount := readersCount + 1; threads[t] := me.(pc := Unlock);
        case Unlock => locked := false; threads[t] := me.(pc := Read);
        case Read => threads[t] := me.(pc := Relock);
        case Relock => locked := true; threads[t] := me.(pc := Uncount);
        case Uncount => readersCount := readersCount - 1; threads[t] := me.(pc := Notify);
        case Notify =>
          threads[t] := me.(pc := UnlockExit);
          if readersCount == 0 && z.Some? {
            threads[z.value] := threads[z.value].(pc := Woken);
          }
        case UnlockExit => locked := false; threads[t] := me.(pc := Lock);
      }
    }
  }
}

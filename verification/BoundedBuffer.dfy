/** The ring buffer of `bounded_buffer_sem.c`, for any numbers of producers and
    consumers, any buffer size and any numbers of items.  Each semaphore operation,
    the access to the slot and the update of the index are separate steps. */
module BoundedBuffer {
  import opened Wrappers
  import opened Traces
  import opened Counting
  import opened Modular

  datatype Role = Producer(id: int) | Consumer

  /** Producers and consumers run the same six operations, on opposite semaphores. */
  datatype Pc =
    | WaitToken    // sem_wait(empty) or sem_wait(nonempty)
    | WaitMutex    // sem_wait(mtx)
    | Access       // store or load a slot
    | Advance      // move `in` or `out`
    | PostMutex    // sem_post(mtx)
    | PostToken    // sem_post(nonempty) or sem_post(empty)
    | Done

  datatype Process = Process(role: Role, limit: nat, i: nat, pc: Pc)

  /** Item i of the producer that is process p. */
  datatype Entry = Entry(p: nat, i: nat)

  datatype State = State(
    items: seq<int>, inPos: int, outPos: int,
    mtx: int, empty: int, nonempty: int,
    procs: seq<Process>,
    produced: seq<Entry>,   // the items stored so far, in order
    consumed: seq<int>)     // the values loaded so far, in order

  function LoopTest(p: Process): Process {
    p.(pc := if p.i < p.limit then WaitToken else Done)
  }

  function ItemOf(role: Role, i: nat): int {
    match role case Producer(id) => id * 100 + i case Consumer => 0
  }

  /** The next operation of process t; `None` when it has to wait or is done. */
  function Step(s: State, t: nat): Option<State> {
    if t >= |s.procs| then None
    else
      var me := s.procs[t];
      match me.pc
      case WaitToken =>
        if me.role.Producer? then
          if s.empty > 0 then Some(Goto(s.(empty := s.empty - 1), t, WaitMutex)) else None
        else
          if s.nonempty > 0 then Some(Goto(s.(nonempty := s.nonempty - 1), t, WaitMutex)) else None
      case WaitMutex =>
        if s.mtx > 0 then Some(Goto(s.(mtx := s.mtx - 1), t, Access)) else None
      case Access =>
        if me.role.Producer? then
          if 0 <= s.inPos < |s.items| then
            Some(Goto(s.(items := s.items[s.inPos := ItemOf(me.role, me.i)], produced := s.produced + [Entry(t, me.i)]),
                      t, Advance))
          else None
        else
          if 0 <= s.outPos < |s.items| then
            Some(Goto(s.(consumed := s.consumed + [s.items[s.outPos]]), t, Advance))
          else None
      case Advance =>
        if |s.items| == 0 then None
        else if me.role.Producer? then Some(Goto(s.(inPos := (s.inPos + 1) % |s.items|), t, PostMutex))
        else Some(Goto(s.(outPos := (s.outPos + 1) % |s.items|), t, PostMutex))
      case PostMutex => Some(Goto(s.(mtx := s.mtx + 1), t, PostToken))
      case PostToken =>
        var next := s.(procs := s.procs[t := LoopTest(me.(i := me.i + 1))]);
        Some(if me.role.Producer? then next.(nonempty := next.nonempty + 1) else next.(empty := next.empty + 1))
      case Done => None
  }

  function Goto(s: State, t: nat, pc: Pc): State
    requires t < |s.procs|
  {
    s.(procs := s.procs[t := s.procs[t].(pc := pc)])
  }

  predicate Init(s: State) {
    && |s.items| > 0 && s.inPos == 0 && s.outPos == 0
    && s.mtx == 1 && s.empty == |s.items| && s.nonempty == 0
    && s.produced == [] && s.consumed == []
    && forall k :: 0 <= k < |s.procs| ==> s.procs[k] == LoopTest(s.procs[k].(i := 0))
  }

  // ---- What is counted over the processes ----

  function InMutex(p: Process): int { One(p.pc.Access? || p.pc.Advance? || p.pc.PostMutex?) }

  predicate Entering(p: Process) { p.pc.WaitMutex? || p.pc.Access? }
  predicate Leaving(p: Process) { p.pc.Advance? || p.pc.PostMutex? || p.pc.PostToken? }

  /** Tokens of `empty` in flight: taken for a slot not yet filled, or owed for a slot already read. */
  function EmptyInFlight(p: Process): int {
    One(if p.role.Producer? then Entering(p) else Leaving(p))
  }

  /** Tokens of `nonempty` in flight. */
  function FullInFlight(p: Process): int {
    One(if p.role.Producer? then Leaving(p) else Entering(p))
  }

  function Accesses(p: Process): nat { p.i + One(Leaving(p)) }
  /** How many items the process has stored. */
  function Made(p: Process): nat { if p.role.Producer? then Accesses(p) else 0 }
  function Stores(p: Process): int { Made(p) }
  function Loads(p: Process): int { if p.role.Producer? then 0 else Accesses(p) }
  function AdvancingIn(p: Process): int { One(p.role.Producer? && p.pc.Advance?) }
  function AdvancingOut(p: Process): int { One(p.role.Consumer? && p.pc.Advance?) }

  // ---- Invariant ----

  function Value(s: State, e: Entry): int
    requires e.p < |s.procs|
  {
    ItemOf(s.procs[e.p].role, e.i)
  }

  ghost predicate LocalInv(s: State) {
    forall k :: 0 <= k < |s.procs| ==>
      s.procs[k].i <= s.procs[k].limit && (s.procs[k].pc.Done? <==> s.procs[k].i == s.procs[k].limit)
  }

  /** Conservation of tokens: each slot is accounted for on both sides. */
  ghost predicate TokenInv(s: State) {
    && s.mtx >= 0 && s.empty >= 0 && s.nonempty >= 0
    && s.mtx + Total(s.procs, InMutex) == 1
    && s.empty + Total(s.procs, EmptyInFlight) + |s.produced| - |s.consumed| == |s.items|
    && s.nonempty + Total(s.procs, FullInFlight) == |s.produced| - |s.consumed|
  }

  ghost predicate CountInv(s: State) {
    && |s.produced| == Total(s.procs, Stores)
    && |s.consumed| == Total(s.procs, Loads)
  }

  ghost predicate RingInv(s: State) {
    && |s.items| > 0
    && s.inPos == (|s.produced| - Total(s.procs, AdvancingIn)) % |s.items|
    && s.outPos == (|s.consumed| - Total(s.procs, AdvancingOut)) % |s.items|
  }

  /** What was read is what was written, and what was not yet read is still there. */
  ghost predicate FifoInv(s: State) {
    && |s.items| > 0
    && (forall k :: 0 <= k < |s.produced| ==> s.produced[k].p < |s.procs|)
    && |s.consumed| <= |s.produced|
    && (forall k :: 0 <= k < |s.consumed| ==> s.consumed[k] == Value(s, s.produced[k]))
    && (forall k :: |s.consumed| <= k < |s.produced| ==> s.items[k % |s.items|] == Value(s, s.produced[k]))
  }

  /** The items of process p among the entries, in order. */
  function ItemsOf(log: seq<Entry>, p: nat): seq<nat> {
    if log == [] then []
    else
      var rest := ItemsOf(log[..|log| - 1], p);
      if log[|log| - 1].p == p then rest + [log[|log| - 1].i] else rest
  }

  function UpTo(n: nat): seq<nat> { seq(n, i => i) }

  ghost predicate OrderInv(s: State) {
    forall p :: 0 <= p < |s.procs| ==> ItemsOf(s.produced, p) == UpTo(Made(s.procs[p]))
  }

  ghost predicate Inv(s: State) {
    LocalInv(s) && TokenInv(s) && CountInv(s) && RingInv(s) && FifoInv(s) && OrderInv(s)
  }

  lemma UpdateTokens(procs: seq<Process>, t: nat, x: Process)
    requires t < |procs|
    ensures Total(procs[t := x], InMutex) == Total(procs, InMutex) - InMutex(procs[t]) + InMutex(x)
    ensures Total(procs[t := x], EmptyInFlight) ==
            Total(procs, EmptyInFlight) - EmptyInFlight(procs[t]) + EmptyInFlight(x)
    ensures Total(procs[t := x], FullInFlight) ==
            Total(procs, FullInFlight) - FullInFlight(procs[t]) + FullInFlight(x)
  {
    TotalUpdate(procs, InMutex, t, x);
    TotalUpdate(procs, EmptyInFlight, t, x);
    TotalUpdate(procs, FullInFlight, t, x);
  }

  lemma UpdateCounts(procs: seq<Process>, t: nat, x: Process)
    requires t < |procs|
    ensures Total(procs[t := x], Stores) == Total(procs, Stores) - Stores(procs[t]) + Stores(x)
    ensures Total(procs[t := x], Loads) == Total(procs, Loads) - Loads(procs[t]) + Loads(x)
    ensures Total(procs[t := x], AdvancingIn) == Total(procs, AdvancingIn) - AdvancingIn(procs[t]) + AdvancingIn(x)
    ensures Total(procs[t := x], AdvancingOut) == Total(procs, AdvancingOut) - AdvancingOut(procs[t]) + AdvancingOut(x)
  {
    TotalUpdate(procs, Stores, t, x);
    TotalUpdate(procs, Loads, t, x);
    TotalUpdate(procs, AdvancingIn, t, x);
    TotalUpdate(procs, AdvancingOut, t, x);
  }

  /** The process that holds the mutex is the only one that moves an index. */
  lemma AloneInMutex(s: State, t: nat)
    requires TokenInv(s) && t < |s.procs| && InMutex(s.procs[t]) == 1
    ensures Total(s.procs, AdvancingIn) == AdvancingIn(s.procs[t])
    ensures Total(s.procs, AdvancingOut) == AdvancingOut(s.procs[t])
  {
    var x := s.procs[t].(pc := PostToken);
    var rest := s.procs[t := x];
    TotalUpdate(s.procs, InMutex, t, x);
    TotalUpdate(s.procs, AdvancingIn, t, x);
    TotalUpdate(s.procs, AdvancingOut, t, x);
    TotalNonNegative(rest, AdvancingIn);
    TotalNonNegative(rest, AdvancingOut);
    TotalMonotone(rest, AdvancingIn, InMutex);
    TotalMonotone(rest, AdvancingOut, InMutex);
  }

  lemma Bounds(s: State, t: nat)
    requires t < |s.procs|
    ensures Total(s.procs, EmptyInFlight) >= EmptyInFlight(s.procs[t])
    ensures Total(s.procs, FullInFlight) >= FullInFlight(s.procs[t])
  {
    TotalAtLeast(s.procs, EmptyInFlight, t);
    TotalAtLeast(s.procs, FullInFlight, t);
  }

  lemma StepKeepsLocal(s: State, t: nat)
    requires LocalInv(s) && Step(s, t).Some?
    ensures LocalInv(Step(s, t).value)
  {
  }

  /** What one step takes from a semaphore or adds to a log, the stepping process accounts for. */
  lemma StepBalances(s: State, t: nat)
    requires Step(s, t).Some?
    ensures var s' := Step(s, t).value;
            && t < |s.procs| && |s'.procs| == |s.procs| && s'.procs == s.procs[t := s'.procs[t]]
            && |s'.items| == |s.items|
            && s'.mtx + InMutex(s'.procs[t]) == s.mtx + InMutex(s.procs[t])
            && s'.empty + EmptyInFlight(s'.procs[t]) + |s'.produced| - |s'.consumed| ==
               s.empty + EmptyInFlight(s.procs[t]) + |s.produced| - |s.consumed|
            && s'.nonempty + FullInFlight(s'.procs[t]) - |s'.produced| + |s'.consumed| ==
               s.nonempty + FullInFlight(s.procs[t]) - |s.produced| + |s.consumed|
            && (s'.mtx >= s.mtx || s'.mtx >= 0) && (s'.empty >= s.empty || s'.empty >= 0)
            && (s'.nonempty >= s.nonempty || s'.nonempty >= 0)
  {
  }

  lemma StepCounts(s: State, t: nat)
    requires Step(s, t).Some?
    ensures var s' := Step(s, t).value;
            && t < |s.procs| && |s'.procs| == |s.procs| && s'.procs == s.procs[t := s'.procs[t]]
            && |s'.produced| - Stores(s'.procs[t]) == |s.produced| - Stores(s.procs[t])
            && |s'.consumed| - Loads(s'.procs[t]) == |s.consumed| - Loads(s.procs[t])
            && (!s.procs[t].pc.Advance? ==>
                  && s'.inPos == s.inPos && s'.outPos == s.outPos && |s'.items| == |s.items|
                  && |s'.produced| - AdvancingIn(s'.procs[t]) == |s.produced| - AdvancingIn(s.procs[t])
                  && |s'.consumed| - AdvancingOut(s'.procs[t]) == |s.consumed| - AdvancingOut(s.procs[t]))
  {
  }

  lemma StepKeepsTokens(s: State, t: nat)
    requires TokenInv(s) && Step(s, t).Some?
    ensures TokenInv(Step(s, t).value)
  {
    StepBalances(s, t);
    UpdateTokens(s.procs, t, Step(s, t).value.procs[t]);
  }

  lemma StepKeepsCounts(s: State, t: nat)
    requires CountInv(s) && Step(s, t).Some?
    ensures CountInv(Step(s, t).value)
  {
    StepCounts(s, t);
    UpdateCounts(s.procs, t, Step(s, t).value.procs[t]);
  }

  lemma AdvanceKeepsRing(s: State, t: nat)
    requires TokenInv(s) && RingInv(s) && Step(s, t).Some? && s.procs[t].pc.Advance?
    ensures RingInv(Step(s, t).value)
  {
    var s' := Step(s, t).value;
    assert s'.procs == s.procs[t := s'.procs[t]];
    UpdateCounts(s.procs, t, s'.procs[t]);
    AloneInMutex(s, t);
    ModNext(|s.produced|, |s.items|);
    ModNext(|s.consumed|, |s.items|);
  }

  lemma StepKeepsRing(s: State, t: nat)
    requires TokenInv(s) && RingInv(s) && Step(s, t).Some?
    ensures RingInv(Step(s, t).value)
  {
    if s.procs[t].pc.Advance? {
      AdvanceKeepsRing(s, t);
    } else {
      StepCounts(s, t);
      UpdateCounts(s.procs, t, Step(s, t).value.procs[t]);
    }
  }

  lemma StoreKeepsFifo(s: State, t: nat)
    requires TokenInv(s) && RingInv(s) && FifoInv(s) && Step(s, t).Some?
    requires s.procs[t].pc.Access? && s.procs[t].role.Producer?
    ensures FifoInv(Step(s, t).value)
  {
    var s' := Step(s, t).value;
    var B := |s.items|;
    AloneInMutex(s, t);
    Bounds(s, t);
    TotalNonNegative(s.procs, FullInFlight);
    assert s.inPos == |s.produced| % B && |s.produced| - |s.consumed| < B;
    forall k | |s.consumed| <= k < |s'.produced| ensures s'.items[k % B] == Value(s', s'.produced[k]) {
      if k < |s.produced| {
        ModApart(k, |s.produced|, B);
      }
    }
  }

  lemma LoadKeepsFifo(s: State, t: nat)
    requires TokenInv(s) && RingInv(s) && FifoInv(s) && Step(s, t).Some?
    requires s.procs[t].pc.Access? && s.procs[t].role.Consumer?
    ensures FifoInv(Step(s, t).value)
  {
    AloneInMutex(s, t);
    Bounds(s, t);
    assert s.outPos == |s.consumed| % |s.items| && |s.consumed| < |s.produced|;
  }

  lemma StepKeepsFifo(s: State, t: nat)
    requires TokenInv(s) && RingInv(s) && FifoInv(s) && Step(s, t).Some?
    ensures FifoInv(Step(s, t).value)
  {
    if s.procs[t].pc.Access? {
      if s.procs[t].role.Producer? {
        StoreKeepsFifo(s, t);
      } else {
        LoadKeepsFifo(s, t);
      }
    } else {
      var s' := Step(s, t).value;
      assert s'.items == s.items && s'.produced == s.produced && s'.consumed == s.consumed;
      assert forall k :: 0 <= k < |s.procs| ==> s'.procs[k].role == s.procs[k].role;
    }
  }

  lemma StepKeepsOrder(s: State, t: nat)
    requires OrderInv(s) && Step(s, t).Some?
    ensures OrderInv(Step(s, t).value)
  {
    var s' := Step(s, t).value;
    StepLogs(s, t);
    forall p | 0 <= p < |s.procs| ensures ItemsOf(s'.produced, p) == UpTo(Made(s'.procs[p])) {
      assert ItemsOf(s.produced, p) == UpTo(Made(s.procs[p]));
      if s'.produced != s.produced {
        LogExtended(s.produced, Entry(t, s.procs[t].i), p);
      }
    }
  }

  /** Either a producer stores its next item, or nothing is logged. */
  lemma StepLogs(s: State, t: nat)
    requires Step(s, t).Some?
    ensures var s' := Step(s, t).value;
            && t < |s.procs| == |s'.procs|
            && (forall p :: 0 <= p < |s.procs| && p != t ==> s'.procs[p] == s.procs[p])
            && if s'.produced == s.produced then Made(s'.procs[t]) == Made(s.procs[t])
               else s'.produced == s.produced + [Entry(t, s.procs[t].i)] &&
                    Made(s.procs[t]) == s.procs[t].i && Made(s'.procs[t]) == s.procs[t].i + 1
  {
  }

  lemma LogExtended(log: seq<Entry>, e: Entry, p: nat)
    ensures ItemsOf(log + [e], p) == if e.p == p then ItemsOf(log, p) + [e.i] else ItemsOf(log, p)
    ensures UpTo(e.i) + [e.i] == UpTo(e.i + 1)
  {
    assert (log + [e])[..|log + [e]| - 1] == log;
  }

  lemma StepKeepsInv(s: State, t: nat)
    requires Inv(s) && Step(s, t).Some?
    ensures Inv(Step(s, t).value)
  {
    StepKeepsLocal(s, t);
    StepKeepsTokens(s, t);
    StepKeepsCounts(s, t);
    StepKeepsRing(s, t);
    StepKeepsFifo(s, t);
    StepKeepsOrder(s, t);
  }

  lemma InitInv(s: State)
    requires Init(s)
    ensures Inv(s)
  {
    TotalZero(s.procs, InMutex);
    TotalZero(s.procs, EmptyInFlight);
    TotalZero(s.procs, FullInFlight);
    TotalZero(s.procs, Stores);
    TotalZero(s.procs, Loads);
    TotalZero(s.procs, AdvancingIn);
    TotalZero(s.procs, AdvancingOut);
    ModUnique(0, |s.items|, 0, 0);
  }

  /** Roles and numbers of items never change. */
  predicate SameProgram(s: State, s': State) {
    && |s.procs| == |s'.procs| && |s.items| == |s'.items|
    && forall k :: 0 <= k < |s.procs| ==>
         s.procs[k].role == s'.procs[k].role && s.procs[k].limit == s'.procs[k].limit
  }

  lemma StepKeepsProgram(s: State, t: nat)
    requires Step(s, t).Some?
    ensures SameProgram(s, Step(s, t).value)
  {
  }

  ghost predicate Reaches(init: State, s: State) {
    Init(init) && exists schedule: seq<nat> :: Run(Step, init, schedule) == Some(s)
  }

  lemma RunInv(init: State, schedule: seq<nat>)
    requires Init(init) && Run(Step, init, schedule).Some?
    ensures var s := Run(Step, init, schedule).value; Inv(s) && SameProgram(init, s)
  {
    hide Step;
    InitInv(init);
    var inv := s => Inv(s) && SameProgram(init, s);
    forall s, t | inv(s) && Step(s, t).Some? ensures inv(Step(s, t).value) {
      StepKeepsInv(s, t);
      StepKeepsProgram(s, t);
    }
    Invariance(Step, inv, init, schedule);
  }

  lemma ReachableInv(init: State, s: State)
    requires Reaches(init, s)
    ensures Inv(s) && SameProgram(init, s)
  {
    var schedule: seq<nat> :| Run(Step, init, schedule) == Some(s);
    RunInv(init, schedule);
  }

  // ---- Order of the items ----

  /** First in, first out: what was consumed is a prefix of what was produced. */
  lemma Fifo(init: State, s: State)
    requires Reaches(init, s)
    ensures |s.consumed| <= |s.produced|
    ensures forall k :: 0 <= k < |s.produced| ==> s.produced[k].p < |s.procs|
    ensures forall k :: 0 <= k < |s.consumed| ==> s.consumed[k] == Value(s, s.produced[k])
  {
    ReachableInv(init, s);
  }

  lemma {:induction false} ItemsOfPrefix(log: seq<Entry>, n: nat, p: nat)
    requires n <= |log|
    ensures ItemsOf(log[..n], p) <= ItemsOf(log, p)
  {
    if n < |log| {
      assert log[..|log| - 1][..n] == log[..n];
      ItemsOfPrefix(log[..|log| - 1], n, p);
    } else {
      assert log[..n] == log;
    }
  }

  /** Each producer's items are consumed in the order in which it made them, with no gap. */
  lemma ProducerOrder(init: State, s: State, p: nat)
    requires Reaches(init, s) && p < |s.procs|
    ensures |s.consumed| <= |s.produced|
    ensures var mine := ItemsOf(s.produced[..|s.consumed|], p);
            mine == UpTo(|mine|) && |mine| <= Accesses(s.procs[p])
  {
    ReachableInv(init, s);
    ItemsOfPrefix(s.produced, |s.consumed|, p);
    assert ItemsOf(s.produced, p) == UpTo(Made(s.procs[p]));
  }

  /** A store never hits a slot that holds an item not yet read; a load always finds one. */
  lemma NoOverwriteNoUnderrun(init: State, s: State, t: nat)
    requires Reaches(init, s) && t < |s.procs| && s.procs[t].pc.Access?
    ensures |s.items| > 0
    ensures s.procs[t].role.Producer? ==>
              forall k :: |s.consumed| <= k < |s.produced| ==> k % |s.items| != s.inPos
    ensures s.procs[t].role.Consumer? ==>
              |s.consumed| < |s.produced| && s.outPos == |s.consumed| % |s.items|
  {
    ReachableInv(init, s);
    AloneInMutex(s, t);
    Bounds(s, t);
    TotalNonNegative(s.procs, FullInFlight);
    if s.procs[t].role.Producer? {
      assert s.inPos == |s.produced| % |s.items|;
      forall k | |s.consumed| <= k < |s.produced| ensures k % |s.items| != s.inPos {
        ModApart(k, |s.produced|, |s.items|);
      }
    }
  }

  // ---- When is the program stuck? ----

  predicate AllDone(s: State) {
    forall k :: 0 <= k < |s.procs| ==> s.procs[k].pc.Done?
  }

  ghost predicate Halted(s: State) {
    forall t :: 0 <= t < |s.procs| ==> Step(s, t).None?
  }

  function ToStore(p: Process): int { if p.role.Producer? then p.limit else 0 }
  function ToLoad(p: Process): int { if p.role.Producer? then 0 else p.limit }

  /** Items that the consumers as a whole are not going to take. */
  function Leftover(s: State): int { Total(s.procs, ToStore) - Total(s.procs, ToLoad) }

  /** Whoever holds the mutex can go on: the indices are always in range. */
  lemma MutexHolderCanStep(s: State, t: nat)
    requires Inv(s) && t < |s.procs| && InMutex(s.procs[t]) == 1
    ensures Step(s, t).Some?
  {
    AloneInMutex(s, t);
  }

  lemma HaltedLeavesMutexFree(s: State)
    requires Inv(s) && Halted(s)
    ensures s.mtx == 1
    ensures forall k :: 0 <= k < |s.procs| ==> s.procs[k].pc.WaitToken? || s.procs[k].pc.Done?
  {
    if Total(s.procs, InMutex) > 0 {
      var t := TotalWitness(s.procs, InMutex);
      MutexHolderCanStep(s, t);
    }
    TotalNonNegative(s.procs, InMutex);
    forall k | 0 <= k < |s.procs| ensures s.procs[k].pc.WaitToken? || s.procs[k].pc.Done? {
      assert Step(s, k).None?;
      TotalAtLeast(s.procs, InMutex, k);
    }
  }

  lemma HaltedTokens(s: State)
    requires Inv(s) && Halted(s)
    ensures forall k :: 0 <= k < |s.procs| ==> s.procs[k].pc.WaitToken? || s.procs[k].pc.Done?
    ensures s.nonempty == |s.produced| - |s.consumed| && s.empty == |s.items| - s.nonempty
    ensures forall k :: 0 <= k < |s.procs| && !s.procs[k].pc.Done? ==>
              if s.procs[k].role.Producer? then s.empty == 0 else s.nonempty == 0
  {
    HaltedLeavesMutexFree(s);
    TotalZero(s.procs, EmptyInFlight);
    TotalZero(s.procs, FullInFlight);
    forall k | 0 <= k < |s.procs| && !s.procs[k].pc.Done?
      ensures if s.procs[k].role.Producer? then s.empty == 0 else s.nonempty == 0
    {
      assert Step(s, k).None?;
    }
  }

  /** The totals of finished and unfinished producers and consumers. */
  lemma DoneTotals(s: State)
    requires Inv(s)
    ensures |s.produced| <= Total(s.procs, ToStore) && |s.consumed| <= Total(s.procs, ToLoad)
    ensures (forall k :: 0 <= k < |s.procs| && s.procs[k].role.Producer? ==> s.procs[k].pc.Done?) ==>
              |s.produced| == Total(s.procs, ToStore)
    ensures (forall k :: 0 <= k < |s.procs| && s.procs[k].role.Consumer? ==> s.procs[k].pc.Done?) ==>
              |s.consumed| == Total(s.procs, ToLoad)
  {
    TotalMonotone(s.procs, Stores, ToStore);
    TotalMonotone(s.procs, Loads, ToLoad);
    if forall k :: 0 <= k < |s.procs| && s.procs[k].role.Producer? ==> s.procs[k].pc.Done? {
      TotalCongruent(s.procs, s.procs, Stores, ToStore);
    }
    if forall k :: 0 <= k < |s.procs| && s.procs[k].role.Consumer? ==> s.procs[k].pc.Done? {
      TotalCongruent(s.procs, s.procs, Loads, ToLoad);
    }
  }

  lemma UnfinishedTotals(s: State, t: nat)
    requires Inv(s) && t < |s.procs| && s.procs[t].pc.WaitToken?
    ensures s.procs[t].role.Producer? ==> |s.produced| < Total(s.procs, ToStore)
    ensures s.procs[t].role.Consumer? ==> |s.consumed| < Total(s.procs, ToLoad)
  {
    if s.procs[t].role.Producer? {
      TotalStrict(s.procs, Stores, ToStore, t);
    } else {
      TotalStrict(s.procs, Loads, ToLoad, t);
    }
  }

  /** Where nobody can move, everybody is done exactly when the consumers leave
      at least nothing and at most one buffer of items behind. */
  lemma HaltedIsDone(s: State)
    requires Inv(s) && Halted(s)
    ensures AllDone(s) <==> 0 <= Leftover(s) <= |s.items|
  {
    HaltedTokens(s);
    DoneTotals(s);
    if !AllDone(s) {
      var t :| 0 <= t < |s.procs| && !s.procs[t].pc.Done?;
      UnfinishedTotals(s, t);
    }
  }

  /** The same for every run of the program: it comes to a halt with work undone
      if and only if too many or too few items are left for the consumers. */
  lemma StuckExactly(init: State, s: State)
    requires Reaches(init, s) && Halted(s)
    ensures AllDone(s) <==> 0 <= Leftover(init) <= |init.items|
  {
    ReachableInv(init, s);
    HaltedIsDone(s);
    TotalCongruent(s.procs, init.procs, ToStore, ToStore);
    TotalCongruent(s.procs, init.procs, ToLoad, ToLoad);
  }

  /** When all have finished, the semaphores tell what is left in the buffer. */
  lemma AllDoneSemaphores(init: State, s: State)
    requires Reaches(init, s) && AllDone(s)
    ensures s.mtx == 1 && s.nonempty == Leftover(init) && s.empty == |init.items| - Leftover(init)
    ensures |s.produced| - |s.consumed| == Leftover(init)
  {
    ReachableInv(init, s);
    TotalZero(s.procs, InMutex);
    TotalZero(s.procs, EmptyInFlight);
    TotalZero(s.procs, FullInFlight);
    TotalCongruent(s.procs, init.procs, Stores, ToStore);
    TotalCongruent(s.procs, init.procs, Loads, ToLoad);
  }

  // ---- Every run ends ----

  /** Steps still to be made by a process; each step makes it one less. */
  function Work(p: Process): int {
    6 * (p.limit - p.i) - (match p.pc
      case WaitToken => 0 case WaitMutex => 1 case Access => 2
      case Advance => 3 case PostMutex => 4 case PostToken => 5 case Done => 0)
  }

  lemma StepReducesWork(s: State, t: nat)
    requires LocalInv(s) && Step(s, t).Some?
    ensures Total(Step(s, t).value.procs, Work) == Total(s.procs, Work) - 1
  {
    var s' := Step(s, t).value;
    StepBalances(s, t);
    TotalUpdate(s.procs, Work, t, s'.procs[t]);
  }

  lemma {:induction false} RunReducesWork(s: State, schedule: seq<nat>)
    requires Inv(s) && Run(Step, s, schedule).Some?
    ensures Total(Run(Step, s, schedule).value.procs, Work) == Total(s.procs, Work) - |schedule|
    decreases |schedule|
  {
    if schedule != [] {
      StepReducesWork(s, schedule[0]);
      StepKeepsInv(s, schedule[0]);
      RunReducesWork(Step(s, schedule[0]).value, schedule[1..]);
    }
  }

  function Limit(p: Process): int { p.limit }

  lemma {:induction false} InitialWork(procs: seq<Process>)
    requires forall k :: 0 <= k < |procs| ==> procs[k] == LoopTest(procs[k].(i := 0))
    ensures Total(procs, Work) == 6 * Total(procs, Limit)
  {
    if procs != [] { InitialWork(procs[1..]); }
  }

  lemma WorkLeft(s: State)
    requires LocalInv(s)
    ensures Total(s.procs, Work) >= 0
    ensures Total(s.procs, Work) == 0 <==> AllDone(s)
  {
    TotalNonNegative(s.procs, Work);
    if AllDone(s) {
      TotalZero(s.procs, Work);
    } else {
      var t :| 0 <= t < |s.procs| && !s.procs[t].pc.Done?;
      TotalAtLeast(s.procs, Work, t);
    }
  }

  /** Nothing goes round in circles: no run has more than six steps per item, and
      the runs of exactly that length are those that finish every process. */
  lemma EveryRunEnds(init: State, schedule: seq<nat>)
    requires Init(init) && Run(Step, init, schedule).Some?
    ensures |schedule| <= 6 * Total(init.procs, Limit)
    ensures |schedule| == 6 * Total(init.procs, Limit) <==> AllDone(Run(Step, init, schedule).value)
  {
    var s := Run(Step, init, schedule).value;
    InitInv(init);
    assert LocalInv(s) by { RunInv(init, schedule); }
    RunReducesWork(init, schedule);
    InitialWork(init.procs);
    WorkLeft(s);
  }

  // ---- The program of `main` ----

  function MainProcs(producers: nat, consumers: nat, itemsEach: nat): seq<Process>
    requires consumers > 0
  {
    var quota := producers * itemsEach / consumers;
    seq(producers, k => LoopTest(Process(Producer(k), itemsEach, 0, Done))) +
    seq(consumers, _ => LoopTest(Process(Consumer, quota, 0, Done)))
  }

  lemma MainLeftover(init: State, producers: nat, consumers: nat, itemsEach: nat)
    requires consumers > 0 && init.procs == MainProcs(producers, consumers, itemsEach)
    ensures Leftover(init) == producers * itemsEach % consumers
  {
    hide Total;
    var quota := producers * itemsEach / consumers;
    var a := init.procs[..producers];
    var b := init.procs[producers..];
    assert init.procs == a + b;
    TotalConcat(a, b, ToStore);
    TotalConcat(a, b, ToLoad);
    TotalConstant(a, ToStore, itemsEach);
    TotalConstant(b, ToStore, 0);
    TotalConstant(a, ToLoad, 0);
    TotalConstant(b, ToLoad, quota);
    assert producers * itemsEach == quota * consumers + producers * itemsEach % consumers;
  }

  /** Integer division may leave items over.  The program always comes to a halt,
      with all processes finished exactly when what is left fits in the buffer. */
  lemma MainFinishesExactly(init: State, s: State, producers: nat, consumers: nat, itemsEach: nat)
    requires consumers > 0 && init.procs == MainProcs(producers, consumers, itemsEach)
    requires Reaches(init, s) && Halted(s)
    ensures AllDone(s) <==> producers * itemsEach % consumers <= |init.items|
    ensures producers * itemsEach % consumers == 0 ==>
              s.mtx == 1 && s.empty == |init.items| && s.nonempty == 0 && |s.consumed| == |s.produced|
  {
    MainLeftover(init, producers, consumers, itemsEach);
    StuckExactly(init, s);
    if AllDone(s) {
      AllDoneSemaphores(init, s);
    }
  }

  // ---- The numbers that are consumed ----

  /** Those of the values that belong to the entries of process p. */
  function ValuesOf(values: seq<int>, log: seq<Entry>, p: nat): seq<int>
    requires |values| <= |log|
    decreases |values|
  {
    if values == [] then []
    else
      var n := |values| - 1;
      ValuesOf(values[..n], log, p) + (if log[n].p == p then [values[n]] else [])
  }

  lemma {:induction false} ValuesAreItems(values: seq<int>, log: seq<Entry>, p: nat, base: int)
    requires |values| <= |log|
    requires forall k :: 0 <= k < |values| && log[k].p == p ==> values[k] == base + log[k].i
    ensures var items := ItemsOf(log[..|values|], p);
            && |ValuesOf(values, log, p)| == |items|
            && forall k :: 0 <= k < |items| ==> ValuesOf(values, log, p)[k] == base + items[k]
    decreases |values|
  {
    if values != [] {
      var n := |values| - 1;
      ValuesAreItems(values[..n], log, p, base);
      assert log[..|values|][..n] == log[..n];
    }
  }

  /** What producer id made comes out as id*100, id*100 + 1, id*100 + 2 and so on, without a gap. */
  lemma ConsumedNumbers(init: State, s: State, producers: nat, consumers: nat, itemsEach: nat, id: nat)
    requires consumers > 0 && init.procs == MainProcs(producers, consumers, itemsEach)
    requires Reaches(init, s) && id < producers
    ensures |s.consumed| <= |s.produced|
    ensures var values := ValuesOf(s.consumed, s.produced, id);
            |values| <= itemsEach && forall k :: 0 <= k < |values| ==> values[k] == id * 100 + k
  {
    ReachableInv(init, s);
    ProducerOrder(init, s, id);
    assert s.procs[id].role == init.procs[id].role == Producer(id);
    assert s.procs[id].limit == itemsEach;
    ValuesAreItems(s.consumed, s.produced, id, id * 100);
    AccessesBounded(s, id);
  }

  lemma AccessesBounded(s: State, p: nat)
    requires LocalInv(s) && p < |s.procs|
    ensures Accesses(s.procs[p]) <= s.procs[p].limit
  {
  }

  /** Everything stored is a producer's item, by its number. */
  lemma EntriesAreItems(init: State, s: State, producers: nat, consumers: nat, itemsEach: nat, k: nat)
    requires consumers > 0 && init.procs == MainProcs(producers, consumers, itemsEach)
    requires Reaches(init, s) && k < |s.produced|
    ensures s.produced[k].p < producers && s.produced[k].i < itemsEach
    ensures k < |s.consumed| ==> s.consumed[k] == s.produced[k].p * 100 + s.produced[k].i
  {
    ReachableInv(init, s);
    var e := s.produced[k];
    assert ItemsOf(s.produced, e.p) == UpTo(Made(s.procs[e.p]));
    AccessesBounded(s, e.p);
    var at := Position(s.produced, k);
    assert UpTo(Made(s.procs[e.p]))[at] == e.i;
    assert s.procs[e.p].role == init.procs[e.p].role && s.procs[e.p].limit == init.procs[e.p].limit;
  }

  /** An entry is among the items of its process. */
  lemma {:induction false} Position(log: seq<Entry>, k: nat) returns (at: nat)
    requires k < |log|
    ensures at < |ItemsOf(log, log[k].p)| && ItemsOf(log, log[k].p)[at] == log[k].i
    decreases |log|
  {
    if k == |log| - 1 {
      at := |ItemsOf(log, log[k].p)| - 1;
    } else {
      at := Position(log[..|log| - 1], k);
    }
  }

  lemma {:induction false} DistinctEntries(log: seq<Entry>, j: nat, k: nat)
    requires j < k < |log| && log[j] == log[k]
    ensures exists a, b :: 0 <= a < b < |ItemsOf(log, log[j].p)| &&
              ItemsOf(log, log[j].p)[a] == ItemsOf(log, log[j].p)[b]
    decreases |log|
  {
    var n, p := |log| - 1, log[j].p;
    if k == n {
      var at := Position(log[..n], j);
      assert ItemsOf(log, p)[at] == ItemsOf(log, p)[|ItemsOf(log[..n], p)|];
    } else {
      DistinctEntries(log[..n], j, k);
      var a, b :| 0 <= a < b < |ItemsOf(log[..n], p)| && ItemsOf(log[..n], p)[a] == ItemsOf(log[..n], p)[b];
      assert ItemsOf(log, p)[a] == ItemsOf(log, p)[b];
    }
  }

  lemma EntriesDiffer(log: seq<Entry>, j: nat, k: nat, n: nat)
    requires j < k < |log| && ItemsOf(log, log[j].p) == UpTo(n)
    ensures log[j] != log[k]
  {
    if log[j] == log[k] {
      DistinctEntries(log, j, k);
    }
  }

  /** "Some unique data": with at most a hundred items each, no number is consumed twice. */
  lemma ConsumedNumbersDiffer(init: State, s: State, producers: nat, consumers: nat, itemsEach: nat, j: nat, k: nat)
    requires consumers > 0 && init.procs == MainProcs(producers, consumers, itemsEach) && itemsEach <= 100
    requires Reaches(init, s) && j < k < |s.consumed|
    ensures s.consumed[j] != s.consumed[k]
  {
    ReachableInv(init, s);
    EntriesAreItems(init, s, producers, consumers, itemsEach, j);
    EntriesAreItems(init, s, producers, consumers, itemsEach, k);
    var p := s.produced[j].p;
    assert ItemsOf(s.produced, p) == UpTo(Made(s.procs[p]));
    EntriesDiffer(s.produced, j, k, Made(s.procs[p]));
  }

  // ---- The program itself ----

  class SharedBuffer {
    const items: array<int>
    var inPos: int
    var outPos: int
    var mtx: int
    var empty: int
    var nonempty: int
    const procs: array<Process>
    ghost var produced: seq<Entry>
    ghost var consumed: seq<int>

    constructor (size: nat, producers: nat, consumers: nat, itemsEach: nat)
      requires size > 0 && consumers > 0
      ensures fresh(items) && fresh(procs) && items.Length == size
      ensures Init(View()) && procs[..] == MainProcs(producers, consumers, itemsEach)
    {
      items := new int[size];
      inPos, outPos, mtx, empty, nonempty := 0, 0, 1, size, 0;
      var all := MainProcs(producers, consumers, itemsEach);
      procs := new Process[|all|](k requires 0 <= k < |all| => all[k]);
      produced, consumed := [], [];
      new;
      assert procs[..] == all;
    }

    ghost function View(): State reads this, items, procs {
      State(items[..], inPos, outPos, mtx, empty, nonempty, procs[..], produced, consumed)
    }

    /** The next operation of a producer that is able to go on. */
    method ProducerStep(t: nat)
      requires t < procs.Length && procs[t].role.Producer? && Step(View(), t).Some?
      modifies this, items, procs
      ensures Step(old(View()), t) == Some(View())
    {
      var me := procs[t];
      match me.pc {
        case WaitToken =>
          empty := empty - 1;
          procs[t] := me.(pc := WaitMutex);
        case WaitMutex =>
          mtx := mtx - 1;
          procs[t] := me.(pc := Access);
        case Access =>
          items[inPos] := ItemOf(me.role, me.i);
          produced := produced + [Entry(t, me.i)];
          procs[t] := me.(pc := Advance);
        case Advance =>
          inPos := (inPos + 1) % items.Length;
          procs[t] := me.(pc := PostMutex);
        case PostMutex =>
          mtx := mtx + 1;
          procs[t] := me.(pc := PostToken);
        case PostToken =>
          nonempty := nonempty + 1;
          procs[t] := LoopTest(me.(i := me.i + 1));
      }
    }

    /** The next operation of a consumer that is able to go on. */
    method ConsumerStep(t: nat) returns (item: Option<int>)
      requires t < procs.Length && procs[t].role.Consumer? && Step(View(), t).Some?
      modifies this, procs
      ensures Step(old(View()), t) == Some(View())
      ensures item.Some? <==> old(procs[t]).pc.Access?
      ensures item.Some? ==> consumed == old(consumed) + [item.value]
    {
      var me := procs[t];
      item := None;
      match me.pc {
        case WaitToken =>
          nonempty := nonempty - 1;
          procs[t] := me.(pc := WaitMutex);
        case WaitMutex =>
          mtx := mtx - 1;
          procs[t] := me.(pc := Access);
        case Access =>
          item := Some(items[outPos]);
          consumed := consumed + [items[outPos]];
          procs[t] := me.(pc := Advance);
        case Advance =>
          outPos := (outPos + 1) % items.Length;
          procs[t] := me.(pc := PostMutex);
        case PostMutex =>
          mtx := mtx + 1;
          procs[t] := me.(pc := PostToken);
        case PostToken =>
          empty := empty + 1;
          procs[t] := LoopTest(me.(i := me.i + 1));
      }
    }
  }
}

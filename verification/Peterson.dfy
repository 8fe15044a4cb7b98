/** Peterson's lock of `peterson_atomic.c` around bank transfers.  The guard
    `flag[j] && turn == j` is read in two separate loads; each `-=` and `+=` on a
    balance is a load and a store. */
module Peterson {
  import opened Wrappers
  import opened Traces
  import opened Counting

  datatype Transfer = Transfer(src: nat, dst: nat, amount: nat)

  datatype Pc =
    | SetFlag | SetTurn          // entry
    | LoadFlag | LoadTurn        // the guard of the busy wait
    | Check                      // transfer: is there enough?
    | LoadSrc | StoreSrc(v: int)
    | LoadDst | StoreDst(w: int)
    | ClearFlag                  // exit
    | Done

  /** `jobs` are the transfers that the random numbers come to. */
  datatype Thread = Thread(jobs: seq<Transfer>, k: nat, pc: Pc)

  /** `bypassed[i]`: how often the other thread entered since i stored `turn`. */
  datatype State = State(
    flag: seq<bool>, turn: int, balances: seq<int>, threads: seq<Thread>, bypassed: seq<nat>)

  /** What `client_simulator` draws: two different accounts and 1..100. */
  predicate JobsOk(jobs: seq<Transfer>, accounts: nat) {
    forall k :: 0 <= k < |jobs| ==>
      jobs[k].src < accounts && jobs[k].dst < accounts && jobs[k].src != jobs[k].dst && 1 <= jobs[k].amount <= 100
  }

  predicate Shape(s: State) {
    && |s.flag| == 2 && |s.threads| == 2 && |s.bypassed| == 2
    && JobsOk(s.threads[0].jobs, |s.balances|) && JobsOk(s.threads[1].jobs, |s.balances|)
  }

  function LoopTest(t: Thread): Thread { t.(pc := if t.k < |t.jobs| then SetFlag else Done) }

  function Goto(s: State, i: nat, pc: Pc): State
    requires i < |s.threads|
  {
    s.(threads := s.threads[i := s.threads[i].(pc := pc)])
  }

  function Enter(s: State, i: nat): State
    requires Shape(s) && i < 2
  {
    Goto(s, i, Check).(bypassed := s.bypassed[1 - i := s.bypassed[1 - i] + 1])
  }

  /** The next operation of thread i. */
  function StepBy(s: State, i: nat): Option<State>
    requires Shape(s) && i < 2
  {
    var me, j := s.threads[i], 1 - i;
    if me.pc.Done? || me.k >= |me.jobs| then None
    else
      var job := me.jobs[me.k];
      match me.pc
      case SetFlag => Some(Goto(s, i, SetTurn).(flag := s.flag[i := true]))
      case SetTurn => Some(Goto(s, i, LoadFlag).(turn := j, bypassed := s.bypassed[i := 0]))
      case LoadFlag => Some(if s.flag[j] then Goto(s, i, LoadTurn) else Enter(s, i))
      case LoadTurn => Some(if s.turn == j then Goto(s, i, LoadFlag) else Enter(s, i))
      case Check => Some(Goto(s, i, if s.balances[job.src] < job.amount then ClearFlag else LoadSrc))
      case LoadSrc => Some(Goto(s, i, StoreSrc(s.balances[job.src])))
      case StoreSrc(v) => Some(Goto(s, i, LoadDst).(balances := s.balances[job.src := v - job.amount]))
      case LoadDst => Some(Goto(s, i, StoreDst(s.balances[job.dst])))
      case StoreDst(w) => Some(Goto(s, i, ClearFlag).(balances := s.balances[job.dst := w + job.amount]))
      case ClearFlag =>
        Some(s.(flag := s.flag[i := false], threads := s.threads[i := LoopTest(me.(k := me.k + 1))]))
  }

  function Step(s: State, i: nat): Option<State> {
    if Shape(s) && i < 2 then StepBy(s, i) else None
  }

  predicate Init(s: State) {
    && Shape(s) && s.flag == [false, false] && s.turn == 0 && s.bypassed == [0, 0]
    && (forall a :: 0 <= a < |s.balances| ==> s.balances[a] >= 0)
    && s.threads[0] == LoopTest(s.threads[0].(k := 0)) && s.threads[1] == LoopTest(s.threads[1].(k := 0))
  }

  // ---- The lock ----

  predicate Competing(pc: Pc) { !pc.SetFlag? && !pc.Done? }
  predicate Waiting(pc: Pc) { pc.LoadFlag? || pc.LoadTurn? }
  predicate Inside(pc: Pc) { Competing(pc) && !Waiting(pc) && !pc.SetTurn? }

  predicate LockInv(s: State)
    requires Shape(s)
  {
    s.turn in {0, 1} && ThreadLockInv(s, 0) && ThreadLockInv(s, 1)
  }

  predicate ThreadLockInv(s: State, i: nat)
    requires Shape(s) && i < 2
  {
    FlagInv(s, i) && ExclusionInv(s, i) && BypassInv(s, i)
  }

  predicate FlagInv(s: State, i: nat)
    requires Shape(s) && i < 2
  {
    var t := s.threads[i];
    s.flag[i] == Competing(t.pc) && t.k <= |t.jobs| && (t.pc.Done? <==> t.k == |t.jobs|)
  }

  /** Inside means the other is not, and if it waits, that it is its turn to wait. */
  predicate ExclusionInv(s: State, i: nat)
    requires Shape(s) && i < 2
  {
    var pc, other := s.threads[i].pc, s.threads[1 - i].pc;
    Inside(pc) ==> !Inside(other) && (Waiting(other) ==> s.turn == i)
  }

  /** Bypassed once, and not a second time: the other is inside, or out, or has given way. */
  predicate BypassInv(s: State, i: nat)
    requires Shape(s) && i < 2
  {
    var pc, other := s.threads[i].pc, s.threads[1 - i].pc;
    Waiting(pc) ==> s.bypassed[i] <= 1 && (s.bypassed[i] == 1 ==> !Waiting(other) || s.turn == i)
  }

  /** A step by thread i leaves the other thread where it is. */
  lemma StepFrame(s: State, i: nat)
    requires Shape(s) && i < 2 && StepBy(s, i).Some?
    ensures var s' := StepBy(s, i).value;
            && Shape(s') && |s'.balances| == |s.balances|
            && s'.threads[1 - i] == s.threads[1 - i] && s'.flag[1 - i] == s.flag[1 - i]
            && s'.threads[i].jobs == s.threads[i].jobs
  {
  }

  lemma StepKeepsFlags(s: State, i: nat)
    requires Shape(s) && i < 2 && StepBy(s, i).Some? && Shape(StepBy(s, i).value)
    requires FlagInv(s, i)
    ensures FlagInv(StepBy(s, i).value, i)
  {
  }

  lemma StepKeepsExclusion(s: State, i: nat)
    requires Shape(s) && LockInv(s) && i < 2 && StepBy(s, i).Some? && Shape(StepBy(s, i).value)
    ensures var s' := StepBy(s, i).value;
            s'.turn in {0, 1} && ExclusionInv(s', i) && ExclusionInv(s', 1 - i)
  {
    assert ThreadLockInv(s, i) && ThreadLockInv(s, 1 - i);
  }

  lemma StepKeepsOwnBypass(s: State, i: nat)
    requires Shape(s) && LockInv(s) && i < 2 && StepBy(s, i).Some? && Shape(StepBy(s, i).value)
    ensures BypassInv(StepBy(s, i).value, i)
  {
    assert ThreadLockInv(s, i);
  }

  lemma StepKeepsOtherBypass(s: State, i: nat)
    requires Shape(s) && LockInv(s) && i < 2 && StepBy(s, i).Some? && Shape(StepBy(s, i).value)
    ensures BypassInv(StepBy(s, i).value, 1 - i)
  {
    assert ThreadLockInv(s, 1 - i) && FlagInv(s, i);
  }

  lemma StepKeepsLock(s: State, i: nat)
    requires Shape(s) && LockInv(s) && i < 2 && StepBy(s, i).Some?
    ensures Shape(StepBy(s, i).value) && LockInv(StepBy(s, i).value)
  {
    assert ThreadLockInv(s, i) && ThreadLockInv(s, 1 - i);
    StepFrame(s, i);
    StepKeepsFlags(s, i);
    StepKeepsExclusion(s, i);
    StepKeepsOwnBypass(s, i);
    StepKeepsOtherBypass(s, i);
    var s' := StepBy(s, i).value;
    assert ThreadLockInv(s', i) && ThreadLockInv(s', 1 - i);
  }

  // ---- The money ----

  function Money(b: int): int { b }

  function Job(s: State, i: nat): Transfer
    requires Shape(s) && i < 2 && s.threads[i].k < |s.threads[i].jobs|
  {
    s.threads[i].jobs[s.threads[i].k]
  }

  /** Taken from one account and not yet put on the other. */
  function InTransit(s: State, i: nat): int
    requires Shape(s) && i < 2
  {
    var t := s.threads[i];
    if t.k < |t.jobs| && (t.pc.LoadDst? || t.pc.StoreDst?) then t.jobs[t.k].amount else 0
  }

  predicate MoneyInv(s: State, total: int)
    requires Shape(s)
  {
    && (forall a :: 0 <= a < |s.balances| ==> s.balances[a] >= 0)
    && Total(s.balances, Money) + InTransit(s, 0) + InTransit(s, 1) == total
    && AccountInv(s, 0) && AccountInv(s, 1)
  }

  /** What the thread has read is still what is there, and there is enough. */
  predicate AccountInv(s: State, i: nat)
    requires Shape(s) && i < 2
  {
    var t := s.threads[i];
    t.k < |t.jobs| ==>
      var job := t.jobs[t.k];
      && (t.pc.LoadSrc? || t.pc.StoreSrc? ==> s.balances[job.src] >= job.amount)
      && (t.pc.StoreSrc? ==> t.pc.v == s.balances[job.src])
      && (t.pc.StoreDst? ==> t.pc.w == s.balances[job.dst])
  }

  /** Each store moves exactly the amount in transit. */
  lemma StepMovesMoney(s: State, i: nat)
    requires Shape(s) && i < 2 && StepBy(s, i).Some? && AccountInv(s, i) && Shape(StepBy(s, i).value)
    ensures var s' := StepBy(s, i).value;
            Total(s'.balances, Money) + InTransit(s', i) == Total(s.balances, Money) + InTransit(s, i)
  {
    var pc, job := s.threads[i].pc, Job(s, i);
    var s' := StepBy(s, i).value;
    var from, to := InTransit(s, i), InTransit(s', i);
    assert pc.StoreSrc? ==> s'.balances == s.balances[job.src := pc.v - job.amount] && from == 0 && to == job.amount;
    assert pc.StoreDst? ==> s'.balances == s.balances[job.dst := pc.w + job.amount] && from == job.amount && to == 0;
    assert !pc.StoreSrc? && !pc.StoreDst? ==> s'.balances == s.balances && from == to;
    hide Total, StepBy, InTransit;
    if pc.StoreSrc? {
      TotalUpdate(s.balances, Money, job.src, pc.v - job.amount);
    } else if pc.StoreDst? {
      TotalUpdate(s.balances, Money, job.dst, pc.w + job.amount);
    }
  }

  lemma OwnAccountInv(s: State, i: nat)
    requires Shape(s) && i < 2 && StepBy(s, i).Some? && AccountInv(s, i) && Shape(StepBy(s, i).value)
    ensures AccountInv(StepBy(s, i).value, i)
  {
  }

  lemma NeverNegative(s: State, i: nat)
    requires Shape(s) && i < 2 && StepBy(s, i).Some? && AccountInv(s, i)
    requires forall a :: 0 <= a < |s.balances| ==> s.balances[a] >= 0
    ensures var s' := StepBy(s, i).value; forall a :: 0 <= a < |s'.balances| ==> s'.balances[a] >= 0
  {
  }

  /** The other thread is not inside while this one stores. */
  lemma OtherAccountInv(s: State, i: nat)
    requires Shape(s) && LockInv(s) && i < 2 && StepBy(s, i).Some? && AccountInv(s, 1 - i)
    requires Shape(StepBy(s, i).value) && StepBy(s, i).value.threads[1 - i] == s.threads[1 - i]
    ensures AccountInv(StepBy(s, i).value, 1 - i)
  {
    assert ThreadLockInv(s, i);
  }

  lemma StepKeepsMoney(s: State, i: nat, total: int)
    requires Shape(s) && LockInv(s) && MoneyInv(s, total) && i < 2 && StepBy(s, i).Some?
    ensures Shape(StepBy(s, i).value) && MoneyInv(StepBy(s, i).value, total)
  {
    StepFrame(s, i);
    StepMovesMoney(s, i);
    OwnAccountInv(s, i);
    NeverNegative(s, i);
    OtherAccountInv(s, i);
    var s' := StepBy(s, i).value;
    assert InTransit(s', 1 - i) == InTransit(s, 1 - i);
  }

  ghost predicate Inv(s: State, total: int) { Shape(s) && LockInv(s) && MoneyInv(s, total) }

  ghost predicate Reaches(init: State, s: State) {
    Init(init) && exists schedule: seq<nat> :: Run(Step, init, schedule) == Some(s)
  }

  lemma StepKeepsInv(s: State, i: nat, total: int)
    requires Inv(s, total) && Step(s, i).Some?
    ensures Inv(Step(s, i).value, total)
  {
    StepKeepsLock(s, i);
    StepKeepsMoney(s, i, total);
  }

  lemma ReachableInv(init: State, s: State)
    requires Reaches(init, s)
    ensures Inv(s, Total(init.balances, Money))
  {
    hide Step;
    var schedule: seq<nat> :| Run(Step, init, schedule) == Some(s);
    var total := Total(init.balances, Money);
    forall s, i | Inv(s, total) && Step(s, i).Some? ensures Inv(Step(s, i).value, total) {
      StepKeepsInv(s, i, total);
    }
    Invariance(Step, s => Inv(s, total), init, schedule);
  }

  // ---- What holds in every run ----

  /** The two threads are never inside together, although the guard is two loads. */
  lemma MutualExclusion(init: State, s: State)
    requires Reaches(init, s)
    ensures |s.threads| == 2 && !(Inside(s.threads[0].pc) && Inside(s.threads[1].pc))
  {
    ReachableInv(init, s);
    assert ThreadLockInv(s, 0);
  }

  /** Bounded waiting: after a thread has stored `turn` the other enters at most once before it does. */
  lemma BoundedWaiting(init: State, s: State, i: nat)
    requires Reaches(init, s) && i < 2
    ensures |s.threads| == 2 && |s.bypassed| == 2
    ensures Waiting(s.threads[i].pc) ==> s.bypassed[i] <= 1
  {
    ReachableInv(init, s);
    assert ThreadLockInv(s, i);
  }

  /** Progress: when both wait, the one `turn` names gets in by its own next one or two steps. */
  lemma NotBothBlocked(init: State, s: State)
    requires Reaches(init, s)
    ensures |s.threads| == 2 && s.turn in {0, 1}
    ensures Waiting(s.threads[0].pc) && Waiting(s.threads[1].pc) ==>
              exists schedule :: schedule in {[s.turn], [s.turn, s.turn]} && Run(Step, s, schedule).Some? &&
                var s' := Run(Step, s, schedule).value; |s'.threads| == 2 && Inside(s'.threads[s.turn].pc)
  {
    ReachableInv(init, s);
    if Waiting(s.threads[0].pc) && Waiting(s.threads[1].pc) {
      var schedule := NamedByTurnEnters(s);
    }
  }

  lemma NamedByTurnEnters(s: State) returns (schedule: seq<nat>)
    requires Shape(s) && LockInv(s) && Waiting(s.threads[0].pc) && Waiting(s.threads[1].pc)
    ensures schedule in {[s.turn], [s.turn, s.turn]} && Run(Step, s, schedule).Some?
    ensures var s' := Run(Step, s, schedule).value; |s'.threads| == 2 && Inside(s'.threads[s.turn].pc)
  {
    var i: nat := s.turn;
    assert ThreadLockInv(s, i) && ThreadLockInv(s, 1 - i);
    StepKeepsLock(s, i);
    var s1 := StepBy(s, i).value;
    if s.threads[i].pc.LoadFlag? {
      schedule := [i, i];
      assert schedule[1..] == [i];
      assert s1.threads[i].pc.LoadTurn? && s1.turn == i;
      StepKeepsLock(s1, i);
      assert Run(Step, s1, [i]) == Step(s1, i);
    } else {
      schedule := [i];
      assert Run(Step, s, [i]) == Step(s, i);
    }
  }

  predicate InTransfer(pc: Pc) { pc.LoadSrc? || pc.StoreSrc? || pc.LoadDst? || pc.StoreDst? }

  /** No balance ever becomes negative; the total is the initial one whenever nobody transfers. */
  lemma MoneyIsConserved(init: State, s: State)
    requires Reaches(init, s)
    ensures |s.threads| == 2
    ensures forall a :: 0 <= a < |s.balances| ==> s.balances[a] >= 0
    ensures !InTransfer(s.threads[0].pc) && !InTransfer(s.threads[1].pc) ==>
              Total(s.balances, Money) == Total(init.balances, Money)
  {
    ReachableInv(init, s);
  }

  // ---- The ledger: what the transfers come to ----

  /** A visit to the critical section that has ended: whose, and which transfer. */
  datatype Visit = Visit(thread: nat, job: Transfer)

  /** The visits that end in a run, in order, as seen from outside: a thread was inside
      before its step and is not after it. */
  function Visits(s: State, schedule: seq<nat>): seq<Visit>
    decreases |schedule|
  {
    if schedule == [] || Step(s, schedule[0]).None? then []
    else
      var s' := Step(s, schedule[0]).value;
      Ended(s, s', schedule[0]) + Visits(s', schedule[1..])
  }

  function Ended(s: State, s': State, i: nat): seq<Visit> {
    if Leaves(s, s', i) then [Visit(i, s.threads[i].jobs[s.threads[i].k])] else []
  }

  predicate Leaves(s: State, s': State, i: nat) {
    && i < |s.threads| && i < |s'.threads| && s.threads[i].k < |s.threads[i].jobs|
    && Inside(s.threads[i].pc) && !Inside(s'.threads[i].pc)
  }

  /** One transfer: the amount moves if there is enough, else nothing happens. */
  function Pay(balances: seq<int>, job: Transfer): (after: seq<int>)
    requires job.src < |balances| && job.dst < |balances| && job.src != job.dst
    ensures |after| == |balances|
    ensures balances[job.src] < job.amount ==> after == balances
    ensures balances[job.src] >= job.amount ==>
              && after[job.src] == balances[job.src] - job.amount
              && after[job.dst] == balances[job.dst] + job.amount
    ensures forall a :: 0 <= a < |balances| && a != job.src && a != job.dst ==> after[a] == balances[a]
  {
    if balances[job.src] < job.amount then balances
    else balances[job.src := balances[job.src] - job.amount][job.dst := balances[job.dst] + job.amount]
  }

  predicate VisitsOk(visits: seq<Visit>, accounts: nat) {
    forall k :: 0 <= k < |visits| ==>
      var job := visits[k].job; job.src < accounts && job.dst < accounts && job.src != job.dst
  }

  function PayAll(balances: seq<int>, visits: seq<Visit>): seq<int>
    requires VisitsOk(visits, |balances|)
    decreases |visits|
  {
    if visits == [] then balances else PayAll(Pay(balances, visits[0].job), visits[1..])
  }

  function JobsOf(visits: seq<Visit>, i: nat): seq<Transfer> {
    if visits == [] then []
    else (if visits[0].thread == i then [visits[0].job] else []) + JobsOf(visits[1..], i)
  }

  /** How far the visit of thread i has come, from the balances it found. */
  predicate VisitInv(s: State, i: nat, entry: seq<int>)
    requires Shape(s) && i < 2 && |entry| == |s.balances| && s.threads[i].k < |s.threads[i].jobs|
  {
    var pc, job := s.threads[i].pc, Job(s, i);
    match pc
    case Check => s.balances == entry
    case LoadSrc => s.balances == entry && entry[job.src] >= job.amount
    case StoreSrc(v) => s.balances == entry && entry[job.src] >= job.amount && v == entry[job.src]
    case LoadDst => entry[job.src] >= job.amount && s.balances == entry[job.src := entry[job.src] - job.amount]
    case StoreDst(w) =>
      && entry[job.src] >= job.amount && s.balances == entry[job.src := entry[job.src] - job.amount]
      && w == entry[job.dst]
    case ClearFlag => s.balances == Pay(entry, job)
    case _ => true
  }

  /** `entry` are the balances after all visits that have ended. */
  predicate LedgerInv(s: State, entry: seq<int>)
    requires Shape(s)
  {
    && |entry| == |s.balances|
    && (forall i :: 0 <= i < 2 && Inside(s.threads[i].pc) ==>
          s.threads[i].k < |s.threads[i].jobs| && VisitInv(s, i, entry))
    && (!Inside(s.threads[0].pc) && !Inside(s.threads[1].pc) ==> s.balances == entry)
  }

  /** What a step by thread i makes of the ledger. */
  function EntryAfter(s: State, s': State, i: nat, entry: seq<int>): seq<int>
    requires Shape(s) && i < 2 && |entry| == |s.balances|
  {
    if Leaves(s, s', i) then Pay(entry, Job(s, i)) else entry
  }

  /** The thread inside goes on with its visit, or ends it with the transfer made or refused. */
  lemma InsideStep(s: State, i: nat, entry: seq<int>)
    requires Shape(s) && i < 2 && Inside(s.threads[i].pc) && StepBy(s, i).Some? && Shape(StepBy(s, i).value)
    requires |entry| == |s.balances| && VisitInv(s, i, entry)
    ensures var s' := StepBy(s, i).value;
            && |s'.balances| == |s.balances|
            && if Inside(s'.threads[i].pc) then
                 !Leaves(s, s', i) && s'.threads[i].k == s.threads[i].k && VisitInv(s', i, entry)
               else Leaves(s, s', i) && s'.balances == Pay(entry, Job(s, i))
  {
  }

  /** Outside nothing is paid; a visit begins at its check. */
  lemma OutsideStep(s: State, i: nat)
    requires Shape(s) && i < 2 && !Inside(s.threads[i].pc) && StepBy(s, i).Some? && Shape(StepBy(s, i).value)
    ensures var s' := StepBy(s, i).value;
            && s'.balances == s.balances && !Leaves(s, s', i)
            && (Inside(s'.threads[i].pc) ==>
                  s'.threads[i].k < |s'.threads[i].jobs| && VisitInv(s', i, s.balances))
  {
  }

  lemma NotBothInside(s: State)
    requires Shape(s) && LockInv(s)
    ensures !(Inside(s.threads[0].pc) && Inside(s.threads[1].pc))
  {
    assert ThreadLockInv(s, 0);
  }

  lemma StepKeepsLedger(s: State, i: nat, entry: seq<int>)
    requires Shape(s) && LockInv(s) && LedgerInv(s, entry) && i < 2 && StepBy(s, i).Some?
    ensures var s' := StepBy(s, i).value;
            Shape(s') && LedgerInv(s', EntryAfter(s, s', i, entry))
  {
    hide StepBy, LockInv, Pay, VisitInv, Leaves;
    StepKeepsLock(s, i);
    StepFrame(s, i);
    NotBothInside(s);
    var s' := StepBy(s, i).value;
    NotBothInside(s');
    if Inside(s.threads[i].pc) {
      InsideStep(s, i, entry);
    } else {
      OutsideStep(s, i);
    }
    assert i == 0 || i == 1;
    forall j | 0 <= j < 2 && Inside(s'.threads[j].pc)
      ensures s'.threads[j].k < |s'.threads[j].jobs| && VisitInv(s', j, EntryAfter(s, s', i, entry))
    {
      if j != i { OtherVisit(s, s', j, entry); }
    }
  }

  /** A visit does not notice what happens outside. */
  lemma OtherVisit(s: State, s': State, j: nat, entry: seq<int>)
    requires Shape(s) && Shape(s') && j < 2 && s'.balances == s.balances && s'.threads[j] == s.threads[j]
    requires |entry| == |s.balances| && s.threads[j].k < |s.threads[j].jobs| && VisitInv(s, j, entry)
    ensures VisitInv(s', j, entry)
  {
  }

  /** The visits that end are those of the transfers, one after the other. */
  lemma StepCountsJobs(s: State, i: nat)
    requires Shape(s) && LockInv(s) && i < 2 && StepBy(s, i).Some? && Shape(StepBy(s, i).value)
    ensures var s' := StepBy(s, i).value;
            && s'.threads[i].jobs == s.threads[i].jobs && s'.threads[1 - i] == s.threads[1 - i]
            && s'.threads[i].k == s.threads[i].k + One(Leaves(s, s', i))
  {
    assert ThreadLockInv(s, i);
    StepFrame(s, i);
    hide LockInv, ThreadLockInv, ExclusionInv, BypassInv;
  }

  lemma {:induction false} LedgerRun(s: State, schedule: seq<nat>, entry: seq<int>)
    requires Shape(s) && LockInv(s) && LedgerInv(s, entry) && Run(Step, s, schedule).Some?
    ensures var s', visits := Run(Step, s, schedule).value, Visits(s, schedule);
            && Shape(s') && LockInv(s') && VisitsOk(visits, |entry|) && LedgerInv(s', PayAll(entry, visits))
    decreases |schedule|
  {
    if schedule != [] {
      var i, s1, rest := schedule[0], Step(s, schedule[0]).value, Visits(Step(s, schedule[0]).value, schedule[1..]);
      StepKeepsLock(s, i);
      StepKeepsLedger(s, i, entry);
      assert Visits(s, schedule) == Ended(s, s1, i) + rest;
      hide StepBy, Step, LockInv, LedgerInv, Pay, Visits;
      LedgerRun(s1, schedule[1..], EntryAfter(s, s1, i, entry));
      if Leaves(s, s1, i) {
        VisitsPaid(entry, Visit(i, Job(s, i)), rest);
      } else {
        assert Ended(s, s1, i) + rest == rest;
      }
    }
  }

  lemma VisitsPaid(entry: seq<int>, first: Visit, rest: seq<Visit>)
    requires VisitsOk([first], |entry|) && VisitsOk(rest, |entry|)
    ensures VisitsOk([first] + rest, |entry|)
    ensures [first][0] == first && PayAll(entry, [first] + rest) == PayAll(Pay(entry, first.job), rest)
  {
    assert ([first] + rest)[1..] == rest;
  }

  lemma {:induction false} JobsOfConcat(a: seq<Visit>, b: seq<Visit>, i: nat)
    ensures JobsOf(a + b, i) == JobsOf(a, i) + JobsOf(b, i)
  {
    if a == [] {
      assert a + b == b;
    } else {
      assert (a + b)[1..] == a[1..] + b;
      JobsOfConcat(a[1..], b, i);
    }
  }

  /** One step ends at most one visit, that of the stepping thread's current transfer. */
  lemma StepEnds(s: State, j: nat, i: nat)
    requires Shape(s) && LockInv(s) && i < 2 && Step(s, j).Some?
    ensures var s1 := Step(s, j).value;
            && Shape(s1) && LockInv(s1) && s1.threads[i].jobs == s.threads[i].jobs
            && s.threads[i].k <= s1.threads[i].k <= |s.threads[i].jobs|
            && JobsOf(Ended(s, s1, j), i) == s.threads[i].jobs[s.threads[i].k..s1.threads[i].k]
  {
    hide StepBy, ExclusionInv, BypassInv;
    StepKeepsLock(s, j);
    StepCountsJobs(s, j);
    var s1 := Step(s, j).value;
    assert ThreadLockInv(s1, i);
    JobsOfOne(s, s1, j, i);
  }

  lemma JobsOfOne(s: State, s1: State, j: nat, i: nat)
    requires |s.threads| == 2 && |s1.threads| == 2 && i < 2 && j < 2
    requires Leaves(s, s1, j) || Ended(s, s1, j) == []
    ensures JobsOf(Ended(s, s1, j), i) ==
            if Leaves(s, s1, j) && j == i then [s.threads[i].jobs[s.threads[i].k]] else []
  {
    var e := Ended(s, s1, j);
    assert e == [] || e[1..] == [];
  }

  lemma SliceJoin(jobs: seq<Transfer>, from: nat, mid: nat, to: nat)
    requires from <= mid <= to <= |jobs|
    ensures jobs[from..mid] + jobs[mid..to] == jobs[from..to]
  {
  }

  lemma {:induction false} JobsRun(s: State, schedule: seq<nat>, i: nat)
    requires Shape(s) && LockInv(s) && i < 2 && Run(Step, s, schedule).Some?
    ensures var s' := Run(Step, s, schedule).value;
            && |s'.threads| == 2 && s'.threads[i].jobs == s.threads[i].jobs
            && s.threads[i].k <= s'.threads[i].k <= |s.threads[i].jobs|
            && JobsOf(Visits(s, schedule), i) == s.threads[i].jobs[s.threads[i].k..s'.threads[i].k]
    decreases |schedule|
  {
    assert ThreadLockInv(s, i) && (schedule == [] ==> JobsOf(Visits(s, schedule), i) == []);
    assert schedule != [] ==>
        var s1 := Step(s, schedule[0]).value;
        Visits(s, schedule) == Ended(s, s1, schedule[0]) + Visits(s1, schedule[1..]);
    hide StepBy, Step, LockInv, ThreadLockInv, Visits, JobsOf, Ended;
    if schedule != [] {
      var s1 := Step(s, schedule[0]).value;
      StepEnds(s, schedule[0], i);
      JobsRun(s1, schedule[1..], i);
      JobsOfConcat(Ended(s, s1, schedule[0]), Visits(s1, schedule[1..]), i);
      SliceJoin(s.threads[i].jobs, s.threads[i].k, s1.threads[i].k, Run(Step, s, schedule).value.threads[i].k);
    }
  }

  /** In every run: the visits of each thread are its transfers in order, and whenever
      nobody is inside the balances are what these transfers, paid one after the other
      in the order of the visits, make of the initial ones. */
  lemma BalancesAreTheLedger(init: State, schedule: seq<nat>)
    requires Init(init) && Run(Step, init, schedule).Some?
    ensures var s, visits := Run(Step, init, schedule).value, Visits(init, schedule);
            && |s.threads| == 2 && VisitsOk(visits, |init.balances|)
            && (forall i :: 0 <= i < 2 ==>
                  && s.threads[i].k <= |init.threads[i].jobs|
                  && JobsOf(visits, i) == init.threads[i].jobs[..s.threads[i].k])
            && (!Inside(s.threads[0].pc) && !Inside(s.threads[1].pc) ==> s.balances == PayAll(init.balances, visits))
  {
    InitLedger(init);
    hide StepBy, Step, LockInv, Visits;
    LedgerRun(init, schedule, init.balances);
    JobsRun(init, schedule, 0);
    JobsRun(init, schedule, 1);
  }

  lemma InitLedger(s: State)
    requires Init(s)
    ensures Shape(s) && LockInv(s) && LedgerInv(s, s.balances)
    ensures s.threads[0].k == 0 && s.threads[1].k == 0
  {
  }

  // ---- Every reachable state can be finished ----

  function Rank(s: State, i: nat): int
    requires Shape(s) && i < 2
  {
    var t := s.threads[i];
    20 * (|t.jobs| - t.k) + (match t.pc
      case SetFlag => 16 case SetTurn => 15 case LoadFlag => 12
      case LoadTurn => if s.turn == i then 11 else 13
      case Check => 10 case LoadSrc => 9 case StoreSrc(_) => 8 case LoadDst => 7 case StoreDst(_) => 6
      case ClearFlag => 1 case Done => 0)
  }

  function Work(s: State): int
    requires Shape(s)
  {
    Rank(s, 0) + Rank(s, 1)
  }

  /** The thread that can move towards its end. */
  function Choice(s: State): nat
    requires Shape(s)
  {
    var p, q := s.threads[0].pc, s.threads[1].pc;
    if Inside(p) then 0 else if Inside(q) then 1
    else if p.SetFlag? || p.SetTurn? then 0 else if q.SetFlag? || q.SetTurn? then 1
    else if Waiting(p) && Waiting(q) then (if s.turn == 0 then 0 else 1)
    else if Waiting(p) then 0 else 1
  }

  predicate AllDone(s: State) {
    |s.threads| == 2 && s.threads[0].pc.Done? && s.threads[1].pc.Done?
  }

  lemma StepReducesRank(s: State, i: nat)
    requires Shape(s) && LockInv(s) && i < 2 && StepBy(s, i).Some? && Shape(StepBy(s, i).value)
    requires i == Choice(s)
    ensures Rank(StepBy(s, i).value, i) < Rank(s, i)
  {
    assert ThreadLockInv(s, i) && ThreadLockInv(s, 1 - i);
  }

  lemma StepKeepsOtherRank(s: State, i: nat)
    requires Shape(s) && i < 2 && StepBy(s, i).Some? && Shape(StepBy(s, i).value)
    requires StepBy(s, i).value.threads[1 - i] == s.threads[1 - i]
    ensures Rank(StepBy(s, i).value, 1 - i) <= Rank(s, 1 - i)
  {
  }

  lemma ChoiceReducesWork(s: State)
    requires Shape(s) && LockInv(s) && !AllDone(s)
    ensures Choice(s) < 2 && StepBy(s, Choice(s)).Some?
    ensures Shape(StepBy(s, Choice(s)).value) && Work(StepBy(s, Choice(s)).value) < Work(s)
  {
    var i := Choice(s);
    assert ThreadLockInv(s, 0) && ThreadLockInv(s, 1);
    StepFrame(s, i);
    StepReducesRank(s, i);
    StepKeepsOtherRank(s, i);
  }

  lemma {:induction false} CanFinishFrom(s: State) returns (schedule: seq<nat>)
    requires Shape(s) && LockInv(s)
    ensures Run(Step, s, schedule).Some? && AllDone(Run(Step, s, schedule).value)
    decreases Work(s)
  {
    if AllDone(s) {
      schedule := [];
    } else {
      var i := Choice(s);
      assert ThreadLockInv(s, 0) && ThreadLockInv(s, 1);
      ChoiceReducesWork(s);
      StepKeepsLock(s, i);
      var rest := CanFinishFrom(StepBy(s, i).value);
      schedule := [i] + rest;
      assert schedule[1..] == rest;
    }
  }

  lemma CanFinish(init: State, s: State) returns (schedule: seq<nat>)
    requires Reaches(init, s)
    ensures Run(Step, s, schedule).Some? && AllDone(Run(Step, s, schedule).value)
  {
    ReachableInv(init, s);
    schedule := CanFinishFrom(s);
  }

  // ---- The program itself ----

  class Bank {
    const flag: array<bool>
    var turn: int
    const balances: array<int>
    const threads: array<Thread>
    ghost var bypassed: seq<nat>

    constructor (accounts: nat, initial: nat, jobs0: seq<Transfer>, jobs1: seq<Transfer>)
      requires JobsOk(jobs0, accounts) && JobsOk(jobs1, accounts)
      ensures fresh(flag) && fresh(balances) && fresh(threads)
      ensures Init(View()) && balances.Length == accounts
      ensures forall a :: 0 <= a < accounts ==> balances[a] == initial
    {
      flag := new bool[2](_ => false);
      turn := 0;
      balances := new int[accounts](_ => initial);
      threads := new Thread[2](i => LoopTest(Thread(if i == 0 then jobs0 else jobs1, 0, Done)));
      bypassed := [0, 0];
      new;
      assert threads[..] == [LoopTest(Thread(jobs0, 0, Done)), LoopTest(Thread(jobs1, 0, Done))];
      assert flag[..] == [false, false];
    }

    ghost function View(): State reads this, flag, balances, threads {
      State(flag[..], turn, balances[..], threads[..], bypassed)
    }

    /** `peterson_mutex_lock` by thread i: one store or one load. */
    method Lock(i: nat)
      requires i < 2 && Step(View(), i).Some? && !Inside(threads[i].pc)
      modifies this, flag, threads
      ensures Step(old(View()), i) == Some(View())
    {
      var me, j := threads[i], 1 - i;
      match me.pc {
        case SetFlag => flag[i] := true; threads[i] := me.(pc := SetTurn);
        case SetTurn => turn := j; bypassed := bypassed[i := 0]; threads[i] := me.(pc := LoadFlag);
        case LoadFlag =>
          if flag[j] {
            threads[i] := me.(pc := LoadTurn);
          } else {
            bypassed := bypassed[j := bypassed[j] + 1];
            threads[i] := me.(pc := Check);
          }
        case LoadTurn =>
          if turn == j {
            threads[i] := me.(pc := LoadFlag);
          } else {
            bypassed := bypassed[j := bypassed[j] + 1];
            threads[i] := me.(pc := Check);
          }
      }
    }

    /** `transfer` and `peterson_mutex_unlock` by thread i: one load or one store. */
    method TransferAndUnlock(i: nat)
      requires i < 2 && Step(View(), i).Some? && Inside(threads[i].pc)
      modifies flag, balances, threads
      ensures Step(old(View()), i) == Some(View())
    {
      var me := threads[i];
      var job := me.jobs[me.k];
      match me.pc {
        case Check =>
          if balances[job.src] < job.amount {
            threads[i] := me.(pc := ClearFlag);
          } else {
            threads[i] := me.(pc := LoadSrc);
          }
        case LoadSrc => threads[i] := me.(pc := StoreSrc(balances[job.src]));
        case StoreSrc(v) => balances[job.src] := v - job.amount; threads[i] := me.(pc := LoadDst);
        case LoadDst => threads[i] := me.(pc := StoreDst(balances[job.dst]));
        case StoreDst(w) => balances[job.dst] := w + job.amount; threads[i] := me.(pc := ClearFlag);
        case ClearFlag => flag[i] := false; threads[i] := LoopTest(me.(k := me.k + 1));
      }
    }

    /** `total_balance`. */
    method TotalBalance() returns (total: int)
      ensures total == Total(balances[..], Money)
    {
      total := 0;
      var a := 0;
      while a < balances.Length
        invariant 0 <= a <= balances.Length
        invariant total + Total(balances[a..], Money) == Total(balances[..], Money)
      {
        assert balances[a..][1..] == balances[a + 1..];
        total := total + balances[a];
        a := a + 1;
      }
    }
  }
}

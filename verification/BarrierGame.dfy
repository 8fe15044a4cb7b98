/** The dice game of `prog23.c`, for any numbers of players and rounds.  One
    barrier is used twice a round; the thread it elects at the first use gives the
    points, reading and writing the shared arrays one element at a time. */
module BarrierGame {
  import opened Wrappers
  import opened Traces
  import opened Counting

  datatype Pc =
    | Roll                              // write rolls[id]
    | Arrive1 | Blocked1                // first pthread_barrier_wait
    | FindMax(i: nat, max: int)         // the elected thread, first loop
    | Score(i: nat, max: int)           // second loop: compare rolls[i]
    | Bump(i: nat, max: int, v: int)    // second loop: store scores[i] + 1
    | Arrive2 | Blocked2                // second pthread_barrier_wait
    | Done

  /** `log` are the player's rolls, one per round begun. */
  datatype Player = Player(round: nat, pc: Pc, log: seq<int>)

  datatype State = State(rounds: nat, rolls: seq<int>, scores: seq<int>, players: seq<Player>)

  datatype Action =
    | Dice(p: nat, x: int)     // player p writes its roll x
    | Perform(p: nat)          // player p's next operation
    | Release(serial: nat)     // all threads are in the barrier; this one is told it is serial

  predicate Blocked(pc: Pc) { pc.Blocked1? || pc.Blocked2? }

  function LoopTest(p: Player, rounds: nat): Player { p.(pc := if p.round < rounds then Roll else Done) }

  function Goto(s: State, p: nat, pc: Pc): State
    requires p < |s.players|
  {
    s.(players := s.players[p := s.players[p].(pc := pc)])
  }

  function Released(p: Player, serial: bool, rounds: nat): Player {
    match p.pc
    case Blocked1 => p.(pc := if serial then FindMax(0, -1) else Arrive2)
    case Blocked2 => LoopTest(p.(round := p.round + 1), rounds)
    case _ => p
  }

  function Step(s: State, a: Action): Option<State> {
    var n := |s.players|;
    match a
    case Dice(p, x) =>
      if p < n && p < |s.rolls| && s.players[p].pc.Roll? && 1 <= x <= 6 then
        Some(s.(rolls := s.rolls[p := x],
                players := s.players[p := s.players[p].(pc := Arrive1, log := s.players[p].log + [x])]))
      else None
    case Perform(p) =>
      if p >= n || |s.rolls| != n || |s.scores| != n then None
      else (match s.players[p].pc
        case Arrive1 => Some(Goto(s, p, Blocked1))
        case FindMax(i, max) =>
          Some(Goto(s, p,
            if i >= n then Score(0, max) else FindMax(i + 1, if s.rolls[i] > max then s.rolls[i] else max)))
        case Score(i, max) =>
          Some(Goto(s, p,
            if i >= n then Arrive2 else if s.rolls[i] == max then Bump(i, max, s.scores[i]) else Score(i + 1, max)))
        case Bump(i, max, v) =>
          if i < n then Some(Goto(s, p, Score(i + 1, max)).(scores := s.scores[i := v + 1])) else None
        case Arrive2 => Some(Goto(s, p, Blocked2))
        case _ => None)
    case Release(serial) =>
      if serial < n && forall k :: 0 <= k < n ==> Blocked(s.players[k].pc) then
        Some(s.(players := seq(n, k requires 0 <= k < n => Released(s.players[k], k == serial, s.rounds))))
      else None
  }

  predicate Init(s: State) {
    && |s.players| == |s.rolls| == |s.scores| > 0
    && forall k :: 0 <= k < |s.players| ==>
         s.scores[k] == 0 && s.players[k] == LoopTest(Player(0, Done, []), s.rounds)
  }

  // ---- Who wins a round ----

  predicate Wins(players: seq<Player>, i: nat, r: nat)
    requires i < |players|
  {
    forall j :: 0 <= j < |players| ==>
      r < |players[j].log| && r < |players[i].log| && players[j].log[r] <= players[i].log[r]
  }

  /** In how many of the first k rounds player i rolled the maximum. */
  function Points(players: seq<Player>, i: nat, k: nat): nat
    requires i < |players|
  {
    if k == 0 then 0 else Points(players, i, k - 1) + One(Wins(players, i, k - 1))
  }

  /** Only the logs matter, and only the rounds counted. */
  lemma {:induction false} PointsFrame(a: seq<Player>, b: seq<Player>, i: nat, k: nat)
    requires |a| == |b| && i < |a|
    requires forall j :: 0 <= j < |a| ==> k <= |a[j].log| && a[j].log <= b[j].log
    ensures Points(a, i, k) == Points(b, i, k)
  {
    if k > 0 {
      PointsFrame(a, b, i, k - 1);
      assert forall j :: 0 <= j < |a| ==> a[j].log[k - 1] == b[j].log[k - 1];
    }
  }

  // ---- Invariant: the players go through the rounds together ----

  predicate Shape(s: State) { |s.players| == |s.rolls| == |s.scores| > 0 }

  datatype Phase = Rolling(r: nat) | Scoring(r: nat, z: nat) | Over

  ghost predicate RollingInv(s: State, r: nat)
    requires Shape(s)
  {
    && r < s.rounds
    && forall k :: 0 <= k < |s.players| ==>
         var p := s.players[k];
         && p.round == r && (p.pc.Roll? || p.pc.Arrive1? || p.pc.Blocked1?)
         && |p.log| == r + One(!p.pc.Roll?)
         && (!p.pc.Roll? ==> s.rolls[k] == p.log[r])
         && s.scores[k] == Points(s.players, k, r)
  }

  predicate Resting(pc: Pc) { pc.Arrive2? || pc.Blocked2? }

  /** `max` is the largest of the first i rolls (-1 if there are none). */
  ghost predicate IsMax(rolls: seq<int>, i: nat, max: int) {
    && i <= |rolls|
    && (forall k :: 0 <= k < i ==> rolls[k] <= max)
    && (if i == 0 then max == -1 else exists k :: 0 <= k < i && rolls[k] == max)
  }

  /** The elected thread has dealt with the players before `upTo`. */
  ghost predicate ScoredUpTo(s: State, r: nat, upTo: nat)
    requires Shape(s)
  {
    forall k :: 0 <= k < |s.players| ==> s.scores[k] == Points(s.players, k, if k < upTo then r + 1 else r)
  }

  ghost predicate SerialInv(s: State, r: nat, pc: Pc)
    requires Shape(s)
  {
    match pc
    case FindMax(i, max) => IsMax(s.rolls, i, max) && ScoredUpTo(s, r, 0)
    case Score(i, max) => i <= |s.players| && IsMax(s.rolls, |s.players|, max) && ScoredUpTo(s, r, i)
    case Bump(i, max, v) =>
      && i < |s.players| && IsMax(s.rolls, |s.players|, max) && ScoredUpTo(s, r, i)
      && s.rolls[i] == max && v == s.scores[i]
    case Arrive2 => ScoredUpTo(s, r, |s.players|)
    case Blocked2 => ScoredUpTo(s, r, |s.players|)
    case _ => false
  }

  ghost predicate ScoringInv(s: State, r: nat, z: nat)
    requires Shape(s)
  {
    && r < s.rounds && z < |s.players|
    && (forall k :: 0 <= k < |s.players| ==>
          var p := s.players[k];
          && p.round == r && |p.log| == r + 1 && s.rolls[k] == p.log[r] && s.rolls[k] >= 1
          && (k != z ==> Resting(p.pc)))
    && SerialInv(s, r, s.players[z].pc)
  }

  ghost predicate OverInv(s: State)
    requires Shape(s)
  {
    forall k :: 0 <= k < |s.players| ==>
      && s.players[k].pc.Done? && |s.players[k].log| == s.rounds
      && s.scores[k] == Points(s.players, k, s.rounds)
  }

  ghost predicate PhaseInv(s: State, ph: Phase)
    requires Shape(s)
  {
    match ph
    case Rolling(r) => RollingInv(s, r)
    case Scoring(r, z) => ScoringInv(s, r, z)
    case Over => OverInv(s)
  }

  ghost predicate Inv(s: State, ph: Phase) {
    && Shape(s)
    && (forall k, r :: 0 <= k < |s.players| && 0 <= r < |s.players[k].log| ==> s.players[k].log[r] >= 1)
    && PhaseInv(s, ph)
  }

  /** Moving only program counters changes no points. */
  lemma PointsKept(s: State, s': State)
    requires |s.players| == |s'.players|
    requires forall j :: 0 <= j < |s.players| ==> s'.players[j].log == s.players[j].log
    ensures forall i, k: nat ::
              0 <= i < |s.players| && (forall j :: 0 <= j < |s.players| ==> k <= |s.players[j].log|) ==>
              Points(s'.players, i, k) == Points(s.players, i, k)
  {
    forall i, k: nat | 0 <= i < |s.players| && (forall j :: 0 <= j < |s.players| ==> k <= |s.players[j].log|)
      ensures Points(s'.players, i, k) == Points(s.players, i, k)
    {
      PointsFrame(s.players, s'.players, i, k);
    }
  }

  lemma DiceKeepsInv(s: State, ph: Phase, p: nat, x: int)
    requires Inv(s, ph) && Step(s, Dice(p, x)).Some?
    ensures ph.Rolling? && Inv(Step(s, Dice(p, x)).value, ph)
  {
    var s' := Step(s, Dice(p, x)).value;
    forall k | 0 <= k < |s.players| ensures Points(s'.players, k, ph.r) == Points(s.players, k, ph.r) {
      PointsFrame(s.players, s'.players, k, ph.r);
    }
  }

  lemma SerialInvKept(s: State, s': State, r: nat, pc: Pc)
    requires Shape(s) && Shape(s') && |s.players| == |s'.players| && s'.scores == s.scores && s'.rolls == s.rolls
    requires forall j :: 0 <= j < |s.players| ==> s'.players[j].log == s.players[j].log && |s.players[j].log| == r + 1
    requires SerialInv(s, r, pc)
    ensures SerialInv(s', r, pc)
  {
    PointsKept(s, s');
  }

  lemma Arrive1KeepsInv(s: State, ph: Phase, p: nat)
    requires Inv(s, ph) && Step(s, Perform(p)).Some? && s.players[p].pc.Arrive1?
    ensures Inv(Step(s, Perform(p)).value, ph)
  {
    PointsKept(s, Step(s, Perform(p)).value);
  }

  lemma Arrive2KeepsInv(s: State, ph: Phase, p: nat)
    requires Inv(s, ph) && Step(s, Perform(p)).Some? && s.players[p].pc.Arrive2?
    ensures Inv(Step(s, Perform(p)).value, ph)
  {
    var s' := Step(s, Perform(p)).value;
    assert ph.Scoring?;
    SerialInvKept(s, s', ph.r, s.players[ph.z].pc);
    assert SerialInv(s', ph.r, s'.players[ph.z].pc);
  }

  lemma MaxStep(rolls: seq<int>, i: nat, max: int)
    requires i < |rolls| && IsMax(rolls, i, max) && rolls[i] >= 1
    ensures IsMax(rolls, i + 1, if rolls[i] > max then rolls[i] else max)
  {
    if rolls[i] > max {
      assert rolls[i] == rolls[i];
    } else {
      assert i > 0;
    }
  }

  /** Having the maximum of the shared rolls is winning the round. */
  lemma MaxWins(s: State, r: nat, z: nat, i: nat, max: int)
    requires Shape(s) && ScoringInv(s, r, z) && i < |s.players| && IsMax(s.rolls, |s.rolls|, max)
    ensures s.rolls[i] == max <==> Wins(s.players, i, r)
  {
    var k :| 0 <= k < |s.rolls| && s.rolls[k] == max;
    assert s.players[k].log[r] == max;
    if s.rolls[i] == max {
      forall j | 0 <= j < |s.players| ensures s.players[j].log[r] <= s.players[i].log[r] {
        assert s.rolls[j] <= max;
      }
    }
  }

  lemma NextPoint(players: seq<Player>, i: nat, r: nat)
    requires i < |players|
    ensures Points(players, i, r + 1) == Points(players, i, r) + One(Wins(players, i, r))
  {
  }

  /** The elected thread moves on; the others, the rolls and the logs stay. */
  lemma SerialMoves(s: State, s': State, r: nat, z: nat, pc: Pc)
    requires Inv(s, Scoring(r, z)) && Shape(s')
    requires s'.players == s.players[z := s.players[z].(pc := pc)] && s'.rolls == s.rolls && s'.rounds == s.rounds
    requires SerialInv(s', r, pc)
    ensures Inv(s', Scoring(r, z))
  {
  }

  lemma ScoresKept(s: State, s': State, r: nat, upTo: nat)
    requires Shape(s) && Shape(s') && s'.scores == s.scores && ScoredUpTo(s, r, upTo)
    requires |s.players| == |s'.players|
    requires forall j :: 0 <= j < |s.players| ==> s'.players[j].log == s.players[j].log && |s.players[j].log| == r + 1
    ensures ScoredUpTo(s', r, upTo)
  {
    PointsKept(s, s');
  }

  lemma FindMaxKeepsInv(s: State, r: nat, z: nat)
    requires Inv(s, Scoring(r, z)) && Step(s, Perform(z)).Some? && s.players[z].pc.FindMax?
    ensures Inv(Step(s, Perform(z)).value, Scoring(r, z))
  {
    var s' := Step(s, Perform(z)).value;
    var i := s.players[z].pc.i;
    if i < |s.rolls| { MaxStep(s.rolls, i, s.players[z].pc.max); }
    ScoresKept(s, s', r, 0);
    SerialMoves(s, s', r, z, s'.players[z].pc);
  }

  lemma ScoreKeepsInv(s: State, r: nat, z: nat)
    requires Inv(s, Scoring(r, z)) && Step(s, Perform(z)).Some? && s.players[z].pc.Score?
    ensures Inv(Step(s, Perform(z)).value, Scoring(r, z))
  {
    hide Points, Wins;
    var s' := Step(s, Perform(z)).value;
    var i, max := s.players[z].pc.i, s.players[z].pc.max;
    if i < |s.players| {
      MaxWins(s, r, z, i, max);
      NextPoint(s.players, i, r);
      assert s.scores[i] == Points(s.players, i, r);
    }
    ScoresKept(s, s', r, i);
    if i < |s.players| && s.rolls[i] != max {
      assert Points(s'.players, i, r + 1) == Points(s'.players, i, r) by {
        PointsKept(s, s');
        assert Points(s.players, i, r + 1) == Points(s.players, i, r);
      }
      assert ScoredUpTo(s', r, i + 1);
    }
    SerialMoves(s, s', r, z, s'.players[z].pc);
  }

  lemma BumpKeepsInv(s: State, r: nat, z: nat)
    requires Inv(s, Scoring(r, z)) && Step(s, Perform(z)).Some? && s.players[z].pc.Bump?
    ensures Inv(Step(s, Perform(z)).value, Scoring(r, z))
  {
    hide Points, Wins;
    var s' := Step(s, Perform(z)).value;
    var i := s.players[z].pc.i;
    MaxWins(s, r, z, i, s.players[z].pc.max);
    NextPoint(s.players, i, r);
    assert s.scores[i] == Points(s.players, i, r);
    PointsKept(s, s');
    assert ScoredUpTo(s', r, i + 1);
    SerialMoves(s, s', r, z, s'.players[z].pc);
  }

  lemma SerialKeepsInv(s: State, r: nat, z: nat)
    requires Inv(s, Scoring(r, z)) && Step(s, Perform(z)).Some? && !Resting(s.players[z].pc)
    ensures Inv(Step(s, Perform(z)).value, Scoring(r, z))
  {
    match s.players[z].pc {
      case FindMax(i, max) => FindMaxKeepsInv(s, r, z);
      case Score(i, max) => ScoreKeepsInv(s, r, z);
      case Bump(i, max, v) => BumpKeepsInv(s, r, z);
    }
  }

  lemma FirstReleaseKeepsInv(s: State, r: nat, serial: nat)
    requires Inv(s, Rolling(r)) && Step(s, Release(serial)).Some?
    ensures Inv(Step(s, Release(serial)).value, Scoring(r, serial))
  {
    hide Points;
    var s' := Step(s, Release(serial)).value;
    PointsKept(s, s');
    assert s'.players[serial].pc == FindMax(0, -1);
    assert ScoredUpTo(s', r, 0);
  }

  lemma SecondReleaseKeepsInv(s: State, r: nat, z: nat, serial: nat)
    requires Inv(s, Scoring(r, z)) && Step(s, Release(serial)).Some?
    ensures Inv(Step(s, Release(serial)).value, if r + 1 < s.rounds then Rolling(r + 1) else Over)
  {
    hide Points;
    var s' := Step(s, Release(serial)).value;
    assert Blocked(s.players[z].pc);
    AllScoresKept(s, s', r);
  }

  lemma AllScoresKept(s: State, s': State, r: nat)
    requires Shape(s) && Shape(s') && s'.scores == s.scores && ScoredUpTo(s, r, |s.players|)
    requires |s.players| == |s'.players|
    requires forall j :: 0 <= j < |s.players| ==> s'.players[j].log == s.players[j].log && |s.players[j].log| == r + 1
    ensures forall k :: 0 <= k < |s'.players| ==> s'.scores[k] == Points(s'.players, k, r + 1)
  {
    PointsKept(s, s');
  }

  lemma NoReleaseWhenOver(s: State, serial: nat)
    requires Inv(s, Over)
    ensures Step(s, Release(serial)).None?
  {
    assert !Blocked(s.players[0].pc);
  }

  lemma ReleaseKeepsInv(s: State, ph: Phase, serial: nat) returns (ph': Phase)
    requires Inv(s, ph) && Step(s, Release(serial)).Some?
    ensures Inv(Step(s, Release(serial)).value, ph')
  {
    match ph {
      case Rolling(r) =>
        ph' := Scoring(r, serial);
        FirstReleaseKeepsInv(s, r, serial);
      case Scoring(r, z) =>
        ph' := if r + 1 < s.rounds then Rolling(r + 1) else Over;
        SecondReleaseKeepsInv(s, r, z, serial);
      case Over =>
        NoReleaseWhenOver(s, serial);
        assert false;
    }
  }

  ghost predicate SomePhase(s: State) { exists ph :: Inv(s, ph) }

  lemma StepKeepsInv(s: State, a: Action)
    requires SomePhase(s) && Step(s, a).Some?
    ensures SomePhase(Step(s, a).value)
  {
    var ph :| Inv(s, ph);
    match a {
      case Dice(p, x) => DiceKeepsInv(s, ph, p, x);
      case Perform(p) =>
        if s.players[p].pc.Arrive1? {
          Arrive1KeepsInv(s, ph, p);
        } else if s.players[p].pc.Arrive2? {
          Arrive2KeepsInv(s, ph, p);
        } else {
          assert ph.Scoring? && p == ph.z;
          SerialKeepsInv(s, ph.r, ph.z);
        }
      case Release(serial) =>
        var ph' := ReleaseKeepsInv(s, ph, serial);
    }
  }

  lemma InitInv(s: State)
    requires Init(s)
    ensures SomePhase(s)
  {
    if s.rounds > 0 {
      assert Inv(s, Rolling(0));
    } else {
      assert Inv(s, Over);
    }
  }

  lemma StepKeepsGame(s: State, a: Action)
    requires Step(s, a).Some?
    ensures var s' := Step(s, a).value; s'.rounds == s.rounds && |s'.players| == |s.players|
  {
  }

  ghost predicate Reaches(init: State, s: State) {
    Init(init) && exists actions: seq<Action> :: Run(Step, init, actions) == Some(s)
  }

  lemma ReachableInv(init: State, s: State)
    requires Reaches(init, s)
    ensures SomePhase(s) && s.rounds == init.rounds && |s.players| == |init.players|
  {
    hide Step, SomePhase;
    var actions: seq<Action> :| Run(Step, init, actions) == Some(s);
    InitInv(init);
    var inv := s => SomePhase(s) && s.rounds == init.rounds && |s.players| == |init.players|;
    forall s, a | inv(s) && Step(s, a).Some? ensures inv(Step(s, a).value) {
      StepKeepsInv(s, a);
      StepKeepsGame(s, a);
    }
    Invariance(Step, inv, init, actions);
  }

  // ---- What holds in every run ----

  predicate Judging(pc: Pc) { pc.FindMax? || pc.Score? || pc.Bump? }

  /** While somebody gives points all rolls are of the same round, nobody else
      judges, and nobody is about to roll. */
  lemma RollsAreStable(init: State, s: State, z: nat)
    requires Reaches(init, s) && z < |s.players| && Judging(s.players[z].pc)
    ensures |s.rolls| == |s.players|
    ensures forall k :: 0 <= k < |s.players| ==>
              var p := s.players[k];
              && p.round == s.players[z].round && |p.log| == p.round + 1 && s.rolls[k] == p.log[p.round]
              && !p.pc.Roll? && (k != z ==> !Judging(p.pc))
  {
    hide Step, Points;
    ReachableInv(init, s);
    var ph :| Inv(s, ph);
    assert ph.Scoring? && ph.z == z;
  }

  /** How many rounds have been judged, as any player's place in the program tells it. */
  function RoundsJudged(s: State, p: Player): nat {
    if p.pc.Done? then s.rounds else if Resting(p.pc) then p.round + 1 else p.round
  }

  /** Whenever nobody gives points, every score is the number of rounds judged so far
      in which that player rolled the maximum. */
  lemma ScoresSoFar(init: State, s: State, i: nat, j: nat)
    requires Reaches(init, s) && i < |s.players| && j < |s.players|
    requires forall k :: 0 <= k < |s.players| ==> !Judging(s.players[k].pc)
    ensures |s.scores| == |s.players| && s.scores[i] == Points(s.players, i, RoundsJudged(s, s.players[j]))
  {
    hide Step, Points;
    ReachableInv(init, s);
    var ph :| Inv(s, ph);
    match ph {
      case Rolling(r) => assert s.players[j].round == r && s.scores[i] == Points(s.players, i, r);
      case Scoring(r, z) => assert !Judging(s.players[z].pc) && ScoredUpTo(s, r, |s.players|);
      case Over => assert s.players[j].pc.Done?;
    }
  }

  /** At the end every score is the number of rounds in which that player rolled the maximum. */
  lemma FinalScores(init: State, s: State, i: nat)
    requires Reaches(init, s) && i < |s.players| && s.players[i].pc.Done?
    ensures |s.scores| == |s.players| && s.scores[i] == Points(s.players, i, s.rounds)
    ensures s.rounds == init.rounds
  {
    ReachableInv(init, s);
    var ph :| Inv(s, ph);
    assert ph.Over?;
  }

  function Same(x: int): int { x }

  lemma {:induction false} MaxExists(players: seq<Player>, r: nat, n: nat) returns (i: nat)
    requires 0 < n <= |players| && forall j :: 0 <= j < |players| ==> r < |players[j].log|
    ensures i < n && forall j :: 0 <= j < n ==> players[j].log[r] <= players[i].log[r]
  {
    if n == 1 {
      i := 0;
    } else {
      i := MaxExists(players, r, n - 1);
      if players[n - 1].log[r] > players[i].log[r] { i := n - 1; }
    }
  }

  function PointsOf(players: seq<Player>, k: nat): seq<int> {
    seq(|players|, i requires 0 <= i < |players| => Points(players, i, k))
  }

  /** Every round gives at least one point. */
  lemma {:induction false} PointsPerRound(players: seq<Player>, k: nat)
    requires |players| > 0 && forall j :: 0 <= j < |players| ==> k <= |players[j].log|
    ensures Total(PointsOf(players, k), Same) >= k
  {
    if k == 0 {
      TotalNonNegative(PointsOf(players, 0), Same);
    } else {
      PointsPerRound(players, k - 1);
      var a, b := PointsOf(players, k - 1), PointsOf(players, k);
      var i := MaxExists(players, k - 1, |players|);
      assert Wins(players, i, k - 1);
      TotalUpdate(a, Same, i, a[i] + 1);
      LessEverywhere(a[i := a[i] + 1], b);
    }
  }

  lemma {:induction false} LessEverywhere(a: seq<int>, b: seq<int>)
    requires |a| == |b| && forall k :: 0 <= k < |a| ==> a[k] <= b[k]
    ensures Total(a, Same) <= Total(b, Same)
  {
    if a != [] { LessEverywhere(a[1..], b[1..]); }
  }

  lemma ScoresAddUp(init: State, s: State)
    requires Reaches(init, s) && forall k :: 0 <= k < |s.players| ==> s.players[k].pc.Done?
    ensures Total(s.scores, Same) >= init.rounds
  {
    ReachableInv(init, s);
    var ph :| Inv(s, ph);
    assert s.players[0].pc.Done?;
    assert ph.Over?;
    PointsPerRound(s.players, s.rounds);
    assert s.scores == PointsOf(s.players, s.rounds);
  }

  /** The game never gets stuck: as long as somebody is not done, some step is possible. */
  lemma NeverStuck(init: State, s: State, p: nat)
    requires Reaches(init, s) && p < |s.players| && !s.players[p].pc.Done?
    ensures exists a :: Step(s, a).Some?
  {
    hide Points;
    ReachableInv(init, s);
    var ph :| Inv(s, ph);
    if forall k :: 0 <= k < |s.players| ==> Blocked(s.players[k].pc) {
      assert Step(s, Release(0)).Some?;
    } else {
      var k :| 0 <= k < |s.players| && !Blocked(s.players[k].pc);
      if s.players[k].pc.Roll? {
        assert Step(s, Dice(k, 1)).Some?;
      } else {
        assert Step(s, Perform(k)).Some?;
      }
    }
  }

  // ---- The dice ----

  /** What player p rolls in a run, in order. */
  function RollsOf(actions: seq<Action>, p: nat): seq<int> {
    if actions == [] then []
    else (match actions[0] case Dice(q, x) => if q == p then [x] else [] case _ => []) + RollsOf(actions[1..], p)
  }

  lemma StepLogs(s: State, a: Action, p: nat)
    requires Step(s, a).Some? && p < |s.players|
    ensures var s' := Step(s, a).value;
            && |s'.players| == |s.players|
            && s'.players[p].log == s.players[p].log + RollsOf([a], p)
  {
    assert [a][1..] == [];
  }

  lemma RollsFirst(actions: seq<Action>, p: nat)
    requires actions != []
    ensures RollsOf(actions, p) == RollsOf([actions[0]], p) + RollsOf(actions[1..], p)
  {
    assert [actions[0]][1..] == [];
  }

  lemma {:induction false} LogsAfter(s: State, actions: seq<Action>, p: nat)
    requires Run(Step, s, actions).Some? && p < |s.players|
    ensures var s' := Run(Step, s, actions).value;
            |s'.players| == |s.players| && s'.players[p].log == s.players[p].log + RollsOf(actions, p)
    decreases |actions|
  {
    assert RollsOf([], p) == [];
    hide Step, RollsOf;
    if actions != [] {
      StepLogs(s, actions[0], p);
      RollsFirst(actions, p);
      LogsAfter(Step(s, actions[0]).value, actions[1..], p);
    }
  }

  /** The scores count the rolls of the run itself. */
  lemma LogsAreRolls(init: State, actions: seq<Action>, p: nat)
    requires Init(init) && Run(Step, init, actions).Some? && p < |init.players|
    ensures var s := Run(Step, init, actions).value;
            |s.players| == |init.players| && s.players[p].log == RollsOf(actions, p)
  {
    LogsAfter(init, actions, p);
  }

  /** A player that is to roll can roll each of 1 to 6, and nothing else; the roll is there for the others. */
  lemma DiceHaveSixSides(s: State, p: nat, x: int)
    requires Shape(s) && p < |s.players| && s.players[p].pc.Roll?
    ensures Step(s, Dice(p, x)).Some? <==> x in {1, 2, 3, 4, 5, 6}
    ensures Step(s, Dice(p, x)).Some? ==> Step(s, Dice(p, x)).value.rolls == s.rolls[p := x]
  {
  }

  // ---- Every run ends ----

  /** Steps left in the player's round; the elected thread has those of judging on top. */
  function Stage(pc: Pc, n: int): int {
    match pc
    case Roll => 3 * n + 7
    case Arrive1 => 3 * n + 6
    case Blocked1 => 3 * n + 5
    case FindMax(i, _) => 2 + (2 * n + 1) + (n - i + 1)
    case Score(i, _) => 2 + 2 * (n - i) + 1
    case Bump(i, _, _) => 2 + 2 * (n - i)
    case Arrive2 => 2
    case Blocked2 => 1
    case Done => 0
  }

  /** Steps in `rounds` rounds at most. */
  function InRounds(n: nat, rounds: int): int {
    if rounds <= 0 then 0 else InRounds(n, rounds - 1) + (3 * n + 7)
  }

  lemma {:induction false} InRoundsIsProduct(n: nat, rounds: nat)
    ensures InRounds(n, rounds) == rounds * (3 * n + 7)
  {
    if rounds > 0 {
      InRoundsIsProduct(n, rounds - 1);
      assert rounds * (3 * n + 7) == (rounds - 1) * (3 * n + 7) + (3 * n + 7);
    }
  }

  lemma {:induction false} InRoundsNonNegative(n: nat, rounds: int)
    ensures InRounds(n, rounds) >= 0
    decreases if rounds <= 0 then 0 else rounds
  {
    if rounds > 0 { InRoundsNonNegative(n, rounds - 1); }
  }

  function Work(n: nat, rounds: int): Player -> int {
    (p: Player) => if p.pc.Done? then 0 else InRounds(n, rounds - p.round - 1) + Stage(p.pc, n)
  }

  predicate InProgress(s: State) {
    forall k :: 0 <= k < |s.players| ==>
      var p := s.players[k];
      && (!p.pc.Done? ==> p.round < s.rounds)
      && (p.pc.FindMax? ==> p.pc.i <= |s.players|)
      && (p.pc.Score? ==> p.pc.i <= |s.players|) && (p.pc.Bump? ==> p.pc.i < |s.players|)
  }

  lemma PhaseMeansInProgress(s: State)
    requires SomePhase(s)
    ensures InProgress(s)
  {
    var ph :| Inv(s, ph);
  }

  lemma WorkIsPositive(s: State, k: nat)
    requires InProgress(s) && k < |s.players|
    ensures Work(|s.players|, s.rounds)(s.players[k]) >= if s.players[k].pc.Done? then 0 else 1
  {
    var p, n := s.players[k], |s.players|;
    if !p.pc.Done? {
      InRoundsNonNegative(n, s.rounds - p.round - 1);
    }
  }

  lemma ReleaseReducesWork(s: State, serial: nat)
    requires InProgress(s) && Step(s, Release(serial)).Some?
    ensures var s' := Step(s, Release(serial)).value; var w := Work(|s.players|, s.rounds);
            Total(s'.players, w) < Total(s.players, w)
  {
    var s', w := Step(s, Release(serial)).value, Work(|s.players|, s.rounds);
    forall k | 0 <= k < |s.players| ensures w(s'.players[k]) < w(s.players[k]) {
      InRoundsNonNegative(|s.players|, s.rounds - s.players[k].round - 1);
    }
    LessWork(s.players, s'.players, w);
  }

  lemma {:induction false} LessWork(a: seq<Player>, b: seq<Player>, w: Player -> int)
    requires |a| == |b| > 0 && forall k :: 0 <= k < |a| ==> w(b[k]) < w(a[k])
    ensures Total(b, w) < Total(a, w)
  {
    if |a| > 1 {
      LessWork(a[1..], b[1..], w);
    }
  }

  /** A move changes its player's place in the round only, and brings it further. */
  lemma MoveIsOwn(s: State, a: Action)
    requires InProgress(s) && Step(s, a).Some? && !a.Release?
    ensures var s', n := Step(s, a).value, |s.players|;
            && a.p < n && |s'.players| == n && s'.players == s.players[a.p := s'.players[a.p]]
            && s'.players[a.p].round == s.players[a.p].round
            && !s.players[a.p].pc.Done? && !s'.players[a.p].pc.Done?
            && Stage(s'.players[a.p].pc, n) < Stage(s.players[a.p].pc, n)
  {
  }

  lemma MoveReducesWork(s: State, a: Action)
    requires InProgress(s) && Step(s, a).Some? && !a.Release?
    ensures var s' := Step(s, a).value; var w := Work(|s.players|, s.rounds);
            Total(s'.players, w) < Total(s.players, w)
  {
    hide Total, InRounds;
    var s', w := Step(s, a).value, Work(|s.players|, s.rounds);
    MoveIsOwn(s, a);
    TotalUpdate(s.players, w, a.p, s'.players[a.p]);
  }

  lemma {:induction false} RunLength(s: State, actions: seq<Action>)
    requires SomePhase(s) && Run(Step, s, actions).Some?
    ensures |actions| <= Total(s.players, Work(|s.players|, s.rounds))
    decreases |actions|
  {
    hide SomePhase, Step;
    PhaseMeansInProgress(s);
    forall k | 0 <= k < |s.players| ensures Work(|s.players|, s.rounds)(s.players[k]) >= 0 {
      WorkIsPositive(s, k);
    }
    TotalNonNegative(s.players, Work(|s.players|, s.rounds));
    if actions != [] {
      var a, s' := actions[0], Step(s, actions[0]).value;
      StepKeepsInv(s, a);
      StepKeepsGame(s, a);
      if a.Release? {
        ReleaseReducesWork(s, a.serial);
      } else {
        MoveReducesWork(s, a);
      }
      RunLength(s', actions[1..]);
    }
  }

  /** The game ends: no schedule has more steps than this, and by NeverStuck none
      stops before all are done. */
  lemma EveryRunEnds(init: State, actions: seq<Action>)
    requires Init(init) && Run(Step, init, actions).Some?
    ensures |actions| <= |init.players| * (init.rounds * (3 * |init.players| + 7))
  {
    hide Step;
    InitInv(init);
    RunLength(init, actions);
    var n, w := |init.players|, Work(|init.players|, init.rounds);
    forall k | 0 <= k < n ensures w(init.players[k]) == init.rounds * (3 * n + 7) {
      InitialWork(n, init.rounds);
    }
    TotalConstant(init.players, w, init.rounds * (3 * n + 7));
  }

  lemma InitialWork(n: nat, rounds: nat)
    ensures Work(n, rounds)(LoopTest(Player(0, Done, []), rounds)) == rounds * (3 * n + 7)
  {
    InRoundsIsProduct(n, rounds);
  }

  // ---- The program itself ----

  class Game {
    const rounds: nat
    const rolls: array<int>
    const scores: array<int>
    const players: array<Player>

    constructor (n: nat, rounds: nat)
      requires n > 0
      ensures fresh(rolls) && fresh(scores) && fresh(players) && rolls != scores
      ensures players.Length == n && this.rounds == rounds
      ensures Init(View())
    {
      this.rounds := rounds;
      rolls := new int[n];
      scores := new int[n](_ => 0);
      players := new Player[n](_ => LoopTest(Player(0, Done, []), rounds));
    }

    ghost function View(): State reads this, rolls, scores, players {
      State(rounds, rolls[..], scores[..], players[..])
    }

    /** `rolls[id] = 1 + rand_r(&seed) % 6`. */
    method RollDice(p: nat, x: int)
      requires Step(View(), Dice(p, x)).Some? && rolls != scores
      modifies rolls, players
      ensures Step(old(View()), Dice(p, x)) == Some(View())
    {
      rolls[p] := x;
      players[p] := players[p].(pc := Arrive1, log := players[p].log + [x]);
    }

    /** All are in the barrier: it lets them go on, and tells one of them that it is serial. */
    method ReleaseBarrier(serial: nat)
      requires Step(View(), Release(serial)).Some?
      modifies players
      ensures Step(old(View()), Release(serial)) == Some(View())
    {
      forall k | 0 <= k < players.Length { players[k] := Released(players[k], k == serial, rounds); }
      assert players[..] == Step(old(View()), Release(serial)).value.players;
      assert rolls[..] == old(rolls[..]) && scores[..] == old(scores[..]);
    }

    /** Any other operation of a player: arriving at the barrier, or giving points. */
    method Advance(p: nat)
      requires Step(View(), Perform(p)).Some? && rolls != scores
      modifies scores, players
      ensures Step(old(View()), Perform(p)) == Some(View())
    {
      var me, n := players[p], players.Length;
      match me.pc {
        case Arrive1 => players[p] := me.(pc := Blocked1);
        case FindMax(i, max) =>
          if i >= n {
            players[p] := me.(pc := Score(0, max));
          } else {
            players[p] := me.(pc := FindMax(i + 1, if rolls[i] > max then rolls[i] else max));
          }
        case Score(i, max) =>
          if i >= n {
            players[p] := me.(pc := Arrive2);
          } else if rolls[i] == max {
            players[p] := me.(pc := Bump(i, max, scores[i]));
          } else {
            players[p] := me.(pc := Score(i + 1, max));
          }
        case Bump(i, max, v) =>
          scores[i] := v + 1;
          players[p] := me.(pc := Score(i + 1, max));
        case Arrive2 => players[p] := me.(pc := Blocked2);
      }
    }
  }

  /** Gives a point to everybody whose roll is the largest; rolls are 1..6. */
  method AssignScores(rolls: array<int>, scores: array<int>)
    requires rolls != scores && rolls.Length == scores.Length
    requires forall k :: 0 <= k < rolls.Length ==> rolls[k] >= 1
    modifies scores
    ensures forall k :: 0 <= k < scores.Length ==>
              scores[k] == old(scores[k]) + One(forall j :: 0 <= j < rolls.Length ==> rolls[j] <= rolls[k])
  {
    var max := -1;
    for i := 0 to rolls.Length
      invariant IsMax(rolls[..], i, max) && scores[..] == old(scores[..])
    {
      MaxStep(rolls[..], i, max);
      var roll := rolls[i];
      if roll > max {
        max := roll;
      }
    }
    ghost var all := rolls[..];
    for i := 0 to rolls.Length
      invariant rolls[..] == all
      invariant forall k :: 0 <= k < scores.Length ==>
                  scores[k] == old(scores[k]) + One(k < i && rolls[k] == max)
    {
      var roll := rolls[i];
      if roll == max {
        scores[i] := scores[i] + 1;
      }
    }
    assert IsMax(all, rolls.Length, max) && forall k :: 0 <= k < rolls.Length ==> rolls[k] == all[k];
    assert rolls.Length > 0 ==> exists k :: 0 <= k < |all| && all[k] == max;
  }
}

/** The non-blocking server refines the blocking one, for a client that sends one
    line at a time and waits for the whole answer before it sends the next. */
module EpollRefinement {
  import opened Wrappers
  import opened Traces
  import opened LineProtocol
  import LineServer
  import opened EpollServer

  /** The connection, the line the client is at, how much of it the server has
      read, and all that the client has received. */
  datatype State = State(session: Session, j: nat, off: nat, out: string)

  datatype Action =
    | Readable(n: nat)   // epoll reports EPOLLIN and read delivers n bytes
    | Writable(k: nat)   // epoll reports EPOLLOUT and write takes k bytes
    | Blocked            // EAGAIN
    | NextLine           // the client has seen one more end of line and turns to the next line

  function Wire(line: string): string { line + "\n" }

  /** All that the client goes by: how many ends of line it has received. */
  function Newlines(s: string): nat {
    if s == "" then 0 else Newlines(s[..|s| - 1]) + (if s[|s| - 1] == '\n' then 1 else 0)
  }

  function Apply(lines: seq<string>, s: State, a: Action): Option<State> {
    var c := s.session.conn;
    match a
    case Readable(n) =>
      if c.mask.EpollIn? && s.j < |lines| && 1 <= n && s.off + n <= |Wire(lines[s.j])| &&
         |c.buf| == READ_BUF && c.readLen + n <= READ_BUF - 1
      then Some(s.(session := SessionRead(s.session, Wire(lines[s.j])[s.off..s.off + n]), off := s.off + n))
      else None
    case Writable(k) =>
      if c.mask.EpollOut? && k <= |Offer(c)|
      then Some(s.(session := SessionWrite(s.session, k), out := s.out + Offer(c)[..k]))
      else None
    case Blocked => Some(s)
    case NextLine =>
      if s.j < |lines| && Newlines(s.out) == s.j + 1
      then Some(s.(j := s.j + 1, off := 0))
      else None
  }

  function Step(lines: seq<string>): (State, Action) -> Option<State> {
    (s: State, a: Action) => Apply(lines, s, a)
  }

  /** Lines that fit the buffer and that both servers answer alike. */
  ghost predicate GoodLines(lines: seq<string>) {
    forall k :: 0 <= k < |lines| ==> LineServer.Fits(lines[k]) && '\n' !in lines[k] && Agrees(lines[k])
  }

  ghost predicate Init(s: State) {
    exists buf: seq<char> :: |buf| == READ_BUF && s == State(Session(Fresh(buf), "", ""), 0, 0, "")
  }

  ghost predicate Inv(s: State, lines: seq<string>) {
    && EpollServer.Inv(s.session)
    && s.j <= |lines| && (s.j == |lines| ==> s.off == 0)
    && (s.j < |lines| ==> s.off <= |Wire(lines[s.j])|)
    && (s.j < |lines| && s.off == |Wire(lines[s.j])| ==> Answering(s, lines))
    && (s.j == |lines| || s.off < |Wire(lines[s.j])| ==> Gathering(s, lines))
  }

  /** Part of the line is in the buffer; all earlier lines are answered. */
  ghost predicate Gathering(s: State, lines: seq<string>)
    requires |s.session.conn.buf| == READ_BUF && s.j <= |lines|
  {
    var c := s.session.conn;
    && c.phase.ReadCommand? && c.readLen == s.off < READ_BUF - 1
    && (s.j < |lines| ==> s.off <= |lines[s.j]| && c.buf[..s.off] == lines[s.j][..s.off])
    && s.out == BlockingReplies(lines[..s.j])
  }

  /** The line has been read; what was written since is what its answer begins with. */
  ghost predicate Answering(s: State, lines: seq<string>)
    requires s.j < |lines|
  {
    var c := s.session.conn;
    && s.session.line == lines[s.j]
    && s.out == BlockingReplies(lines[..s.j]) + s.session.written
    && (c.phase.ReadCommand? <==> s.session.written == BlockingReply(lines[s.j]))
    && (c.phase.ReadCommand? ==> c.readLen == 0)
  }

  lemma InitInv(s: State, lines: seq<string>)
    requires Init(s)
    ensures Inv(s, lines)
  {
    var buf: seq<char> :| |buf| == READ_BUF && s == State(Session(Fresh(buf), "", ""), 0, 0, "");
    FreshInv(buf);
  }

  lemma RepliesNext(lines: seq<string>, j: nat)
    requires j < |lines|
    ensures BlockingReplies(lines[..j + 1]) == BlockingReplies(lines[..j]) + BlockingReply(lines[j])
  {
    assert lines[..j + 1][..j] == lines[..j];
  }

  /** The bytes in the buffer after a read: the line so far. */
  lemma BufferAfterRead(buf: seq<char>, line: string, off: nat, n: nat)
    requires |buf| == READ_BUF && LineServer.Fits(line) && '\n' !in line
    requires off < |Wire(line)| && off + n <= |Wire(line)| && buf[..off] == line[..off]
    ensures off + n < READ_BUF
    ensures var text := Overwrite(buf, off, Wire(line)[off..off + n])[..off + n];
            && text == Wire(line)[..off + n]
            && LineServer.IndexOfNewline(text) == if off + n == |Wire(line)| then |line| else -1
  {
    var text := Overwrite(buf, off, Wire(line)[off..off + n])[..off + n];
    assert text == Wire(line)[..off + n];
    var k := if off + n == |Wire(line)| then |line| else off + n;
    assert forall i :: 0 <= i < k ==> text[i] == line[i];
    LineServer.NewlineAt(text, k, if off + n == |Wire(line)| then |line| else -1);
  }

  lemma PartialRead(s: State, lines: seq<string>, n: nat)
    requires Inv(s, lines) && GoodLines(lines) && Apply(lines, s, Readable(n)).Some?
    requires s.off + n < |Wire(lines[s.j])|
    ensures Gathering(Apply(lines, s, Readable(n)).value, lines)
  {
    hide LineServer.IndexOfNewline, BlockingReplies, BlockingReply, EpollAnswer, Agrees, Dispatch;
    var line := lines[s.j];
    assert Gathering(s, lines);
    BufferAfterRead(s.session.conn.buf, line, s.off, n);
    assert Wire(line)[..s.off + n] == line[..s.off + n];
  }

  lemma CompleteRead(s: State, lines: seq<string>, n: nat)
    requires Inv(s, lines) && GoodLines(lines) && Apply(lines, s, Readable(n)).Some?
    requires s.off + n == |Wire(lines[s.j])|
    ensures Answering(Apply(lines, s, Readable(n)).value, lines)
  {
    hide LineServer.IndexOfNewline, BlockingReplies, BlockingReply, EpollAnswer, Agrees, Dispatch;
    var line := lines[s.j];
    var c := s.session.conn;
    assert Gathering(s, lines);
    BufferAfterRead(c.buf, line, s.off, n);
    var buf := Overwrite(c.buf, s.off, Wire(line)[s.off..s.off + n]);
    assert buf[..s.off + n][..|line|] == line && buf[..|line|] == line;
    DispatchInv(c.(buf := buf[|line| := NUL], readLen := s.off + n), line);
    AgreeExactly(line);
    ReplyNotEmpty(line);
  }

  lemma ReplyNotEmpty(line: string)
    ensures BlockingReply(line) != ""
  {
  }

  lemma ReadKeepsInv(s: State, lines: seq<string>, n: nat)
    requires Inv(s, lines) && GoodLines(lines) && Apply(lines, s, Readable(n)).Some?
    ensures Inv(Apply(lines, s, Readable(n)).value, lines)
  {
    hide BlockingReplies, BlockingReply, EpollAnswer, Dispatch, OnRead, LineServer.IndexOfNewline;
    EpollServer.ReadKeepsInv(s.session, Wire(lines[s.j])[s.off..s.off + n]);
    if s.off + n == |Wire(lines[s.j])| {
      CompleteRead(s, lines, n);
    } else {
      PartialRead(s, lines, n);
    }
  }

  /** The server asks to write only while it answers a line that has been read. */
  lemma WritesOnlyAnswers(s: State, lines: seq<string>)
    requires Inv(s, lines) && s.session.conn.mask.EpollOut?
    ensures s.j < |lines| && s.off == |Wire(lines[s.j])| && Answering(s, lines) && !s.session.conn.phase.ReadCommand?
  {
  }

  lemma WriteAnswers(s: State, lines: seq<string>, session: Session, more: string)
    requires s.j < |lines| && Answering(s, lines)
    requires session.line == s.session.line && session.written == s.session.written + more
    requires session.conn.phase.ReadCommand? <==> session.written == BlockingReply(lines[s.j])
    requires session.conn.phase.ReadCommand? ==> session.conn.readLen == 0
    ensures Answering(s.(session := session, out := s.out + more), lines)
  {
    hide BlockingReplies, BlockingReply;
    assert s.out + more == BlockingReplies(lines[..s.j]) + (s.session.written + more);
  }

  lemma WriteKeepsInv(s: State, lines: seq<string>, k: nat)
    requires Inv(s, lines) && GoodLines(lines) && Apply(lines, s, Writable(k)).Some?
    ensures Inv(Apply(lines, s, Writable(k)).value, lines)
  {
    var more := Offer(s.session.conn)[..k];
    WritesOnlyAnswers(s, lines);
    EpollServer.WriteKeepsInv(s.session, k);
    AgreeExactly(lines[s.j]);
    WriteAnswers(s, lines, SessionWrite(s.session, k), more);
    assert Apply(lines, s, Writable(k)).value == s.(session := SessionWrite(s.session, k), out := s.out + more);
  }

  lemma {:induction false} NewlinesConcat(a: string, b: string)
    ensures Newlines(a + b) == Newlines(a) + Newlines(b)
    decreases |b|
  {
    if b == "" {
      assert a + b == a;
    } else {
      var n := |b| - 1;
      assert (a + b)[..|a + b| - 1] == a + b[..n];
      NewlinesConcat(a, b[..n]);
    }
  }

  lemma {:induction false} NoNewlines(s: string)
    requires '\n' !in s
    ensures Newlines(s) == 0
    decreases |s|
  {
    if s != "" {
      NoNewlines(s[..|s| - 1]);
    }
  }

  predicate OneLine(text: string) {
    text != "" && text[|text| - 1] == '\n' && '\n' !in text[..|text| - 1]
  }

  lemma EndsOneLine(body: string)
    requires '\n' !in body
    ensures OneLine(body + "\n")
  {
    assert (body + "\n")[..|body|] == body;
  }

  lemma ResultIsOneLine(depth: int)
    ensures OneLine(ResultText(depth))
  {
    var n := RecursiveBurn(depth);
    DecimalDigits(if n < 0 then -n else n);
    assert '\n' !in Decimal(n);
    EndsOneLine("RESULT " + Decimal(n));
  }

  lemma StreamIsOneLine(n: int)
    ensures OneLine(StreamText(n))
  {
    EndsOneLine(As(n) + "DONE");
    assert As(n) + "DONE" + "\n" == StreamText(n);
  }

  /** Every answer is one line: it ends with its only newline. */
  lemma AnswerIsOneLine(line: string)
    ensures OneLine(BlockingReply(line))
  {
    EndsOneLine("PONG");
    EndsOneLine("DONE");
    EndsOneLine("UNKNOWN_COMMAND");
    hide OneLine, ResultText, StreamText, Number;
    assert "PONG" + "\n" == "PONG\n" && "DONE" + "\n" == "DONE\n";
    assert "UNKNOWN_COMMAND" + "\n" == "UNKNOWN_COMMAND\n";
    if "BURN " <= line {
      ResultIsOneLine(Atoll(line[5..]));
    }
    if "STREAM " <= line {
      StreamIsOneLine(Atoll(line[7..]));
    }
  }

  lemma AnswerHasOneNewline(line: string)
    ensures Newlines(BlockingReply(line)) == 1
  {
    var reply := BlockingReply(line);
    AnswerIsOneLine(line);
    NoNewlines(reply[..|reply| - 1]);
  }

  lemma {:induction false} NewlinesOfAnswers(lines: seq<string>)
    ensures Newlines(BlockingReplies(lines)) == |lines|
    decreases |lines|
  {
    if lines != [] {
      var n := |lines| - 1;
      NewlinesOfAnswers(lines[..n]);
      AnswerHasOneNewline(lines[n]);
      NewlinesConcat(BlockingReplies(lines[..n]), BlockingReply(lines[n]));
    }
  }

  /** A proper beginning of an answer has no end of line. */
  lemma BeginningHasNone(line: string, part: string)
    requires part <= BlockingReply(line) && part != BlockingReply(line)
    ensures Newlines(part) == 0
  {
    AnswerIsOneLine(line);
    assert '\n' !in part by {
      assert part == BlockingReply(line)[..|BlockingReply(line)| - 1][..|part|];
    }
    NoNewlines(part);
  }

  /** The end of line that the client has seen is that of the complete answer. */
  lemma EndOfLineMeansAnswered(s: State, lines: seq<string>)
    requires Inv(s, lines) && GoodLines(lines) && s.j < |lines| && Newlines(s.out) == s.j + 1
    ensures s.off == |Wire(lines[s.j])| && s.session.conn.phase.ReadCommand? && s.session.conn.readLen == 0
    ensures s.out == BlockingReplies(lines[..s.j + 1])
  {
    hide Newlines, BlockingReplies, BlockingReply, EpollServer.Inv;
    if s.off < |Wire(lines[s.j])| {
      GatheringOutput(s, lines);
      NewlinesOfAnswers(lines[..s.j]);
    } else {
      NewlinesOfAnswers(lines[..s.j]);
      WrittenSoFar(s, lines);
      NewlinesConcat(BlockingReplies(lines[..s.j]), s.session.written);
      if s.session.written != BlockingReply(lines[s.j]) {
        BeginningHasNone(lines[s.j], s.session.written);
      }
      RepliesNext(lines, s.j);
    }
  }

  /** What has been written since the line was read is the beginning of its answer,
      all of it exactly when the connection reads again. */
  lemma WrittenSoFar(s: State, lines: seq<string>)
    requires Inv(s, lines) && GoodLines(lines) && s.j < |lines| && s.off == |Wire(lines[s.j])|
    ensures s.out == BlockingReplies(lines[..s.j]) + s.session.written
    ensures s.session.written <= BlockingReply(lines[s.j])
    ensures s.session.conn.phase.ReadCommand? <==> s.session.written == BlockingReply(lines[s.j])
    ensures s.session.conn.phase.ReadCommand? ==> s.session.conn.readLen == 0
  {
    assert Answering(s, lines);
    AgreeExactly(lines[s.j]);
    if !s.session.conn.phase.ReadCommand? {
      WrittenIsPrefix(s.session);
    }
  }

  lemma NextKeepsInv(s: State, lines: seq<string>)
    requires Inv(s, lines) && GoodLines(lines) && Apply(lines, s, NextLine).Some?
    ensures Inv(Apply(lines, s, NextLine).value, lines)
  {
    EndOfLineMeansAnswered(s, lines);
    assert Gathering(Apply(lines, s, NextLine).value, lines);
  }

  lemma StepKeepsInv(s: State, lines: seq<string>, a: Action)
    requires Inv(s, lines) && GoodLines(lines) && Apply(lines, s, a).Some?
    ensures Inv(Apply(lines, s, a).value, lines)
  {
    match a
    case Readable(n) => ReadKeepsInv(s, lines, n);
    case Writable(k) => WriteKeepsInv(s, lines, k);
    case Blocked =>
    case NextLine => NextKeepsInv(s, lines);
  }

  ghost predicate Reaches(lines: seq<string>, init: State, s: State) {
    Init(init) && exists actions: seq<Action> :: Run(Step(lines), init, actions) == Some(s)
  }

  lemma ReachableInv(lines: seq<string>, init: State, s: State)
    requires Reaches(lines, init, s) && GoodLines(lines)
    ensures Inv(s, lines)
  {
    var actions: seq<Action> :| Run(Step(lines), init, actions) == Some(s);
    InitInv(init, lines);
    var inv := s => Inv(s, lines);
    forall s, a | inv(s) && Step(lines)(s, a).Some? ensures inv(Step(lines)(s, a).value) {
      StepKeepsInv(s, lines, a);
    }
    Invariance(Step(lines), inv, init, actions);
  }

  lemma GatheringOutput(s: State, lines: seq<string>)
    requires Inv(s, lines) && (s.j == |lines| || s.off < |Wire(lines[s.j])|)
    ensures s.out == BlockingReplies(lines[..s.j])
  {
    assert Gathering(s, lines);
  }

  /** At all times the client has received a prefix of the answers that the blocking
      server gives to the lines sent so far, and it has all of them when it moves on. */
  lemma OutputIsBlockingOutput(lines: seq<string>, init: State, s: State)
    requires Reaches(lines, init, s) && GoodLines(lines)
    ensures s.j <= |lines|
    ensures BlockingReplies(lines[..s.j]) <= s.out
    ensures if s.j == |lines| then s.out == BlockingReplies(lines) else s.out <= BlockingReplies(lines[..s.j + 1])
  {
    assert Inv(s, lines) by { ReachableInv(lines, init, s); }
    if s.j == |lines| {
      GatheringOutput(s, lines);
      assert lines[..|lines|] == lines;
    } else {
      MidOutput(s, lines);
    }
  }

  lemma MidOutput(s: State, lines: seq<string>)
    requires Inv(s, lines) && GoodLines(lines) && s.j < |lines|
    ensures BlockingReplies(lines[..s.j]) <= s.out <= BlockingReplies(lines[..s.j + 1])
  {
    RepliesNext(lines, s.j);
    if s.off == |Wire(lines[s.j])| {
      WrittenSoFar(s, lines);
    } else {
      GatheringOutput(s, lines);
    }
  }

  /** The server alone: once a line has been read completely and the connection waits
      for input again, all that the blocking server answers has been received. */
  lemma ReadingMeansAnswered(lines: seq<string>, init: State, s: State)
    requires Reaches(lines, init, s) && GoodLines(lines) && s.j < |lines|
    requires s.off == |Wire(lines[s.j])| && s.session.conn.mask.EpollIn?
    ensures s.out == BlockingReplies(lines[..s.j + 1])
  {
    ReachableInv(lines, init, s);
    WrittenSoFar(s, lines);
    RepliesNext(lines, s.j);
  }

  /** The client alone: one more end of line is the end of the complete answer. */
  lemma NextLineMeansAnswered(lines: seq<string>, init: State, s: State)
    requires Reaches(lines, init, s) && GoodLines(lines) && Apply(lines, s, NextLine).Some?
    ensures s.out == BlockingReplies(lines[..s.j + 1])
    ensures s.off == |Wire(lines[s.j])| && s.session.conn.mask.EpollIn?
  {
    ReachableInv(lines, init, s);
    EndOfLineMeansAnswered(s, lines);
  }

  /** Refinement: after all lines the client holds what the blocking server sends
      for the same byte stream, however that is cut into pieces. */
  lemma RefinesBlockingServer(lines: seq<string>, init: State, s: State)
    requires Reaches(lines, init, s) && GoodLines(lines) && s.j == |lines|
    ensures s.out == BlockingReplies(LineServer.Commands(LineServer.Join(lines)))
  {
    OutputIsBlockingOutput(lines, init, s);
    LineServer.AnswersToLines(lines);
  }

  // ---- Nothing gets stuck ----

  /** Reads and writes that epoll reports suffice to bring the conversation to its end. */
  function Rest(s: State, lines: seq<string>): int
    requires s.j <= |lines|
  {
    if s.j == |lines| then 0
    else if s.off < |Wire(lines[s.j])| then |Wire(lines[s.j])| - s.off + |BlockingReply(lines[s.j])| + 3
    else |BlockingReply(lines[s.j])| - |s.session.written| + (if s.session.conn.phase.WriteStream? then 2 else 1)
  }

  lemma OfferNotEmpty(s: Session)
    requires EpollServer.Inv(s) && !s.conn.phase.ReadCommand?
    ensures |Offer(s.conn)| > 0 || (s.conn.phase.WriteStream? && s.conn.toSend == s.conn.sent)
  {
  }

  lemma OneStep(s: State, lines: seq<string>) returns (a: Action)
    requires Inv(s, lines) && GoodLines(lines) && s.j < |lines|
    ensures !a.Blocked? && Apply(lines, s, a).Some?
    ensures var s' := Apply(lines, s, a).value;
            s'.j <= |lines| && (s'.j > s.j || (s'.j == s.j && Rest(s', lines) < Rest(s, lines)))
  {
    hide LineServer.IndexOfNewline, BlockingReplies;
    var line := lines[s.j];
    if s.off < |Wire(line)| {
      a := Readable(1);
      BufferAfterRead(s.session.conn.buf, line, s.off, 1);
    } else if s.session.conn.phase.ReadCommand? {
      a := NextLine;
      WrittenSoFar(s, lines);
      RepliesNext(lines, s.j);
      NewlinesOfAnswers(lines[..s.j + 1]);
    } else {
      var k := if |Offer(s.session.conn)| > 0 then 1 else 0;
      a := Writable(k);
      OfferNotEmpty(s.session);
    }
  }

  lemma RestNonNegative(s: State, lines: seq<string>)
    requires Inv(s, lines) && GoodLines(lines)
    ensures Rest(s, lines) >= 0
  {
    if s.j < |lines| && s.off == |Wire(lines[s.j])| {
      WrittenSoFar(s, lines);
    }
  }

  lemma {:induction false} CanFinishFrom(s: State, lines: seq<string>) returns (actions: seq<Action>)
    requires Inv(s, lines) && GoodLines(lines)
    ensures Run(Step(lines), s, actions).Some? && Run(Step(lines), s, actions).value.j == |lines|
    decreases |lines| - s.j, Rest(s, lines)
  {
    if s.j == |lines| {
      actions := [];
    } else {
      var a := OneStep(s, lines);
      StepKeepsInv(s, lines, a);
      RestNonNegative(s, lines);
      var rest := CanFinishFrom(Apply(lines, s, a).value, lines);
      actions := [a] + rest;
      assert actions[1..] == rest;
    }
  }

  /** From every reachable state the conversation can be brought to its end. */
  lemma CanFinish(lines: seq<string>, init: State, s: State) returns (actions: seq<Action>)
    requires Reaches(lines, init, s) && GoodLines(lines)
    ensures Run(Step(lines), s, actions).Some? && Run(Step(lines), s, actions).value.j == |lines|
  {
    ReachableInv(lines, init, s);
    actions := CanFinishFrom(s, lines);
  }
}

/** One connection of `dumb_epoll.c`: a state machine that reads a command in
    pieces, then writes the answer in pieces, and switches the events it waits for. */
module EpollServer {
  import opened Wrappers
  import opened LineProtocol
  import LineServer

  const READ_BUF := 1024
  const CHUNK := 16384
  const DEFAULT_STREAM := 65536

  datatype Phase = ReadCommand | WriteStream | WritePong | WriteBurn | WriteDone
  datatype Interest = EpollIn | EpollOut

  /** `client_ctx_t`, and the events epoll is asked for. */
  datatype Conn = Conn(phase: Phase, buf: seq<char>, readLen: nat, toSend: int, sent: int, mask: Interest)

  function Fresh(buf: seq<char>): Conn { Conn(ReadCommand, buf, 0, 0, 0, EpollIn) }

  // ---- Specification: one event ----

  function BurnDepth(line: string): int
    requires "BURN" <= line
  {
    match Number(line[4..]) case Some(n) => n case None => 0
  }

  function StreamSize(line: string): int
    requires "STREAM" <= line
  {
    match Number(line[6..]) case Some(n) => n case None => DEFAULT_STREAM
  }

  function Start(c: Conn, phase: Phase, toSend: int): Conn {
    c.(phase := phase, sent := 0, toSend := toSend, mask := EpollOut)
  }

  /** Overwrites the beginning of the buffer, as `snprintf` does. */
  function Overwrite(buf: seq<char>, at: nat, text: string): seq<char>
    requires at + |text| < |buf|
  {
    buf[..at] + text + [NUL] + buf[at + |text| + 1..]
  }

  /** A complete command line is in the buffer. */
  function Dispatch(c: Conn, line: string): Conn
    requires |c.buf| == READ_BUF
  {
    if "PING" <= line then Start(c, WritePong, 5)
    else if "BURN" <= line then
      var text := ResultText(BurnDepth(line));
      Start(c.(buf := Overwrite(c.buf, 0, text)), WriteBurn, |text|)
    else if "STREAM" <= line then Start(c, WriteStream, StreamSize(line))
    else c.(readLen := 0)
  }

  /** `handle_read` with a successful read. */
  function OnRead(c: Conn, bytes: string): (c': Conn)
    requires |c.buf| == READ_BUF && c.readLen + |bytes| <= READ_BUF - 1
    ensures |c'.buf| == READ_BUF
  {
    var len := c.readLen + |bytes|;
    var buf := Overwrite(c.buf, c.readLen, bytes);
    var i := LineServer.IndexOfNewline(buf[..len]);
    if i >= 0 then Dispatch(c.(buf := buf[i := NUL], readLen := len), buf[..i])
    else c.(buf := buf, readLen := if len == READ_BUF - 1 then 0 else len)
  }

  /** What `handle_write` passes to `write`; a negative rest counts as a huge size. */
  function Offer(c: Conn): string {
    var remaining := c.toSend - c.sent;
    match c.phase
    case ReadCommand => ""
    case WritePong => if 0 <= c.sent <= c.toSend <= 5 then "PONG\n"[c.sent..c.toSend] else ""
    case WriteBurn => if 0 <= c.sent <= c.toSend <= |c.buf| then c.buf[c.sent..c.toSend] else ""
    case WriteStream => As(if 0 <= remaining < CHUNK then remaining else CHUNK)
    case WriteDone => if 0 <= c.sent <= c.toSend <= 5 then "DONE\n"[c.sent..c.toSend] else ""
  }

  /** `handle_write` when the kernel takes k bytes of the offer. */
  function OnWrite(c: Conn, k: nat): Conn {
    var c' := c.(sent := c.sent + k);
    if c'.sent != c'.toSend || c.phase.ReadCommand? then c'
    else if c.phase.WriteStream? then c'.(phase := WriteDone, sent := 0, toSend := 5)
    else c'.(phase := ReadCommand, readLen := 0, mask := EpollIn)
  }

  // ---- The answer to a command ----

  datatype Answer = Silent | Finite(text: string) | Endless

  function EpollAnswer(line: string): Answer {
    if "PING" <= line then Finite("PONG\n")
    else if "BURN" <= line then Finite(ResultText(BurnDepth(line)))
    else if "STREAM" <= line then
      if StreamSize(line) < 0 then Endless else Finite(StreamText(StreamSize(line)))
    else Silent
  }

  /** A connection together with its last command and the bytes written since. */
  datatype Session = Session(conn: Conn, line: string, written: string)

  function SessionRead(s: Session, bytes: string): Session
    requires |s.conn.buf| == READ_BUF && s.conn.readLen + |bytes| <= READ_BUF - 1
  {
    var c' := OnRead(s.conn, bytes);
    var text := Overwrite(s.conn.buf, s.conn.readLen, bytes)[..s.conn.readLen + |bytes|];
    var i := LineServer.IndexOfNewline(text);
    if i >= 0 then Session(c', text[..i], "") else s.(conn := c')
  }

  function SessionWrite(s: Session, k: nat): Session
    requires k <= |Offer(s.conn)|
  {
    s.(conn := OnWrite(s.conn, k), written := s.written + Offer(s.conn)[..k])
  }

  /** What has been written of the answer, read off the connection's own fields. */
  ghost predicate PhaseInv(c: Conn, line: string, written: string)
    requires |c.buf| == READ_BUF
  {
    match c.phase
    case ReadCommand => true
    case WritePong =>
      "PING" <= line && c.toSend == 5 && 0 <= c.sent < 5 && written == "PONG\n"[..c.sent]
    case WriteBurn =>
      && EpollAnswer(line).Finite? && 0 <= c.sent < c.toSend < READ_BUF
      && EpollAnswer(line).text == c.buf[..c.toSend] && written == c.buf[..c.sent]
    case WriteStream =>
      && EpollAnswer(line) == (if c.toSend < 0 then Endless else Finite(StreamText(c.toSend)))
      && 0 <= c.sent && (c.toSend >= 0 ==> c.sent <= c.toSend) && written == As(c.sent)
    case WriteDone =>
      && EpollAnswer(line).Finite? && c.toSend == 5 && 0 <= c.sent < 5
      && EpollAnswer(line).text == written + "DONE\n"[c.sent..]
  }

  ghost predicate Inv(s: Session) {
    && |s.conn.buf| == READ_BUF
    && (s.conn.mask.EpollIn? <==> s.conn.phase.ReadCommand?)
    && s.conn.readLen < READ_BUF && (s.conn.phase.ReadCommand? ==> s.conn.readLen < READ_BUF - 1)
    && PhaseInv(s.conn, s.line, s.written)
  }

  lemma FreshInv(buf: seq<char>)
    requires |buf| == READ_BUF
    ensures Inv(Session(Fresh(buf), "", ""))
  {
  }

  lemma BurnStarts(c: Conn, line: string)
    requires |c.buf| == READ_BUF && "BURN" <= line && !("PING" <= line)
    ensures var c' := Dispatch(c, line);
            && c'.phase.WriteBurn? && c'.sent == 0 && 0 < c'.toSend < READ_BUF && |c'.buf| == READ_BUF
            && EpollAnswer(line) == Finite(c'.buf[..c'.toSend])
  {
    var text := ResultText(BurnDepth(line));
    var buf := Overwrite(c.buf, 0, text);
    assert buf[..|text|] == text;
  }

  lemma DispatchInv(c: Conn, line: string)
    requires |c.buf| == READ_BUF && c.phase.ReadCommand? && c.mask.EpollIn? && c.readLen < READ_BUF
    ensures Inv(Session(Dispatch(c, line), line, ""))
    ensures Dispatch(c, line).phase.ReadCommand? <==> EpollAnswer(line).Silent?
  {
    if "PING" <= line {
    } else if "BURN" <= line {
      BurnStarts(c, line);
    }
  }

  /** Any bytes may arrive: the next read always has room, the mask follows the phase. */
  lemma ReadKeepsInv(s: Session, bytes: string)
    requires Inv(s) && s.conn.phase.ReadCommand? && s.conn.readLen + |bytes| <= READ_BUF - 1
    ensures Inv(SessionRead(s, bytes))
  {
    var len := s.conn.readLen + |bytes|;
    var buf := Overwrite(s.conn.buf, s.conn.readLen, bytes);
    assert |buf| == READ_BUF;
    hide LineServer.IndexOfNewline, Overwrite, Dispatch, EpollAnswer, As, StreamText, StreamSize, BurnDepth;
    var i := LineServer.IndexOfNewline(buf[..len]);
    if i >= 0 {
      assert buf[..len][..i] == buf[..i];
      DispatchInv(s.conn.(buf := buf[i := NUL], readLen := len), buf[..i]);
    }
  }

  /** What makes the server forget its input: a line that it does not know, or a full
      buffer without a newline that it could find. */
  predicate Forgets(text: string) {
    var i := LineServer.IndexOfNewline(text);
    if i >= 0 then EpollAnswer(text[..i]).Silent? else |text| == 1023
  }

  /** The bytes behind those that are in the buffer already. */
  lemma TextAfterRead(c: Conn, bytes: string)
    requires |c.buf| == READ_BUF && c.readLen + |bytes| <= READ_BUF - 1
    ensures Overwrite(c.buf, c.readLen, bytes)[..c.readLen + |bytes|] == c.buf[..c.readLen] + bytes
  {
  }

  lemma ForgettingRead(s: Session, bytes: string)
    requires Inv(s) && s.conn.phase.ReadCommand? && s.conn.readLen + |bytes| <= READ_BUF - 1
    requires Forgets(s.conn.buf[..s.conn.readLen] + bytes)
    ensures var c := SessionRead(s, bytes).conn; c.phase.ReadCommand? && c.mask.EpollIn? && c.readLen == 0
  {
    var len := s.conn.readLen + |bytes|;
    var buf := Overwrite(s.conn.buf, s.conn.readLen, bytes);
    TextAfterRead(s.conn, bytes);
    hide LineServer.IndexOfNewline, Overwrite, EpollAnswer, As, StreamText, StreamSize, BurnDepth;
    var i := LineServer.IndexOfNewline(buf[..len]);
    if i >= 0 {
      assert buf[..len][..i] == buf[..i];
      DispatchInv(s.conn.(buf := buf[i := NUL], readLen := len), buf[..i]);
    }
  }

  /** Two connections with nothing between them that an event could tell. */
  predicate Alike(c: Conn, d: Conn) {
    && |c.buf| == READ_BUF && |d.buf| == READ_BUF && c.phase == d.phase && c.mask == d.mask
    && match c.phase
       case ReadCommand => c.readLen == d.readLen < READ_BUF - 1 && c.buf[..c.readLen] == d.buf[..d.readLen]
       case WriteBurn =>
         && c.toSend == d.toSend && c.sent == d.sent && 0 <= c.sent < c.toSend < READ_BUF
         && c.buf[..c.toSend] == d.buf[..d.toSend]
       case _ => c.toSend == d.toSend && c.sent == d.sent
  }

  /** The command alone decides, not what else is in the buffer. */
  lemma DispatchAlike(c: Conn, d: Conn, line: string)
    requires |c.buf| == READ_BUF && |d.buf| == READ_BUF
    requires c.phase.ReadCommand? && d.phase.ReadCommand? && c.mask == d.mask
    ensures Alike(Dispatch(c, line), Dispatch(d, line))
  {
    if "BURN" <= line && !("PING" <= line) {
      BurnStarts(c, line);
      BurnStarts(d, line);
    }
  }

  lemma ReadAlike(c: Conn, d: Conn, bytes: string)
    requires Alike(c, d) && c.phase.ReadCommand? && c.readLen + |bytes| <= READ_BUF - 1
    ensures Alike(OnRead(c, bytes), OnRead(d, bytes))
  {
    TextAfterRead(c, bytes);
    TextAfterRead(d, bytes);
    var len := c.readLen + |bytes|;
    var buf, buf' := Overwrite(c.buf, c.readLen, bytes), Overwrite(d.buf, d.readLen, bytes);
    assert |buf| == |buf'| == READ_BUF && buf[..len] == buf'[..len];
    hide LineServer.IndexOfNewline, Dispatch, Overwrite;
    var i := LineServer.IndexOfNewline(buf[..len]);
    assert buf'[..len] == buf[..len] && (c.phase.ReadCommand? <==> d.phase.ReadCommand?);
    if i >= 0 {
      assert buf[..len][..i] == buf[..i] && buf'[..len][..i] == buf'[..i];
      DispatchAlike(c.(buf := buf[i := NUL], readLen := len), d.(buf := buf'[i := NUL], readLen := len), buf[..i]);
    }
  }

  lemma WriteAlike(c: Conn, d: Conn, k: nat)
    requires Alike(c, d) && k <= |Offer(c)|
    ensures Offer(c) == Offer(d) && Alike(OnWrite(c, k), OnWrite(d, k))
  {
    if c.phase.WriteBurn? {
      assert Offer(c) == c.buf[..c.toSend][c.sent..] == d.buf[..d.toSend][d.sent..] == Offer(d);
    }
  }

  /** What epoll reports to a connection: bytes that came, or room for k bytes. */
  datatype Event = Incoming(bytes: string) | Room(k: nat)

  /** The bytes that a connection writes in a run of events, None when an event is not
      one that it waits for or exceeds what it asked for. */
  function Written(c: Conn, events: seq<Event>): Option<string>
    requires |c.buf| == READ_BUF
    decreases |events|
  {
    if events == [] then Some("")
    else match events[0]
      case Incoming(bytes) =>
        if c.mask.EpollIn? && c.phase.ReadCommand? && c.readLen + |bytes| <= READ_BUF - 1
        then Written(OnRead(c, bytes), events[1..]) else None
      case Room(k) =>
        if c.mask.EpollOut? && k <= |Offer(c)| then
          match Written(OnWrite(c, k), events[1..])
            case Some(rest) => Some(Offer(c)[..k] + rest)
            case None => None
        else None
  }

  lemma {:induction false} WrittenAlike(c: Conn, d: Conn, events: seq<Event>)
    requires Alike(c, d)
    ensures Written(c, events) == Written(d, events)
    decreases |events|
  {
    hide OnRead, OnWrite, Offer;
    if events != [] {
      match events[0] {
        case Incoming(bytes) =>
          if c.mask.EpollIn? && c.phase.ReadCommand? && c.readLen + |bytes| <= READ_BUF - 1 {
            ReadAlike(c, d, bytes);
            WrittenAlike(OnRead(c, bytes), OnRead(d, bytes), events[1..]);
          }
        case Room(k) =>
          WriteAlike(c, d, 0);
          if c.mask.EpollOut? && k <= |Offer(c)| {
            WriteAlike(c, d, k);
            WrittenAlike(OnWrite(c, k), OnWrite(d, k), events[1..]);
          }
      }
    }
  }

  /** After a line it does not know, or an overlong one, the connection answers all
      that comes next as a new connection does. */
  lemma ForgottenIsGone(s: Session, bytes: string, other: seq<char>, events: seq<Event>)
    requires Inv(s) && s.conn.phase.ReadCommand? && s.conn.readLen + |bytes| <= READ_BUF - 1
    requires Forgets(s.conn.buf[..s.conn.readLen] + bytes) && |other| == READ_BUF
    ensures Written(OnRead(s.conn, bytes), events) == Written(Fresh(other), events)
  {
    ForgettingRead(s, bytes);
    hide OnRead;
    WrittenAlike(OnRead(s.conn, bytes), Fresh(other), events);
  }

  lemma AsConcat(a: nat, b: nat, k: nat)
    requires k <= b
    ensures As(a) + As(b)[..k] == As(a + k)
  {
  }

  /** Any part of the offer may be taken: what is written stays a prefix of the
      answer, and the connection reads again exactly when the answer is complete. */
  lemma WriteKeepsInv(s: Session, k: nat)
    requires Inv(s) && !s.conn.phase.ReadCommand? && k <= |Offer(s.conn)|
    ensures var s' := SessionWrite(s, k);
            && Inv(s')
            && (s'.conn.phase.ReadCommand? <==> EpollAnswer(s.line) == Finite(s'.written))
            && (s'.conn.phase.ReadCommand? ==> s'.conn.readLen == 0)
  {
    match s.conn.phase {
      case WritePong => PongWriteInv(s, k);
      case WriteBurn => BurnWriteInv(s, k);
      case WriteStream => StreamWriteInv(s, k);
      case WriteDone => DoneWriteInv(s, k);
    }
  }

  lemma PongWriteInv(s: Session, k: nat)
    requires Inv(s) && s.conn.phase.WritePong? && k <= |Offer(s.conn)|
    ensures var s' := SessionWrite(s, k);
            && Inv(s')
            && (s'.conn.phase.ReadCommand? <==> EpollAnswer(s.line) == Finite(s'.written))
  {
    var c := s.conn;
    assert "PONG\n"[..c.sent] + "PONG\n"[c.sent..][..k] == "PONG\n"[..c.sent + k];
    assert |s.written + Offer(c)[..k]| == c.sent + k;
  }

  lemma BurnWriteInv(s: Session, k: nat)
    requires Inv(s) && s.conn.phase.WriteBurn? && k <= |Offer(s.conn)|
    ensures var s' := SessionWrite(s, k);
            && Inv(s')
            && (s'.conn.phase.ReadCommand? <==> EpollAnswer(s.line) == Finite(s'.written))
  {
    var c := s.conn;
    assert Offer(c) == c.buf[c.sent..c.toSend];
    hide Offer, EpollAnswer, As, StreamText;
    assert SessionWrite(s, k).written == c.buf[..c.sent + k];
    assert |SessionWrite(s, k).written| == c.sent + k;
  }

  lemma StreamWriteInv(s: Session, k: nat)
    requires Inv(s) && s.conn.phase.WriteStream? && k <= |Offer(s.conn)|
    ensures var s' := SessionWrite(s, k);
            Inv(s') && !s'.conn.phase.ReadCommand? && EpollAnswer(s.line) != Finite(s'.written)
  {
    StreamGrows(s, k);
    if s.conn.sent + k == s.conn.toSend {
      assert "DONE\n"[0..] == "DONE\n";
      assert |StreamText(s.conn.toSend)| > |As(s.conn.toSend)|;
    } else if s.conn.toSend >= 0 {
      assert |StreamText(s.conn.toSend)| > |As(s.conn.sent + k)|;
    }
  }

  lemma StreamGrows(s: Session, k: nat)
    requires Inv(s) && s.conn.phase.WriteStream? && k <= |Offer(s.conn)|
    ensures SessionWrite(s, k).written == As(s.conn.sent + k)
    ensures s.conn.toSend >= 0 ==> s.conn.sent + k <= s.conn.toSend
  {
    var remaining := s.conn.toSend - s.conn.sent;
    AsConcat(s.conn.sent, if 0 <= remaining < CHUNK then remaining else CHUNK, k);
  }

  lemma DoneWriteInv(s: Session, k: nat)
    requires Inv(s) && s.conn.phase.WriteDone? && k <= |Offer(s.conn)|
    ensures var s' := SessionWrite(s, k);
            && Inv(s')
            && (s'.conn.phase.ReadCommand? <==> EpollAnswer(s.line) == Finite(s'.written))
  {
    var c := s.conn;
    assert Offer(c) == "DONE\n"[c.sent..];
  }

  /** The bytes written since the command are always a prefix of its answer. */
  lemma WrittenIsPrefix(s: Session)
    requires Inv(s) && !s.conn.phase.ReadCommand? && EpollAnswer(s.line) != Endless
    ensures EpollAnswer(s.line).Finite? && s.written <= EpollAnswer(s.line).text
    ensures s.written != EpollAnswer(s.line).text
  {
    var c := s.conn;
    match c.phase {
      case WritePong => assert "PONG\n"[..c.sent] <= "PONG\n" && |s.written| == c.sent;
      case WriteBurn => assert |s.written| == c.sent;
      case WriteStream =>
        assert As(c.sent) <= As(c.toSend);
        assert |s.written| == c.sent;
      case WriteDone =>
        assert EpollAnswer(s.line).text == s.written + "DONE\n"[c.sent..];
    }
  }

  /** A negative STREAM size is never satisfied: nothing but 'A's, and no end. */
  lemma NegativeStreamNeverEnds(s: Session, k: nat)
    requires Inv(s) && s.conn.phase.WriteStream? && s.conn.toSend < 0 && k <= |Offer(s.conn)|
    ensures |Offer(s.conn)| == 16384
    ensures var s' := SessionWrite(s, k);
            s'.conn.phase.WriteStream? && s'.conn.toSend < 0 && s'.written == As(s.conn.sent + k)
  {
    AsConcat(s.conn.sent, CHUNK, k);
  }

  // ---- Which commands the two servers answer alike ----

  /** PING, `BURN ` and `STREAM ` with a size that is there and not negative. */
  predicate Agrees(line: string) {
    || "PING" <= line
    || "BURN " <= line
    || ("STREAM " <= line && Number(line[7..]).Some? && Number(line[7..]).value >= 0)
  }

  lemma BlankSkipped(s: string)
    requires s != "" && s[0] == ' '
    ensures Number(s) == Number(s[1..])
  {
  }

  /** The command words differ in their first letters. */
  lemma FirstLetter(line: string)
    ensures "PING" <= line ==> line[0] == 'P'
    ensures "WAIT " <= line ==> line[0] == 'W'
    ensures "BURN" <= line ==> line[0] == 'B'
    ensures "STREAM" <= line ==> line[0] == 'S'
    ensures "BURN " <= line ==> "BURN" <= line
    ensures "STREAM " <= line ==> "STREAM" <= line
  {
    assert "BURN " <= line ==> "BURN" == "BURN "[..4] <= line;
    assert "STREAM " <= line ==> "STREAM" == "STREAM "[..6] <= line;
  }

  lemma BurnAgrees(line: string)
    requires "BURN" <= line && !("PING" <= line)
    ensures EpollAnswer(line) == Finite(BlockingReply(line)) <==> "BURN " <= line
  {
    FirstLetter(line);
    if "BURN " <= line {
      BlankSkipped(line[4..]);
      assert line[4..][1..] == line[5..];
    } else {
      assert ResultText(BurnDepth(line))[0] == 'R';
      assert BlockingReply(line) == "UNKNOWN_COMMAND\n";
      assert BlockingReply(line)[0] == 'U';
    }
  }

  lemma StreamAgrees(line: string)
    requires "STREAM" <= line && !("PING" <= line) && !("BURN" <= line)
    ensures EpollAnswer(line) == Finite(BlockingReply(line)) <==>
            "STREAM " <= line && Number(line[7..]).Some? && Number(line[7..]).value >= 0
  {
    FirstLetter(line);
    if "STREAM " <= line {
      BlankSkipped(line[6..]);
      assert line[6..][1..] == line[7..];
      if Number(line[7..]).None? {
        assert |BlockingReply(line)| == 5 && |StreamText(DEFAULT_STREAM)| == DEFAULT_STREAM + 5;
      }
    } else {
      assert BlockingReply(line) == "UNKNOWN_COMMAND\n";
      assert BlockingReply(line)[0] == 'U';
      if StreamSize(line) >= 0 {
        var c := StreamText(StreamSize(line))[0];
        assert c == 'A' || c == 'D';
      }
    }
  }

  /** The two servers answer a line alike if and only if it is one of those. */
  lemma AgreeExactly(line: string)
    ensures EpollAnswer(line) == Finite(BlockingReply(line)) <==> Agrees(line)
  {
    FirstLetter(line);
    if "PING" <= line {
    } else if "BURN" <= line {
      BurnAgrees(line);
    } else if "STREAM" <= line {
      StreamAgrees(line);
    }
  }

  // ---- The program ----

  /** The outcome of `read`: bytes, nothing yet, or end of file or an error. */
  datatype ReadResult = Data(bytes: string) | NoData | Closed

  /** The outcome of `write`: some bytes taken, no room now, or an error. */
  datatype WriteResult = Accepted(k: nat) | NoRoom | Failed

  class Client {
    var state: Phase
    const readBuf: array<char>
    var readLen: nat
    var bytesToSend: int
    var bytesSent: int
    var interest: Interest

    /** `init_client_ctx`, and the registration with epoll. */
    constructor ()
      ensures fresh(readBuf) && readBuf.Length == 1024 && View() == Fresh(readBuf[..])
    {
      state, readLen, bytesToSend, bytesSent, interest := ReadCommand, 0, 0, 0, EpollIn;
      readBuf := new char[READ_BUF](_ => NUL);
    }

    ghost function View(): Conn reads this, readBuf {
      Conn(state, readBuf[..], readLen, bytesToSend, bytesSent, interest)
    }

    method Put(at: nat, text: string)
      requires readBuf.Length == READ_BUF && at + |text| < READ_BUF
      modifies readBuf
      ensures readBuf[..] == Overwrite(old(readBuf[..]), at, text)
    {
      forall k | 0 <= k < |text| { readBuf[at + k] := text[k]; }
      readBuf[at + |text|] := NUL;
    }

    method HandleRead(result: ReadResult) returns (alive: bool)
      requires readBuf.Length == READ_BUF && state.ReadCommand? && readLen < READ_BUF - 1
      requires result.Data? ==> 1 <= |result.bytes| <= READ_BUF - 1 - readLen
      modifies this, readBuf
      ensures alive <==> !result.Closed?
      ensures View() == if result.Data? then OnRead(old(View()), result.bytes) else old(View())
    {
      if result.NoData? { return true; }
      if result.Closed? { return false; }
      alive := true;
      Put(readLen, result.bytes);
      readLen := readLen + |result.bytes|;
      var newline := LineServer.FindNewline(readBuf, readLen);
      if newline >= 0 {
        var line := readBuf[..newline];
        assert line == readBuf[..readLen][..newline];
        readBuf[newline] := NUL;
        assert readBuf[..newline] == line;
        RunCommand(line);
      } else if readLen == READ_BUF - 1 {
        readLen := 0;
      }
    }

    method RunCommand(line: string)
      requires readBuf.Length == READ_BUF
      modifies this, readBuf
      ensures View() == Dispatch(old(View()), line)
    {
      if "PING" <= line {
        state, bytesSent, bytesToSend := WritePong, 0, 5;
      } else if "BURN" <= line {
        var depth := match Number(line[4..]) case Some(n) => n case None => 0;
        var sum := RecursiveBurn(depth);
        state, bytesSent := WriteBurn, 0;
        var text := "RESULT " + Decimal(sum) + "\n";
        assert text == ResultText(depth);
        Put(0, text);
        bytesToSend := |text|;
      } else if "STREAM" <= line {
        var bytes := match Number(line[6..]) case Some(n) => n case None => DEFAULT_STREAM;
        state, bytesSent, bytesToSend := WriteStream, 0, bytes;
      } else {
        readLen := 0;
        return;
      }
      interest := EpollOut;
    }

    method HandleWrite(result: WriteResult) returns (alive: bool, written: string)
      requires readBuf.Length == READ_BUF && !state.ReadCommand?
      requires result.Accepted? ==> result.k <= |Offer(View())|
      modifies this
      ensures alive <==> !result.Failed?
      ensures View() == if result.Accepted? then OnWrite(old(View()), result.k) else old(View())
      ensures written == if result.Accepted? then Offer(old(View()))[..result.k] else ""
    {
      if result.NoRoom? { return true, ""; }
      if result.Failed? { return false, ""; }
      alive := true;
      var remaining := bytesToSend - bytesSent;
      var offer := "";
      if state.WritePong? || state.WriteDone? {
        var msg := if state.WritePong? then "PONG\n" else "DONE\n";
        if 0 <= bytesSent <= bytesToSend <= 5 {
          offer := msg[bytesSent..bytesSent + remaining];
        }
      } else if state.WriteBurn? {
        if 0 <= bytesSent <= bytesToSend <= READ_BUF {
          offer := readBuf[bytesSent..bytesSent + remaining];
        }
      } else {
        var toWrite := if 0 <= remaining < CHUNK then remaining else CHUNK;
        offer := seq(toWrite, _ => 'A');
      }
      written := offer[..result.k];
      bytesSent := bytesSent + result.k;
      if bytesSent == bytesToSend {
        if state.WriteStream? {
          state, bytesSent, bytesToSend := WriteDone, 0, 5;
        } else {
          state, readLen, interest := ReadCommand, 0, EpollIn;
        }
      }
    }
  }
}

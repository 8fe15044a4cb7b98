/** `handle_client` of `dumb_common.c`: a 1024-byte buffer, filled by `recv` in
    pieces of any size, from which complete lines are cut and executed. */
module LineServer {
  import opened Wrappers
  import opened LineProtocol

  const BUF_SIZE := 1024
  const STREAM_CHUNK_SIZE := 4096
  const LONGEST := BUF_SIZE - 2     // the longest line that fits with its newline

  // ---- Specification: the framing, one byte at a time ----

  /** What is in the buffer, and the commands executed so far. */
  datatype Framer = Framer(pending: string, commands: seq<string>)

  const Fresh := Framer("", [])

  function Feed(f: Framer, b: char): Framer {
    if b == '\n' && NUL !in f.pending then Framer("", f.commands + [f.pending])
    else if |f.pending| + 1 >= BUF_SIZE - 1 then Framer("", f.commands)
    else Framer(f.pending + [b], f.commands)
  }

  function FeedAll(f: Framer, stream: string): Framer {
    if stream == "" then f else Feed(FeedAll(f, stream[..|stream| - 1]), stream[|stream| - 1])
  }

  function Commands(stream: string): seq<string> { FeedAll(Fresh, stream).commands }

  /** `strchr(s, '\n')`: the first newline, unless a NUL comes before it. */
  function IndexOfNewline(s: string): (i: int)
    ensures -1 <= i < |s|
    ensures i >= 0 ==> s[i] == '\n' && (forall k :: 0 <= k < i ==> s[k] != '\n' && s[k] != NUL)
  {
    if s == "" || s[0] == NUL then -1
    else if s[0] == '\n' then 0
    else
      var i := IndexOfNewline(s[1..]);
      assert forall k :: 1 <= k < |s| ==> s[k] == s[1..][k - 1];
      if i < 0 then -1 else i + 1
  }

  /** No newline that `strchr` could find: a NUL comes before each. */
  predicate Quiet(s: string) {
    forall k :: 0 <= k < |s| && s[k] == '\n' ==> NUL in s[..k]
  }

  lemma {:induction false} NothingFoundIsQuiet(s: string)
    requires IndexOfNewline(s) == -1
    ensures Quiet(s)
  {
    if s != "" && s[0] != NUL {
      NothingFoundIsQuiet(s[1..]);
      forall k | 0 <= k < |s| && s[k] == '\n' ensures NUL in s[..k] {
        assert s[1..][k - 1] == '\n' && s[1..][..k - 1] == s[..k][1..];
      }
    }
  }

  lemma {:induction false} FeedAllConcat(f: Framer, a: string, b: string)
    ensures FeedAll(f, a + b) == FeedAll(FeedAll(f, a), b)
    decreases |b|
  {
    if b == "" {
      assert a + b == a;
    } else {
      assert (a + b)[..|a + b| - 1] == a + b[..|b| - 1];
      FeedAllConcat(f, a, b[..|b| - 1]);
    }
  }

  /** Without a newline to find, bytes gather until the buffer is full. */
  lemma {:induction false} FeedQuiet(commands: seq<string>, s: string)
    requires |s| <= BUF_SIZE - 1
    requires Quiet(s)
    ensures FeedAll(Framer("", commands), s) == Framer(if |s| == BUF_SIZE - 1 then "" else s, commands)
    decreases |s|
  {
    if s != "" {
      var t := s[..|s| - 1];
      forall k | 0 <= k < |t| && t[k] == '\n' ensures NUL in t[..k] {
        assert s[..k] == t[..k];
      }
      FeedQuiet(commands, t);
    }
  }

  lemma FeedPending(commands: seq<string>, pending: string)
    requires |pending| <= BUF_SIZE - 1 && IndexOfNewline(pending) == -1
    ensures FeedAll(Framer("", commands), pending) ==
            Framer(if |pending| == BUF_SIZE - 1 then "" else pending, commands)
  {
    NothingFoundIsQuiet(pending);
    FeedQuiet(commands, pending);
  }

  /** A newline found: the line before it is executed, the rest stays to be looked at. */
  lemma FeedLine(commands: seq<string>, line: string, rest: string)
    requires '\n' !in line && NUL !in line && |line| <= LONGEST
    ensures FeedAll(Framer("", commands), line + "\n" + rest) == FeedAll(Framer("", commands + [line]), rest)
  {
    var f := Framer("", commands);
    FeedAllConcat(f, line + "\n", rest);
    FeedAllConcat(f, line, "\n");
    FeedQuiet(commands, line);
    FeedOne(FeedAll(f, line), '\n');
  }

  lemma FeedOne(f: Framer, b: char)
    ensures FeedAll(f, [b]) == Feed(f, b)
  {
    assert [b][..0] == "" && FeedAll(f, "") == f;
  }

  // ---- The program ----

  /** A connected socket.  What the peer sends is `input`; `recv` and `send` move as
      much as they like, and may fail.  After a failed send nothing more goes out. */
  class Socket {
    const input: string
    var pos: nat
    var output: string
    var broken: bool

    constructor (input: string)
      ensures this.input == input && pos == 0 && output == "" && !broken
    {
      this.input := input;
      pos, output, broken := 0, "", false;
    }

    method Recv(buf: array<char>, at: nat, space: nat) returns (n: int)
      requires pos <= |input| && at + space <= buf.Length
      modifies this`pos, buf
      ensures -1 <= n <= space && (n == 0 ==> space == 0 || pos == |input|)
      ensures pos == old(pos) + (if n < 0 then 0 else n) <= |input|
      ensures n > 0 ==> buf[..at + n] == old(buf[..])[..at] + input[old(pos)..pos]
    {
      if * {
        n := -1;
      } else if pos == |input| || space == 0 {
        n := 0;
      } else {
        n :| 1 <= n <= space && pos + n <= |input|;
        forall i | 0 <= i < n { buf[at + i] := input[pos + i]; }
        pos := pos + n;
      }
    }

    method Send(data: string) returns (sent: int)
      requires data != ""
      modifies this`output, this`broken
      ensures old(broken) ==> broken && sent == -1
      ensures broken ==> sent == -1 && output == old(output)
      ensures !broken ==> 1 <= sent <= |data| && output == old(output) + data[..sent]
    {
      var fails: bool := *;
      if broken || fails {
        broken := true;
        sent := -1;
      } else {
        sent :| 1 <= sent <= |data|;
        output := output + data[..sent];
      }
    }

    /** A short answer on a blocking socket goes out whole or not at all. */
    method SendAll(data: string)
      modifies this`output, this`broken
      ensures old(broken) ==> broken
      ensures output == if broken then old(output) else old(output) + data
    {
      var fails: bool := *;
      if broken || fails {
        broken := true;
      } else {
        output := output + data;
      }
    }
  }

  /** All that was to be sent was sent, unless the connection broke on the way. */
  ghost predicate Sent(before: string, reply: string, after: string, broken: bool) {
    if broken then before <= after <= before + reply else after == before + reply
  }

  method SendStream(sock: Socket, bytes: int)
    modifies sock`output, sock`broken
    ensures old(sock.broken) ==> sock.broken && sock.output == old(sock.output)
    ensures !old(sock.broken) ==> Sent(old(sock.output), StreamText(bytes), sock.output, sock.broken)
  {
    var chunk := seq(STREAM_CHUNK_SIZE, _ => 'A');
    var bytesToSend := bytes;
    ghost var wasBroken, before := sock.broken, sock.output;
    while bytesToSend > 0
      invariant wasBroken == sock.broken
      invariant wasBroken ==> sock.output == before
      invariant if bytes <= 0 then bytesToSend == bytes else 0 <= bytesToSend <= bytes
      invariant !wasBroken ==> sock.output == before + As(bytes - bytesToSend)
      decreases bytesToSend
    {
      var toSend := if bytesToSend > STREAM_CHUNK_SIZE then STREAM_CHUNK_SIZE else bytesToSend;
      assert chunk[..toSend] != "";
      var sent := sock.Send(chunk[..toSend]);
      if sent < 0 {
        assert As(bytes - bytesToSend) <= As(bytes);
        break;
      }
      assert As(bytes - bytesToSend) + chunk[..toSend][..sent] == As(bytes - (bytesToSend - sent));
      bytesToSend := bytesToSend - sent;
    }
    if bytesToSend <= 0 {
      sock.SendAll("DONE\n");
    }
  }

  /** One command; `WAIT` sleeps, which the answer does not show. */
  method Execute(sock: Socket, line: string)
    modifies sock`output, sock`broken
    ensures old(sock.broken) ==> sock.broken && sock.output == old(sock.output)
    ensures !old(sock.broken) ==> Sent(old(sock.output), BlockingReply(line), sock.output, sock.broken)
  {
    if "PING" <= line {
      sock.SendAll("PONG\n");
    } else if "WAIT " <= line {
      sock.SendAll("DONE\n");
    } else if "BURN " <= line {
      var depth := Atoll(line[5..]);
      var sum := RecursiveBurn(depth);
      sock.SendAll("RESULT " + Decimal(sum) + "\n");
    } else if "STREAM " <= line {
      SendStream(sock, Atoll(line[7..]));
    } else {
      sock.SendAll("UNKNOWN_COMMAND\n");
    }
  }

  /** `strchr(buf, '\n')` on a buffer whose text ends at `len`. */
  method FindNewline(buf: array<char>, len: nat) returns (i: int)
    requires len < buf.Length && buf[len] == NUL
    ensures i == IndexOfNewline(buf[..len])
  {
    var k := 0;
    while buf[k] != '\n' && buf[k] != NUL
      invariant 0 <= k <= len
      invariant forall j :: 0 <= j < k ==> buf[j] != '\n' && buf[j] != NUL
      decreases len - k
    {
      k := k + 1;
    }
    i := if buf[k] == '\n' then k else -1;
    NewlineAt(buf[..len], if k < len then k else len, i);
  }

  lemma {:induction false} NewlineAt(s: string, k: nat, i: int)
    requires k <= |s| && forall j :: 0 <= j < k ==> s[j] != '\n' && s[j] != NUL
    requires if k < |s| && s[k] == '\n' then i == k else i == -1 && (k == |s| || s[k] == NUL)
    ensures IndexOfNewline(s) == i
    decreases |s|
  {
    if k > 0 {
      NewlineAt(s[1..], k - 1, if i == k then k - 1 else -1);
    }
  }

  method ExecuteNext(sock: Socket, line: string, ghost before: seq<string>)
    requires Sent("", BlockingReplies(before), sock.output, sock.broken)
    modifies sock`output, sock`broken
    ensures Sent("", BlockingReplies(before + [line]), sock.output, sock.broken)
  {
    ghost var out, was := sock.output, sock.broken;
    Execute(sock, line);
    SentExtend(BlockingReplies(before), BlockingReply(line), out, sock.output, was, sock.broken);
  }

  lemma SentExtend(a: string, r: string, out: string, out': string, broken: bool, broken': bool)
    requires Sent("", a, out, broken)
    requires broken ==> broken' && out' == out
    requires !broken ==> Sent(out, r, out', broken')
    ensures Sent("", a + r, out', broken')
  {
  }

  /** `memmove`: what follows the newline comes to the front. */
  method MoveRest(buf: array<char>, newline: nat, left: nat) returns (remaining: nat)
    requires newline < left < buf.Length
    modifies buf
    ensures remaining == left - newline - 1
    ensures buf[..remaining] == old(buf[newline + 1..left]) && buf[remaining] == NUL
  {
    remaining := left - newline - 1;
    forall k | 0 <= k < remaining { buf[k] := buf[newline + 1 + k]; }
    buf[remaining] := NUL;
  }

  /** Executes the complete lines in the buffer and moves what is left to its front. */
  method Drain(sock: Socket, buf: array<char>, len: nat, ghost done: seq<string>)
      returns (left: nat, ghost commands: seq<string>)
    requires buf.Length == BUF_SIZE && len <= BUF_SIZE - 1 && buf[len] == NUL
    requires Sent("", BlockingReplies(done), sock.output, sock.broken)
    modifies sock`output, sock`broken, buf
    ensures left <= BUF_SIZE - 1 && buf[left] == NUL && IndexOfNewline(buf[..left]) == -1
    ensures FeedAll(Framer("", done), old(buf[..len])) ==
            Framer(if left == BUF_SIZE - 1 then "" else buf[..left], commands)
    ensures Sent("", BlockingReplies(commands), sock.output, sock.broken)
  {
    hide FeedAll, BlockingReplies, IndexOfNewline;
    left := len;
    commands := done;
    ghost var target := FeedAll(Framer("", done), buf[..len]);
    while true
      invariant left <= BUF_SIZE - 1 && buf[left] == NUL
      invariant target == FeedAll(Framer("", commands), buf[..left])
      invariant Sent("", BlockingReplies(commands), sock.output, sock.broken)
      decreases left
    {
      ghost var text := buf[..left];
      var newline := FindNewline(buf, left);
      if newline < 0 {
        FeedPending(commands, text);
        return;
      }
      FeedLine(commands, text[..newline], text[newline + 1..]);
      assert text == text[..newline] + "\n" + text[newline + 1..];
      assert text[..newline] == buf[..newline] && text[newline + 1..] == buf[newline + 1..left];
      ExecuteNext(sock, buf[..newline], commands);
      commands := commands + [text[..newline]];
      left := MoveRest(buf, newline, left);
    }
  }

  /** What has been received joins what the buffer still holds. */
  lemma FeedMore(soFar: string, more: string, pending: string, commands: seq<string>)
    requires |pending| < BUF_SIZE - 1 && IndexOfNewline(pending) == -1
    requires FeedAll(Fresh, soFar) == Framer(pending, commands)
    ensures FeedAll(Fresh, soFar + more) == FeedAll(Framer("", commands), pending + more)
  {
    FeedAllConcat(Fresh, soFar, more);
    FeedPending(commands, pending);
    FeedAllConcat(Framer("", commands), pending, more);
  }

  /** `recv` behind what the buffer holds, and the terminating NUL. */
  method Fill(sock: Socket, buf: array<char>, held: nat, ghost commands: seq<string>) returns (n: int)
    requires buf.Length == BUF_SIZE && held < BUF_SIZE - 1 && IndexOfNewline(buf[..held]) == -1
    requires sock.pos <= |sock.input|
    requires FeedAll(Fresh, sock.input[..sock.pos]) == Framer(buf[..held], commands)
    modifies sock`pos, buf
    ensures n <= 0 ==> sock.pos == old(sock.pos)
    ensures n > 0 ==>
              && held + n <= BUF_SIZE - 1 && buf[held + n] == NUL
              && sock.pos == old(sock.pos) + n <= |sock.input|
              && FeedAll(Fresh, sock.input[..sock.pos]) == FeedAll(Framer("", commands), buf[..held + n])
  {
    ghost var was, pending := sock.pos, buf[..held];
    n := sock.Recv(buf, held, BUF_SIZE - held - 1);
    if n > 0 {
      buf[held + n] := NUL;
      FeedMore(sock.input[..was], sock.input[was..sock.pos], pending, commands);
      assert sock.input[..sock.pos] == sock.input[..was] + sock.input[was..sock.pos];
      assert buf[..held + n] == pending + sock.input[was..sock.pos];
    }
  }

  lemma NothingYet()
    ensures FeedAll(Fresh, "") == Fresh && BlockingReplies([]) == "" && IndexOfNewline("") == -1
  {
  }

  /** `handle_client`: however the stream is cut into pieces, the commands executed
      are those of the stream read so far, and the answers are theirs. */
  method HandleClient(sock: Socket)
    requires sock.pos == 0 && sock.output == "" && !sock.broken
    modifies sock`pos, sock`output, sock`broken
    ensures sock.pos <= |sock.input|
    ensures Sent("", BlockingReplies(Commands(sock.input[..sock.pos])), sock.output, sock.broken)
  {
    hide FeedAll, BlockingReplies, IndexOfNewline;
    var buf := new char[BUF_SIZE];
    var bufLen: nat := 0;
    ghost var commands: seq<string> := [];
    NothingYet();
    while true
      invariant fresh(buf) && buf.Length == BUF_SIZE
      invariant bufLen < BUF_SIZE - 1 && IndexOfNewline(buf[..bufLen]) == -1
      invariant sock.pos <= |sock.input|
      invariant FeedAll(Fresh, sock.input[..sock.pos]) == Framer(buf[..bufLen], commands)
      invariant Sent("", BlockingReplies(commands), sock.output, sock.broken)
      decreases |sock.input| - sock.pos
    {
      var bytesRead := Fill(sock, buf, bufLen, commands);
      if bytesRead <= 0 { break; }
      bufLen := bufLen + bytesRead;
      bufLen, commands := Drain(sock, buf, bufLen, commands);
      if bufLen >= BUF_SIZE - 1 {
        bufLen := 0;
      }
    }
  }

  // ---- Framing does not depend on how the stream is cut ----

  /** The lines of a stream: those that are complete, and the beginning of the next. */
  datatype Text = Text(lines: seq<string>, tail: string)

  function Split(stream: string): Text {
    if stream == "" then Text([], "")
    else
      var t := Split(stream[..|stream| - 1]);
      var b := stream[|stream| - 1];
      if b == '\n' then Text(t.lines + [t.tail], "") else Text(t.lines, t.tail + [b])
  }

  /** A line that the buffer can hold with its newline, and that is a C string. */
  predicate Fits(line: string) { |line| <= 1022 && NUL !in line }

  predicate AllFit(lines: seq<string>) { forall k :: 0 <= k < |lines| ==> Fits(lines[k]) }

  /** As long as all complete lines fit, the commands are the lines. */
  lemma {:induction false} GoodLines(stream: string)
    requires AllFit(Split(stream).lines)
    ensures Commands(stream) == Split(stream).lines
    ensures Fits(Split(stream).tail) ==> FeedAll(Fresh, stream).pending == Split(stream).tail
    decreases |stream|
  {
    if stream != "" {
      var t := stream[..|stream| - 1];
      assert Split(t).lines == Split(stream).lines[..|Split(t).lines|];
      GoodLines(t);
      if stream[|stream| - 1] == '\n' {
        var lines := Split(stream).lines;
        assert Fits(lines[|lines| - 1]);
      } else if Fits(Split(stream).tail) {
        var tail := Split(stream).tail;
        assert tail[..|tail| - 1] == Split(t).tail;
        assert Fits(Split(t).tail);
      }
    }
  }

  /** Fewer commands than lines, or a command that is not its line. */
  ghost predicate Differs(commands: seq<string>, lines: seq<string>) {
    |commands| < |lines| || exists k :: 0 <= k < |commands| && k < |lines| && commands[k] != lines[k]
  }

  lemma {:induction false} NoMoreCommandsThanLines(stream: string)
    ensures |Commands(stream)| <= |Split(stream).lines|
    decreases |stream|
  {
    if stream != "" {
      NoMoreCommandsThanLines(stream[..|stream| - 1]);
    }
  }

  /** A line that does not fit leaves a difference for good. */
  lemma {:induction false} BadLines(stream: string)
    requires !AllFit(Split(stream).lines)
    ensures Differs(Commands(stream), Split(stream).lines)
    decreases |stream|
  {
    var t := stream[..|stream| - 1];
    var f, text := FeedAll(Fresh, t), Split(t);
    NoMoreCommandsThanLines(t);
    if AllFit(text.lines) {
      GoodLines(t);
      assert !Fits(text.tail);
    } else {
      BadLines(t);
      if |f.commands| >= |text.lines| {
        var k :| 0 <= k < |f.commands| && k < |text.lines| && f.commands[k] != text.lines[k];
        assert Commands(stream)[k] == f.commands[k] && Split(stream).lines[k] == text.lines[k];
      }
    }
  }

  /** For every byte stream: the commands executed are exactly its lines if and
      only if every line has at most 1022 bytes, none of them a NUL. */
  lemma FramingExact(stream: string)
    ensures Commands(stream) == Split(stream).lines <==> AllFit(Split(stream).lines)
  {
    if AllFit(Split(stream).lines) {
      GoodLines(stream);
    } else {
      BadLines(stream);
    }
  }

  /** What is left of a line when each full buffer is thrown away. */
  function Remainder(line: string): string { line[|line| / 1023 * 1023..] }

  /** Of a stream without NUL each line is executed, short of the full buffers. */
  lemma {:induction false} RemaindersExecuted(stream: string)
    requires NUL !in stream
    ensures NUL !in Split(stream).tail
    ensures FeedAll(Fresh, stream).pending == Remainder(Split(stream).tail)
    ensures |Commands(stream)| == |Split(stream).lines|
    ensures forall k :: 0 <= k < |Commands(stream)| ==> Commands(stream)[k] == Remainder(Split(stream).lines[k])
    decreases |stream|
  {
    if stream != "" {
      var t := stream[..|stream| - 1];
      RemaindersExecuted(t);
      RemainderGrows(Split(t).tail, stream[|stream| - 1]);
      hide Remainder;
      assert Remainder(Split(t).tail) <= FeedAll(Fresh, t).pending;
    }
  }

  lemma RemainderGrows(line: string, b: char)
    ensures Remainder("") == "" && |Remainder(line)| < 1023 && forall c :: c in Remainder(line) ==> c in line
    ensures Remainder(line + [b]) == if |Remainder(line)| == 1022 then "" else Remainder(line) + [b]
  {
    var n := |line|;
    var from, from' := n / 1023 * 1023, (n + 1) / 1023 * 1023;
    assert from' == if n - from == 1022 then n + 1 else from;
    assert Remainder(line) == line[from..] && Remainder(line + [b]) == (line + [b])[from'..];
    hide Remainder;
    if n - from < 1022 {
      assert (line + [b])[from..] == line[from..] + [b];
    }
  }

  /** A client's lines, each with its newline. */
  function Join(lines: seq<string>): string {
    if lines == [] then "" else Join(lines[..|lines| - 1]) + lines[|lines| - 1] + "\n"
  }

  lemma {:induction false} SplitExtend(stream: string, more: string)
    requires '\n' !in more
    ensures Split(stream + more) == Text(Split(stream).lines, Split(stream).tail + more)
    decreases |more|
  {
    if more == "" {
      assert stream + more == stream;
    } else {
      var n := |more| - 1;
      assert (stream + more)[..|stream + more| - 1] == stream + more[..n];
      SplitExtend(stream, more[..n]);
      assert more[..n] + [more[n]] == more;
    }
  }

  lemma {:induction false} SplitJoin(lines: seq<string>)
    requires forall k :: 0 <= k < |lines| ==> '\n' !in lines[k]
    ensures Split(Join(lines)) == Text(lines, "")
    decreases |lines|
  {
    if lines != [] {
      var pre, last := lines[..|lines| - 1], lines[|lines| - 1];
      SplitJoin(pre);
      SplitExtend(Join(pre), last);
      var s := Join(lines);
      assert s[..|s| - 1] == Join(pre) + last && s[|s| - 1] == '\n';
      assert "" + last == last;
      assert pre + [last] == lines;
    }
  }

  /** Lines sent one after the other are answered one after the other. */
  lemma AnswersToLines(lines: seq<string>)
    requires AllFit(lines) && forall k :: 0 <= k < |lines| ==> '\n' !in lines[k]
    ensures Commands(Join(lines)) == lines
  {
    SplitJoin(lines);
    FramingExact(Join(lines));
  }
}

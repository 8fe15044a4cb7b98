/** The client of `l8-1_client.c`, with `bulk_read` of `l8_common.h`: read a part,
    send it until it is confirmed, give up after six silent attempts. */
module UdpClient {
  import opened Wrappers
  import opened FileChunks

  const RETRIES := 5

  datatype Phase = Ready | Waiting | Finished | GaveUp

  /** `chunkNo`, `counter` and the first word of `recvbuf`, and all that was sent. */
  datatype Client = Client(chunkNo: nat, counter: nat, received: int, phase: Phase, sent: seq<Datagram>)

  const Start := Client(1, 0, 0, Ready, [])

  // ---- Specification: the steps of one client ----

  function Send(c: Client, file: seq<Byte>): Client
    requires 1 <= c.chunkNo <= ChunkCount(file)
  {
    c.(counter := c.counter + 1, phase := Waiting, sent := c.sent + [Chunk(file, c.chunkNo)])
  }

  /** The loop tests, after `sendAndConfirm` came back with a reply or with none. */
  function Judge(c: Client, file: seq<Byte>): Client {
    if c.received != c.chunkNo && c.counter <= RETRIES then c.(phase := Ready)
    else if c.received != c.chunkNo then c.(phase := GaveUp)
    else if c.chunkNo < ChunkCount(file) then
      Client(c.chunkNo + 1, 0, 0, Ready, c.sent)
    else c.(phase := Finished)
  }

  /** A reply overwrites `recvbuf`; a timeout leaves it as it was. */
  function Hear(c: Client, file: seq<Byte>, reply: Option<int>): Client {
    Judge(if reply.Some? then c.(received := reply.value) else c, file)
  }

  ghost predicate Inv(c: Client, file: seq<Byte>) {
    var m := ChunkCount(file);
    && 1 <= c.chunkNo <= m
    && c.counter <= RETRIES + 1
    && (c.phase.Ready? ==> c.counter <= RETRIES && c.received != c.chunkNo)
    && (c.phase.Waiting? ==> c.counter >= 1 && c.received != c.chunkNo)
    && (c.phase.GaveUp? ==> c.counter == RETRIES + 1 && c.received != c.chunkNo)
    && (c.phase.Finished? ==> c.chunkNo == m && c.received == m && c.counter >= 1)
    && (forall d :: d in c.sent ==> 1 <= d.chunkNo <= c.chunkNo && d == Chunk(file, d.chunkNo))
    && (forall k :: 1 <= k <= m ==>
          var times := multiset(c.sent)[Chunk(file, k)];
          if k == c.chunkNo then times == c.counter
          else if k < c.chunkNo then 1 <= times <= RETRIES + 1
          else times == 0)
  }

  lemma SendKeepsInv(c: Client, file: seq<Byte>)
    requires Inv(c, file) && c.phase.Ready?
    ensures Inv(Send(c, file), file)
  {
    var d := Chunk(file, c.chunkNo);
    assert multiset(c.sent + [d]) == multiset(c.sent) + multiset{d};
    forall k | 1 <= k <= ChunkCount(file) && k != c.chunkNo ensures Chunk(file, k) != d {
      assert Chunk(file, k).chunkNo == k;
    }
  }

  lemma HearKeepsInv(c: Client, file: seq<Byte>, reply: Option<int>)
    requires Inv(c, file) && c.phase.Waiting?
    ensures Inv(Hear(c, file, reply), file)
  {
    var c' := Hear(c, file, reply);
    if c'.chunkNo == c.chunkNo + 1 {
      var d := Chunk(file, c'.chunkNo);
      assert d !in c.sent by { assert d.chunkNo == c'.chunkNo; }
    }
  }

  /** The client after n calls of `sendAndConfirm`, call i being answered by `net(i)`. */
  function After(file: seq<Byte>, net: nat -> Option<int>, n: nat): (c: Client)
    ensures 1 <= c.chunkNo <= ChunkCount(file)
  {
    if n == 0 then Start
    else
      var c := After(file, net, n - 1);
      if c.phase.Ready? then Exchange(c, file, net(n - 1)) else c
  }

  /** One call of `sendAndConfirm` and the loop tests after it. */
  function Exchange(c: Client, file: seq<Byte>, reply: Option<int>): Client
    requires 1 <= c.chunkNo <= ChunkCount(file)
  {
    Hear(Send(c, file), file, reply)
  }

  lemma ExchangeKeepsInv(c: Client, file: seq<Byte>, reply: Option<int>)
    requires Inv(c, file) && c.phase.Ready?
    ensures Inv(Exchange(c, file, reply), file) && !Exchange(c, file, reply).phase.Waiting?
  {
    SendKeepsInv(c, file);
    HearKeepsInv(Send(c, file), file, reply);
  }

  lemma {:induction false} AfterInv(file: seq<Byte>, net: nat -> Option<int>, n: nat)
    ensures Inv(After(file, net, n), file) && !After(file, net, n).phase.Waiting?
  {
    if n == 0 {
    } else {
      AfterInv(file, net, n - 1);
      var c := After(file, net, n - 1);
      if c.phase.Ready? {
        ExchangeKeepsInv(c, file, net(n - 1));
      }
    }
  }

  // ---- The program ----

  /** The buffer with these bytes written at `at`. */
  function Patch(buf: seq<Byte>, at: nat, bytes: seq<Byte>): (buf': seq<Byte>)
    requires at + |bytes| <= |buf|
    ensures |buf'| == |buf|
  {
    buf[..at] + bytes + buf[at + |bytes|..]
  }

  /** An open file that delivers what it likes of what is asked for, or fails. */
  class InputFile {
    const data: seq<Byte>
    var pos: nat

    constructor (data: seq<Byte>)
      ensures this.data == data && pos == 0
    {
      this.data := data;
      pos := 0;
    }

    /** read(2): fails with -1, or delivers at least one byte unless at the end. */
    method Read(buf: array<Byte>, at: nat, count: nat) returns (c: int)
      requires pos <= |data| && at + count <= buf.Length
      modifies this`pos, buf
      ensures -1 <= c <= count && (c == 0 ==> count == 0 || pos == |data|)
      ensures pos == old(pos) + (if c < 0 then 0 else c) <= |data|
      ensures buf[..] == Patch(old(buf[..]), at, data[old(pos)..pos])
    {
      var left := |data| - pos;
      if * {
        c := -1;
      } else if left == 0 || count == 0 {
        c := 0;
      } else {
        c :| 1 <= c <= count && c <= left;
        forall i | 0 <= i < c { buf[at + i] := data[pos + i]; }
        pos := pos + c;
      }
    }
  }

  function Min(a: nat, b: nat): nat { if a <= b then a else b }

  /** Short reads are put together; only an error or the end of the file stops it. */
  method BulkRead(fd: InputFile, buf: array<Byte>, at: nat, count: nat) returns (len: int)
    requires fd.pos <= |fd.data| && at + count <= buf.Length
    modifies fd`pos, buf
    ensures fd.pos <= |fd.data|
    ensures len == -1 || len == Min(count, |fd.data| - old(fd.pos))
    ensures len >= 0 ==>
              && fd.pos == old(fd.pos) + len
              && buf[..] == Patch(old(buf[..]), at, fd.data[old(fd.pos)..fd.pos])
  {
    len := 0;
    var left := count;
    ghost var start, before := fd.pos, buf[..];
    hide Patch;
    while true
      invariant len >= 0 && left >= 0 && left + len == count
      invariant fd.pos == start + len <= |fd.data|
      invariant buf[..] == Patch(before, at, fd.data[start..fd.pos])
      decreases left, |fd.data| - fd.pos
    {
      ghost var was := fd.pos;
      var c := fd.Read(buf, at + len, left);
      if c < 0 { return c; }
      PatchTwice(before, at, fd.data[start..was], fd.data[was..fd.pos]);
      assert fd.data[start..fd.pos] == fd.data[start..was] + fd.data[was..fd.pos];
      if 0 == c { return len; }
      len := len + c;
      left := left - c;
      if left == 0 { return len; }
    }
  }

  lemma PatchTwice(buf: seq<Byte>, at: nat, first: seq<Byte>, second: seq<Byte>)
    requires at + |first| + |second| <= |buf|
    ensures Patch(Patch(buf, at, first), at + |first|, second) == Patch(buf, at, first + second)
  {
  }

  /** Reads the next part into a cleared buffer; -1 on a read error. */
  method ReadPart(fd: InputFile, sendbuf: array<Byte>, k: nat) returns (size: int, datagram: Datagram)
    requires sendbuf.Length == MAXBUF
    requires 1 <= k <= ChunkCount(fd.data) && fd.pos == (k - 1) * PART <= |fd.data|
    modifies fd`pos, sendbuf
    ensures -1 <= size <= PART
    ensures size >= 0 ==> datagram == Chunk(fd.data, k) && (size == PART <==> k < ChunkCount(fd.data))
    ensures size == PART ==> fd.pos == k * PART <= |fd.data|
  {
    forall i | 0 <= i < MAXBUF { sendbuf[i] := 0; }
    assert sendbuf[..] == Zeros(MAXBUF);
    var last := 0;
    size := BulkRead(fd, sendbuf, OFFSET, MAXBUF - OFFSET);
    if size >= 0 {
      ghost var part := PartOf(fd.data, k);
      assert sendbuf[OFFSET..] == part + Zeros(PART - size);
      if size < MAXBUF - OFFSET {
        forall i | OFFSET + size <= i < MAXBUF { sendbuf[i] := 0; }
        assert sendbuf[OFFSET..] == part + Zeros(PART - size);
        last := 1;
      }
    }
    datagram := Datagram(k, last, sendbuf[OFFSET..]);
  }

  /** The inner loop: send the part until it is confirmed, or six times. */
  method SendUntilConfirmed(chunkNo: nat, datagram: Datagram, log: seq<Datagram>,
                            ghost file: seq<Byte>, net: nat -> Option<int>, before: nat)
      returns (counter: nat, received: int, sent: seq<Datagram>, calls: nat)
    requires 1 <= chunkNo <= ChunkCount(file) && datagram == Chunk(file, chunkNo)
    requires After(file, net, before) == Client(chunkNo, 0, 0, Ready, log)
    ensures counter == calls - before <= RETRIES + 1
    ensures received != chunkNo ==> counter == RETRIES + 1
    ensures After(file, net, calls) ==
            (if received != chunkNo then Client(chunkNo, counter, received, GaveUp, sent)
             else if chunkNo < ChunkCount(file) then Client(chunkNo + 1, 0, 0, Ready, sent)
             else Client(chunkNo, counter, received, Finished, sent))
  {
    counter, received, sent, calls := 0, 0, log, before;
    while true
      invariant After(file, net, calls) == Client(chunkNo, counter, received, Ready, sent)
      invariant counter == calls - before <= RETRIES
      decreases RETRIES - counter
    {
      ghost var now := After(file, net, calls);
      counter := counter + 1;
      sent := sent + [datagram];
      var reply := net(calls);
      calls := calls + 1;
      if reply.Some? { received := reply.value; }
      assert After(file, net, calls) == Exchange(now, file, reply);
      if !(received != chunkNo && counter <= RETRIES) { break; }
    }
  }

  /** `doClient`.  `net(i)` is what the i-th `sendAndConfirm` hears.  The result is
      the client after as many exchanges as were made; `None` on a read error. */
  method DoClient(fd: InputFile, net: nat -> Option<int>) returns (r: Option<Client>, calls: nat)
    requires fd.pos == 0
    modifies fd`pos
    ensures r.Some? ==> r.value == After(fd.data, net, calls)
    ensures r.Some? ==> r.value.phase.Finished? || r.value.phase.GaveUp?
    ensures calls <= (RETRIES + 1) * ChunkCount(fd.data)
  {
    ghost var file := fd.data;
    var sendbuf := new Byte[MAXBUF];
    var chunkNo: nat, log: seq<Datagram> := 1, [];
    calls := 0;
    while true
      invariant After(file, net, calls) == Client(chunkNo, 0, 0, Ready, log)
      invariant 1 <= chunkNo <= ChunkCount(file) && fd.pos == (chunkNo - 1) * PART <= |file|
      invariant calls <= (RETRIES + 1) * (chunkNo - 1)
      invariant fresh(sendbuf) && sendbuf.Length == MAXBUF
      decreases ChunkCount(file) - chunkNo
    {
      var size, datagram := ReadPart(fd, sendbuf, chunkNo);
      if size < 0 { return None, calls; }
      var counter, received, sent;
      counter, received, sent, calls := SendUntilConfirmed(
        chunkNo, datagram, log, file, net, calls);
      if received != chunkNo && counter > RETRIES {
        return Some(Client(chunkNo, counter, received, GaveUp, sent)), calls;
      }
      if size != MAXBUF - OFFSET {
        return Some(Client(chunkNo, counter, received, Finished, sent)), calls;
      }
      log := sent;
      chunkNo := chunkNo + 1;
    }
  }

  /** For any network: every part is sent at most six times, none before the
      earlier ones were confirmed, the last part is the only one flagged last,
      and the client gives up only after six attempts at one part. */
  lemma WhatIsSent(file: seq<Byte>, net: nat -> Option<int>, n: nat)
    ensures var c := After(file, net, n);
            && (forall d :: d in c.sent ==> 1 <= d.chunkNo <= c.chunkNo && d == Chunk(file, d.chunkNo))
            && (forall d :: d in c.sent ==> (d.last == 1 <==> d.chunkNo == ChunkCount(file)))
            && (forall k :: 1 <= k <= ChunkCount(file) ==> multiset(c.sent)[Chunk(file, k)] <= RETRIES + 1)
            && (c.phase.Finished? ==>
                  forall k :: 1 <= k <= ChunkCount(file) ==> multiset(c.sent)[Chunk(file, k)] >= 1)
            && (c.phase.GaveUp? ==> multiset(c.sent)[Chunk(file, c.chunkNo)] == RETRIES + 1)
  {
    AfterInv(file, net, n);
    var c := After(file, net, n);
    forall d | d in c.sent ensures d.last == 1 <==> d.chunkNo == ChunkCount(file) {
      OneLastPart(file, d.chunkNo);
    }
  }

  // ---- When is a sixth attempt made? ----

  function NoReply(i: nat): Option<int> { None }

  lemma AfterNext(file: seq<Byte>, net: nat -> Option<int>, n: nat)
    ensures var c := After(file, net, n);
            After(file, net, n + 1) == if c.phase.Ready? then Exchange(c, file, net(n)) else c
  {
  }

  /** One attempt at the current part: confirmed, to be repeated, or the last one. */
  lemma Attempt(c: Client, file: seq<Byte>, reply: Option<int>)
    requires 1 <= c.chunkNo <= ChunkCount(file) && c.phase.Ready? && c.counter <= RETRIES && c.received != c.chunkNo
    ensures var c', k := Exchange(c, file, reply), c.chunkNo;
            && c'.sent == c.sent + [Chunk(file, k)]
            && (reply == Some(k) ==>
                  (c'.phase.Finished? && c'.chunkNo == k) || (c'.phase.Ready? && c'.chunkNo == k + 1))
            && (reply != Some(k) ==>
                  && c'.chunkNo == k && c'.counter == c.counter + 1 && c'.received != k
                  && c'.phase == if c.counter < RETRIES then Ready else GaveUp)
  {
  }

  lemma OneMore(sent: seq<Datagram>, part: Datagram, d: Datagram)
    ensures multiset(sent + [part])[d] == multiset(sent)[d] + if part == d then 1 else 0
  {
    assert multiset(sent + [part]) == multiset(sent) + multiset{part};
  }

  /** The documented five tries are six: a silent network sees the first part six times. */
  lemma SilentNetwork(file: seq<Byte>)
    ensures var c := After(file, NoReply, 6);
            c.phase.GaveUp? && c.chunkNo == 1 && multiset(c.sent)[Chunk(file, 1)] == 6
  {
    assert TurnsTo(file, NoReply, 0, 1);
    hide After, Exchange;
    SixthAttemptMade(file, NoReply, 0, 1);
  }

  /** The client turns to part k with its n-th exchange. */
  ghost predicate TurnsTo(file: seq<Byte>, net: nat -> Option<int>, n: nat, k: nat) {
    var c := After(file, net, n);
    c.phase.Ready? && c.chunkNo == k && c.counter == 0
  }

  /** None of the first t exchanges about part k confirmed it. */
  predicate Unconfirmed(net: nat -> Option<int>, n: nat, k: nat, t: nat) {
    forall i :: n <= i < n + t ==> net(i) != Some(k)
  }

  /** Up to the fifth exchange the client stays with an unconfirmed part. */
  lemma {:induction false} StaysUnconfirmed(file: seq<Byte>, net: nat -> Option<int>, n: nat, k: nat, t: nat)
    requires TurnsTo(file, net, n, k) && t <= RETRIES && Unconfirmed(net, n, k, t)
    ensures 1 <= k <= ChunkCount(file)
    ensures var c := After(file, net, n + t);
            && c.phase.Ready? && c.chunkNo == k && c.counter == t && c.received != k
            && multiset(c.sent)[Chunk(file, k)] == t
  {
    hide After, Exchange, Chunk;
    CurrentCount(file, net, n + t);
    if t > 0 {
      var last := n + t - 1;
      StaysUnconfirmed(file, net, n, k, t - 1);
      AfterNext(file, net, last);
      Attempt(After(file, net, last), file, net(last));
    }
  }

  /** `counter` is how often the current part has been sent. */
  lemma CurrentCount(file: seq<Byte>, net: nat -> Option<int>, n: nat)
    ensures var c := After(file, net, n);
            && 1 <= c.chunkNo <= ChunkCount(file)
            && multiset(c.sent)[Chunk(file, c.chunkNo)] == c.counter
            && (c.phase.Ready? ==> c.received != c.chunkNo)
  {
    AfterInv(file, net, n);
  }

  /** Once confirmed, a part is never sent again. */
  lemma {:induction false} NotSentAgain(file: seq<Byte>, net: nat -> Option<int>, n: nat, later: nat, d: Datagram)
    requires n <= later && var c := After(file, net, n); !c.phase.Ready? || c.chunkNo > d.chunkNo
    ensures var c := After(file, net, later);
            && (!c.phase.Ready? || c.chunkNo > d.chunkNo)
            && multiset(c.sent)[d] == multiset(After(file, net, n).sent)[d]
    decreases later - n
  {
    if n < later {
      NotSentAgain(file, net, n, later - 1, d);
      AfterNext(file, net, later - 1);
      var c := After(file, net, later - 1);
      if c.phase.Ready? {
        OneMore(c.sent, Chunk(file, c.chunkNo), d);
      }
    }
  }

  /** The exchange that confirms part k leaves as many copies of it sent as exchanges were made. */
  lemma ConfirmedAt(file: seq<Byte>, net: nat -> Option<int>, n: nat, k: nat, t: nat)
    requires TurnsTo(file, net, n, k) && t < RETRIES && Unconfirmed(net, n, k, t) && net(n + t) == Some(k)
    ensures 1 <= k <= ChunkCount(file)
    ensures var c := After(file, net, n + t + 1);
            (!c.phase.Ready? || c.chunkNo > k) && multiset(c.sent)[Chunk(file, k)] == t + 1
  {
    hide After, Exchange, Chunk;
    StaysUnconfirmed(file, net, n, k, t);
    AfterNext(file, net, n + t);
    var c := After(file, net, n + t);
    Attempt(c, file, net(n + t));
    OneMore(c.sent, Chunk(file, k), Chunk(file, k));
  }

  lemma {:induction false} FirstConfirmation(net: nat -> Option<int>, n: nat, k: nat, t: nat) returns (i: nat)
    requires !Unconfirmed(net, n, k, t)
    ensures i < t && Unconfirmed(net, n, k, i) && net(n + i) == Some(k)
  {
    if Unconfirmed(net, n, k, t - 1) {
      i := t - 1;
    } else {
      i := FirstConfirmation(net, n, k, t - 1);
    }
  }

  /** After five exchanges without confirmation there is a sixth, and no seventh about this part. */
  lemma SixthAttemptMade(file: seq<Byte>, net: nat -> Option<int>, n: nat, k: nat)
    requires TurnsTo(file, net, n, k) && Unconfirmed(net, n, k, RETRIES)
    ensures 1 <= k <= ChunkCount(file)
    ensures var c := After(file, net, n + RETRIES + 1);
            && multiset(c.sent)[Chunk(file, k)] == 6
            && (if net(n + RETRIES) == Some(k) then !c.phase.Ready? || c.chunkNo > k
                else c.phase.GaveUp? && c.chunkNo == k)
  {
    hide After, Exchange, Chunk;
    StaysUnconfirmed(file, net, n, k, RETRIES);
    AfterNext(file, net, n + RETRIES);
    var c := After(file, net, n + RETRIES);
    Attempt(c, file, net(n + RETRIES));
    OneMore(c.sent, Chunk(file, k), Chunk(file, k));
  }

  /** A part is sent a sixth time, at whatever later time one looks, if and only if none
      of the first five exchanges about it brought its confirmation. */
  lemma SixthAttemptExactly(file: seq<Byte>, net: nat -> Option<int>, n: nat, k: nat, later: nat)
    requires TurnsTo(file, net, n, k) && later >= n + RETRIES + 1
    ensures 1 <= k <= ChunkCount(file)
    ensures multiset(After(file, net, later).sent)[Chunk(file, k)] == 6 <==> Unconfirmed(net, n, k, RETRIES)
  {
    hide After, Exchange;
    if Unconfirmed(net, n, k, RETRIES) {
      SixthAttemptMade(file, net, n, k);
      NotSentAgain(file, net, n + RETRIES + 1, later, Chunk(file, k));
    } else {
      var t := FirstConfirmation(net, n, k, RETRIES);
      ConfirmedAt(file, net, n, k, t);
      NotSentAgain(file, net, n + t + 1, later, Chunk(file, k));
    }
  }
}

/** The server of `l8-1_server.c`: a table of five connections, one expected
    part number per client address, and an echo of what it received. */
module UdpServer {
  import opened FileChunks
  import opened Modular

  const MAXADDR := 5

  datatype Slot = Slot(free: bool, chunkNo: int, addr: Addr)

  /** A part written to the terminal, with the address it came from. */
  datatype Print = Print(addr: Addr, part: Datagram)

  datatype State = State(con: seq<Slot>, printed: seq<Print>)

  // ---- Specification ----

  predicate Holds(slot: Slot, a: Addr) { !slot.free && slot.addr == a }

  /** The first slot in use by `a`, or -1. */
  function Lookup(con: seq<Slot>, a: Addr): (i: int)
    ensures -1 <= i < |con|
    ensures i >= 0 ==> Holds(con[i], a)
    ensures forall k :: 0 <= k < (if i >= 0 then i else |con|) ==> !Holds(con[k], a)
  {
    if con == [] then -1
    else
      var i := Lookup(con[..|con| - 1], a);
      if i >= 0 then i
      else if Holds(con[|con| - 1], a) then |con| - 1
      else -1
  }

  /** The last free slot, or -1. */
  function LastFree(con: seq<Slot>): (i: int)
    ensures -1 <= i < |con|
    ensures i >= 0 ==> con[i].free
    ensures forall k :: i < k < |con| ==> !con[k].free
  {
    if con == [] then -1
    else if con[|con| - 1].free then |con| - 1
    else LastFree(con[..|con| - 1])
  }

  /** There is a slot for `a`, its own or a free one. */
  predicate HasRoom(con: seq<Slot>, a: Addr) { Lookup(con, a) >= 0 || LastFree(con) >= 0 }

  /** The slot that serves `a` once `findIndex` has run. */
  function SlotFor(con: seq<Slot>, a: Addr): (i: nat)
    requires HasRoom(con, a)
    ensures i < |con|
  {
    if Lookup(con, a) >= 0 then Lookup(con, a) else LastFree(con)
  }

  /** The table after `findIndex`. */
  function Claim(con: seq<Slot>, a: Addr): (con': seq<Slot>)
    ensures |con'| == |con|
  {
    if Lookup(con, a) >= 0 || LastFree(con) < 0 then con
    else con[LastFree(con) := Slot(false, 0, a)]
  }

  /** The last part number accepted for `a`'s current copy, 0 if there is none. */
  function Live(con: seq<Slot>, a: Addr): int {
    if Lookup(con, a) >= 0 then con[Lookup(con, a)].chunkNo else 0
  }

  /** The datagram is the next part of `a`'s copy and there is a slot for it. */
  predicate Accepts(s: State, a: Addr, d: Datagram) {
    HasRoom(s.con, a) && d.chunkNo == Live(s.con, a) + 1
  }

  /** The datagram is echoed: accepted just now, or at an earlier time. */
  predicate Echoes(s: State, a: Addr, d: Datagram) {
    HasRoom(s.con, a) && d.chunkNo <= Live(s.con, a) + 1
  }

  /** One turn of the loop of `doServer`. */
  function Receive(s: State, a: Addr, d: Datagram): State {
    var con := Claim(s.con, a);
    if Accepts(s, a, d) then
      State(con[SlotFor(s.con, a) := Slot(d.last != 0, d.chunkNo, a)], s.printed + [Print(a, d)])
    else s.(con := con)
  }

  // ---- The program ----

  class Server {
    const con: array<Slot>
    var printed: seq<Print>

    constructor ()
      ensures fresh(con) && con.Length == 5 && printed == []
      ensures forall k :: 0 <= k < 5 ==> con[k].free
    {
      con := new Slot[MAXADDR](_ => Slot(true, 0, 0));
      printed := [];
    }

    ghost function View(): State reads this, con { State(con[..], printed) }

    method FindIndex(addr: Addr) returns (pos: int)
      modifies con
      ensures con[..] == Claim(old(con[..]), addr)
      ensures pos == if HasRoom(old(con[..]), addr) then SlotFor(old(con[..]), addr) else -1
    {
      var empty := -1;
      pos := -1;
      var i := 0;
      while i < con.Length
        invariant 0 <= i <= con.Length && pos == -1
        invariant forall k :: 0 <= k < i ==> !Holds(con[k], addr)
        invariant -1 <= empty < i && (empty >= 0 ==> con[empty].free)
        invariant forall k :: empty < k < i ==> !con[k].free
      {
        if con[i].free {
          empty := i;
        } else if addr == con[i].addr {
          pos := i;
          break;
        }
        i := i + 1;
      }
      assert Lookup(con[..], addr) == pos by {
        FirstHit(con[..], addr, pos);
      }
      if pos == -1 {
      }
      if -1 == pos && empty != -1 {
        con[empty] := Slot(false, 0, addr);
        pos := empty;
      }
    }

    /** `reply` tells whether the datagram is sent back. */
    method Serve(addr: Addr, buf: Datagram) returns (reply: bool)
      modifies this`printed, con
      ensures View() == Receive(old(View()), addr, buf)
      ensures reply == Echoes(old(View()), addr, buf)
    {
      reply := false;
      var index := FindIndex(addr);
      if index >= 0 {
        var chunkNo := buf.chunkNo;
        if chunkNo > con[index].chunkNo + 1 {
          return;
        } else if chunkNo == con[index].chunkNo + 1 {
          if buf.last != 0 {
            printed := printed + [Print(addr, buf)];
            con[index] := con[index].(free := true);
          } else {
            printed := printed + [Print(addr, buf)];
          }
          con[index] := con[index].(chunkNo := con[index].chunkNo + 1);
        }
        reply := true;
      }
    }
  }

  lemma FirstHit(con: seq<Slot>, a: Addr, pos: int)
    requires -1 <= pos < |con| && (pos >= 0 ==> Holds(con[pos], a))
    requires forall k :: 0 <= k < (if pos >= 0 then pos else |con|) ==> !Holds(con[k], a)
    ensures Lookup(con, a) == pos
  {
  }

  /** Accepting a last part leaves a free slot. */
  lemma LastPartFreesSlot(s: State, a: Addr, d: Datagram)
    requires Accepts(s, a, d) && d.last != 0
    ensures LastFree(Receive(s, a, d).con) >= 0
  {
    assert Receive(s, a, d).con[SlotFor(s.con, a)].free;
  }

  // ---- What the server has printed ----

  /** The parts printed for one client, in order. */
  function Accepted(printed: seq<Print>, a: Addr): seq<Datagram> {
    if printed == [] then []
    else
      var rest := Accepted(printed[..|printed| - 1], a);
      var p := printed[|printed| - 1];
      if p.addr == a then rest + [p.part] else rest
  }

  /** The parts that the client at each address may send. */
  type Files = Addr -> seq<Byte>

  predicate PartOfFile(file: seq<Byte>, d: Datagram) {
    1 <= d.chunkNo <= ChunkCount(file) && d == Chunk(file, d.chunkNo)
  }

  ghost predicate TableInv(con: seq<Slot>, files: Files) {
    && (forall i, j :: 0 <= i < j < |con| && !con[i].free && !con[j].free ==> con[i].addr != con[j].addr)
    && (forall i :: 0 <= i < |con| && !con[i].free ==>
          0 <= con[i].chunkNo < ChunkCount(files(con[i].addr)))
  }

  ghost predicate Inv(s: State, files: Files) {
    && TableInv(s.con, files)
    && forall a :: Cyclic(Accepted(s.printed, a), Chunks(files(a)), Live(s.con, a))
  }

  lemma ReceiveKeepsTable(s: State, files: Files, a: Addr, d: Datagram)
    requires TableInv(s.con, files) && PartOfFile(files(a), d)
    ensures TableInv(Receive(s, a, d).con, files)
  {
  }

  /** How one datagram moves the expected part numbers of all clients. */
  lemma ReceiveMovesLive(s: State, files: Files, a: Addr, d: Datagram, b: Addr)
    requires TableInv(s.con, files) && PartOfFile(files(a), d)
    ensures Live(Receive(s, a, d).con, b) ==
            if b == a && Accepts(s, a, d) then (if d.last != 0 then 0 else d.chunkNo) else Live(s.con, b)
  {
    var con' := Receive(s, a, d).con;
    var i := Lookup(s.con, b);
    if b != a {
      FirstHit(con', b, i);
    } else if HasRoom(s.con, a) {
      var j := SlotFor(s.con, a);
      FirstHit(con', a, if Accepts(s, a, d) && d.last != 0 then -1 else j);
    }
  }

  lemma ReceiveKeepsInv(s: State, files: Files, a: Addr, d: Datagram)
    requires Inv(s, files) && PartOfFile(files(a), d)
    ensures Inv(Receive(s, a, d), files)
  {
    var s' := Receive(s, a, d);
    ReceiveKeepsTable(s, files, a, d);
    forall b ensures Cyclic(Accepted(s'.printed, b), Chunks(files(b)), Live(s'.con, b)) {
      ReceiveMovesLive(s, files, a, d, b);
      assert Cyclic(Accepted(s.printed, b), Chunks(files(b)), Live(s.con, b));
      if Accepts(s, a, d) {
        assert s'.printed[..|s'.printed| - 1] == s.printed;
        if a == b {
          CyclicStep(Accepted(s.printed, a), Chunks(files(a)), Live(s.con, a));
          OneLastPart(files(a), d.chunkNo);
        }
      }
    }
  }

  datatype Input = Input(addr: Addr, d: Datagram)

  ghost predicate Init(s: State) {
    s.printed == [] && |s.con| == MAXADDR && forall k :: 0 <= k < |s.con| ==> s.con[k].free
  }

  /** The server after any number of datagrams. */
  function After(s: State, inputs: seq<Input>): State {
    if inputs == [] then s
    else
      var last := inputs[|inputs| - 1];
      Receive(After(s, inputs[..|inputs| - 1]), last.addr, last.d)
  }

  /** Lost, repeated and reordered, but neither forged nor damaged: every
      datagram is one of the parts its sender may send. */
  predicate Genuine(inputs: seq<Input>, files: Files) {
    forall k :: 0 <= k < |inputs| ==> PartOfFile(files(inputs[k].addr), inputs[k].d)
  }

  lemma {:induction false} ServeInv(s: State, inputs: seq<Input>, files: Files)
    requires Init(s) && Genuine(inputs, files)
    ensures Inv(After(s, inputs), files)
    decreases |inputs|
  {
    if inputs == [] {
    } else {
      ServeInv(s, inputs[..|inputs| - 1], files);
      var last := inputs[|inputs| - 1];
      ReceiveKeepsInv(After(s, inputs[..|inputs| - 1]), files, last.addr, last.d);
    }
  }

  /** The whole transcript: what is printed for a client is a number of complete
      copies of its parts, then parts 1..c of the copy its slot stands for. */
  lemma Transcript(s: State, inputs: seq<Input>, files: Files, a: Addr)
    requires Init(s) && Genuine(inputs, files)
    ensures var parts := Chunks(files(a));
            var acc := Accepted(After(s, inputs).printed, a);
            var c := Live(After(s, inputs).con, a);
            && 0 <= c < |parts|
            && acc == Repeat(parts, |acc| / |parts|) + parts[..c]
  {
    ServeInv(s, inputs, files);
    CyclicIsRepeat(Accepted(After(s, inputs).printed, a), Chunks(files(a)), Live(After(s, inputs).con, a));
  }

  /** A sixth client is ignored while all slots serve others. */
  lemma SixthClientIgnored(s: State, a: Addr, d: Datagram)
    requires forall k :: 0 <= k < |s.con| ==> !s.con[k].free && s.con[k].addr != a
    ensures Receive(s, a, d) == s && !Echoes(s, a, d)
  {
  }

  // ---- Is a part ever printed twice? ----

  ghost predicate PrintedTwice(printed: seq<Print>, a: Addr) {
    var acc := Accepted(printed, a);
    exists i, j :: 0 <= i < j < |acc| && acc[i] == acc[j]
  }

  predicate Complete(s: State, file: seq<Byte>, a: Addr) {
    |Accepted(s.printed, a)| >= ChunkCount(file)
  }

  /** A copy of `a`'s first part, with a slot to be had, after `a`'s last was accepted. */
  predicate Reopens(s: State, file: seq<Byte>, a: Addr, input: Input) {
    input.addr == a && input.d.chunkNo == 1 && Complete(s, file, a) && HasRoom(s.con, a)
  }

  ghost predicate RestartsAt(s: State, inputs: seq<Input>, file: seq<Byte>, a: Addr, t: nat) {
    t < |inputs| && Reopens(After(s, inputs[..t]), file, a, inputs[t])
  }

  ghost predicate Restarts(s: State, inputs: seq<Input>, file: seq<Byte>, a: Addr) {
    exists t :: RestartsAt(s, inputs, file, a, t)
  }

  lemma TwiceMeansMore(acc: seq<Datagram>, file: seq<Byte>, at: int)
    requires Cyclic(acc, Chunks(file), at)
    ensures (exists i, j :: 0 <= i < j < |acc| && acc[i] == acc[j]) <==> |acc| > ChunkCount(file)
  {
    var parts := Chunks(file);
    var m := |parts|;
    if |acc| > m {
      ModUnique(0, m, 0, 0);
      ModUnique(m, m, 1, 0);
      assert acc[0] == acc[m];
    } else {
      forall i, j | 0 <= i < j < |acc| ensures acc[i] != acc[j] {
        ModUnique(i, m, 0, i);
        ModUnique(j, m, 0, j);
        assert acc[i].chunkNo == i + 1 && acc[j].chunkNo == j + 1;
      }
    }
  }

  /** The step that makes the transcript longer than one copy is a reopening one. */
  lemma StepBeyondOneCopy(s: State, files: Files, a: Addr, input: Input)
    requires Inv(s, files) && PartOfFile(files(input.addr), input.d)
    ensures var before := |Accepted(s.printed, a)|;
            var after := |Accepted(Receive(s, input.addr, input.d).printed, a)|;
            var m := ChunkCount(files(a));
            && before <= after
            && (before <= m ==> (after > m <==> Reopens(s, files(a), a, input)))
  {
    var m := ChunkCount(files(a));
    assert Cyclic(Accepted(s.printed, a), Chunks(files(a)), Live(s.con, a));
    ModUnique(m, m, 1, 0);
    var s' := Receive(s, input.addr, input.d);
    if Accepts(s, input.addr, input.d) {
      assert s'.printed[..|s'.printed| - 1] == s.printed;
    }
  }

  lemma RestartsSplit(s: State, inputs: seq<Input>, file: seq<Byte>, a: Addr)
    requires inputs != []
    ensures var n := |inputs| - 1;
            Restarts(s, inputs, file, a) <==> Restarts(s, inputs[..n], file, a) || RestartsAt(s, inputs, file, a, n)
  {
    var n := |inputs| - 1;
    var pre := inputs[..n];
    forall t: nat | t < n ensures RestartsAt(s, inputs, file, a, t) <==> RestartsAt(s, pre, file, a, t) {
      assert inputs[..t] == pre[..t];
    }
  }

  lemma {:induction false} MoreMeansRestart(s: State, inputs: seq<Input>, files: Files, a: Addr)
    requires Init(s) && Genuine(inputs, files)
    ensures |Accepted(After(s, inputs).printed, a)| > ChunkCount(files(a)) <==> Restarts(s, inputs, files(a), a)
    decreases |inputs|
  {
    if inputs != [] {
      var n := |inputs| - 1;
      var pre := inputs[..n];
      RestartsSplit(s, inputs, files(a), a);
      assert Genuine(pre, files) && PartOfFile(files(inputs[n].addr), inputs[n].d);
      MoreMeansRestart(s, pre, files, a);
      ServeInv(s, pre, files);
      StepBeyondOneCopy(After(s, pre), files, a, inputs[n]);
      assert RestartsAt(s, inputs, files(a), a, n) <==> Reopens(After(s, pre), files(a), a, inputs[n]);
    }
  }

  /** "Server can not print the same part of the file more than once" is not kept.
      It fails exactly when a copy of a client's first part is delivered, with a
      slot to be had, after the client's last part was accepted. */
  lemma ReprintsExactlyWhenRestarted(s: State, inputs: seq<Input>, files: Files, a: Addr)
    requires Init(s) && Genuine(inputs, files)
    ensures PrintedTwice(After(s, inputs).printed, a) <==> Restarts(s, inputs, files(a), a)
  {
    ServeInv(s, inputs, files);
    MoreMeansRestart(s, inputs, files, a);
    TwiceMeansMore(Accepted(After(s, inputs).printed, a), files(a), Live(After(s, inputs).con, a));
  }

  /** The smallest such run: the only part of an empty file, delivered twice. */
  lemma EmptyFilePrintedTwice(s: State, a: Addr)
    requires Init(s)
    ensures var d := Chunk([], 1);
            PrintedTwice(After(s, [Input(a, d), Input(a, d)]).printed, a)
  {
    var d := Chunk([], 1);
    var one := Receive(s, a, d);
    var two := Receive(one, a, d);
    AfterTwo(s, Input(a, d), Input(a, d));
    FirstPartPrinted(s, a, d);
    FirstPartPrinted(one, a, d);
    assert two.printed == [Print(a, d), Print(a, d)];
    assert two.printed[..1] == [Print(a, d)] && one.printed[..0] == [];
    assert Accepted(one.printed, a) == [d];
    var acc := Accepted(two.printed, a);
    assert acc == [d] + [d] && acc[0] == acc[1];
  }

  /** A first part that is also the last frees the slot it has claimed. */
  lemma FirstPartPrinted(s: State, a: Addr, d: Datagram)
    requires d.chunkNo == 1 && d.last == 1 && |s.con| > 0 && forall k :: 0 <= k < |s.con| ==> s.con[k].free
    ensures var s' := Receive(s, a, d);
            && s'.printed == s.printed + [Print(a, d)]
            && |s'.con| == |s.con| && forall k :: 0 <= k < |s'.con| ==> s'.con[k].free
  {
    assert s.con[|s.con| - 1].free;
  }

  lemma AfterTwo(s: State, first: Input, second: Input)
    ensures After(s, [first, second]) == Receive(Receive(s, first.addr, first.d), second.addr, second.d)
  {
    assert [first, second][..1] == [first] && [first][..0] == [];
    assert After(s, [first]) == Receive(s, first.addr, first.d);
  }
}

/** Clients, server and network together.  Either way the network may deliver a
    datagram late, in any order and any number of times, or lose it. */
module UdpTransfer {
  import opened Wrappers
  import opened Traces
  import opened Modular
  import opened FileChunks
  import Server = UdpServer
  import Client = UdpClient

  datatype State = State(
    server: Server.State,
    clients: map<Addr, Client.Client>,
    toServer: set<Server.Input>,
    toClients: set<Server.Input>)

  datatype Action =
    | Send(a: Addr)                     // client a sends its current part
    | Confirm(a: Addr, d: Datagram)     // a reply is delivered to client a
    | Timeout(a: Addr)                  // client a's half second is over
    | Deliver(a: Addr, d: Datagram)     // a part from client a is delivered to the server
    | LosePart(a: Addr, d: Datagram)    // the network drops its copies of a part from client a
    | LoseReply(a: Addr, d: Datagram)   // the network drops its copies of a reply to client a

  function WithClient(s: State, a: Addr, c: Client.Client): State {
    s.(clients := s.clients[a := c])
  }

  /** `files` is what the clients at each address have to send. */
  function Apply(files: Server.Files, s: State, act: Action): Option<State> {
    match act
    case Send(a) =>
      if a in s.clients && s.clients[a].phase.Ready? && 1 <= s.clients[a].chunkNo <= ChunkCount(files(a)) then
        var d := Chunk(files(a), s.clients[a].chunkNo);
        Some(WithClient(s, a, Client.Send(s.clients[a], files(a)))
             .(toServer := s.toServer + {Server.Input(a, d)}))
      else None
    case Confirm(a, d) =>
      if a in s.clients && s.clients[a].phase.Waiting? && Server.Input(a, d) in s.toClients then
        Some(WithClient(s, a, Client.Hear(s.clients[a], files(a), Some(d.chunkNo))))
      else None
    case Timeout(a) =>
      if a in s.clients && s.clients[a].phase.Waiting? then
        Some(WithClient(s, a, Client.Hear(s.clients[a], files(a), None)))
      else None
    case Deliver(a, d) =>
      if Server.Input(a, d) in s.toServer then
        Some(s.(server := Server.Receive(s.server, a, d),
                toClients := if Server.Echoes(s.server, a, d) then s.toClients + {Server.Input(a, d)} else s.toClients))
      else None
    case LosePart(a, d) =>
      if Server.Input(a, d) in s.toServer then Some(s.(toServer := s.toServer - {Server.Input(a, d)})) else None
    case LoseReply(a, d) =>
      if Server.Input(a, d) in s.toClients then Some(s.(toClients := s.toClients - {Server.Input(a, d)})) else None
  }

  function Step(files: Server.Files): (State, Action) -> Option<State> {
    (s: State, act: Action) => Apply(files, s, act)
  }

  ghost predicate Init(s: State) {
    && Server.Init(s.server) && s.toServer == {} && s.toClients == {}
    && forall a :: a in s.clients ==> s.clients[a] == Client.Start
  }

  /** How many parts the server has printed for client a. */
  function Progress(s: State, a: Addr): nat { |Server.Accepted(s.server.printed, a)| }

  // ---- Invariant ----

  ghost predicate ClientInv(s: State, files: Server.Files, a: Addr)
    requires a in s.clients
  {
    var c := s.clients[a];
    && Client.Inv(c, files(a))
    && c.chunkNo - 1 <= Progress(s, a)
    && (c.received == c.chunkNo ==> c.chunkNo <= Progress(s, a))
    && (c.chunkNo < ChunkCount(files(a)) ==> Progress(s, a) <= c.chunkNo)
  }

  /** A part on its way has been sent by a client that has come that far. */
  predicate PartInv(s: State, files: Server.Files, i: Server.Input) {
    && Server.PartOfFile(files(i.addr), i.d)
    && i.addr in s.clients && i.d.chunkNo <= s.clients[i.addr].chunkNo
  }

  /** A reply to part k is on its way only if k parts have been printed. */
  predicate ReplyInv(s: State, files: Server.Files, i: Server.Input) {
    Server.PartOfFile(files(i.addr), i.d) && i.d.chunkNo <= Progress(s, i.addr)
  }

  ghost predicate Inv(s: State, files: Server.Files) {
    && Server.Inv(s.server, files)
    && (forall i {:trigger PartInv(s, files, i)} :: i in s.toServer ==> PartInv(s, files, i))
    && (forall i {:trigger ReplyInv(s, files, i)} :: i in s.toClients ==> ReplyInv(s, files, i))
    && (forall a :: a in s.clients ==> ClientInv(s, files, a))
  }

  lemma ReceiveMovesProgress(s: State, files: Server.Files, a: Addr, d: Datagram, b: Addr)
    requires Server.Inv(s.server, files) && Server.PartOfFile(files(a), d)
    ensures var s' := s.(server := Server.Receive(s.server, a, d));
            && Progress(s', b) >= Progress(s, b)
            && (Server.Echoes(s.server, a, d) ==> Progress(s', a) >= d.chunkNo)
            && (Progress(s', b) > Progress(s, b) ==>
                  b == a && Progress(s', b) == Progress(s, b) + 1 && Server.Echoes(s.server, a, d) &&
                  (Progress(s, b) < ChunkCount(files(b)) ==> d.chunkNo == Progress(s, b) + 1))
  {
    var s' := s.(server := Server.Receive(s.server, a, d));
    var acc := Server.Accepted(s.server.printed, a);
    assert Cyclic(acc, Chunks(files(a)), Server.Live(s.server.con, a));
    LiveAtMostLength(acc, Chunks(files(a)), Server.Live(s.server.con, a));
    if |acc| < ChunkCount(files(a)) { ModUnique(|acc|, ChunkCount(files(a)), 0, |acc|); }
    if Server.Accepts(s.server, a, d) {
      assert s'.server.printed[..|s'.server.printed| - 1] == s.server.printed;
    }
  }

  lemma LiveAtMostLength(acc: seq<Datagram>, parts: seq<Datagram>, at: int)
    requires Cyclic(acc, parts, at)
    ensures 0 <= at <= |acc|
  {
    assert |acc| == (|acc| / |parts|) * |parts| + at;
  }

  lemma DeliverKeepsInv(s: State, files: Server.Files, a: Addr, d: Datagram)
    requires Inv(s, files) && Apply(files, s, Deliver(a, d)).Some?
    ensures Inv(Apply(files, s, Deliver(a, d)).value, files)
  {
    hide Server.Receive, Server.Accepted, Server.Inv, Chunk, ClientInv, ReplyInv;
    var s' := Apply(files, s, Deliver(a, d)).value;
    assert PartInv(s, files, Server.Input(a, d));
    Server.ReceiveKeepsInv(s.server, files, a, d);
    forall b | b in s'.clients ensures ClientInv(s', files, b) {
      DeliverKeepsClient(s, files, a, d, b);
    }
    forall i | i in s'.toClients ensures ReplyInv(s', files, i) {
      DeliverKeepsReply(s, files, a, d, i);
    }
    forall i | i in s'.toServer ensures PartInv(s', files, i) {
      assert PartInv(s, files, i);
    }
  }

  lemma DeliverKeepsClient(s: State, files: Server.Files, a: Addr, d: Datagram, b: Addr)
    requires Inv(s, files) && Apply(files, s, Deliver(a, d)).Some? && b in s.clients
    ensures ClientInv(Apply(files, s, Deliver(a, d)).value, files, b)
  {
    hide Server.Receive, Server.Accepted, Server.Inv, Chunk, Client.Inv;
    assert PartInv(s, files, Server.Input(a, d)) && ClientInv(s, files, b);
    ReceiveMovesProgress(s, files, a, d, b);
  }

  lemma DeliverKeepsReply(s: State, files: Server.Files, a: Addr, d: Datagram, i: Server.Input)
    requires Inv(s, files) && Apply(files, s, Deliver(a, d)).Some?
    requires i in Apply(files, s, Deliver(a, d)).value.toClients
    ensures ReplyInv(Apply(files, s, Deliver(a, d)).value, files, i)
  {
    hide Server.Receive, Server.Accepted, Server.Inv, Server.Echoes, Chunk, ClientInv;
    assert PartInv(s, files, Server.Input(a, d));
    ReceiveMovesProgress(s, files, a, d, i.addr);
    if i in s.toClients { assert ReplyInv(s, files, i); }
  }

  /** A client moves on; everything else stays. */
  lemma WithClientKeepsInv(s: State, files: Server.Files, a: Addr, c: Client.Client)
    requires Inv(s, files) && a in s.clients && Client.Inv(c, files(a)) && c.chunkNo >= s.clients[a].chunkNo
    requires c.chunkNo - 1 <= Progress(s, a) && (c.received == c.chunkNo ==> c.chunkNo <= Progress(s, a))
    requires c.chunkNo < ChunkCount(files(a)) ==> Progress(s, a) <= c.chunkNo
    ensures Inv(WithClient(s, a, c), files)
  {
    var s' := WithClient(s, a, c);
    forall b | b in s'.clients ensures ClientInv(s', files, b) {
      if b != a { assert ClientInv(s, files, b); }
    }
    forall i | i in s'.toServer ensures PartInv(s', files, i) {
      assert PartInv(s, files, i);
    }
    forall i | i in s'.toClients ensures ReplyInv(s', files, i) {
      assert ReplyInv(s, files, i);
    }
  }

  /** The network's sets change, within what may be on its way. */
  lemma NetworkKeepsInv(s: State, files: Server.Files, toServer: set<Server.Input>, toClients: set<Server.Input>)
    requires Inv(s, files) && toClients <= s.toClients
    requires forall i :: i in toServer ==> i in s.toServer || PartInv(s, files, i)
    ensures Inv(s.(toServer := toServer, toClients := toClients), files)
  {
    var s' := s.(toServer := toServer, toClients := toClients);
    forall b | b in s'.clients ensures ClientInv(s', files, b) {
      assert ClientInv(s, files, b);
    }
    forall i | i in s'.toServer ensures PartInv(s', files, i) {
      if i in s.toServer { assert PartInv(s, files, i); }
    }
    forall i | i in s'.toClients ensures ReplyInv(s', files, i) {
      assert ReplyInv(s, files, i);
    }
  }

  lemma SendKeepsInv(s: State, files: Server.Files, a: Addr)
    requires Inv(s, files) && Apply(files, s, Send(a)).Some?
    ensures Inv(Apply(files, s, Send(a)).value, files)
  {
    assert ClientInv(s, files, a);
    var c := Client.Send(s.clients[a], files(a));
    Client.SendKeepsInv(s.clients[a], files(a));
    var i := Server.Input(a, Chunk(files(a), c.chunkNo));
    assert PartInv(s, files, i);
    var sent := s.(toServer := s.toServer + {i}, toClients := s.toClients);
    NetworkKeepsInv(s, files, s.toServer + {i}, s.toClients);
    assert Progress(sent, a) == Progress(s, a);
    WithClientKeepsInv(sent, files, a, c);
    assert Apply(files, s, Send(a)).value == WithClient(sent, a, c);
  }

  lemma HearKeepsInv(s: State, files: Server.Files, a: Addr, reply: Option<int>)
    requires Inv(s, files) && a in s.clients && s.clients[a].phase.Waiting?
    requires reply.Some? ==> reply.value <= Progress(s, a)
    ensures Inv(WithClient(s, a, Client.Hear(s.clients[a], files(a), reply)), files)
  {
    assert ClientInv(s, files, a);
    Client.HearKeepsInv(s.clients[a], files(a), reply);
    WithClientKeepsInv(s, files, a, Client.Hear(s.clients[a], files(a), reply));
  }

  lemma StepKeepsInv(s: State, files: Server.Files, act: Action)
    requires Inv(s, files) && Apply(files, s, act).Some?
    ensures Inv(Apply(files, s, act).value, files)
  {
    match act
    case Send(a) => SendKeepsInv(s, files, a);
    case Confirm(a, d) =>
      assert ReplyInv(s, files, Server.Input(a, d));
      HearKeepsInv(s, files, a, Some(d.chunkNo));
    case Timeout(a) => HearKeepsInv(s, files, a, None);
    case Deliver(a, d) => DeliverKeepsInv(s, files, a, d);
    case LosePart(a, d) => NetworkKeepsInv(s, files, s.toServer - {Server.Input(a, d)}, s.toClients);
    case LoseReply(a, d) => NetworkKeepsInv(s, files, s.toServer, s.toClients - {Server.Input(a, d)});
  }

  lemma InitInv(s: State, files: Server.Files)
    requires Init(s)
    ensures Inv(s, files)
  {
    forall a | a in s.clients ensures ClientInv(s, files, a) {
      assert Client.Inv(Client.Start, files(a));
    }
  }

  ghost predicate Reaches(files: Server.Files, init: State, s: State) {
    Init(init) && exists actions: seq<Action> :: Run(Step(files), init, actions) == Some(s)
  }

  lemma ReachableInv(files: Server.Files, init: State, s: State)
    requires Reaches(files, init, s)
    ensures Inv(s, files)
  {
    hide Apply;
    var actions: seq<Action> :| Run(Step(files), init, actions) == Some(s);
    InitInv(init, files);
    var inv := s => Inv(s, files);
    forall s, act | inv(s) && Apply(files, s, act).Some? ensures inv(Apply(files, s, act).value) {
      StepKeepsInv(s, files, act);
    }
    Invariance(Step(files), inv, init, actions);
  }

  // ---- What holds in every run ----

  /** What has been printed for a client that runs against this network. */
  lemma Transcript(files: Server.Files, init: State, s: State, a: Addr)
    requires Reaches(files, init, s)
    ensures var parts := Chunks(files(a));
            var acc := Server.Accepted(s.server.printed, a);
            var c := Server.Live(s.server.con, a);
            && 0 <= c < |parts|
            && acc == Repeat(parts, |acc| / |parts|) + parts[..c]
  {
    ReachableInv(files, init, s);
    var acc := Server.Accepted(s.server.printed, a);
    assert Cyclic(acc, Chunks(files(a)), Server.Live(s.server.con, a));
    CyclicIsRepeat(acc, Chunks(files(a)), Server.Live(s.server.con, a));
  }

  /** A client that ends its loop by the size test has had its whole file printed,
      in order; the parts printed for it start with a complete copy. */
  lemma FinishedMeansPrinted(files: Server.Files, init: State, s: State, a: Addr)
    requires Reaches(files, init, s) && a in s.clients && s.clients[a].phase.Finished?
    ensures var acc := Server.Accepted(s.server.printed, a);
            && Chunks(files(a)) <= acc
            && files(a) <= Payloads(acc[..ChunkCount(files(a))])
  {
    ReachableInv(files, init, s);
    var acc, parts := Server.Accepted(s.server.printed, a), Chunks(files(a));
    assert ClientInv(s, files, a);
    assert Cyclic(acc, parts, Server.Live(s.server.con, a));
    CyclicTail(acc, parts, Server.Live(s.server.con, a));
    PartsMakeTheFile(files(a));
  }

  /** Wherever a client stands, the parts it has moved past have been printed. */
  lemma ConfirmedMeansPrinted(files: Server.Files, init: State, s: State, a: Addr)
    requires Reaches(files, init, s) && a in s.clients
    ensures var acc := Server.Accepted(s.server.printed, a);
            forall k: nat :: 1 <= k < s.clients[a].chunkNo ==>
              k <= ChunkCount(files(a)) && k <= |acc| && acc[k - 1] == Chunk(files(a), k)
  {
    ReachableInv(files, init, s);
    var acc, parts := Server.Accepted(s.server.printed, a), Chunks(files(a));
    var n := s.clients[a].chunkNo;
    assert n <= |parts| && n - 1 <= |acc| by { assert ClientInv(s, files, a); }
    assert Cyclic(acc, parts, Server.Live(s.server.con, a));
    forall k: nat | 1 <= k < n
      ensures k <= ChunkCount(files(a)) && k <= |acc| && acc[k - 1] == Chunk(files(a), k)
    {
      ModUnique(k - 1, |parts|, 0, k - 1);
    }
  }

  /** No part is sent more than six times, whatever the network does. */
  lemma SixAttempts(files: Server.Files, init: State, s: State, a: Addr, k: nat)
    requires Reaches(files, init, s) && a in s.clients && 1 <= k <= ChunkCount(files(a))
    ensures multiset(s.clients[a].sent)[Chunk(files(a), k)] <= 6
    ensures s.clients[a].phase.GaveUp? ==> multiset(s.clients[a].sent)[Chunk(files(a), s.clients[a].chunkNo)] == 6
  {
    ReachableInv(files, init, s);
    assert ClientInv(s, files, a);
  }

  // ---- When can a transfer still be completed? ----

  predicate OnItsWay(s: State, file: seq<Byte>, a: Addr, k: nat)
    requires 1 <= k <= ChunkCount(file)
  {
    Server.Input(a, Chunk(file, k)) in s.toServer
  }

  predicate Echoed(s: State, file: seq<Byte>, a: Addr, k: nat)
    requires 1 <= k <= ChunkCount(file)
  {
    Server.Input(a, Chunk(file, k)) in s.toClients
  }

  predicate HasAttempt(c: Client.Client) {
    c.phase.Ready? || (c.phase.Waiting? && c.counter <= Client.RETRIES)
  }

  /** The current part is confirmed already, or the server can be brought to echo it:
      it is on its way or can be sent again, and so is on its way every part that the
      server's slot still lacks before it. */
  predicate Confirmable(s: State, file: seq<Byte>, a: Addr)
    requires a in s.clients && 1 <= s.clients[a].chunkNo <= ChunkCount(file)
  {
    var c := s.clients[a];
    && (c.phase.Ready? || c.phase.Waiting?)
    && (|| Echoed(s, file, a, c.chunkNo)
        || (&& (HasAttempt(c) || OnItsWay(s, file, a, c.chunkNo))
            && forall j :: 1 <= j < c.chunkNo && Server.Live(s.server.con, a) < j ==> OnItsWay(s, file, a, j)))
  }

  ghost predicate CanComplete(files: Server.Files, s: State, a: Addr) {
    exists actions: seq<Action> ::
      && Run(Step(files), s, actions).Some?
      && var s' := Run(Step(files), s, actions).value;
         a in s'.clients && s'.clients[a].phase.Finished?
  }

  /** Serving `a` never takes away the room for `a`. */
  lemma RoomStays(s: Server.State, a: Addr, d: Datagram)
    requires Server.HasRoom(s.con, a)
    ensures Server.HasRoom(Server.Receive(s, a, d).con, a)
  {
    var con' := Server.Receive(s, a, d).con;
    var i := Server.SlotFor(s.con, a);
    assert con'[i].free || Server.Holds(con'[i], a);
  }

  /** As long as the client is not at its last part, the server's slot tells how far it is. */
  lemma LiveIsProgress(s: State, files: Server.Files, a: Addr)
    requires Inv(s, files) && Progress(s, a) < ChunkCount(files(a))
    ensures Server.Live(s.server.con, a) == Progress(s, a)
  {
    var acc := Server.Accepted(s.server.printed, a);
    assert Cyclic(acc, Chunks(files(a)), Server.Live(s.server.con, a));
    ModUnique(|acc|, ChunkCount(files(a)), 0, |acc|);
  }

  /** The reply to the current part: the client is done, or at a next part that the server expects. */
  lemma ConfirmMovesOn(s: State, files: Server.Files, a: Addr)
    requires Inv(s, files) && a in s.clients && s.clients[a].phase.Waiting?
    requires ClientInv(s, files, a) && Echoed(s, files(a), a, s.clients[a].chunkNo)
    ensures var k := s.clients[a].chunkNo;
            var s' := Apply(files, s, Confirm(a, Chunk(files(a), k)));
            && s'.Some? && Inv(s'.value, files) && a in s'.value.clients && s'.value.server == s.server
            && var c := s'.value.clients[a];
               (c.phase.Finished? && k == ChunkCount(files(a))) ||
               (c.phase.Ready? && c.chunkNo == k + 1 && Server.Live(s.server.con, a) == k)
  {
    var k := s.clients[a].chunkNo;
    var d := Chunk(files(a), k);
    assert ReplyInv(s, files, Server.Input(a, d));
    StepKeepsInv(s, files, Confirm(a, d));
    if k < ChunkCount(files(a)) { LiveIsProgress(s, files, a); }
  }

  /** A part on its way that is not beyond the expected one is echoed when it arrives. */
  lemma DeliverMovesOn(s: State, files: Server.Files, a: Addr, j: nat)
    requires Inv(s, files) && Server.HasRoom(s.server.con, a)
    requires 1 <= j <= ChunkCount(files(a)) && j <= Server.Live(s.server.con, a) + 1 && OnItsWay(s, files(a), a, j)
    ensures var s' := Apply(files, s, Deliver(a, Chunk(files(a), j)));
            && s'.Some? && Inv(s'.value, files) && Server.HasRoom(s'.value.server.con, a)
            && s'.value.clients == s.clients && s'.value.toServer == s.toServer
            && s'.value.toClients == s.toClients + {Server.Input(a, Chunk(files(a), j))}
            && (j == Server.Live(s.server.con, a) + 1 ==>
                  Server.Live(s'.value.server.con, a) == if j < ChunkCount(files(a)) then j else 0)
  {
    var d := Chunk(files(a), j);
    assert PartInv(s, files, Server.Input(a, d));
    DeliverKeepsInv(s, files, a, d);
    RoomStays(s.server, a, d);
    Server.ReceiveMovesLive(s.server, files, a, d, a);
    OneLastPart(files(a), j);
  }

  lemma SendMovesOn(s: State, files: Server.Files, a: Addr)
    requires Inv(s, files) && a in s.clients && s.clients[a].phase.Ready? && ClientInv(s, files, a)
    ensures var s' := Apply(files, s, Send(a));
            && s'.Some? && Inv(s'.value, files) && a in s'.value.clients && s'.value.server == s.server
            && s'.value.clients[a].phase.Waiting? && s'.value.clients[a].chunkNo == s.clients[a].chunkNo
            && s'.value.clients[a].counter == s.clients[a].counter + 1
            && s'.value.toServer == s.toServer + {Server.Input(a, Chunk(files(a), s.clients[a].chunkNo))}
            && s'.value.toClients == s.toClients
  {
    SendKeepsInv(s, files, a);
  }

  lemma TimeoutMovesOn(s: State, files: Server.Files, a: Addr)
    requires Inv(s, files) && a in s.clients && s.clients[a].phase.Waiting? && HasAttempt(s.clients[a])
    requires ClientInv(s, files, a)
    ensures var s' := Apply(files, s, Timeout(a));
            && s'.Some? && Inv(s'.value, files) && a in s'.value.clients && s'.value.server == s.server
            && s'.value.clients[a].phase.Ready? && s'.value.clients[a].chunkNo == s.clients[a].chunkNo
            && s'.value.toServer == s.toServer && s'.value.toClients == s.toClients
  {
    HearKeepsInv(s, files, a, None);
  }

  lemma LiveNonNegative(s: State, files: Server.Files, a: Addr)
    requires Inv(s, files)
    ensures 0 <= Server.Live(s.server.con, a) < ChunkCount(files(a))
  {
    assert Cyclic(Server.Accepted(s.server.printed, a), Chunks(files(a)), Server.Live(s.server.con, a));
  }

  /** How far the current part is from being echoed to a waiting client. */
  function Distance(s: State, file: seq<Byte>, a: Addr): nat
    requires a in s.clients && 1 <= s.clients[a].chunkNo <= ChunkCount(file)
  {
    var c := s.clients[a];
    var missing := c.chunkNo - Server.Live(s.server.con, a);
    if Echoed(s, file, a, c.chunkNo) then (if c.phase.Ready? then 1 else 0)
    else
      var sending := if c.phase.Ready? then 1 else if OnItsWay(s, file, a, c.chunkNo) then 0 else 2;
      2 + sending + (if missing > 0 then missing else 0)
  }

  /** Client c stands where it stood, the server expects the same of it, and the
      network holds at least what it held. */
  predicate Undisturbed(s: State, s': State, c: Addr) {
    && (c in s.clients ==> c in s'.clients && s'.clients[c] == s.clients[c])
    && Server.Live(s'.server.con, c) == Server.Live(s.server.con, c)
    && s.toServer <= s'.toServer && s.toClients <= s'.toClients
  }

  /** What happens to one client's transfer disturbs nobody else's. */
  lemma OthersUndisturbed(s: State, files: Server.Files, act: Action)
    requires Inv(s, files) && Apply(files, s, act).Some? && !act.LosePart? && !act.LoseReply?
    ensures forall c {:trigger Undisturbed(s, Apply(files, s, act).value, c)} ::
              c != act.a ==> Undisturbed(s, Apply(files, s, act).value, c)
  {
    var s' := Apply(files, s, act).value;
    if act.Deliver? {
      assert PartInv(s, files, Server.Input(act.a, act.d));
      forall c | c != act.a ensures Server.Live(s'.server.con, c) == Server.Live(s.server.con, c) {
        Server.ReceiveMovesLive(s.server, files, act.a, act.d, c);
      }
    }
  }

  lemma UndisturbedFurther(s: State, mid: State, s': State, a: Addr)
    requires forall c {:trigger Undisturbed(s, mid, c)} :: c != a ==> Undisturbed(s, mid, c)
    requires forall c {:trigger Undisturbed(mid, s', c)} :: c != a ==> Undisturbed(mid, s', c)
    ensures forall c {:trigger Undisturbed(s, s', c)} :: c != a ==> Undisturbed(s, s', c)
  {
    forall c | c != a ensures Undisturbed(s, s', c) {
      assert Undisturbed(s, mid, c) && Undisturbed(mid, s', c);
    }
  }

  /** The same part is still to be confirmed, and nearer to it. */
  predicate Closer(s: State, s': State, file: seq<Byte>, a: Addr)
    requires a in s.clients && 1 <= s.clients[a].chunkNo <= ChunkCount(file)
  {
    && a in s'.clients && s'.clients[a].chunkNo == s.clients[a].chunkNo
    && Confirmable(s', file, a) && Distance(s', file, a) < Distance(s, file, a)
  }

  lemma SendIsCloser(s: State, s': State, file: seq<Byte>, a: Addr)
    requires a in s.clients && 1 <= s.clients[a].chunkNo <= ChunkCount(file) && Confirmable(s, file, a)
    requires a in s'.clients && s'.clients[a].chunkNo == s.clients[a].chunkNo && s'.server == s.server
    requires s.clients[a].phase.Ready? && s'.clients[a].phase.Waiting? && s'.toClients == s.toClients
    requires s'.toServer == s.toServer + {Server.Input(a, Chunk(file, s.clients[a].chunkNo))}
    ensures Closer(s, s', file, a)
  {
    assert forall j :: 1 <= j <= ChunkCount(file) && OnItsWay(s, file, a, j) ==> OnItsWay(s', file, a, j);
  }

  lemma TimeoutIsCloser(s: State, s': State, file: seq<Byte>, a: Addr)
    requires a in s.clients && 1 <= s.clients[a].chunkNo <= ChunkCount(file) && Confirmable(s, file, a)
    requires a in s'.clients && s'.clients[a].chunkNo == s.clients[a].chunkNo && s'.server == s.server
    requires s.clients[a].phase.Waiting? && s'.clients[a].phase.Ready?
    requires s'.toServer == s.toServer && s'.toClients == s.toClients
    requires !Echoed(s, file, a, s.clients[a].chunkNo) && !OnItsWay(s, file, a, s.clients[a].chunkNo)
    ensures Closer(s, s', file, a)
  {
    assert forall j :: 1 <= j <= ChunkCount(file) && OnItsWay(s, file, a, j) ==> OnItsWay(s', file, a, j);
  }

  lemma DeliverIsCloser(s: State, s': State, file: seq<Byte>, a: Addr)
    requires a in s.clients && 1 <= s.clients[a].chunkNo <= ChunkCount(file) && Confirmable(s, file, a)
    requires s'.clients == s.clients && s'.toServer == s.toServer && s.clients[a].phase.Waiting?
    requires !Echoed(s, file, a, s.clients[a].chunkNo) && OnItsWay(s, file, a, s.clients[a].chunkNo)
    requires
      || Echoed(s', file, a, s.clients[a].chunkNo)
      || Server.Live(s.server.con, a) < Server.Live(s'.server.con, a) < s.clients[a].chunkNo
    ensures Closer(s, s', file, a)
  {
    assert forall j :: 1 <= j <= ChunkCount(file) && OnItsWay(s, file, a, j) ==> OnItsWay(s', file, a, j);
  }

  /** The next action towards the reply to the current part. */
  lemma NextTowardsReply(s: State, files: Server.Files, a: Addr) returns (act: Action)
    requires Inv(s, files) && a in s.clients && Server.HasRoom(s.server.con, a) && ClientInv(s, files, a)
    requires Confirmable(s, files(a), a)
    requires !(s.clients[a].phase.Waiting? && Echoed(s, files(a), a, s.clients[a].chunkNo))
    ensures Apply(files, s, act).Some?
    ensures var s' := Apply(files, s, act).value;
            Inv(s', files) && Server.HasRoom(s'.server.con, a) && Closer(s, s', files(a), a)
    ensures act.a == a && !act.LosePart? && !act.LoseReply?
  {
    var c, k, live := s.clients[a], s.clients[a].chunkNo, Server.Live(s.server.con, a);
    assert 1 <= k <= ChunkCount(files(a));
    LiveNonNegative(s, files, a);
    hide Apply, Inv, ClientInv, Server.HasRoom, Distance;
    if c.phase.Ready? {
      act := Send(a);
      SendMovesOn(s, files, a);
      SendIsCloser(s, Apply(files, s, act).value, files(a), a);
    } else if OnItsWay(s, files(a), a, k) {
      var j := if k <= live + 1 then k else live + 1;
      act := Deliver(a, Chunk(files(a), j));
      assert OnItsWay(s, files(a), a, j);
      DeliverMovesOn(s, files, a, j);
      DeliverIsCloser(s, Apply(files, s, act).value, files(a), a);
    } else {
      act := Timeout(a);
      TimeoutMovesOn(s, files, a);
      TimeoutIsCloser(s, Apply(files, s, act).value, files(a), a);
    }
  }

  lemma InvOfClient(s: State, files: Server.Files, a: Addr)
    requires Inv(s, files) && a in s.clients
    ensures ClientInv(s, files, a)
  {
  }

  lemma {:induction false} CanConfirm(s: State, files: Server.Files, a: Addr) returns (actions: seq<Action>)
    requires Inv(s, files) && a in s.clients && Server.HasRoom(s.server.con, a) && ClientInv(s, files, a)
    requires Confirmable(s, files(a), a)
    ensures Run(Step(files), s, actions).Some?
    ensures var s' := Run(Step(files), s, actions).value;
            && Inv(s', files) && a in s'.clients && Server.HasRoom(s'.server.con, a)
            && var c := s'.clients[a];
               ((c.phase.Finished? && s.clients[a].chunkNo == ChunkCount(files(a))) ||
                (c.phase.Ready? && c.chunkNo == s.clients[a].chunkNo + 1 &&
                 Server.Live(s'.server.con, a) == s.clients[a].chunkNo))
    ensures forall c {:trigger Undisturbed(s, Run(Step(files), s, actions).value, c)} ::
              c != a ==> Undisturbed(s, Run(Step(files), s, actions).value, c)
    decreases Distance(s, files(a), a)
  {
    assert 1 <= s.clients[a].chunkNo <= ChunkCount(files(a));
    hide Apply, Inv, Client.Inv, Server.HasRoom, Server.Live, Undisturbed;
    if s.clients[a].phase.Waiting? && Echoed(s, files(a), a, s.clients[a].chunkNo) {
      var act := Confirm(a, Chunk(files(a), s.clients[a].chunkNo));
      ConfirmMovesOn(s, files, a);
      OthersUndisturbed(s, files, act);
      actions := [act];
      assert Run(Step(files), s, actions) == Apply(files, s, act);
    } else {
      var act := NextTowardsReply(s, files, a);
      OthersUndisturbed(s, files, act);
      var s' := Apply(files, s, act).value;
      InvOfClient(s', files, a);
      var rest := CanConfirm(s', files, a);
      actions := [act] + rest;
      assert actions[1..] == rest;
      UndisturbedFurther(s, s', Run(Step(files), s', rest).value, a);
    }
  }

  lemma {:induction false} CanFinishFrom(s: State, files: Server.Files, a: Addr) returns (actions: seq<Action>)
    requires Inv(s, files) && a in s.clients && Server.HasRoom(s.server.con, a) && ClientInv(s, files, a)
    requires Confirmable(s, files(a), a)
    ensures Run(Step(files), s, actions).Some?
    ensures var s' := Run(Step(files), s, actions).value;
            a in s'.clients && s'.clients[a].phase.Finished?
    decreases ChunkCount(files(a)) - s.clients[a].chunkNo
  {
    actions := CanConfirm(s, files, a);
    var s' := Run(Step(files), s, actions).value;
    if !s'.clients[a].phase.Finished? {
      assert ClientInv(s', files, a);
      assert Confirmable(s', files(a), a);
      var rest := CanFinishFrom(s', files, a);
      RunConcat(Step(files), s, actions, rest);
      actions := actions + rest;
    }
  }

  /** Nothing the network, the server or anybody else does can confirm the current part. */
  predicate Hopeless(s: State, files: Server.Files, a: Addr)
    requires a in s.clients && 1 <= s.clients[a].chunkNo <= ChunkCount(files(a))
  {
    var c := s.clients[a];
    || c.phase.GaveUp?
    || (&& !c.phase.Finished? && !Echoed(s, files(a), a, c.chunkNo)
        && (|| (!HasAttempt(c) && !OnItsWay(s, files(a), a, c.chunkNo))
            || Lacks(s, files(a), a, c.chunkNo)))
  }

  /** The server waits for an earlier part that nobody is going to send again. */
  predicate Lacks(s: State, file: seq<Byte>, a: Addr, k: nat)
    requires k <= ChunkCount(file)
  {
    exists j :: 1 <= j < k && Server.Live(s.server.con, a) < j && !OnItsWay(s, file, a, j)
  }

  lemma DeliveryStaysLacking(s: State, files: Server.Files, a: Addr, b: Addr, d: Datagram)
    requires Inv(s, files) && a in s.clients && ClientInv(s, files, a) && Lacks(s, files(a), a, s.clients[a].chunkNo)
    requires Apply(files, s, Deliver(b, d)).Some?
    ensures Lacks(Apply(files, s, Deliver(b, d)).value, files(a), a, s.clients[a].chunkNo)
  {
    var s' := Apply(files, s, Deliver(b, d)).value;
    assert PartInv(s, files, Server.Input(b, d));
    Server.ReceiveMovesLive(s.server, files, b, d, a);
    var j :| 1 <= j < s.clients[a].chunkNo && Server.Live(s.server.con, a) < j && !OnItsWay(s, files(a), a, j);
    if b == a {
      assert d.chunkNo != j;
      OneLastPart(files(a), d.chunkNo);
    }
    assert Server.Live(s'.server.con, a) < j && !OnItsWay(s', files(a), a, j);
  }

  lemma SendingStaysLacking(s: State, files: Server.Files, a: Addr, b: Addr)
    requires Inv(s, files) && a in s.clients && ClientInv(s, files, a) && Lacks(s, files(a), a, s.clients[a].chunkNo)
    requires Apply(files, s, Send(b)).Some?
    ensures Lacks(Apply(files, s, Send(b)).value, files(a), a, s.clients[a].chunkNo)
  {
    var s', k := Apply(files, s, Send(b)).value, s.clients[a].chunkNo;
    var j :| 1 <= j < k && Server.Live(s.server.con, a) < j && !OnItsWay(s, files(a), a, j);
    assert !OnItsWay(s', files(a), a, j) by {
      assert Chunk(files(a), j).chunkNo != Chunk(files(a), k).chunkNo;
    }
  }

  /** Nobody sends an earlier part again, and without it the server goes no further. */
  lemma StepStaysLacking(s: State, files: Server.Files, a: Addr, act: Action)
    requires Inv(s, files) && a in s.clients && ClientInv(s, files, a) && Lacks(s, files(a), a, s.clients[a].chunkNo)
    requires Apply(files, s, act).Some?
    ensures Lacks(Apply(files, s, act).value, files(a), a, s.clients[a].chunkNo)
  {
    match act {
      case Send(b) => SendingStaysLacking(s, files, a, b);
      case Deliver(b, d) => DeliveryStaysLacking(s, files, a, b, d);
      case _ => SameNetwork(s, Apply(files, s, act).value, files, a);
    }
  }

  /** What `Lacks` looks at is the server and the parts on their way. */
  lemma SameNetwork(s: State, s': State, files: Server.Files, a: Addr)
    requires s'.server == s.server
    requires forall j :: 1 <= j <= ChunkCount(files(a)) && OnItsWay(s', files(a), a, j) ==> OnItsWay(s, files(a), a, j)
    ensures forall k: nat :: k <= ChunkCount(files(a)) && Lacks(s, files(a), a, k) ==> Lacks(s', files(a), a, k)
  {
  }

  /** A client out of attempts, with its part nowhere on its way, does not bring it there. */
  lemma StepStaysSilent(s: State, files: Server.Files, a: Addr, act: Action)
    requires Inv(s, files) && a in s.clients && ClientInv(s, files, a)
    requires !HasAttempt(s.clients[a]) && !OnItsWay(s, files(a), a, s.clients[a].chunkNo)
    requires s.clients[a].chunkNo == ChunkCount(files(a)) || !Echoed(s, files(a), a, s.clients[a].chunkNo)
    requires Apply(files, s, act).Some?
    ensures var s' := Apply(files, s, act).value;
            && a in s'.clients && s'.clients[a].chunkNo == s.clients[a].chunkNo
            && !HasAttempt(s'.clients[a]) && !OnItsWay(s', files(a), a, s.clients[a].chunkNo)
  {
    if act.Confirm? { assert ReplyInv(s, files, Server.Input(act.a, act.d)); }
  }

  /** A step leaves the client at its part if the reply to it is not there to be heard. */
  lemma StepStaysAt(s: State, files: Server.Files, a: Addr, act: Action)
    requires Inv(s, files) && a in s.clients && ClientInv(s, files, a) && !s.clients[a].phase.Finished?
    requires !Echoed(s, files(a), a, s.clients[a].chunkNo) && Apply(files, s, act).Some?
    ensures var s' := Apply(files, s, act).value;
            && a in s'.clients && s'.clients[a].chunkNo == s.clients[a].chunkNo && !s'.clients[a].phase.Finished?
            && (s.clients[a].phase.GaveUp? ==> s'.clients[a].phase.GaveUp?)
  {
    if act.Confirm? { assert ReplyInv(s, files, Server.Input(act.a, act.d)); }
  }

  lemma StepStaysGivenUp(s: State, files: Server.Files, a: Addr, act: Action)
    requires a in s.clients && s.clients[a].phase.GaveUp? && Apply(files, s, act).Some?
    ensures var s' := Apply(files, s, act).value; a in s'.clients && s'.clients[a] == s.clients[a]
  {
  }

  /** The reply to a part that cannot reach the server, or that the server does not yet
      want, does not come. */
  lemma StepStaysUnechoed(s: State, files: Server.Files, a: Addr, act: Action)
    requires Inv(s, files) && a in s.clients && ClientInv(s, files, a) && Apply(files, s, act).Some?
    requires !Echoed(s, files(a), a, s.clients[a].chunkNo)
    requires !OnItsWay(s, files(a), a, s.clients[a].chunkNo) || Lacks(s, files(a), a, s.clients[a].chunkNo)
    ensures !Echoed(Apply(files, s, act).value, files(a), a, s.clients[a].chunkNo)
  {
    if act.Deliver? { assert PartInv(s, files, Server.Input(act.a, act.d)); }
  }

  lemma StepStaysHopeless(s: State, files: Server.Files, a: Addr, act: Action)
    requires Inv(s, files) && a in s.clients && ClientInv(s, files, a) && Hopeless(s, files, a)
    requires Apply(files, s, act).Some?
    ensures var s' := Apply(files, s, act).value;
            && Inv(s', files) && a in s'.clients && ClientInv(s', files, a)
            && s'.clients[a].chunkNo == s.clients[a].chunkNo && Hopeless(s', files, a)
  {
    var s', k := Apply(files, s, act).value, s.clients[a].chunkNo;
    assert 1 <= k <= ChunkCount(files(a));
    StepKeepsInv(s, files, act);
    if s.clients[a].phase.GaveUp? {
      StepStaysGivenUp(s, files, a, act);
    } else {
      StepStaysAt(s, files, a, act);
      StepStaysUnechoed(s, files, a, act);
      if Lacks(s, files(a), a, k) {
        StepStaysLacking(s, files, a, act);
      } else {
        StepStaysSilent(s, files, a, act);
      }
    }
    InvOfClient(s', files, a);
  }

  lemma {:induction false} HopelessNeverFinishes(s: State, files: Server.Files, a: Addr, actions: seq<Action>)
    requires Inv(s, files) && a in s.clients && ClientInv(s, files, a) && Hopeless(s, files, a)
    requires Run(Step(files), s, actions).Some?
    ensures var s' := Run(Step(files), s, actions).value;
            a in s'.clients && !s'.clients[a].phase.Finished?
    decreases |actions|
  {
    if actions != [] {
      StepStaysHopeless(s, files, a, actions[0]);
      HopelessNeverFinishes(Apply(files, s, actions[0]).value, files, a, actions[1..]);
    }
  }

  lemma NotConfirmableIsHopeless(s: State, file: seq<Byte>, files: Server.Files, a: Addr)
    requires a in s.clients && 1 <= s.clients[a].chunkNo <= ChunkCount(file) && file == files(a)
    requires !s.clients[a].phase.Finished? && !Confirmable(s, file, a)
    ensures Hopeless(s, files, a)
  {
  }

  /** Whether or not there is a slot, a transfer that can be completed is confirmable. */
  lemma OnlyConfirmableCompletes(files: Server.Files, init: State, s: State, a: Addr)
    requires Reaches(files, init, s) && a in s.clients && CanComplete(files, s, a)
    ensures 1 <= s.clients[a].chunkNo <= ChunkCount(files(a))
    ensures s.clients[a].phase.Finished? || Confirmable(s, files(a), a)
  {
    ReachableInv(files, init, s);
    assert ClientInv(s, files, a);
    if !s.clients[a].phase.Finished? && !Confirmable(s, files(a), a) {
      NotConfirmableIsHopeless(s, files(a), files, a);
      var actions: seq<Action> :|
        && Run(Step(files), s, actions).Some?
        && var s' := Run(Step(files), s, actions).value;
           a in s'.clients && s'.clients[a].phase.Finished?;
      HopelessNeverFinishes(s, files, a, actions);
    }
  }

  /** From any reachable state in which the server has a slot for the client, the
      transfer can be completed if and only if the client is through or its current
      part is confirmable. */
  lemma CompletesExactly(files: Server.Files, init: State, s: State, a: Addr)
    requires Reaches(files, init, s) && a in s.clients && Server.HasRoom(s.server.con, a)
    ensures 1 <= s.clients[a].chunkNo <= ChunkCount(files(a))
    ensures CanComplete(files, s, a) <==> s.clients[a].phase.Finished? || Confirmable(s, files(a), a)
  {
    ReachableInv(files, init, s);
    assert ClientInv(s, files, a);
    if s.clients[a].phase.Finished? {
      assert Run(Step(files), s, []) == Some(s);
    } else if Confirmable(s, files(a), a) {
      var actions := CanFinishFrom(s, files, a);
    }
    if CanComplete(files, s, a) {
      OnlyConfirmableCompletes(files, init, s, a);
    }
  }

  /** With an attempt left and nothing of the client's on its way: it can complete if
      and only if its part is not beyond the one the server expects. */
  lemma QuietExactly(files: Server.Files, init: State, s: State, a: Addr)
    requires Reaches(files, init, s) && a in s.clients && Server.HasRoom(s.server.con, a) && HasAttempt(s.clients[a])
    requires forall i :: i in s.toServer + s.toClients ==> i.addr != a
    ensures CanComplete(files, s, a) <==> s.clients[a].chunkNo <= Server.Live(s.server.con, a) + 1
  {
    ReachableInv(files, init, s);
    CompletesExactly(files, init, s, a);
    LiveNonNegative(s, files, a);
    var k := s.clients[a].chunkNo;
    if k > Server.Live(s.server.con, a) + 1 {
      assert !OnItsWay(s, files(a), a, k - 1);
    }
  }

  /** An attempt left and still no way to confirm the part: it is the last of several,
      and the whole file has been printed. */
  lemma UnconfirmableMeansPrinted(s: State, files: Server.Files, a: Addr)
    requires Inv(s, files) && a in s.clients && HasAttempt(s.clients[a])
    requires 1 <= s.clients[a].chunkNo <= ChunkCount(files(a)) && !Confirmable(s, files(a), a)
    ensures s.clients[a].chunkNo == ChunkCount(files(a)) >= 2
    ensures Chunks(files(a)) <= Server.Accepted(s.server.printed, a)
  {
    LiveNonNegative(s, files, a);
    InvOfClient(s, files, a);
    if Progress(s, a) < ChunkCount(files(a)) {
      LiveIsProgress(s, files, a);
    } else {
      var acc, parts := Server.Accepted(s.server.printed, a), Chunks(files(a));
      assert Cyclic(acc, parts, Server.Live(s.server.con, a));
      CyclicTail(acc, parts, Server.Live(s.server.con, a));
    }
  }

  // ---- A run in which a lost reply is fatal ----

  /** The client has had its first k parts confirmed, and the network holds nothing. */
  ghost predicate CleanUpTo(s: State, files: Server.Files, a: Addr, k: nat) {
    && a in s.clients && s.clients[a].phase.Ready? && s.clients[a].chunkNo == k + 1 && s.clients[a].counter == 0
    && s.toServer == {} && s.toClients == {}
    && Server.Live(s.server.con, a) == k && Server.HasRoom(s.server.con, a)
  }

  lemma LosePartLeaves(s: State, files: Server.Files, a: Addr, d: Datagram)
    requires Server.Input(a, d) in s.toServer
    ensures Apply(files, s, LosePart(a, d)) == Some(s.(toServer := s.toServer - {Server.Input(a, d)}))
  {
  }

  /** Send, delivery, and the loss of what the network still holds of the part. */
  lemma SendAndDeliver(files: Server.Files, init: State, s: State, a: Addr, k: nat) returns (s': State)
    requires Reaches(files, init, s) && CleanUpTo(s, files, a, k)
    ensures Reaches(files, init, s')
    ensures a in s'.clients && s'.clients[a].phase.Waiting?
    ensures s'.clients[a].chunkNo == k + 1 <= ChunkCount(files(a)) && s'.clients[a].counter == 1
    ensures s'.toServer == {} && s'.toClients == {Server.Input(a, Chunk(files(a), k + 1))}
    ensures Server.Live(s'.server.con, a) == (if k + 1 == ChunkCount(files(a)) then 0 else k + 1)
    ensures Server.HasRoom(s'.server.con, a)
  {
    ReachableInv(files, init, s);
    assert ClientInv(s, files, a);
    var d := Chunk(files(a), k + 1);
    hide Apply, Reaches, Inv, ClientInv, Server.Live, Server.HasRoom, Chunk;
    SendMovesOn(s, files, a);
    var s1 := Apply(files, s, Send(a)).value;
    DeliverMovesOn(s1, files, a, k + 1);
    var s2 := Apply(files, s1, Deliver(a, d)).value;
    LosePartLeaves(s2, files, a, d);
    s' := Apply(files, s2, LosePart(a, d)).value;
    ReachesNext(files, init, s, Send(a));
    ReachesNext(files, init, s1, Deliver(a, d));
    ReachesNext(files, init, s2, LosePart(a, d));
  }

  lemma ReachesNext(files: Server.Files, init: State, s: State, act: Action)
    requires Reaches(files, init, s) && Apply(files, s, act).Some?
    ensures Reaches(files, init, Apply(files, s, act).value)
  {
    var actions: seq<Action> :| Run(Step(files), init, actions) == Some(s);
    RunConcat(Step(files), init, actions, [act]);
    assert Run(Step(files), s, [act]) == Apply(files, s, act);
    assert Run(Step(files), init, actions + [act]) == Apply(files, s, act);
  }

  /** The reply arrives, and the network loses what it still holds of it. */
  lemma ConfirmAndForget(files: Server.Files, init: State, s: State, a: Addr) returns (s': State)
    requires Reaches(files, init, s) && a in s.clients && s.clients[a].phase.Waiting?
    requires 1 <= s.clients[a].chunkNo < ChunkCount(files(a))
    requires s.toServer == {} && s.toClients == {Server.Input(a, Chunk(files(a), s.clients[a].chunkNo))}
    requires Server.HasRoom(s.server.con, a)
    ensures Reaches(files, init, s') && CleanUpTo(s', files, a, s.clients[a].chunkNo)
  {
    ReachableInv(files, init, s);
    assert ClientInv(s, files, a);
    hide Reaches, Inv, ClientInv, Server.Receive, Server.HasRoom;
    var d := Chunk(files(a), s.clients[a].chunkNo);
    ConfirmMovesOn(s, files, a);
    var ready := Apply(files, s, Confirm(a, d)).value;
    ReachesNext(files, init, s, Confirm(a, d));
    ReachesNext(files, init, ready, LoseReply(a, d));
    s' := Apply(files, ready, LoseReply(a, d)).value;
  }

  lemma NothingServed(s: Server.State, a: Addr)
    requires Server.Init(s)
    ensures Server.HasRoom(s.con, a) && Server.Live(s.con, a) == 0
  {
    assert s.con[|s.con| - 1].free;
  }

  lemma {:induction false} CleanRun(files: Server.Files, init: State, a: Addr, k: nat) returns (s: State)
    requires Init(init) && a in init.clients && k < ChunkCount(files(a))
    ensures Reaches(files, init, s) && CleanUpTo(s, files, a, k)
  {
    if k == 0 {
      s := init;
      assert Run(Step(files), init, []) == Some(s);
      NothingServed(init.server, a);
    } else {
      var before := CleanRun(files, init, a, k - 1);
      var waiting := SendAndDeliver(files, init, before, a, k - 1);
      s := ConfirmAndForget(files, init, waiting, a);
    }
  }

  /** "Both data packets and confirmations can be lost, program must resolve this
      issue" is not kept.  For every file of at least two parts there is a run in which
      one reply is lost, the whole file has been printed, the client is at its first
      attempt at the last part with a slot to be had, and still cannot complete. */
  lemma LostReplyIsFatal(files: Server.Files, init: State, a: Addr) returns (s: State)
    requires Init(init) && a in init.clients && ChunkCount(files(a)) >= 2
    ensures Reaches(files, init, s) && a in s.clients && Server.HasRoom(s.server.con, a)
    ensures s.clients[a].phase.Waiting? && s.clients[a].counter == 1
    ensures Chunks(files(a)) <= Server.Accepted(s.server.printed, a)
    ensures !CanComplete(files, s, a)
  {
    var m := ChunkCount(files(a));
    var before := CleanRun(files, init, a, m - 1);
    var waiting := SendAndDeliver(files, init, before, a, m - 1);
    var reply := LoseReply(a, Chunk(files(a), m));
    s := Apply(files, waiting, reply).value;
    ReachesNext(files, init, waiting, reply);
    QuietExactly(files, init, s, a);
    CompletesExactly(files, init, s, a);
    ReachableInv(files, init, s);
    UnconfirmableMeansPrinted(s, files, a);
  }
}

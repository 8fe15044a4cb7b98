/** Slots for more clients than the table holds: when can a client that has none still
    get one, and so complete its transfer?  Only the last part of another transfer
    frees a slot. */
module UdpRoom {
  import opened Wrappers
  import opened Traces
  import opened FileChunks
  import Server = UdpServer
  import Client = UdpClient
  import opened UdpTransfer

  predicate Served(s: State, b: Addr) { Server.Lookup(s.server.con, b) >= 0 }

  /** The last part of b's transfer can still be brought to the server, with all that
      the server lacks before it: its client can go on, or, at the last part, send that
      or have it on its way. */
  predicate CanFree(s: State, file: seq<Byte>, b: Addr)
    requires b in s.clients && 1 <= s.clients[b].chunkNo <= ChunkCount(file)
  {
    var m := ChunkCount(file);
    if s.clients[b].chunkNo < m then Confirmable(s, file, b)
    else (HasAttempt(s.clients[b]) || OnItsWay(s, file, b, m)) && !Lacks(s, file, b, m)
  }

  ghost predicate Frees(s: State, files: Server.Files, b: Addr) {
    && b in s.clients && 1 <= s.clients[b].chunkNo <= ChunkCount(files(b))
    && Served(s, b) && CanFree(s, files(b), b)
  }

  ghost predicate CanMakeRoom(s: State, files: Server.Files) { exists b :: Frees(s, files, b) }

  ghost predicate CanGetSlot(files: Server.Files, s: State, a: Addr) {
    exists actions: seq<Action> ::
      && Run(Step(files), s, actions).Some?
      && Server.HasRoom(Run(Step(files), s, actions).value.server.con, a)
  }

  // ---- Making room ----

  lemma ServedHasRoom(s: State, b: Addr)
    requires Served(s, b)
    ensures Server.HasRoom(s.server.con, b)
  {
  }

  lemma LiveMeansServed(s: State, b: Addr)
    requires Server.Live(s.server.con, b) > 0
    ensures Served(s, b)
  {
  }

  /** A run that ends with a free slot and disturbs nobody but b. */
  ghost predicate MakesRoom(s: State, files: Server.Files, b: Addr, actions: seq<Action>) {
    && Run(Step(files), s, actions).Some?
    && var s' := Run(Step(files), s, actions).value;
       && Inv(s', files) && Server.LastFree(s'.server.con) >= 0
       && forall c {:trigger Undisturbed(s, s', c)} :: c != b ==> Undisturbed(s, s', c)
  }

  lemma MakesRoomLater(s: State, files: Server.Files, b: Addr, first: seq<Action>, rest: seq<Action>)
    requires Run(Step(files), s, first).Some?
    requires var mid := Run(Step(files), s, first).value;
             && (forall c {:trigger Undisturbed(s, mid, c)} :: c != b ==> Undisturbed(s, mid, c))
             && MakesRoom(mid, files, b, rest)
    ensures MakesRoom(s, files, b, first + rest)
  {
    var mid := Run(Step(files), s, first).value;
    RunConcat(Step(files), s, first, rest);
    UndisturbedFurther(s, mid, Run(Step(files), mid, rest).value, b);
  }

  lemma MakesRoomNext(s: State, files: Server.Files, b: Addr, act: Action, rest: seq<Action>)
    requires Inv(s, files) && Apply(files, s, act).Some? && !act.LosePart? && !act.LoseReply? && act.a == b
    requires MakesRoom(Apply(files, s, act).value, files, b, rest)
    ensures MakesRoom(s, files, b, [act] + rest)
  {
    assert Run(Step(files), s, [act]) == Apply(files, s, act);
    OthersUndisturbed(s, files, act);
    MakesRoomLater(s, files, b, [act], rest);
  }

  lemma LastPartAccepted(s: State, files: Server.Files, b: Addr)
    requires Inv(s, files) && Server.HasRoom(s.server.con, b)
    requires var m := ChunkCount(files(b)); Server.Live(s.server.con, b) == m - 1 && OnItsWay(s, files(b), b, m)
    ensures var s' := Apply(files, s, Deliver(b, Chunk(files(b), ChunkCount(files(b)))));
            s'.Some? && Server.LastFree(s'.value.server.con) >= 0
  {
    hide Inv, Server.Receive, Server.HasRoom, Server.Lookup, Server.LastFree;
    var d := Chunk(files(b), ChunkCount(files(b)));
    OneLastPart(files(b), ChunkCount(files(b)));
    Server.LastPartFreesSlot(s.server, b, d);
  }

  /** The last part, when it is the one expected, frees the slot. */
  lemma LastPartFrees(s: State, files: Server.Files, b: Addr)
    requires Inv(s, files) && Server.HasRoom(s.server.con, b)
    requires var m := ChunkCount(files(b)); Server.Live(s.server.con, b) == m - 1 && OnItsWay(s, files(b), b, m)
    ensures MakesRoom(s, files, b, [Deliver(b, Chunk(files(b), ChunkCount(files(b))))])
  {
    var m := ChunkCount(files(b));
    var act := Deliver(b, Chunk(files(b), m));
    hide Apply, Inv, Undisturbed, Server.Live, Server.HasRoom, Server.LastFree;
    DeliverMovesOn(s, files, b, m);
    OthersUndisturbed(s, files, act);
    LastPartAccepted(s, files, b);
    assert Run(Step(files), s, [act]) == Apply(files, s, act);
  }

  /** All missing parts are on their way: they are delivered in order. */
  lemma {:induction false} DeliverTheRest(s: State, files: Server.Files, b: Addr) returns (actions: seq<Action>)
    requires Inv(s, files) && Server.HasRoom(s.server.con, b)
    requires OnItsWay(s, files(b), b, ChunkCount(files(b))) && !Lacks(s, files(b), b, ChunkCount(files(b)))
    ensures MakesRoom(s, files, b, actions)
    decreases ChunkCount(files(b)) - Server.Live(s.server.con, b)
  {
    var m, live := ChunkCount(files(b)), Server.Live(s.server.con, b);
    LiveNonNegative(s, files, b);
    hide Apply, Inv, MakesRoom, Server.Live, Server.HasRoom;
    if live == m - 1 {
      actions := [Deliver(b, Chunk(files(b), m))];
      LastPartFrees(s, files, b);
    } else {
      var act := Deliver(b, Chunk(files(b), live + 1));
      assert OnItsWay(s, files(b), b, live + 1);
      DeliverMovesOn(s, files, b, live + 1);
      var s' := Apply(files, s, act).value;
      assert forall j :: 1 <= j <= m ==> OnItsWay(s', files(b), b, j) == OnItsWay(s, files(b), b, j);
      var rest := DeliverTheRest(s', files, b);
      actions := [act] + rest;
      MakesRoomNext(s, files, b, act, rest);
    }
  }

  /** At the last part: it is sent, if it is not on its way, and delivered after what is missing. */
  lemma FinishAtLast(s: State, files: Server.Files, b: Addr) returns (actions: seq<Action>)
    requires Inv(s, files) && Server.HasRoom(s.server.con, b) && b in s.clients && ClientInv(s, files, b)
    requires s.clients[b].chunkNo == ChunkCount(files(b)) && CanFree(s, files(b), b)
    ensures MakesRoom(s, files, b, actions)
    decreases if OnItsWay(s, files(b), b, ChunkCount(files(b))) then 0 else if s.clients[b].phase.Ready? then 1 else 2
  {
    var m := ChunkCount(files(b));
    if OnItsWay(s, files(b), b, m) {
      actions := DeliverTheRest(s, files, b);
    } else {
      var act := if s.clients[b].phase.Ready? then Send(b) else Timeout(b);
      if act.Send? {
        SendMovesOn(s, files, b);
      } else {
        TimeoutMovesOn(s, files, b);
      }
      var s' := Apply(files, s, act).value;
      assert forall j :: 1 <= j < m && OnItsWay(s, files(b), b, j) ==> OnItsWay(s', files(b), b, j);
      InvOfClient(s', files, b);
      var rest := FinishAtLast(s', files, b);
      actions := [act] + rest;
      MakesRoomNext(s, files, b, act, rest);
    }
  }

  /** The client has moved on to a part that the server expects. */
  lemma NextPartFrees(s: State, files: Server.Files, b: Addr)
    requires Inv(s, files) && b in s.clients && s.clients[b].phase.Ready?
    requires 2 <= s.clients[b].chunkNo && Server.Live(s.server.con, b) == s.clients[b].chunkNo - 1
    ensures Frees(s, files, b)
  {
    InvOfClient(s, files, b);
    LiveMeansServed(s, b);
  }

  lemma {:induction false} MakeRoom(s: State, files: Server.Files, b: Addr) returns (actions: seq<Action>)
    requires Inv(s, files) && Frees(s, files, b)
    ensures MakesRoom(s, files, b, actions)
    decreases ChunkCount(files(b)) - s.clients[b].chunkNo
  {
    ServedHasRoom(s, b);
    InvOfClient(s, files, b);
    var k := s.clients[b].chunkNo;
    assert k < ChunkCount(files(b)) ==> Confirmable(s, files(b), b);
    if k == ChunkCount(files(b)) {
      actions := FinishAtLast(s, files, b);
    } else {
      hide Inv, ClientInv, Frees, CanFree, Confirmable, Undisturbed, Apply;
      var first := CanConfirm(s, files, b);
      var s' := Run(Step(files), s, first).value;
      InvOfClient(s', files, b);
      NextPartFrees(s', files, b);
      var rest := MakeRoom(s', files, b);
      actions := first + rest;
      MakesRoomLater(s, files, b, first, rest);
    }
  }

  // ---- No room to be made ----

  /** The table is full, without a slot for a, and none of those served can free theirs. */
  ghost predicate NoRoom(s: State, files: Server.Files, a: Addr) {
    && !Server.HasRoom(s.server.con, a)
    && forall b {:trigger Frees(s, files, b)} :: !Frees(s, files, b)
  }

  /** At the last part: what is lacking or cannot be sent stays so. */
  lemma StepStaysUnfreeAtLast(s: State, files: Server.Files, b: Addr, act: Action)
    requires Inv(s, files) && b in s.clients && ClientInv(s, files, b) && Apply(files, s, act).Some?
    requires s.clients[b].chunkNo == ChunkCount(files(b)) && !CanFree(s, files(b), b)
    ensures var s' := Apply(files, s, act).value;
            && b in s'.clients && s'.clients[b].chunkNo == ChunkCount(files(b)) && !CanFree(s', files(b), b)
  {
    var s', m := Apply(files, s, act).value, ChunkCount(files(b));
    if Lacks(s, files(b), b, m) {
      StepStaysLacking(s, files, b, act);
      StepStaysAtLast(s, files, b, act);
    } else {
      StepStaysSilent(s, files, b, act);
    }
  }

  lemma StepStaysAtLast(s: State, files: Server.Files, b: Addr, act: Action)
    requires Inv(s, files) && b in s.clients && ClientInv(s, files, b) && Apply(files, s, act).Some?
    requires s.clients[b].chunkNo == ChunkCount(files(b))
    ensures var s' := Apply(files, s, act).value; b in s'.clients && s'.clients[b].chunkNo == ChunkCount(files(b))
  {
  }

  lemma StepStaysUnfree(s: State, files: Server.Files, b: Addr, act: Action)
    requires Inv(s, files) && b in s.clients && ClientInv(s, files, b) && Apply(files, s, act).Some?
    requires 1 <= s.clients[b].chunkNo <= ChunkCount(files(b)) && !CanFree(s, files(b), b)
    ensures var s' := Apply(files, s, act).value;
            && b in s'.clients && 1 <= s'.clients[b].chunkNo <= ChunkCount(files(b)) && !CanFree(s', files(b), b)
  {
    if s.clients[b].chunkNo == ChunkCount(files(b)) {
      StepStaysUnfreeAtLast(s, files, b, act);
    } else {
      NotConfirmableIsHopeless(s, files(b), files, b);
      StepStaysHopeless(s, files, b, act);
    }
  }

  /** With a full table and nobody able to free a slot, no delivery changes who is served. */
  lemma DeliveryKeepsSlots(s: State, files: Server.Files, a: Addr, b: Addr, d: Datagram)
    requires Inv(s, files) && NoRoom(s, files, a) && Apply(files, s, Deliver(b, d)).Some?
    ensures var s' := Apply(files, s, Deliver(b, d)).value;
            && !Server.HasRoom(s'.server.con, a)
            && forall c {:trigger Served(s', c)} :: Served(s', c) <==> Served(s, c)
  {
    var con, con' := s.server.con, Apply(files, s, Deliver(b, d)).value.server.con;
    assert PartInv(s, files, Server.Input(b, d));
    if Server.Accepts(s.server, b, d) {
      NotTheLast(s, files, b, d);
    }
    assert |con'| == |con| && forall k :: 0 <= k < |con| ==> con'[k].free == con[k].free && con'[k].addr == con[k].addr;
    forall c ensures Server.Lookup(con', c) == Server.Lookup(con, c) {
      Server.FirstHit(con', c, Server.Lookup(con, c));
    }
  }

  /** An accepted part of a served client that cannot free its slot is not its last. */
  lemma NotTheLast(s: State, files: Server.Files, b: Addr, d: Datagram)
    requires Inv(s, files) && PartInv(s, files, Server.Input(b, d)) && Server.Input(b, d) in s.toServer
    requires Served(s, b) && !Frees(s, files, b) && Server.Accepts(s.server, b, d)
    ensures d.last == 0
  {
    InvOfClient(s, files, b);
    OneLastPart(files(b), d.chunkNo);
  }

  lemma StepKeepsNoRoom(s: State, files: Server.Files, a: Addr, act: Action)
    requires Inv(s, files) && NoRoom(s, files, a) && Apply(files, s, act).Some?
    ensures NoRoom(Apply(files, s, act).value, files, a)
  {
    var s' := Apply(files, s, act).value;
    if act.Deliver? {
      DeliveryKeepsSlots(s, files, a, act.a, act.d);
    }
    forall b ensures !Frees(s', files, b) {
      if b in s'.clients && Served(s', b) {
        assert b in s.clients && Served(s, b);
        InvOfClient(s, files, b);
        assert !Frees(s, files, b);
        StepStaysUnfree(s, files, b, act);
      }
    }
  }

  lemma {:induction false} NoRoomForEver(s: State, files: Server.Files, a: Addr, actions: seq<Action>)
    requires Inv(s, files) && NoRoom(s, files, a) && Run(Step(files), s, actions).Some?
    ensures !Server.HasRoom(Run(Step(files), s, actions).value.server.con, a)
    decreases |actions|
  {
    if actions != [] {
      StepKeepsInv(s, files, actions[0]);
      StepKeepsNoRoom(s, files, a, actions[0]);
      NoRoomForEver(Apply(files, s, actions[0]).value, files, a, actions[1..]);
    }
  }

  /** A client can get a slot if and only if it has one, one is free, or one of those
      served can still bring its last part to the server. */
  lemma SlotExactly(files: Server.Files, init: State, s: State, a: Addr)
    requires Reaches(files, init, s)
    ensures CanGetSlot(files, s, a) <==> Server.HasRoom(s.server.con, a) || CanMakeRoom(s, files)
  {
    ReachableInv(files, init, s);
    if Server.HasRoom(s.server.con, a) {
      assert Run(Step(files), s, []) == Some(s);
    } else if CanMakeRoom(s, files) {
      var b :| Frees(s, files, b);
      var actions := MakeRoom(s, files, b);
    } else if CanGetSlot(files, s, a) {
      var actions: seq<Action> :|
        && Run(Step(files), s, actions).Some?
        && Server.HasRoom(Run(Step(files), s, actions).value.server.con, a);
      NoRoomForEver(s, files, a, actions);
    }
  }

  // ---- Completion, with or without a slot ----

  /** Disturbing nobody keeps what can be confirmed so. */
  lemma StaysConfirmable(s: State, s': State, file: seq<Byte>, a: Addr)
    requires a in s.clients && 1 <= s.clients[a].chunkNo <= ChunkCount(file) && Confirmable(s, file, a)
    requires Undisturbed(s, s', a)
    ensures Confirmable(s', file, a)
  {
    assert forall j :: 1 <= j <= ChunkCount(file) && OnItsWay(s, file, a, j) ==> OnItsWay(s', file, a, j);
  }

  /** Without a slot, the reply to the current part can only be that to the last one. */
  lemma EchoWithoutSlotIsLast(s: State, files: Server.Files, a: Addr)
    requires Inv(s, files) && a in s.clients && ClientInv(s, files, a) && !Server.HasRoom(s.server.con, a)
    requires Echoed(s, files(a), a, s.clients[a].chunkNo)
    ensures s.clients[a].chunkNo == ChunkCount(files(a))
  {
    assert ReplyInv(s, files, Server.Input(a, Chunk(files(a), s.clients[a].chunkNo)));
    if s.clients[a].chunkNo < ChunkCount(files(a)) {
      LiveIsProgress(s, files, a);
    }
  }

  /** The reply to the last part is there: it is heard. */
  lemma HearTheLast(s: State, files: Server.Files, a: Addr) returns (actions: seq<Action>)
    requires Inv(s, files) && a in s.clients && ClientInv(s, files, a)
    requires s.clients[a].phase.Ready? || s.clients[a].phase.Waiting?
    requires s.clients[a].chunkNo == ChunkCount(files(a)) && Echoed(s, files(a), a, s.clients[a].chunkNo)
    ensures Run(Step(files), s, actions).Some?
    ensures var s' := Run(Step(files), s, actions).value; a in s'.clients && s'.clients[a].phase.Finished?
    decreases s.clients[a].phase.Ready?
  {
    if s.clients[a].phase.Ready? {
      SendMovesOn(s, files, a);
      var s' := Apply(files, s, Send(a)).value;
      InvOfClient(s', files, a);
      var rest := HearTheLast(s', files, a);
      actions := [Send(a)] + rest;
      assert actions[1..] == rest;
    } else {
      var act := Confirm(a, Chunk(files(a), s.clients[a].chunkNo));
      ConfirmMovesOn(s, files, a);
      actions := [act];
      assert Run(Step(files), s, actions) == Apply(files, s, act);
    }
  }

  /** First somebody else's slot is freed, then the transfer completed. */
  lemma CompleteAfterRoom(s: State, files: Server.Files, a: Addr) returns (actions: seq<Action>)
    requires Inv(s, files) && a in s.clients && ClientInv(s, files, a) && !Server.HasRoom(s.server.con, a)
    requires Confirmable(s, files(a), a) && CanMakeRoom(s, files)
    ensures Run(Step(files), s, actions).Some?
    ensures var s' := Run(Step(files), s, actions).value; a in s'.clients && s'.clients[a].phase.Finished?
  {
    var b :| Frees(s, files, b);
    assert b != a by { if b == a { ServedHasRoom(s, b); } }
    var first := MakeRoom(s, files, b);
    var s' := Run(Step(files), s, first).value;
    assert Undisturbed(s, s', a);
    InvOfClient(s', files, a);
    StaysConfirmable(s, s', files(a), a);
    var rest := CanFinishFrom(s', files, a);
    RunConcat(Step(files), s, first, rest);
    actions := first + rest;
  }

  /** Without a slot to be had and without its reply, a client never hears one. */
  lemma {:induction false} NoSlotNeverFinishes(s: State, files: Server.Files, a: Addr, actions: seq<Action>)
    requires Inv(s, files) && NoRoom(s, files, a) && a in s.clients && ClientInv(s, files, a)
    requires !s.clients[a].phase.Finished? && !Echoed(s, files(a), a, s.clients[a].chunkNo)
    requires Run(Step(files), s, actions).Some?
    ensures var s' := Run(Step(files), s, actions).value; a in s'.clients && !s'.clients[a].phase.Finished?
    decreases |actions|
  {
    if actions != [] {
      var act, s' := actions[0], Apply(files, s, actions[0]).value;
      StepKeepsInv(s, files, act);
      StepKeepsNoRoom(s, files, a, act);
      StepStaysAt(s, files, a, act);
      InvOfClient(s', files, a);
      assert !Echoed(s', files(a), a, s'.clients[a].chunkNo);
      NoSlotNeverFinishes(s', files, a, actions[1..]);
    }
  }

  /** From every reachable state, whatever slots there are: a client's transfer can be
      completed if and only if it is through, or its current part can be confirmed and
      either the reply is on its way, or it has or can get a slot. */
  lemma CompletesExactly(files: Server.Files, init: State, s: State, a: Addr)
    requires Reaches(files, init, s) && a in s.clients
    ensures 1 <= s.clients[a].chunkNo <= ChunkCount(files(a))
    ensures CanComplete(files, s, a) <==>
            || s.clients[a].phase.Finished?
            || (&& Confirmable(s, files(a), a)
                && (|| Echoed(s, files(a), a, s.clients[a].chunkNo)
                    || Server.HasRoom(s.server.con, a) || CanMakeRoom(s, files)))
  {
    ReachableInv(files, init, s);
    InvOfClient(s, files, a);
    if Server.HasRoom(s.server.con, a) || s.clients[a].phase.Finished? {
      WithSlotOrFinished(files, init, s, a);
    } else if CanComplete(files, s, a) {
      OnlyConfirmableCompletes(files, init, s, a);
      if !Echoed(s, files(a), a, s.clients[a].chunkNo) && !CanMakeRoom(s, files) {
        var actions: seq<Action> :|
          && Run(Step(files), s, actions).Some?
          && var s' := Run(Step(files), s, actions).value;
             a in s'.clients && s'.clients[a].phase.Finished?;
        NoSlotNeverFinishes(s, files, a, actions);
      }
    } else if Confirmable(s, files(a), a) {
      if Echoed(s, files(a), a, s.clients[a].chunkNo) {
        EchoWithoutSlotIsLast(s, files, a);
        var actions := HearTheLast(s, files, a);
      } else if CanMakeRoom(s, files) {
        var actions := CompleteAfterRoom(s, files, a);
      }
    }
  }

  lemma WithSlotOrFinished(files: Server.Files, init: State, s: State, a: Addr)
    requires Reaches(files, init, s) && a in s.clients
    requires Server.HasRoom(s.server.con, a) || s.clients[a].phase.Finished?
    ensures 1 <= s.clients[a].chunkNo <= ChunkCount(files(a))
    ensures CanComplete(files, s, a) <==> s.clients[a].phase.Finished? || Confirmable(s, files(a), a)
  {
    ReachableInv(files, init, s);
    InvOfClient(s, files, a);
    if s.clients[a].phase.Finished? {
      assert Run(Step(files), s, []) == Some(s);
    } else {
      UdpTransfer.CompletesExactly(files, init, s, a);
    }
  }

  /** Only the reply to the last of several parts is one the client cannot do without: if
      it has an attempt left and has or can get a slot, and its transfer can no longer be
      completed, the whole file has been printed. */
  lemma StrandedMeansPrinted(files: Server.Files, init: State, s: State, a: Addr)
    requires Reaches(files, init, s) && a in s.clients && HasAttempt(s.clients[a]) && CanGetSlot(files, s, a)
    requires !CanComplete(files, s, a)
    ensures s.clients[a].chunkNo == ChunkCount(files(a)) >= 2
    ensures Chunks(files(a)) <= Server.Accepted(s.server.printed, a)
  {
    CompletesExactly(files, init, s, a);
    SlotExactly(files, init, s, a);
    ReachableInv(files, init, s);
    UnconfirmableMeansPrinted(s, files, a);
  }
}

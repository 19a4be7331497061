/** What the control protocol's invariant means: for every run, every cut of the streams, every number of streams
    and any other clients calling in between. */
module ControlTheorems {
  import opened Bytes
  import opened Sequences
  import opened Framing
  import opened ByteOrder
  import opened ControlProtocol
  import opened ControlInvariant
  import opened StreamPairing

  // ------------------------------------------------------------------ synchronisation

  /** In every run each side has read a prefix of what the other wrote, message by message: a state byte was written
      as a state byte and a document as that document. The client never fails, and the server exactly if it accepted
      a connection that ends the test. */
  lemma Synchronised(cfg: Config, actions: seq<Action>, s: System)
    requires ConfigOk(cfg) && Run(cfg, actions, s)
    ensures s.client.readLog <= s.server.writeLog && s.server.readLog <= s.client.writeLog
    ensures s.client.pc != CFailed && (s.server.pc == SFailed <==> !Harmless(cfg, actions))
    ensures s.client.results.Some? ==> Document(s.client.results.value) in s.server.writeLog
    ensures s.server.results.Some? ==> Document(s.server.results.value) in s.client.writeLog
  {
    hide StreamsOf, Encode, Run, ConfigOk, HeadOf, Harmless;
    RunInv(cfg, actions, s);
    var cr, cw, sr, sw := |s.client.readLog|, |s.client.writeLog|, |s.server.readLog|, |s.server.writeLog|;
    assert ServerScript(cfg)[..cr] == ServerScript(cfg)[..sw][..cr];
    assert ClientScript(cfg)[..sr] == ClientScript(cfg)[..cw][..sr];
    if s.client.results.Some? {
      assert ServerScript(cfg)[..sw][5] == Document(cfg.serverResults);
    }
    if s.server.results.Some? {
      assert ClientScript(cfg)[..cw][3] == Document(cfg.clientResults);
    }
  }

  // -------------------------------------------------------------------------- progress

  ghost predicate Finished(s: System) {
    s.client.pc == CDone && s.server.pc == SDone
  }

  /** A reader that waits for the next message of the script has bytes coming if the writer is ahead. */
  lemma Coming(script: seq<Msg>, r: nat, w: nat, partial: Text, stream: Text)
    requires InStep(script, r, w, partial, stream, []) && r < w
    requires |partial| < |Wire(script[r])|
    ensures stream != []
  {
  }

  /** The protocol is half-duplex: the two sides never have bytes to write at the same time. */
  lemma HalfDuplex(cfg: Config, s: System)
    requires Inv(cfg, s)
    ensures s.client.outbox == [] || s.server.outbox == []
  {
    hide Encode, StreamsOf, HeadOf;
    FirstOf(ClientScript(cfg), |s.server.readLog|, |s.client.writeLog|);
    FirstOf(ServerScript(cfg), |s.client.readLog|, |s.server.writeLog|);
  }

  /** A process that reads wants more bytes than it has. */
  lemma ClientWants(cfg: Config, s: System)
    requires ConfigOk(cfg) && Inv(cfg, s) && s.client.pc !in {CStreams, CDone}
    ensures |s.client.inbox| < ClientNeeds(s.client) && |s.client.readLog| < 7
    ensures |ClientPartial(s.client)| < |Wire(ServerScript(cfg)[|s.client.readLog|])|
  {
    hide InStep, StreamsOf, ServerStage, Fits, Value, HeadOf;
    FrameSize(cfg.serverResults, 0);
  }

  lemma ServerWants(cfg: Config, s: System)
    requires ConfigOk(cfg) && Inv(cfg, s) && s.server.pc !in {SIdle, SDone}
    ensures |s.server.inbox| < ServerNeeds(s.server) && |s.server.readLog| < 5
    ensures |ServerPartial(s.server)| < |Wire(ClientScript(cfg)[|s.server.readLog|])|
  {
    hide InStep, StreamsOf, ClientStage, Fits, Value, HeadOf;
    FrameSize(cfg.clientResults, 0);
    FrameSize(ParamsOf(cfg), MAX_PARAMS_JSON_STRING);
  }

  /** With nothing left to write on the other side, the client can read if the server is ahead of it. */
  lemma ClientCanRead(cfg: Config, s: System)
    requires ConfigOk(cfg) && Inv(cfg, s) && s.client.outbox == [] && s.server.outbox == []
    requires s.client.pc !in {CStreams, CDone} && |s.client.readLog| < |s.server.writeLog|
    ensures Enabled(cfg, s, ClientRead(1))
  {
    hide StreamsOf, Encode, ServerStage, ClientStage, HeadOf, Wire;
    ClientWants(cfg, s);
    Coming(ServerScript(cfg), |s.client.readLog|, |s.server.writeLog|, ClientPartial(s.client), s.toClient);
  }

  lemma ServerCanRead(cfg: Config, s: System)
    requires ConfigOk(cfg) && Inv(cfg, s) && s.client.outbox == [] && s.server.outbox == []
    requires s.server.pc !in {SIdle, SDone} && |s.server.readLog| < |s.client.writeLog|
    ensures Enabled(cfg, s, ServerRead(1))
  {
    hide StreamsOf, Encode, ServerStage, ClientStage, HeadOf, Wire;
    ServerWants(cfg, s);
    Coming(ClientScript(cfg), |s.server.readLog|, |s.client.writeLog|, ServerPartial(s.server), s.toServer);
  }

  /** A writer whose peer's buffer of `room` bytes is full finds that peer reading. */
  lemma WriterGetsOn(cfg: Config, s: System, room: nat) returns (a: Action)
    requires ConfigOk(cfg) && Inv(cfg, s) && room > 0 && (s.client.outbox != [] || s.server.outbox != [])
    ensures Enabled(cfg, s, a) && !a.ForeignConnect? && FitsRoom(s, a, room)
  {
    hide InStep, StreamsOf, HeadOf, ConfigOk;
    HalfDuplex(cfg, s);
    Order(cfg, s);
    if s.client.outbox != [] {
      if |s.toServer| < room {
        return ClientWrite(1);
      }
      if s.server.pc == SIdle {
        return ServerAccept;
      }
      StillComing(cfg, s);
      ServerWants(cfg, s);
      return ServerRead(1);
    }
    if |s.toClient| < room {
      return ServerWrite(1);
    }
    StillComing(cfg, s);
    if s.client.pc == CStreams {
      return ClientConnect;
    }
    ClientWants(cfg, s);
    return ClientRead(1);
  }

  /** A side that is done has no bytes coming. */
  lemma StillComing(cfg: Config, s: System)
    requires Inv(cfg, s)
    ensures s.client.outbox != [] ==> s.server.pc != SDone
    ensures s.server.outbox != [] ==> s.client.pc != CDone
  {
    hide Encode, StreamsOf, HeadOf;
    FirstOf(ClientScript(cfg), |s.server.readLog|, |s.client.writeLog|);
    FirstOf(ServerScript(cfg), |s.client.readLog|, |s.server.writeLog|);
  }

  /** A write puts no more than `room` bytes into the stream. */
  predicate FitsRoom(s: System, a: Action, room: nat) {
    && (a.ClientWrite? ==> |s.toServer| + a.n <= room)
    && (a.ServerWrite? ==> |s.toClient| + a.n <= room)
  }

  /** No deadlock, with buffers of any size from one byte on: until both sides are done, or the server was ended, one
      of them can take a step of its own, whatever other clients do. */
  lemma NoDeadlock(cfg: Config, actions: seq<Action>, s: System, room: nat) returns (a: Action)
    requires ConfigOk(cfg) && Run(cfg, actions, s) && s.server.pc != SFailed && !Finished(s) && room > 0
    ensures Enabled(cfg, s, a) && !a.ForeignConnect? && FitsRoom(s, a, room)
  {
    hide Run, ConfigOk, InStep, HeadOf, StreamsOf, Harmless;
    RunInv(cfg, actions, s);
    a := CanAct(cfg, s, room);
  }

  lemma CanAct(cfg: Config, s: System, room: nat) returns (a: Action)
    requires ConfigOk(cfg) && Inv(cfg, s) && !Finished(s) && room > 0
    ensures Enabled(cfg, s, a) && !a.ForeignConnect? && FitsRoom(s, a, room)
  {
    hide ConfigOk, InStep, HeadOf, StreamsOf;
    if s.client.outbox != [] || s.server.outbox != [] {
      a := WriterGetsOn(cfg, s, room);
      return;
    }
    if s.client.pc == CStreams {
      return ClientConnect;
    }
    if s.server.pc == SIdle {
      return ServerAccept;
    }
    if s.client.pc == CLoop && s.client.state == TEST_RUNNING {
      return ClientFinish;
    }
    Order(cfg, s);
    if s.client.pc != CDone && |s.client.readLog| < |s.server.writeLog| {
      ClientCanRead(cfg, s);
      return ClientRead(1);
    }
    if s.server.pc != SDone && |s.server.readLog| < |s.client.writeLog| {
      ServerCanRead(cfg, s);
      return ServerRead(1);
    }
    StreamsWait(cfg, s);
    return ServerAccept;
  }

  /** With every stream made and not all accepted, one is in the queue. */
  lemma StreamsWait(cfg: Config, s: System)
    requires Inv(cfg, s) && !Finished(s) && s.client.pc != CStreams && s.server.pc != SIdle
    requires s.client.outbox == [] && s.server.outbox == []
    requires !(s.client.pc == CLoop && s.client.state == TEST_RUNNING)
    requires s.client.pc == CDone || |s.client.readLog| >= |s.server.writeLog|
    requires s.server.pc == SDone || |s.server.readLog| >= |s.client.writeLog|
    ensures Enabled(cfg, s, ServerAccept)
  {
    hide InStep, HeadOf;
    Order(cfg, s);
    assert s.server.accepted + [] == s.server.accepted;
  }

  // ----------------------------------------------------------------------- termination

  /** The bytes a process has still to put on the wire. */
  function Unwritten(script: seq<Msg>, w: nat, outbox: Text): nat
    requires w <= |script|
  {
    |outbox| + |Encode(script[w..])|
  }

  /** What is left to do: bytes to write and to read, streams to make and to accept, callers to answer, and the end
      of the test. */
  ghost function Work(cfg: Config, s: System): int
    requires Inv(cfg, s)
  {
    2 * Unwritten(ClientScript(cfg), |s.client.writeLog|, s.client.outbox) + |s.toServer|
    + 2 * Unwritten(ServerScript(cfg), |s.server.writeLog|, s.server.outbox) + |s.toClient|
    + 2 * (Total(cfg) - s.client.made) + |s.queue|
    + if |s.client.writeLog| >= 3 then 0 else 1
  }

  /** Messages added to an outbox and to the log together. */
  ghost predicate Said(log: seq<Msg>, outbox: Text, log': seq<Msg>, outbox': Text) {
    log <= log' && outbox' == outbox + Encode(log'[|log|..])
  }

  lemma SaidNothing(log: seq<Msg>, outbox: Text)
    ensures Said(log, outbox, log, outbox)
  {
    assert log[|log|..] == [] && outbox + [] == outbox;
  }

  lemma SaidSome(log: seq<Msg>, outbox: Text, ms: seq<Msg>)
    ensures Said(log, outbox, log + ms, outbox + Encode(ms))
  {
  }

  lemma UnwrittenStays(script: seq<Msg>, w: nat, outbox: Text, w': nat, outbox': Text)
    requires w <= w' <= |script| && Said(script[..w], outbox, script[..w'], outbox')
    ensures Unwritten(script, w', outbox') == Unwritten(script, w, outbox)
  {
    hide Encode;
    EncodeSplit(script[w..w'], script[w'..]);
    assert script[w..] == script[w..w'] + script[w'..];
    assert script[..w'][w..] == script[w..w'];
  }

  lemma ClientOnReadSays(cfg: Config, c: Client)
    ensures var d := ClientOnRead(cfg, c);
            Said(c.writeLog, c.outbox, d.writeLog, d.outbox) && d.made == c.made
    ensures |c.writeLog| >= 3 ==> |ClientOnRead(cfg, c).writeLog| >= 3
  {
    hide Encode, Value, ParsedText, LengthOk, Total, Said;
    SaidNothing(c.writeLog, c.outbox);
    SaidSome(c.writeLog, c.outbox, [Document(ParamsOf(cfg))]);
    SaidSome(c.writeLog, c.outbox, [Document(cfg.clientResults)]);
    SaidSome(c.writeLog, c.outbox, [State(IPERF_DONE)]);
  }

  lemma ServerOnReadSays(cfg: Config, v: Server)
    requires |v.accepted| != 0 ==> v.pc != SParamLength && !v.pc.SParamBody?
    ensures var d := ServerOnRead(cfg, v); Said(v.writeLog, v.outbox, d.writeLog, d.outbox)
  {
    hide Encode, Value, ParsedText, LengthOk, Said, ExpectedIn;
    SaidNothing(v.writeLog, v.outbox);
    SaidSome(v.writeLog, v.outbox, [State(PARAM_EXCHANGE)]);
    SaidSome(v.writeLog, v.outbox, [State(CREATE_STREAMS)]);
    SaidSome(v.writeLog, v.outbox, [State(EXCHANGE_RESULTS)]);
    SaidSome(v.writeLog, v.outbox, [Document(cfg.serverResults), State(DISPLAY_RESULTS)]);
    SaidTwice(v.writeLog, v.outbox, [State(CREATE_STREAMS)], [State(TEST_START), State(TEST_RUNNING)]);
  }

  lemma SaidTwice(log: seq<Msg>, outbox: Text, a: seq<Msg>, b: seq<Msg>)
    ensures Said(log, outbox, log + a + b, outbox + Encode(a) + Encode(b))
  {
    hide Encode;
    EncodeSplit(a, b);
    SaidSome(log, outbox, a + b);
    assert log + (a + b) == log + a + b;
    Associates(outbox, Encode(a), Encode(b));
  }

  lemma ServerOnConnectionSays(v: Server, conn: Conn)
    ensures var d := ServerOnConnection(v, conn); Said(v.writeLog, v.outbox, d.writeLog, d.outbox)
  {
  }

  lemma ClientWork(cfg: Config, s: System, t: System)
    requires Inv(cfg, s) && Inv(cfg, t)
    requires Said(s.client.writeLog, s.client.outbox, t.client.writeLog, t.client.outbox)
    ensures Unwritten(ClientScript(cfg), |t.client.writeLog|, t.client.outbox)
         == Unwritten(ClientScript(cfg), |s.client.writeLog|, s.client.outbox)
  {
    hide Encode, Unwritten, InStep, StreamsOf, ServerStage, ClientStage, Said, Queued;
    LogsGrow(s.client.writeLog, s.client.outbox, t.client.writeLog, t.client.outbox);
    UnwrittenStays(ClientScript(cfg), |s.client.writeLog|, s.client.outbox, |t.client.writeLog|, t.client.outbox);
  }

  lemma ServerWork(cfg: Config, s: System, t: System)
    requires Inv(cfg, s) && Inv(cfg, t)
    requires Said(s.server.writeLog, s.server.outbox, t.server.writeLog, t.server.outbox)
    ensures Unwritten(ServerScript(cfg), |t.server.writeLog|, t.server.outbox)
         == Unwritten(ServerScript(cfg), |s.server.writeLog|, s.server.outbox)
  {
    hide Encode, Unwritten, InStep, StreamsOf, ServerStage, ClientStage, Said, Queued;
    LogsGrow(s.server.writeLog, s.server.outbox, t.server.writeLog, t.server.outbox);
    UnwrittenStays(ServerScript(cfg), |s.server.writeLog|, s.server.outbox, |t.server.writeLog|, t.server.outbox);
  }

  lemma LogsGrow(log: seq<Msg>, outbox: Text, log': seq<Msg>, outbox': Text)
    requires Said(log, outbox, log', outbox')
    ensures |log| <= |log'|
  {
  }

  /** Every step of the two sides leaves less to do; another client's call leaves one caller more to answer. */
  lemma WorkShrinks(cfg: Config, s: System, a: Action)
    requires ConfigOk(cfg) && Inv(cfg, s) && Enabled(cfg, s, a) && !Fatal(s, a)
    ensures Inv(cfg, Next(cfg, s, a))
    ensures if a.ForeignConnect? then Work(cfg, Next(cfg, s, a)) == Work(cfg, s) + 1
            else Work(cfg, Next(cfg, s, a)) < Work(cfg, s)
  {
    hide Encode, InStep, StreamsOf, ConfigOk, Said, ClientOnRead, ServerOnRead, ServerOnConnection, Fatal;
    hide ServerStage, Queued, HeadOf, Unwritten;
    StepKeepsInv(cfg, s, a);
    var t := Next(cfg, s, a);
    match a
    case ClientRead(n) =>
      ClientOnReadSays(cfg, s.client.(inbox := s.client.inbox + s.toClient[..n]));
      ClientWork(cfg, s, t);
    case ServerRead(n) =>
      NoStreamsYet(cfg, s);
      ServerOnReadSays(cfg, s.server.(inbox := s.server.inbox + s.toServer[..n]));
      ServerWork(cfg, s, t);
    case ServerAccept =>
      ServerOnConnectionSays(s.server, s.queue[0]);
      ServerWork(cfg, s, t);
    case ClientFinish =>
      SaidSome(s.client.writeLog, s.client.outbox, [State(TEST_END)]);
      ClientWork(cfg, s, t);
    case ClientWrite(n) => Wrote(ClientScript(cfg), |s.client.writeLog|, s.client.outbox, n);
    case ServerWrite(n) => Wrote(ServerScript(cfg), |s.server.writeLog|, s.server.outbox, n);
    case _ =>
  }

  lemma NoStreamsYet(cfg: Config, s: System)
    requires Inv(cfg, s)
    ensures |s.server.accepted| != 0 ==> s.server.pc != SParamLength && !s.server.pc.SParamBody?
  {
    hide InStep, StreamsOf, ClientStage, HeadOf, Queued;
  }

  lemma Wrote(script: seq<Msg>, w: nat, outbox: Text, n: nat)
    requires w <= |script| && n <= |outbox|
    ensures Unwritten(script, w, outbox[n..]) == Unwritten(script, w, outbox) - n
  {
    hide Encode;
  }

  function Calls(actions: seq<Action>): nat {
    if actions == [] then 0
    else Calls(actions[..|actions| - 1]) + if actions[|actions| - 1].ForeignConnect? then 1 else 0
  }

  lemma WorkIsNatural(cfg: Config, s: System)
    requires Inv(cfg, s)
    ensures Work(cfg, s) >= 0
  {
    hide Encode, InStep, StreamsOf, ServerStage, HeadOf, Queued;
  }

  /** The same for a system whose server may have been ended, and for the step that ends it. */
  lemma WorkShrinksAnyway(cfg: Config, s: System, a: Action)
    requires ConfigOk(cfg) && Inv(cfg, Revived(s)) && (s.server.pc == SFailed ==> s.server.outbox == [])
    requires Enabled(cfg, s, a)
    ensures var t := Next(cfg, s, a);
            && Inv(cfg, Revived(t)) && (t.server.pc == SFailed ==> t.server.outbox == [])
            && if a.ForeignConnect? then Work(cfg, Revived(t)) == Work(cfg, Revived(s)) + 1
               else Work(cfg, Revived(t)) < Work(cfg, Revived(s))
  {
    hide Inv, ConfigOk, Enabled, Next, Fatal, Revived, Work;
    if s.server.pc == SFailed {
      StepAfterEnd(cfg, s, a);
      WorkShrinks(cfg, Revived(s), a);
    } else {
      Unrevived(s);
      if Fatal(s, a) {
        FatalOnly(s, a);
        FatalStep(cfg, s);
        FatalWork(cfg, s);
      } else {
        WorkShrinks(cfg, s, a);
        NotFailed(cfg, Next(cfg, s, a));
      }
    }
  }

  lemma FatalWork(cfg: Config, s: System)
    requires Inv(cfg, s) && Enabled(cfg, s, ServerAccept) && Fatal(s, ServerAccept)
    requires Inv(cfg, Revived(Next(cfg, s, ServerAccept)))
    ensures Work(cfg, Revived(Next(cfg, s, ServerAccept))) == Work(cfg, s) - 1
  {
    hide InStep, StreamsOf, HeadOf, ClientStage, ServerStage, Unwritten, Queued;
  }

  /** Termination: a run takes at most as many steps as there was work at the start, and two for each call by another
      client. With `NoDeadlock`, a test that is not disturbed without end is finished on both sides, or ended. */
  lemma {:induction false} RunsAreBounded(cfg: Config, actions: seq<Action>, s: System)
    requires ConfigOk(cfg) && Run(cfg, actions, s)
    ensures Inv(cfg, Revived(s)) && Inv(cfg, Init(cfg)) && (s.server.pc == SFailed ==> s.server.outbox == [])
    ensures Work(cfg, Revived(s)) + |actions| <= Work(cfg, Init(cfg)) + 2 * Calls(actions)
    ensures |actions| <= Work(cfg, Init(cfg)) + 2 * Calls(actions)
    decreases |actions|
  {
    hide ConfigOk, Enabled, Next, Init, Inv, Work, Revived;
    InitInv(cfg);
    RunInv(cfg, actions, s);
    WorkIsNatural(cfg, Revived(s));
    if actions == [] {
      NotFailed(cfg, s);
    } else {
      var short, last := actions[..|actions| - 1], actions[|actions| - 1];
      var before := Reach(cfg, short).value;
      RunsAreBounded(cfg, short, before);
      WorkShrinksAnyway(cfg, before, last);
    }
  }

  // ------------------------------------------------------------------------- agreement

  /** TEST_END is written once at most, before results are exchanged. */
  lemma TestEndOnce(cfg: Config, actions: seq<Action>, s: System)
    requires ConfigOk(cfg) && Run(cfg, actions, s)
    ensures multiset(s.client.writeLog)[State(TEST_END)] == if |s.client.writeLog| >= 3 then 1 else 0
    ensures State(EXCHANGE_RESULTS) in s.server.writeLog ==> State(TEST_END) in s.client.writeLog
  {
    hide InStep, StreamsOf, ConfigOk, HeadOf, Queued, Run, Harmless;
    RunInv(cfg, actions, s);
    var w := |s.client.writeLog|;
    CountEnds(cfg, w);
    Order(cfg, Revived(s));
    if State(EXCHANGE_RESULTS) in s.server.writeLog {
      ResultsAreFifth(cfg, |s.server.writeLog|);
      assert ClientScript(cfg)[..w][2] == State(TEST_END);
    }
  }

  lemma CountEnds(cfg: Config, w: nat)
    requires w <= 5
    ensures multiset(ClientScript(cfg)[..w])[State(TEST_END)] == if w >= 3 then 1 else 0
  {
    var script := ClientScript(cfg);
    if w == 0 {
      assert script[..0] == [];
    } else {
      CountEnds(cfg, w - 1);
      assert script[..w] == script[..w - 1] + [script[w - 1]];
    }
  }

  lemma ResultsAreFifth(cfg: Config, w: nat)
    requires w <= 7 && State(EXCHANGE_RESULTS) in ServerScript(cfg)[..w]
    ensures w >= 5
  {
  }

  /** At the end both sides have said and read everything, each holds the other's results, the server knows the
      parameters, and its streams are the client's in the client's order. */
  lemma Agreement(cfg: Config, actions: seq<Action>, s: System)
    requires ConfigOk(cfg) && Run(cfg, actions, s) && Finished(s)
    ensures s.client.writeLog == s.server.readLog
         == [Cookie(cfg.cookie), Document(ParamsOf(cfg)), State(4), Document(cfg.clientResults), State(16)]
    ensures s.server.writeLog == s.client.readLog
         == [State(9), State(10), State(1), State(2), State(13), Document(cfg.serverResults), State(14)]
    ensures s.client.results == Some(cfg.serverResults) && s.server.results == Some(cfg.clientResults)
    ensures s.server.params == Some(ParamsOf(cfg)) && s.server.accepted == FirstNumbers(Total(cfg))
    ensures s.server.mode == Opposite(ModeOf(cfg.terms))
    ensures s.toServer == [] && s.toClient == [] && s.client.outbox == [] && s.server.outbox == []
  {
    hide StreamsOf, ConfigOk, HeadOf, Encode, Run, Harmless, InStep;
    RunInv(cfg, actions, s);
    var mine, theirs := ClientScript(cfg), ServerScript(cfg);
    assert mine[..5] == mine && theirs[..7] == theirs;
    AllRead(mine, 5, ServerPartial(s.server), s.toServer, s.client.outbox);
    AllRead(theirs, 7, ClientPartial(s.client), s.toClient, s.server.outbox);
    NoneWaiting(s.server.accepted, StreamsOf(s.queue), Total(cfg));
  }

  lemma AllRead(script: seq<Msg>, w: nat, partial: Text, stream: Text, outbox: Text)
    requires InStep(script, w, w, partial, stream, outbox)
    ensures stream == [] && outbox == []
  {
    hide Encode;
    FirstOf(script, w, w);
  }

  lemma NoneWaiting(accepted: seq<nat>, waiting: seq<nat>, n: nat)
    requires accepted + waiting == FirstNumbers(n) && |accepted| == n
    ensures accepted == FirstNumbers(n)
  {
    assert |accepted + waiting| == n;
    assert accepted + [] == accepted;
  }

  // ------------------------------------------------------------------------- isolation

  function OwnOnly(conns: seq<Conn>): seq<Conn> {
    if conns == [] then []
    else (if conns[0].Foreign? then [] else [conns[0]]) + OwnOnly(conns[1..])
  }

  /** The system as if the other clients had never called. */
  function Undisturbed(s: System): System {
    s.(queue := OwnOnly(s.queue), denied := [])
  }

  lemma {:induction false} OwnOnlyMore(conns: seq<Conn>, conn: Conn)
    ensures OwnOnly(conns + [conn]) == OwnOnly(conns) + if conn.Foreign? then [] else [conn]
  {
    if conns == [] {
      assert conns + [conn] == [conn] && [conn][1..] == [];
    } else {
      assert (conns + [conn])[1..] == conns[1..] + [conn];
      OwnOnlyMore(conns[1..], conn);
      Associates(if conns[0].Foreign? then [] else [conns[0]], OwnOnly(conns[1..]), if conn.Foreign? then [] else [conn]);
    }
  }

  predicate Disturbance(s: System, a: Action) {
    a.ForeignConnect? || (a.ServerAccept? && s.queue != [] && s.queue[0].Foreign?)
  }

  /** A caller from outside that does not end the test is told ACCESS_DENIED, and nothing else changes. */
  lemma DisturbanceChangesNothing(cfg: Config, s: System, a: Action)
    requires Inv(cfg, s) && Enabled(cfg, s, a) && Disturbance(s, a) && !Fatal(s, a)
    ensures Undisturbed(Next(cfg, s, a)) == Undisturbed(s)
    ensures a.ServerAccept? ==> Next(cfg, s, a).denied == s.denied + [s.queue[0]]
  {
    hide InStep, StreamsOf, HeadOf, ClientStage, ServerStage;
    if a.ForeignConnect? {
      OwnOnlyMore(s.queue, Foreign(a.id, a.broken));
      assert OwnOnly(s.queue) + [] == OwnOnly(s.queue);
    } else {
      assert [] + OwnOnly(s.queue[1..]) == OwnOnly(s.queue[1..]);
    }
  }

  /** Any other step is a step of the undisturbed system too, with the same effect. */
  lemma OtherStepsSame(cfg: Config, s: System, a: Action)
    requires Inv(cfg, s) && Enabled(cfg, s, a) && !Disturbance(s, a)
    ensures Enabled(cfg, Undisturbed(s), a) && Undisturbed(Next(cfg, s, a)) == Next(cfg, Undisturbed(s), a)
  {
    hide InStep, StreamsOf, HeadOf, ClientStage, ClientOnRead, ServerOnRead, ClientNeeds, ServerNeeds, ServerStage;
    if a.ClientConnect? {
      OwnOnlyMore(s.queue, OwnStream(s.client.made));
    } else if a.ServerAccept? {
      NotDenied(cfg, s);
      assert OwnOnly(s.queue)[1..] == OwnOnly(s.queue[1..]);
    }
  }

  lemma NotDenied(cfg: Config, s: System)
    requires Inv(cfg, s) && s.queue != [] && !s.queue[0].Foreign?
    ensures !Denies(s.server, s.queue[0])
  {
    hide InStep, StreamsOf, HeadOf, ClientStage, ServerStage;
    if s.server.pc == SLoop && s.queue[0].OwnStream? {
      NoStreamLate(cfg, s);
    }
  }

  /** Other clients cannot influence a test that they do not end: whatever they did, the two sides are where a run
      without them leads. */
  lemma {:induction false} OthersDoNotMatter(cfg: Config, actions: seq<Action>, s: System) returns (own: seq<Action>)
    requires ConfigOk(cfg) && Run(cfg, actions, s) && s.server.pc != SFailed
    ensures Run(cfg, own, Undisturbed(s)) && Calls(own) == 0
    decreases |actions|
  {
    hide ConfigOk, Enabled, Next, Inv, Init, Fatal, Revived;
    own := [];
    RunInv(cfg, actions, s);
    if actions == [] {
      StartsUndisturbed(cfg);
    } else {
      var short, last := actions[..|actions| - 1], actions[|actions| - 1];
      var before := Reach(cfg, short).value;
      RunInv(cfg, short, before);
      Unrevived(before);
      own := OthersDoNotMatter(cfg, short, before);
      if Disturbance(before, last) {
        DisturbanceChangesNothing(cfg, before, last);
      } else {
        OtherStepsSame(cfg, before, last);
        RunStep(cfg, own, Undisturbed(before), last);
        CallsStep(own, last);
        own := own + [last];
      }
    }
  }

  lemma RunStep(cfg: Config, actions: seq<Action>, s: System, a: Action)
    requires Run(cfg, actions, s) && Enabled(cfg, s, a)
    ensures Run(cfg, actions + [a], Next(cfg, s, a))
  {
    hide Enabled, Next;
    var longer := actions + [a];
    assert longer[..|longer| - 1] == actions && longer[|longer| - 1] == a;
  }

  lemma CallsStep(actions: seq<Action>, a: Action)
    ensures Calls(actions + [a]) == Calls(actions) + if a.ForeignConnect? then 1 else 0
  {
    assert (actions + [a])[..|actions|] == actions;
  }

  lemma StartsUndisturbed(cfg: Config)
    ensures Undisturbed(Init(cfg)) == Init(cfg)
  {
    assert [ControlConn][1..] == [];
  }

  // --------------------------------------------------------- when others can end a test

  /** No caller from outside breaks off while its cookie is read. */
  predicate Quiet(actions: seq<Action>) {
    forall i :: 0 <= i < |actions| && actions[i].ForeignConnect? ==> !actions[i].broken
  }

  predicate QuietQueue(queue: seq<Conn>) {
    forall i :: 0 <= i < |queue| && queue[i].Foreign? ==> !queue[i].broken
  }

  lemma {:induction false} QuietRun(cfg: Config, actions: seq<Action>, s: System)
    requires Run(cfg, actions, s) && Quiet(actions)
    ensures QuietQueue(s.queue)
    decreases |actions|
  {
    hide Enabled, Next;
    if actions != [] {
      var short, last := actions[..|actions| - 1], actions[|actions| - 1];
      var before := Reach(cfg, short).value;
      QuietRun(cfg, short, before);
      QuietNext(cfg, before, last);
    }
  }

  lemma QuietNext(cfg: Config, s: System, a: Action)
    requires QuietQueue(s.queue) && Enabled(cfg, s, a) && (a.ForeignConnect? ==> !a.broken)
    ensures QuietQueue(Next(cfg, s, a).queue)
  {
    hide ClientOnRead, ServerOnRead, ServerOnConnection, ClientSays;
  }

  /** Nothing stands against turning a caller away while streams are created: no type of service is set on its closed
      connection, and the system reports that it is closed. */
  predicate Sheltered(cfg: Config) { cfg.terms.tos == 0 && cfg.closedReported }

  /** A sheltered test, or one without streams, is ended by no quiet caller. */
  lemma {:induction false} QuietIsHarmless(cfg: Config, actions: seq<Action>, s: System)
    requires ConfigOk(cfg) && Run(cfg, actions, s) && Quiet(actions)
    requires Sheltered(cfg) || Total(cfg) == 0
    ensures Harmless(cfg, actions)
    decreases |actions|
  {
    hide Enabled, Next, Init, ConfigOk, Inv, Fatal, Revived;
    if actions != [] {
      var short, last := actions[..|actions| - 1], actions[|actions| - 1];
      var before := Reach(cfg, short).value;
      QuietIsHarmless(cfg, short, before);
      RunInv(cfg, short, before);
      Unrevived(before);
      QuietRun(cfg, short, before);
      QuietStep(cfg, before, last);
    }
  }

  lemma QuietStep(cfg: Config, s: System, a: Action)
    requires Inv(cfg, s) && QuietQueue(s.queue) && (Sheltered(cfg) || Total(cfg) == 0)
    ensures !Fatal(s, a)
  {
    hide InStep, StreamsOf, HeadOf, ClientStage;
  }

  /** On the way to the moment when the server has asked for streams and no stream has come. */
  ghost predicate Early(s: System) {
    && |s.client.readLog| < 2 && s.queue == (if s.server.pc == SIdle then [ControlConn] else [])
    && (|s.server.readLog| < 2 || (|s.server.readLog| == 2 && s.server.state == CREATE_STREAMS && s.server.outbox != []))
  }

  ghost predicate Asked(s: System) {
    s.server.pc == SLoop && s.server.state == CREATE_STREAMS && s.server.outbox == [] && s.queue == []
  }

  lemma EarlyStep(cfg: Config, s: System, a: Action)
    requires ConfigOk(cfg) && Inv(cfg, s) && Total(cfg) > 0 && Early(s) && Enabled(cfg, s, a) && !a.ForeignConnect?
    ensures !Fatal(s, a) && Inv(cfg, Next(cfg, s, a)) && (Early(Next(cfg, s, a)) || Asked(Next(cfg, s, a)))
  {
    hide StreamsOf, HeadOf, Encode, ConfigOk, ClientOnState, ClientOnBody, ServerOnState, ServerOnCookie, ServerOnParams;
    hide ServerOnResults, LengthOk, Value;
    assert !Fatal(s, a);
    StepKeepsInv(cfg, s, a);
    var t := Next(cfg, s, a);
    FirstOf(ServerScript(cfg), |t.client.readLog|, |t.server.writeLog|);
    Order(cfg, t);
  }

  /** There is a run to that moment. */
  lemma Drive(cfg: Config, actions: seq<Action>, s: System) returns (more: seq<Action>, t: System)
    requires ConfigOk(cfg) && Total(cfg) > 0 && Run(cfg, actions, s) && Inv(cfg, s) && Calls(actions) == 0
    requires Early(s) || Asked(s)
    ensures Run(cfg, more, t) && Inv(cfg, t) && Asked(t) && Calls(more) == 0
    decreases Work(cfg, s)
  {
    hide Enabled, Next, Init, ConfigOk, Inv, Fatal, Work, Run;
    WorkIsNatural(cfg, s);
    if Asked(s) {
      return actions, s;
    }
    NotFinished(cfg, s);
    var a := CanAct(cfg, s, 1);
    EarlyStep(cfg, s, a);
    WorkShrinks(cfg, s, a);
    RunStep(cfg, actions, s, a);
    CallsStep(actions, a);
    more, t := Drive(cfg, actions + [a], Next(cfg, s, a));
  }

  lemma NotFinished(cfg: Config, s: System)
    requires Inv(cfg, s) && Early(s)
    ensures !Finished(s)
  {
    hide InStep, StreamsOf, HeadOf, Queued;
  }

  /** One caller from outside is enough to end a test that creates streams, if it breaks off or if the test is not
      sheltered. */
  lemma StrangerEndsTest(cfg: Config, id: nat, broken: bool) returns (actions: seq<Action>, s: System)
    requires ConfigOk(cfg) && Total(cfg) > 0 && (broken || !Sheltered(cfg))
    ensures Run(cfg, actions, s) && s.server.pc == SFailed && Calls(actions) == 1
    ensures !broken ==> Quiet(actions)
  {
    hide ConfigOk, StreamsOf, HeadOf, InStep, ClientStage;
    InitInv(cfg);
    var first: seq<Action>, t: System := Drive(cfg, [], Init(cfg));
    var call := ForeignConnect(id, broken);
    var u := Next(cfg, t, call);
    RunStep(cfg, first, t, call);
    CallsStep(first, call);
    actions, s := first + [call] + [ServerAccept], Next(cfg, u, ServerAccept);
    RunStep(cfg, first + [call], u, ServerAccept);
    CallsStep(first + [call], ServerAccept);
    NoCalls(first);
  }

  lemma {:induction false} NoCalls(actions: seq<Action>)
    requires Calls(actions) == 0
    ensures forall i :: 0 <= i < |actions| ==> !actions[i].ForeignConnect?
  {
    if actions != [] {
      NoCalls(actions[..|actions| - 1]);
    }
  }

  /** Isolation, exactly: no quiet caller can ever end the test if and only if it is sheltered, or without streams. */
  lemma Isolation(cfg: Config)
    requires ConfigOk(cfg)
    ensures (forall actions: seq<Action>, s :: Run(cfg, actions, s) && Quiet(actions) ==> s.server.pc != SFailed)
       <==> (Sheltered(cfg) || Total(cfg) == 0)
  {
    hide ConfigOk, Run, Quiet, Total;
    if Sheltered(cfg) || Total(cfg) == 0 {
      forall actions: seq<Action>, s | Run(cfg, actions, s) && Quiet(actions) ensures s.server.pc != SFailed {
        QuietIsHarmless(cfg, actions, s);
        RunInv(cfg, actions, s);
      }
    } else {
      var actions, s := StrangerEndsTest(cfg, 0, false);
    }
  }
}

/** Client, server and the streams between them as objects that change in place, and a driver whose every step is a
    step of the protocol: what is proved of all runs holds of the objects. */
module ControlHandlers {
  import opened Bytes
  import opened JsonText
  import opened Framing
  import opened StreamPairing
  import opened ControlProtocol
  import opened ControlInvariant
  import opened ControlTheorems
  import ByteOrder
  import JsonParse

  /** `cJSON_Parse` on a buffer with a NUL behind it. */
  method ParseDocument(text: Text) returns (j: Option<Json>)
    ensures j == ParsedText(text)
  {
    var buffer := new JsonParse.ParseBuffer(UpToNul(text));
    j := buffer.Parse();
  }

  class ClientProcess {
    const cfg: Config
    var pc: ClientPc
    var state: int
    var inbox: Text
    var outbox: Text
    var made: nat
    var results: Option<Json>
    var readLog: seq<Msg>
    var writeLog: seq<Msg>

    function Now(): Client
      reads this
    {
      Client(pc, state, inbox, outbox, made, results, readLog, writeLog)
    }

    /** `iperf_connect`: the cookie is on its way. */
    constructor (cfg: Config)
      ensures this.cfg == cfg && Now() == Init(cfg).client
    {
      this.cfg := cfg;
      pc, state, inbox, outbox, made, results := CLoop, IPERF_START, [], cfg.cookie, 0, None;
      readLog, writeLog := [], [Cookie(cfg.cookie)];
    }

    method Say(ms: seq<Msg>)
      modifies this`outbox, this`writeLog
      ensures Now() == ClientSays(old(Now()), ms)
    {
      outbox := outbox + Encode(ms);
      writeLog := writeLog + ms;
    }

    /** `iperf_set_send_state`. */
    method SetSendState(code: int)
      modifies this`state, this`outbox, this`writeLog
      ensures Now() == ClientSays(old(Now()).(state := code), [State(code)])
    {
      state := code;
      Say([State(code)]);
    }

    /** `iperf_handle_message_client`. */
    method HandleMessage()
      requires |inbox| == 1
      modifies this
      ensures Now() == ClientOnState(cfg, old(Now()), CodeOf(old(inbox)[0]))
    {
      hide Encode;
      state := CodeOf(inbox[0]);
      readLog := readLog + [State(state)];
      inbox := [];
      if state == PARAM_EXCHANGE {
        Say([Document(ParamsOf(cfg))]);
      } else if state == CREATE_STREAMS {
        pc := if Total(cfg) == 0 then CLoop else CStreams;
      } else if state == TEST_START || state == TEST_RUNNING {
      } else if state == EXCHANGE_RESULTS {
        Say([Document(cfg.clientResults)]);
        pc := CLength;
      } else if state == DISPLAY_RESULTS {
        SetSendState(IPERF_DONE);
        pc := CDone;
      } else if state == IPERF_DONE {
        pc := CDone;
      } else {
        pc := CFailed;
      }
    }

    /** `get_results` with the whole document there. */
    method GetResults()
      modifies this
      ensures Now() == ClientOnBody(old(Now()))
    {
      hide ParsedText;
      var j := ParseDocument(inbox);
      if j.None? {
        pc := CFailed;
        return;
      }
      results := j;
      readLog := readLog + [Document(j.value)];
      pc, inbox := CLoop, [];
    }

    /** Some bytes have come in. */
    method Receive(bytes: Text)
      modifies this
      ensures Now() == ClientOnRead(cfg, old(Now()).(inbox := old(inbox) + bytes))
    {
      hide ClientOnState, ClientOnBody, ByteOrder.Value, LengthOk;
      inbox := inbox + bytes;
      if |inbox| != ClientNeeds(Now()) {
        return;
      }
      match pc
      case CLoop => HandleMessage();
      case CLength =>
        if LengthOk(ByteOrder.Value(inbox), 0) {
          pc, inbox := CBody(inbox), [];
        } else {
          pc := CFailed;
        }
      case CBody(_) => GetResults();
      case _ =>
    }

    /** One more stream is connected. */
    method Connected()
      modifies this`made, this`pc
      ensures Now() == old(Now()).(made := old(made) + 1, pc := if old(made) + 1 >= Total(cfg) then CLoop else CStreams)
    {
      made := made + 1;
      pc := if made >= Total(cfg) then CLoop else CStreams;
    }

    /** The end condition of `iperf_run_client` is met: the test state is TEST_RUNNING, so this happens once. */
    method Finish()
      requires state == TEST_RUNNING
      modifies this
      ensures Now() == ClientSays(old(Now()).(state := TEST_END), [State(TEST_END)]) && state != TEST_RUNNING
    {
      SetSendState(TEST_END);
    }
  }

  class ServerProcess {
    const cfg: Config
    var pc: ServerPc
    var state: int
    var inbox: Text
    var outbox: Text
    var expected: int
    var mode: Mode
    var tos: int
    const closedReported: bool
    var accepted: seq<nat>
    var params: Option<Json>
    var results: Option<Json>
    var readLog: seq<Msg>
    var writeLog: seq<Msg>

    function Now(): Server
      reads this
    {
      Server(pc, state, inbox, outbox, expected, mode, tos, closedReported, accepted, params, results, readLog,
             writeLog)
    }

    constructor (cfg: Config)
      ensures this.cfg == cfg && Now() == Init(cfg).server
    {
      this.cfg, closedReported := cfg, cfg.closedReported;
      pc, state, inbox, outbox, expected, mode, tos, accepted := SIdle, IPERF_START, [], [], 0, ReceiverMode, 0, [];
      params, results, readLog, writeLog := None, None, [], [];
    }

    method Say(ms: seq<Msg>)
      modifies this`outbox, this`writeLog
      ensures Now() == ServerSays(old(Now()), ms)
    {
      outbox := outbox + Encode(ms);
      writeLog := writeLog + ms;
    }

    method SetSendState(code: int)
      modifies this`state, this`outbox, this`writeLog
      ensures Now() == ServerSays(old(Now()).(state := code), [State(code)])
    {
      state := code;
      Say([State(code)]);
    }

    /** The end of the select loop's body: two states are sent one after the other. */
    method Launch()
      modifies this`state, this`outbox, this`writeLog
      ensures Now() == Launched(old(Now()))
    {
      hide Encode;
      if state == CREATE_STREAMS && |accepted| == expected {
        ghost var before := Now();
        SetSendState(TEST_START);
        SetSendState(TEST_RUNNING);
        EncodeTwo(State(TEST_START), State(TEST_RUNNING));
        assert before.writeLog + [State(TEST_START)] + [State(TEST_RUNNING)]
            == before.writeLog + [State(TEST_START), State(TEST_RUNNING)];
        assert before.outbox + Encode([State(TEST_START)]) + Encode([State(TEST_RUNNING)])
            == before.outbox + Encode([State(TEST_START), State(TEST_RUNNING)]);
      }
    }

    /** `iperf_handle_message_server`. */
    method HandleMessage()
      requires |inbox| == 1
      modifies this
      ensures Now() == ServerOnState(old(Now()), CodeOf(old(inbox)[0]))
    {
      hide Encode;
      state := CodeOf(inbox[0]);
      readLog := readLog + [State(state)];
      inbox := [];
      if state == TEST_START {
      } else if state == TEST_END {
        SetSendState(EXCHANGE_RESULTS);
        pc := SResultLength;
      } else if state == IPERF_DONE {
        pc := SDone;
      } else if state == CLIENT_TERMINATE {
        state := IPERF_DONE;
        pc := SDone;
      } else {
        pc := SFailed;
      }
    }

    /** `iperf_accept` with the cookie there. */
    method Greet()
      modifies this
      ensures Now() == ServerOnCookie(old(Now()))
    {
      hide Encode;
      readLog := readLog + [Cookie(inbox)];
      inbox := [];
      SetSendState(PARAM_EXCHANGE);
      pc := SParamLength;
    }

    /** `get_parameters` and what follows it up to the first check of the stream counts. */
    method GetParameters()
      modifies this
      ensures Now() == ServerOnParams(old(Now()))
    {
      hide Encode, ParsedText, ExpectedIn, ModeIn, TosIn, Launched, ServerSays;
      var j := ParseDocument(inbox);
      if j.None? {
        pc := SFailed;
        return;
      }
      TakeParameters(j.value);
      Launch();
    }

    /** What the parameters decide, and the call for the streams. */
    method TakeParameters(j: Json)
      modifies this
      ensures Now() == ServerSays(old(Now()).(pc := SLoop, inbox := [], state := CREATE_STREAMS, params := Some(j),
                                              expected := ExpectedIn(j), mode := ModeIn(j), tos := TosIn(j),
                                              readLog := old(readLog) + [Document(j)]),
                                  [State(CREATE_STREAMS)])
    {
      hide Encode, ExpectedIn, ModeIn, TosIn;
      params := Some(j);
      readLog := readLog + [Document(j)];
      inbox := [];
      SetSendState(CREATE_STREAMS);
      pc := SLoop;
      expected := ExpectedIn(j);
      mode := ModeIn(j);
      tos := TosIn(j);
    }

    /** `iperf_exchange_results`: read, then send, then tell the client to show them. */
    method ExchangeResults()
      modifies this
      ensures Now() == ServerOnResults(cfg, old(Now()))
    {
      hide Encode, ParsedText;
      var j := ParseDocument(inbox);
      if j.None? {
        pc := SFailed;
        return;
      }
      results := j;
      readLog := readLog + [Document(j.value)];
      inbox := [];
      ghost var before := Now();
      Say([Document(cfg.serverResults)]);
      SetSendState(DISPLAY_RESULTS);
      pc := SLoop;
      EncodeTwo(Document(cfg.serverResults), State(DISPLAY_RESULTS));
      assert before.writeLog + [Document(cfg.serverResults)] + [State(DISPLAY_RESULTS)]
          == before.writeLog + [Document(cfg.serverResults), State(DISPLAY_RESULTS)];
      assert before.outbox + Encode([Document(cfg.serverResults)]) + Encode([State(DISPLAY_RESULTS)])
          == before.outbox + Encode([Document(cfg.serverResults), State(DISPLAY_RESULTS)]);
    }

    /** Some bytes have come in. */
    method Receive(bytes: Text)
      modifies this
      ensures Now() == ServerOnRead(cfg, old(Now()).(inbox := old(inbox) + bytes))
    {
      hide ServerOnState, ServerOnCookie, ServerOnParams, ServerOnResults, ByteOrder.Value, LengthOk;
      inbox := inbox + bytes;
      if |inbox| != ServerNeeds(Now()) {
        return;
      }
      match pc
      case SCookie => Greet();
      case SParamLength =>
        if LengthOk(ByteOrder.Value(inbox), MAX_PARAMS_JSON_STRING) {
          pc, inbox := SParamBody(inbox), [];
        } else {
          pc := SFailed;
        }
      case SParamBody(_) => GetParameters();
      case SLoop => HandleMessage();
      case SResultLength =>
        if LengthOk(ByteOrder.Value(inbox), 0) {
          pc, inbox := SResultBody(inbox), [];
        } else {
          pc := SFailed;
        }
      case SResultBody(_) => ExchangeResults();
      case _ =>
    }

    /** The listener is readable; `denied` says that ACCESS_DENIED was sent to the caller. */
    method AcceptConnection(conn: Conn) returns (denied: bool)
      modifies this
      ensures Now() == ServerOnConnection(old(Now()), conn) && denied == Denies(old(Now()), conn)
    {
      hide Launched;
      denied := false;
      if pc == SIdle {
        pc := if conn == ControlConn then SCookie else SFailed;
      } else if pc == SLoop && state != CREATE_STREAMS {
        denied := true;
      } else if pc == SLoop {
        match conn
        case OwnStream(k) =>
          accepted := accepted + [k];
          Launch();
        case Foreign(_, true) =>
          pc := SFailed;
        case _ =>
          denied := true;
          if tos != 0 || !closedReported {
            pc := SFailed;
          }
      }
    }
  }

  /** A test: the two processes, the stream in each direction, and the listener's queue. */
  class Session {
    const cfg: Config
    const client: ClientProcess
    const server: ServerProcess
    const toServer: Pipe
    const toClient: Pipe
    var queue: seq<Conn>
    var denied: seq<Conn>
    ghost var actions: seq<Action>

    function Now(): System
      reads this, client, server, toServer, toClient
    {
      System(client.Now(), server.Now(), toServer.bytes, toClient.bytes, queue, denied)
    }

    /** The objects are where their actions lead in the protocol. */
    ghost predicate Valid()
      reads this, client, server, toServer, toClient
    {
      && client.cfg == cfg && server.cfg == cfg && toServer != toClient
      && ConfigOk(cfg) && Run(cfg, actions, Now())
    }

    constructor (cfg: Config)
      requires ConfigOk(cfg)
      ensures Valid() && this.cfg == cfg && actions == []
      ensures fresh(client) && fresh(server) && fresh(toServer) && fresh(toClient)
    {
      this.cfg := cfg;
      client := new ClientProcess(cfg);
      server := new ServerProcess(cfg);
      toServer := new Pipe();
      toClient := new Pipe();
      queue, denied := [ControlConn], [];
      actions := [];
    }

    /** The effect of an action on the objects. */
    method Act(a: Action)
      requires client.cfg == cfg && server.cfg == cfg && toServer != toClient && Enabled(cfg, Now(), a)
      modifies this`queue, this`denied, client, server, toServer, toClient
      ensures Now() == Next(cfg, old(Now()), a)
    {
      hide ClientOnRead, ServerOnRead, ServerOnConnection, ClientSays, ClientNeeds, ServerNeeds, Denies;
      match a
      case ClientWrite(n) =>
        toServer.bytes := toServer.bytes + client.outbox[..n];
        client.outbox := client.outbox[n..];
      case ClientRead(n) =>
        var bytes := toClient.bytes[..n];
        toClient.bytes := toClient.bytes[n..];
        client.Receive(bytes);
      case ClientConnect =>
        queue := queue + [OwnStream(client.made)];
        client.Connected();
      case ClientFinish =>
        client.Finish();
      case ServerWrite(n) =>
        toClient.bytes := toClient.bytes + server.outbox[..n];
        server.outbox := server.outbox[n..];
      case ServerRead(n) =>
        var bytes := toServer.bytes[..n];
        toServer.bytes := toServer.bytes[n..];
        server.Receive(bytes);
      case ServerAccept =>
        var conn := queue[0];
        queue := queue[1..];
        var turnedAway := server.AcceptConnection(conn);
        if turnedAway {
          denied := denied + [conn];
        }
      case ForeignConnect(id, broken) =>
        queue := queue + [Foreign(id, broken)];
    }

    /** Any possible action keeps the objects in step: each has read a prefix of what the other wrote, the client does
        not fail, and what either holds as the other's results was written as such. */
    method Perform(a: Action)
      requires Valid() && Enabled(cfg, Now(), a)
      modifies this, client, server, toServer, toClient
      ensures Valid() && actions == old(actions) + [a] && Now() == Next(cfg, old(Now()), a)
      ensures client.readLog <= server.writeLog && server.readLog <= client.writeLog && client.pc != CFailed
      ensures client.results.Some? ==> Document(client.results.value) in server.writeLog
      ensures server.results.Some? ==> Document(server.results.value) in client.writeLog
    {
      hide Next, Enabled, Run, ConfigOk, Harmless;
      RunStep(cfg, actions, Now(), a);
      Act(a);
      actions := actions + [a];
      Synchronised(cfg, actions, Now());
    }

    /** An action of one of the two sides that is possible now, by one byte at a time. */
    method Choose() returns (a: Action)
      requires Valid() && server.pc != SFailed && !Finished(Now())
      ensures Enabled(cfg, Now(), a) && !a.ForeignConnect?
    {
      hide Enabled, Run, ConfigOk;
      ghost var some := NoDeadlock(cfg, actions, Now(), 1);
      OneByteIsEnough(cfg, Now(), some);
      var candidates := [ClientWrite(1), ServerWrite(1), ClientConnect, ClientFinish, ClientRead(1), ServerRead(1)];
      for i := 0 to |candidates|
        invariant forall j :: 0 <= j < i ==> !Enabled(cfg, Now(), candidates[j])
      {
        if Enabled(cfg, Now(), candidates[i]) {
          return candidates[i];
        }
      }
      assert candidates[0] == ClientWrite(1) && candidates[1] == ServerWrite(1) && candidates[2] == ClientConnect;
      assert candidates[3] == ClientFinish && candidates[4] == ClientRead(1) && candidates[5] == ServerRead(1);
      return ServerAccept;
    }

    /** Left to themselves, with no caller waiting that could end the test, the two sides come to the end from wherever
        they are, and then agree: each holds the other's results, and the server's streams are the client's in order. */
    method Complete()
      requires Valid() && server.pc != SFailed && SafeQueue(cfg, queue)
      modifies this, client, server, toServer, toClient
      ensures Valid() && client.pc == CDone && server.pc == SDone
      ensures client.results == Some(cfg.serverResults) && server.results == Some(cfg.clientResults)
      ensures server.params == Some(ParamsOf(cfg)) && server.mode == Opposite(ModeOf(cfg.terms))
      ensures server.accepted == FirstNumbers(Total(cfg))
      ensures client.writeLog == server.readLog && server.writeLog == client.readLog
    {
      hide Next, Enabled, Run, ConfigOk, Harmless, Inv, Fatal, Work;
      InStepNow();
      while !(client.pc == CDone && server.pc == SDone)
        invariant Valid() && server.pc != SFailed && SafeQueue(cfg, queue) && Inv(cfg, Now())
        decreases Work(cfg, Now())
      {
        WorkIsNatural(cfg, Now());
        var a := Choose();
        SafeStep(cfg, Now(), a);
        WorkShrinks(cfg, Now(), a);
        Perform(a);
        NotFailed(cfg, Now());
      }
      Agreement(cfg, actions, Now());
    }

    lemma InStepNow()
      requires Valid() && server.pc != SFailed
      ensures Inv(cfg, Now())
    {
      hide Run, ConfigOk, Harmless, Inv;
      RunInv(cfg, actions, Now());
    }
  }

  /** No waiting caller can end the test. */
  predicate SafeQueue(cfg: Config, queue: seq<Conn>) {
    forall i :: 0 <= i < |queue| && queue[i].Foreign? ==> !queue[i].broken && Sheltered(cfg)
  }

  lemma SafeStep(cfg: Config, s: System, a: Action)
    requires Inv(cfg, s) && SafeQueue(cfg, s.queue) && Enabled(cfg, s, a) && !a.ForeignConnect?
    ensures !Fatal(s, a) && SafeQueue(cfg, Next(cfg, s, a).queue)
  {
    hide InStep, StreamsOf, HeadOf, ClientStage, ClientOnRead, ServerOnRead, ServerOnConnection, ClientSays;
  }

  lemma OneByteIsEnough(cfg: Config, s: System, a: Action)
    requires Enabled(cfg, s, a) && !a.ForeignConnect?
    ensures Enabled(cfg, s, ServerAccept)
         || (exists b :: b in [ClientWrite(1), ServerWrite(1), ClientConnect, ClientFinish, ClientRead(1), ServerRead(1)]
                         && Enabled(cfg, s, b))
  {
    var b := match a
      case ClientWrite(_) => ClientWrite(1)
      case ServerWrite(_) => ServerWrite(1)
      case ClientRead(_) => ClientRead(1)
      case ServerRead(_) => ServerRead(1)
      case _ => a;
    assert Enabled(cfg, s, b);
  }

  lemma EncodeTwo(a: Msg, b: Msg)
    ensures Encode([a, b]) == Encode([a]) + Encode([b])
  {
    assert [a, b][1..] == [b] && [a][1..] == [] && [b][1..] == [];
  }
}

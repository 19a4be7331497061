/** The control protocol: client and server as two processes over two byte streams and a queue of connections.
    A step moves any number of bytes, so every way of cutting the streams into reads and writes is a run. */
module ControlProtocol {
  import opened Bytes
  import opened JsonText
  import opened Framing
  import opened StreamPairing
  import ByteOrder

  // -------------------------------------------------------------------- state codes

  const TEST_START := 1
  const TEST_RUNNING := 2
  const TEST_END := 4
  const PARAM_EXCHANGE := 9
  const CREATE_STREAMS := 10
  const CLIENT_TERMINATE := 12
  const EXCHANGE_RESULTS := 13
  const DISPLAY_RESULTS := 14
  const IPERF_START := 15
  const IPERF_DONE := 16

  const COOKIE_SIZE := 37
  const MAX_PARAMS_JSON_STRING := 8192

  /** A state is sent as a signed char. */
  function CharOf(code: int): byte { code % 256 }

  function CodeOf(b: byte): int { if b < 128 then b else b - 256 }

  // ----------------------------------------------------------------------- messages

  /** What a process means by the bytes it writes or reads. */
  datatype Msg = State(code: int) | Cookie(text: Text) | Document(json: Json)

  function Wire(m: Msg): Text {
    match m
    case State(code) => [CharOf(code)]
    case Cookie(text) => text
    case Document(json) => if Printable(json) then Frame(json) else []
  }

  function Encode(ms: seq<Msg>): Text {
    if ms == [] then [] else Wire(ms[0]) + Encode(ms[1..])
  }

  // --------------------------------------------------------------- parameter documents

  const KEY_PARALLEL: Text := Ascii("parallel")
  const KEY_REVERSE: Text := Ascii("reverse")
  const KEY_BIDIRECTIONAL: Text := Ascii("bidirectional")
  const KEY_TOS: Text := Ascii("TOS")

  function Lower(b: byte): byte { if 65 <= b <= 90 then b + 32 else b }

  /** Keys are compared without regard to case. */
  predicate SameKey(a: Text, b: Text) {
    |a| == |b| && forall i :: 0 <= i < |a| ==> Lower(a[i]) == Lower(b[i])
  }

  /** The value of the first member with a key. */
  function Lookup(members: seq<Member>, key: Text): Option<Json> {
    if members == [] then None
    else if SameKey(members[0].key, key) then Some(members[0].value)
    else Lookup(members[1..], key)
  }

  function Members(j: Json): seq<Member> { if j.Object? then j.members else [] }

  predicate Absent(members: seq<Member>, key: Text) { Lookup(members, key) == None }

  /** What the client settled on: streams, direction, type of service. */
  datatype Terms = Terms(streams: nat, reverse: bool, bidirectional: bool, tos: nat)

  /** `send_parameters`: the members that decide about the streams, among the others. */
  function Parameters(before: seq<Member>, terms: Terms, between: seq<Member>, after: seq<Member>): Json {
    Object(before
           + [Member(KEY_PARALLEL, Number(terms.streams))]
           + (if terms.reverse then [Member(KEY_REVERSE, Bool(true))] else [])
           + (if terms.bidirectional then [Member(KEY_BIDIRECTIONAL, Bool(true))] else [])
           + between
           + (if terms.tos != 0 then [Member(KEY_TOS, Number(terms.tos))] else [])
           + after)
  }

  /** `get_parameters`: the number of streams, one if not given, and whether a key stands for a flag. */
  function StreamsIn(j: Json): int {
    var v := Lookup(Members(j), KEY_PARALLEL);
    if v.Some? && v.value.Number? then v.value.n else 1
  }

  function FlagIn(j: Json, key: Text): bool {
    var v := Lookup(Members(j), key);
    v.Some? && v.value.Bool?
  }

  function TosIn(j: Json): int {
    var v := Lookup(Members(j), KEY_TOS);
    if v.Some? && v.value.Number? then v.value.n else 0
  }

  /** The server's mode: it receives unless the client asks for the reverse, or for both directions. */
  function ModeIn(j: Json): Mode {
    if FlagIn(j, KEY_BIDIRECTIONAL) then Bidirectional
    else if FlagIn(j, KEY_REVERSE) then SenderMode
    else ReceiverMode
  }

  /** The client's own mode. */
  function ModeOf(terms: Terms): Mode {
    if terms.bidirectional then Bidirectional else if terms.reverse then ReceiverMode else SenderMode
  }

  /** How many stream connections the server waits for. */
  function ExpectedIn(j: Json): int {
    StreamsIn(j) * if FlagIn(j, KEY_BIDIRECTIONAL) then 2 else 1
  }

  // ------------------------------------------------------------------ the two processes

  /** A connection in the listener's queue: the client's control connection, its `k`-th stream, or another client's,
      which is `broken` if reading from it is a hard error. */
  datatype Conn = ControlConn | OwnStream(k: nat) | Foreign(id: nat, broken: bool)

  /** Where the client is: in its select loop, connecting streams, or inside `JSON_read`. */
  datatype ClientPc = CLoop | CStreams | CLength | CBody(head: Text) | CDone | CFailed

  datatype Client = Client(pc: ClientPc, state: int, inbox: Text, outbox: Text, made: nat, results: Option<Json>,
                           readLog: seq<Msg>, writeLog: seq<Msg>)

  /** Where the server is: without a client, reading the cookie or a document, or in its select loop. */
  datatype ServerPc = SIdle | SCookie | SParamLength | SParamBody(head: Text) | SLoop
                    | SResultLength | SResultBody(head: Text) | SDone | SFailed

  datatype Server = Server(pc: ServerPc, state: int, inbox: Text, outbox: Text, expected: int, mode: Mode, tos: int,
                           closedReported: bool, accepted: seq<nat>, params: Option<Json>, results: Option<Json>,
                           readLog: seq<Msg>, writeLog: seq<Msg>)

  datatype System = System(client: Client, server: Server, toServer: Text, toClient: Text, queue: seq<Conn>,
                           denied: seq<Conn>)

  /** One test: the client's settings, the documents the two sides will send, and whether the server's system reports a
      closed descriptor, which is how the server tells a caller it turned away from a stream (`is_closed`). */
  datatype Config = Config(cookie: Text, terms: Terms, before: seq<Member>, between: seq<Member>, after: seq<Member>,
                           clientResults: Json, serverResults: Json, closedReported: bool)

  function ParamsOf(cfg: Config): Json {
    Parameters(cfg.before, cfg.terms, cfg.between, cfg.after)
  }

  /** How many streams the client connects: both directions in a bidirectional test. */
  function Total(cfg: Config): nat {
    if cfg.terms.bidirectional then 2 * cfg.terms.streams else cfg.terms.streams
  }

  /** The client has connected and is about to send its cookie. */
  function Init(cfg: Config): System {
    System(
      Client(CLoop, IPERF_START, [], cfg.cookie, 0, None, [], [Cookie(cfg.cookie)]),
      Server(SIdle, IPERF_START, [], [], 0, ReceiverMode, 0, cfg.closedReported, [], None, None, [], []),
      [], [], [ControlConn], [])
  }

  function ClientSays(c: Client, ms: seq<Msg>): Client {
    c.(outbox := c.outbox + Encode(ms), writeLog := c.writeLog + ms)
  }

  function ServerSays(s: Server, ms: seq<Msg>): Server {
    s.(outbox := s.outbox + Encode(ms), writeLog := s.writeLog + ms)
  }

  // ---------------------------------------------------------------------- the client

  /** `iperf_handle_message_client` once its byte is there. */
  function ClientOnState(cfg: Config, c: Client, code: int): Client {
    var d := c.(inbox := [], state := code, readLog := c.readLog + [State(code)]);
    if code == PARAM_EXCHANGE then ClientSays(d, [Document(ParamsOf(cfg))])
    else if code == CREATE_STREAMS then d.(pc := if Total(cfg) == 0 then CLoop else CStreams)
    else if code == TEST_START || code == TEST_RUNNING then d
    else if code == EXCHANGE_RESULTS then ClientSays(d.(pc := CLength), [Document(cfg.clientResults)])
    else if code == DISPLAY_RESULTS then ClientSays(d.(pc := CDone, state := IPERF_DONE), [State(IPERF_DONE)])
    else if code == IPERF_DONE then d.(pc := CDone)
    else d.(pc := CFailed)
  }

  /** The results document is complete: `get_results` reads it or fails. */
  function ClientOnBody(c: Client): Client {
    var j := ParsedText(c.inbox);
    if j.None? then c.(pc := CFailed)
    else c.(pc := CLoop, inbox := [], results := j, readLog := c.readLog + [Document(j.value)])
  }

  /** The bytes the client's current read is for; zero when it is not reading. */
  function ClientNeeds(c: Client): nat {
    match c.pc
    case CLoop => 1
    case CLength => 4
    case CBody(head) => ByteOrder.Value(head)
    case _ => 0
  }

  function ClientOnRead(cfg: Config, c: Client): Client {
    if |c.inbox| != ClientNeeds(c) then c
    else
      match c.pc
      case CLoop => if |c.inbox| == 1 then ClientOnState(cfg, c, CodeOf(c.inbox[0])) else c
      case CLength =>
        if LengthOk(ByteOrder.Value(c.inbox), 0) then c.(pc := CBody(c.inbox), inbox := []) else c.(pc := CFailed)
      case CBody(_) => ClientOnBody(c)
      case _ => c
  }

  // ---------------------------------------------------------------------- the server

  /** The end of the select loop's body: once every stream is there, the test starts. */
  function Launched(s: Server): Server {
    if s.state == CREATE_STREAMS && |s.accepted| == s.expected
    then ServerSays(s.(state := TEST_RUNNING), [State(TEST_START), State(TEST_RUNNING)])
    else s
  }

  /** `iperf_handle_message_server` once its byte is there. */
  function ServerOnState(s: Server, code: int): Server {
    var d := s.(inbox := [], state := code, readLog := s.readLog + [State(code)]);
    if code == TEST_START then d
    else if code == TEST_END then
      ServerSays(d.(pc := SResultLength, state := EXCHANGE_RESULTS), [State(EXCHANGE_RESULTS)])
    else if code == IPERF_DONE then d.(pc := SDone)
    else if code == CLIENT_TERMINATE then d.(pc := SDone, state := IPERF_DONE)
    else d.(pc := SFailed)
  }

  /** `iperf_accept` once the cookie is there. */
  function ServerOnCookie(s: Server): Server {
    ServerSays(s.(pc := SParamLength, inbox := [], state := PARAM_EXCHANGE, readLog := s.readLog + [Cookie(s.inbox)]),
               [State(PARAM_EXCHANGE)])
  }

  /** `iperf_exchange_parameters`, the rest of `iperf_accept`, and the stream counts. */
  function ServerOnParams(s: Server): Server {
    var j := ParsedText(s.inbox);
    if j.None? then s.(pc := SFailed)
    else
      Launched(ServerSays(s.(pc := SLoop, inbox := [], state := CREATE_STREAMS, params := j,
                             expected := ExpectedIn(j.value), mode := ModeIn(j.value), tos := TosIn(j.value),
                             readLog := s.readLog + [Document(j.value)]),
                          [State(CREATE_STREAMS)]))
  }

  /** `iperf_exchange_results` on the server: the client's are read before its own are sent. */
  function ServerOnResults(cfg: Config, s: Server): Server {
    var j := ParsedText(s.inbox);
    if j.None? then s.(pc := SFailed)
    else
      ServerSays(s.(pc := SLoop, inbox := [], state := DISPLAY_RESULTS, results := j,
                    readLog := s.readLog + [Document(j.value)]),
                 [Document(cfg.serverResults), State(DISPLAY_RESULTS)])
  }

  function ServerNeeds(s: Server): nat {
    match s.pc
    case SLoop => 1
    case SCookie => COOKIE_SIZE
    case SParamLength | SResultLength => 4
    case SParamBody(head) => ByteOrder.Value(head)
    case SResultBody(head) => ByteOrder.Value(head)
    case _ => 0
  }

  function ServerOnRead(cfg: Config, s: Server): Server {
    if |s.inbox| != ServerNeeds(s) then s
    else
      match s.pc
      case SCookie => ServerOnCookie(s)
      case SParamLength =>
        if LengthOk(ByteOrder.Value(s.inbox), MAX_PARAMS_JSON_STRING)
        then s.(pc := SParamBody(s.inbox), inbox := []) else s.(pc := SFailed)
      case SParamBody(_) => ServerOnParams(s)
      case SLoop => if |s.inbox| == 1 then ServerOnState(s, CodeOf(s.inbox[0])) else s
      case SResultLength =>
        if LengthOk(ByteOrder.Value(s.inbox), 0)
        then s.(pc := SResultBody(s.inbox), inbox := []) else s.(pc := SFailed)
      case SResultBody(_) => ServerOnResults(cfg, s)
      case _ => s
  }

  /** Will the server answer the connection at the head of the queue with ACCESS_DENIED? */
  predicate Denies(s: Server, conn: Conn) {
    && s.pc == SLoop
    && (s.state != CREATE_STREAMS || conn == ControlConn || (conn.Foreign? && !conn.broken))
  }

  /** While streams are created, a stranger whose cookie cannot be read ends the test. So does one that was turned away, if
      a type of service must then be set on the connection, which is closed by now, or if the system does not report that
      it is closed, so that it is taken for a stream. */
  predicate EndsTest(s: Server, conn: Conn) {
    && s.pc == SLoop && s.state == CREATE_STREAMS && !conn.OwnStream?
    && ((conn.Foreign? && conn.broken) || s.tos != 0 || !s.closedReported)
  }

  /** The listener is readable: a free server takes its client, a busy one turns the caller away, and one that is
      creating streams takes those that show its client's cookie. */
  function ServerOnConnection(s: Server, conn: Conn): Server {
    if s.pc == SIdle then s.(pc := if conn == ControlConn then SCookie else SFailed)
    else if s.pc == SLoop && s.state == CREATE_STREAMS && conn.OwnStream? then
      Launched(s.(accepted := s.accepted + [conn.k]))
    else if EndsTest(s, conn) then s.(pc := SFailed)
    else s
  }

  // ------------------------------------------------------------------------- the steps

  datatype Action =
    | ClientWrite(n: nat) | ClientRead(n: nat) | ClientConnect | ClientFinish
    | ServerWrite(n: nat) | ServerRead(n: nat) | ServerAccept
    | ForeignConnect(id: nat, broken: bool)

  predicate Enabled(cfg: Config, s: System, a: Action) {
    match a
    case ClientWrite(n) => 0 < n <= |s.client.outbox|
    case ClientRead(n) =>
      s.client.outbox == [] && 0 < n <= |s.toClient| && |s.client.inbox| + n <= ClientNeeds(s.client)
    case ClientConnect => s.client.outbox == [] && s.client.pc == CStreams
    case ClientFinish => s.client.outbox == [] && s.client.pc == CLoop && s.client.state == TEST_RUNNING
    case ServerWrite(n) => 0 < n <= |s.server.outbox|
    case ServerRead(n) =>
      s.server.outbox == [] && 0 < n <= |s.toServer| && |s.server.inbox| + n <= ServerNeeds(s.server)
    case ServerAccept => s.server.outbox == [] && s.server.pc in {SIdle, SLoop} && s.queue != []
    case ForeignConnect(_, _) => true
  }

  function Next(cfg: Config, s: System, a: Action): System
    requires Enabled(cfg, s, a)
  {
    match a
    case ClientWrite(n) =>
      s.(toServer := s.toServer + s.client.outbox[..n], client := s.client.(outbox := s.client.outbox[n..]))
    case ClientRead(n) =>
      s.(toClient := s.toClient[n..],
         client := ClientOnRead(cfg, s.client.(inbox := s.client.inbox + s.toClient[..n])))
    case ClientConnect =>
      s.(queue := s.queue + [OwnStream(s.client.made)],
         client := s.client.(made := s.client.made + 1,
                             pc := if s.client.made + 1 >= Total(cfg) then CLoop else CStreams))
    case ClientFinish => s.(client := ClientSays(s.client.(state := TEST_END), [State(TEST_END)]))
    case ServerWrite(n) =>
      s.(toClient := s.toClient + s.server.outbox[..n], server := s.server.(outbox := s.server.outbox[n..]))
    case ServerRead(n) =>
      s.(toServer := s.toServer[n..],
         server := ServerOnRead(cfg, s.server.(inbox := s.server.inbox + s.toServer[..n])))
    case ServerAccept =>
      s.(queue := s.queue[1..],
         server := ServerOnConnection(s.server, s.queue[0]),
         denied := if Denies(s.server, s.queue[0]) then s.denied + [s.queue[0]] else s.denied)
    case ForeignConnect(id, broken) => s.(queue := s.queue + [Foreign(id, broken)])
  }

  /** Where the actions lead from the start, if each is possible in its turn. */
  function Reach(cfg: Config, actions: seq<Action>): Option<System> {
    if actions == [] then Some(Init(cfg))
    else
      var last, before := actions[|actions| - 1], Reach(cfg, actions[..|actions| - 1]);
      if before.Some? && Enabled(cfg, before.value, last) then Some(Next(cfg, before.value, last)) else None
  }

  predicate Run(cfg: Config, actions: seq<Action>, s: System) {
    Reach(cfg, actions) == Some(s)
  }

  /** Does the step accept a connection that ends the test? */
  predicate Fatal(s: System, a: Action) {
    a.ServerAccept? && s.queue != [] && EndsTest(s.server, s.queue[0])
  }

  /** No step of the run is fatal. */
  predicate Harmless(cfg: Config, actions: seq<Action>) {
    actions == []
    || (&& Harmless(cfg, actions[..|actions| - 1])
        && var before := Reach(cfg, actions[..|actions| - 1]);
           before.Some? ==> !Fatal(before.value, actions[|actions| - 1]))
  }
}

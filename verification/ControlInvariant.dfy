/** What every step of the control protocol keeps, and what follows for all its runs. */
module ControlInvariant {
  import opened Bytes
  import opened Sequences
  import opened JsonText
  import opened JsonGrammar
  import opened Framing
  import opened ByteOrder
  import opened ControlProtocol
  import opened StreamPairing

  // ------------------------------------------------------------------------ scripts

  /** Everything the client sends in a test. */
  function ClientScript(cfg: Config): (ms: seq<Msg>)
    ensures |ms| == 5
  {
    [Cookie(cfg.cookie), Document(ParamsOf(cfg)), State(TEST_END), Document(cfg.clientResults), State(IPERF_DONE)]
  }

  /** Everything the server sends in a test. */
  function ServerScript(cfg: Config): (ms: seq<Msg>)
    ensures |ms| == 7
  {
    [State(PARAM_EXCHANGE), State(CREATE_STREAMS), State(TEST_START), State(TEST_RUNNING),
     State(EXCHANGE_RESULTS), Document(cfg.serverResults), State(DISPLAY_RESULTS)]
  }

  /** A document the other side will read. */
  ghost predicate Fits(j: Json, maxSize: nat) {
    Printable(j) && NestsWithin(j, NESTING_LIMIT) && LengthOk(|Render(j, false, 0)|, maxSize)
  }

  /** The length in front of a document. */
  function HeadOf(j: Json): Text {
    if Printable(j) then BigEndian(|Render(j, false, 0)|, 4) else []
  }

  /** The members that decide about the streams are given once. */
  ghost predicate TermsClear(cfg: Config) {
    && Absent(cfg.before, KEY_PARALLEL)
    && (forall key :: key in {KEY_REVERSE, KEY_BIDIRECTIONAL, KEY_TOS} ==>
          Absent(cfg.before, key) && Absent(cfg.between, key) && Absent(cfg.after, key))
  }

  ghost predicate ConfigOk(cfg: Config) {
    && |cfg.cookie| == COOKIE_SIZE && TermsClear(cfg)
    && Fits(ParamsOf(cfg), MAX_PARAMS_JSON_STRING) && Fits(cfg.clientResults, 0) && Fits(cfg.serverResults, 0)
  }

  // ---------------------------------------------------------------------- parameters

  lemma {:induction false} LookupSplit(a: seq<Member>, b: seq<Member>, key: Text)
    ensures Lookup(a + b, key) == if Absent(a, key) then Lookup(b, key) else Lookup(a, key)
  {
    if a == [] {
      assert a + b == b;
    } else {
      assert (a + b)[1..] == a[1..] + b;
      LookupSplit(a[1..], b, key);
    }
  }

  lemma LookupOne(key: Text, value: Json, wanted: Text)
    ensures Lookup([Member(key, value)], wanted) == if SameKey(key, wanted) then Some(value) else None
  {
    assert [Member(key, value)][1..] == [];
  }

  lemma LookupNone(key: Text)
    ensures Lookup([], key) == None
  {
  }

  /** Without `key` in any of the other members, what a flag's own member says is what is found. */
  lemma FindTerm(cfg: Config, key: Text)
    requires key in {KEY_PARALLEL, KEY_REVERSE, KEY_BIDIRECTIONAL, KEY_TOS} && TermsClear(cfg)
    ensures Lookup(Members(ParamsOf(cfg)), key)
         == if key == KEY_PARALLEL then Some(Number(cfg.terms.streams))
            else if key == KEY_REVERSE then (if cfg.terms.reverse then Some(Bool(true)) else None)
            else if key == KEY_BIDIRECTIONAL then (if cfg.terms.bidirectional then Some(Bool(true)) else None)
            else if cfg.terms.tos != 0 then Some(Number(cfg.terms.tos)) else None
  {
    hide Lookup;
    var parallel := [Member(KEY_PARALLEL, Number(cfg.terms.streams))];
    var reverse := if cfg.terms.reverse then [Member(KEY_REVERSE, Bool(true))] else [];
    var both := if cfg.terms.bidirectional then [Member(KEY_BIDIRECTIONAL, Bool(true))] else [];
    var tos := if cfg.terms.tos != 0 then [Member(KEY_TOS, Number(cfg.terms.tos))] else [];
    LookupOne(KEY_PARALLEL, Number(cfg.terms.streams), key);
    LookupOne(KEY_REVERSE, Bool(true), key);
    LookupOne(KEY_BIDIRECTIONAL, Bool(true), key);
    LookupOne(KEY_TOS, Number(cfg.terms.tos), key);
    LookupNone(key);
    var a := cfg.before + parallel;
    var b := a + reverse;
    var c := b + both;
    var d := c + cfg.between;
    var e := d + tos;
    LookupSplit(cfg.before, parallel, key);
    LookupSplit(a, reverse, key);
    LookupSplit(b, both, key);
    LookupSplit(c, cfg.between, key);
    LookupSplit(d, tos, key);
    LookupSplit(e, cfg.after, key);
  }

  /** What the document says under the names the two sides agreed on is what the client settled on. */
  lemma TermsCross(cfg: Config)
    requires TermsClear(cfg)
    ensures Lookup(Members(ParamsOf(cfg)), Ascii("parallel")) == Some(Number(cfg.terms.streams))
    ensures FlagIn(ParamsOf(cfg), Ascii("reverse")) == cfg.terms.reverse
    ensures FlagIn(ParamsOf(cfg), Ascii("bidirectional")) == cfg.terms.bidirectional
    ensures Lookup(Members(ParamsOf(cfg)), Ascii("TOS")) == if cfg.terms.tos == 0 then None else Some(Number(cfg.terms.tos))
  {
    hide Lookup;
    FindTerm(cfg, KEY_PARALLEL);
    FindTerm(cfg, KEY_REVERSE);
    FindTerm(cfg, KEY_BIDIRECTIONAL);
    FindTerm(cfg, KEY_TOS);
  }

  /** The server waits for as many streams as the client connects, sends where the client receives and receives where it
      sends, and sets the client's type of service. */
  lemma TermsAgree(cfg: Config)
    requires TermsClear(cfg)
    ensures ExpectedIn(ParamsOf(cfg)) == Total(cfg) && TosIn(ParamsOf(cfg)) == cfg.terms.tos
    ensures ModeIn(ParamsOf(cfg)) == Opposite(ModeOf(cfg.terms))
    ensures match ModeIn(ParamsOf(cfg))
            case SenderMode => cfg.terms.reverse && !cfg.terms.bidirectional
            case ReceiverMode => !cfg.terms.reverse && !cfg.terms.bidirectional
            case Bidirectional => cfg.terms.bidirectional
  {
    hide Lookup;
    FindTerm(cfg, KEY_PARALLEL);
    FindTerm(cfg, KEY_REVERSE);
    FindTerm(cfg, KEY_BIDIRECTIONAL);
    FindTerm(cfg, KEY_TOS);
  }

  const CAPITALS := "ABCDEFGHIJKLMNOPQRSTUVWXYZ"
  const LETTERS := "abcdefghijklmnopqrstuvwxyz"

  predicate SameLetter(a: byte, b: byte, k: nat)
    requires k < 26
  {
    (a == CAPITALS[k] as int && b == LETTERS[k] as int) || (b == CAPITALS[k] as int && a == LETTERS[k] as int)
  }

  /** Bytes of keys are the same if they differ in the case of a letter at most. */
  lemma LowerMeans(a: byte, b: byte)
    ensures Lower(a) == Lower(b) <==> a == b || exists k :: 0 <= k < 26 && SameLetter(a, b, k)
  {
    hide SameLetter;
    forall k | 0 <= k < 26
      ensures SameLetter(a, b, k) <==> (a == 65 + k && b == 97 + k) || (b == 65 + k && a == 97 + k)
    {
      LetterPlaces(a, b, k);
    }
    if 65 <= a <= 90 && b == a + 32 {
      assert SameLetter(a, b, a - 65);
    }
    if 65 <= b <= 90 && a == b + 32 {
      assert SameLetter(a, b, b - 65);
    }
  }

  lemma LetterPlaces(a: byte, b: byte, k: nat)
    requires k < 26
    ensures SameLetter(a, b, k) <==> (a == 65 + k && b == 97 + k) || (b == 65 + k && a == 97 + k)
  {
    LetterPair(k);
  }

  lemma LetterPair(k: nat)
    requires k < 26
    ensures CAPITALS[k] as int == 65 + k && LETTERS[k] as int == 97 + k
  {
  }

  /** Without the members, one stream towards the server and no type of service. */
  lemma TermsMissing(j: Json)
    requires Absent(Members(j), Ascii("parallel")) && Absent(Members(j), Ascii("reverse"))
    requires Absent(Members(j), Ascii("bidirectional")) && Absent(Members(j), Ascii("TOS"))
    ensures StreamsIn(j) == 1 && ExpectedIn(j) == 1 && ModeIn(j) == ReceiverMode && TosIn(j) == 0
  {
    hide Lookup;
  }

  /** A flag is set by its member whatever that says: a server told that the test is not reversed sends. */
  lemma FlagFalse(before: seq<Member>, after: seq<Member>)
    requires Absent(before, Ascii("reverse")) && Absent(before, Ascii("bidirectional"))
    requires Absent(after, Ascii("bidirectional"))
    ensures ModeIn(Object(before + [Member(Ascii("reverse"), Bool(false))] + after)) == SenderMode
  {
    hide Lookup;
    var one := [Member(Ascii("reverse"), Bool(false))];
    LookupSplit(before + one, after, KEY_REVERSE);
    LookupSplit(before, one, KEY_REVERSE);
    LookupOne(Ascii("reverse"), Bool(false), KEY_REVERSE);
    LookupSplit(before + one, after, KEY_BIDIRECTIONAL);
    LookupSplit(before, one, KEY_BIDIRECTIONAL);
    LookupOne(Ascii("reverse"), Bool(false), KEY_BIDIRECTIONAL);
  }

  // ------------------------------------------------------------------------ state bytes

  /** A state goes over the wire as one byte, negative ones too. */
  lemma StateCrosses(code: int)
    requires -128 <= code < 128
    ensures |Wire(State(code))| == 1 && CodeOf(Wire(State(code))[0]) == code
    ensures Wire(State(code)) == [if code < 0 then 256 + code else code]
  {
  }

  /** The states a client expects, and what becomes of any other: the refusals of a busy server among them. */
  lemma ClientAnswers(cfg: Config, c: Client, code: int)
    requires c.pc == CLoop
    ensures var d := ClientOnState(cfg, c, code);
            && (d.pc == CFailed <==> code !in {1, 2, 9, 10, 13, 14, 16})
            && (d.pc == CDone <==> code == 14 || code == 16)
            && (d.writeLog[|c.writeLog|..]
                == if code == 9 then [Document(ParamsOf(cfg))] else if code == 13 then [Document(cfg.clientResults)]
                   else if code == 14 then [State(16)] else [])
            && (code == 10 ==> d.pc == if Total(cfg) == 0 then CLoop else CStreams)
  {
    hide Encode, ParamsOf, Total;
  }

  lemma ServerAnswers(s: Server, code: int)
    requires s.pc == SLoop
    ensures var t := ServerOnState(s, code);
            && (t.pc == SFailed <==> code !in {1, 4, 12, 16})
            && (t.pc == SDone <==> code == 12 || code == 16)
            && (code in {12, 16} ==> t.state == 16)
            && (t.writeLog[|s.writeLog|..] == if code == 4 then [State(13)] else [])
            && (code == 4 ==> t.pc == SResultLength)
  {
    hide Encode;
  }

  /** A cookie has 37 bytes, and parameters are refused above 8192 bytes. */
  lemma ServerLimits(cfg: Config, s: Server)
    ensures s.pc == SCookie ==> ServerNeeds(s) == 37
    ensures s.pc == SParamLength && |s.inbox| == 4 ==>
              (ServerOnRead(cfg, s).pc == SFailed <==> Value(s.inbox) == 0 || Value(s.inbox) > 8192)
  {
    hide Value;
  }

  // -------------------------------------------------------------- bytes under way

  /** The bytes of the message a process is reading that it has already. */
  function ClientPartial(c: Client): Text { if c.pc.CBody? then c.pc.head + c.inbox else c.inbox }

  function ServerPartial(s: Server): Text {
    match s.pc
    case SParamBody(head) => head + s.inbox
    case SResultBody(head) => head + s.inbox
    case _ => s.inbox
  }

  /** One direction in step: the reader is `r` messages into the script and the writer `w`, and what is between
      them is exactly the bytes of the messages in between. */
  ghost predicate InStep(script: seq<Msg>, r: nat, w: nat, partial: Text, stream: Text, outbox: Text) {
    r <= w <= |script| && partial + (stream + outbox) == Encode(script[r..w])
  }

  lemma {:induction false} EncodeSplit(a: seq<Msg>, b: seq<Msg>)
    ensures Encode(a + b) == Encode(a) + Encode(b)
  {
    if a == [] {
      assert a + b == b;
    } else {
      assert (a + b)[1..] == a[1..] + b;
      EncodeSplit(a[1..], b);
      Associates(Wire(a[0]), Encode(a[1..]), Encode(b));
    }
  }

  lemma FirstOf(script: seq<Msg>, r: nat, w: nat)
    requires r <= w <= |script|
    ensures r == w ==> Encode(script[r..w]) == []
    ensures r < w ==> Encode(script[r..w]) == Wire(script[r]) + Encode(script[r + 1..w])
  {
  }

  /** Bytes moving from the outbox into the stream. */
  lemma StillInStep(script: seq<Msg>, r: nat, w: nat, partial: Text, stream: Text, outbox: Text, n: nat)
    requires InStep(script, r, w, partial, stream, outbox) && n <= |outbox|
    ensures InStep(script, r, w, partial, stream + outbox[..n], outbox[n..])
  {
  }

  /** Bytes moving from the stream to the reader. */
  lemma StillInStepRead(script: seq<Msg>, r: nat, w: nat, partial: Text, stream: Text, outbox: Text, n: nat)
    requires InStep(script, r, w, partial, stream, outbox) && n <= |stream|
    ensures InStep(script, r, w, partial + stream[..n], stream[n..], outbox)
  {
  }

  /** The writer adds the next messages of the script. */
  lemma SaysNext(script: seq<Msg>, r: nat, w: nat, more: nat, partial: Text, stream: Text, outbox: Text)
    requires InStep(script, r, w, partial, stream, outbox) && w <= more <= |script|
    ensures InStep(script, r, more, partial, stream, outbox + Encode(script[w..more]))
    ensures script[..w] + script[w..more] == script[..more]
  {
    hide Encode;
    EncodeSplit(script[r..w], script[w..more]);
    assert script[r..more] == script[r..w] + script[w..more];
    var add := Encode(script[w..more]);
    assert partial + (stream + (outbox + add)) == partial + (stream + outbox) + add;
  }

  /** The reader has a message complete. */
  lemma TakesMessage(script: seq<Msg>, r: nat, w: nat, partial: Text, stream: Text, outbox: Text)
    requires InStep(script, r, w, partial, stream, outbox) && r < |script|
    requires |partial| == |Wire(script[r])| > 0
    ensures r < w && partial == Wire(script[r]) && InStep(script, r + 1, w, [], stream, outbox)
  {
    hide Encode, Wire;
    FirstOf(script, r, w);
    var whole := Encode(script[r..w]);
    assert r < w;
    assert partial == whole[..|partial|] == Wire(script[r]);
    assert stream + outbox == whole[|partial|..];
    assert whole[|partial|..] == Encode(script[r + 1..w]);
    assert [] + (stream + outbox) == stream + outbox;
  }

  /** The reader has the length of a document. */
  lemma TakesLength(script: seq<Msg>, r: nat, w: nat, head: Text, stream: Text, outbox: Text, maxSize: nat)
    requires InStep(script, r, w, head, stream, outbox) && r < |script|
    requires script[r].Document? && Fits(script[r].json, maxSize) && |head| == 4
    ensures r < w && Value(head) == |Render(script[r].json, false, 0)| && LengthOk(Value(head), maxSize)
    ensures head == HeadOf(script[r].json)
  {
    hide Encode, Render, BigEndian, Value, Power256, Printable, NestsWithin;
    FirstOf(script, r, w);
    assert r < w;
    var text := Render(script[r].json, false, 0);
    var whole := Encode(script[r..w]);
    assert head == whole[..4];
    assert Wire(script[r]) == BigEndian(|text|, 4) + text;
    assert whole[..4] == BigEndian(|text|, 4);
    FourBytesHold();
    SmallIsExact(|text|, 4);
  }

  /** A whole document is read as what was written. */
  lemma ReadsDocument(j: Json, maxSize: nat, head: Text, body: Text)
    requires Fits(j, maxSize) && head == HeadOf(j)
    requires head + body == Wire(Document(j))
    ensures ParsedText(body) == Some(j)
  {
    hide Render, BigEndian, Value, Power256, Printable, NestsWithin, ParsedText;
    FrameRoundTrip(j, maxSize, []);
    var wire := Frame(j) + [];
    assert wire == Frame(j) == head + body;
    assert wire[4..] == body;
    assert body[..|body|] == body;
  }

  lemma FrameSize(j: Json, maxSize: nat)
    requires Fits(j, maxSize)
    ensures |HeadOf(j)| == 4 && Value(HeadOf(j)) == |Render(j, false, 0)| > 0
    ensures |Wire(Document(j))| == 4 + Value(HeadOf(j))
  {
    hide Render, BigEndian, Power256, Printable, NestsWithin, Value;
    FourBytesHold();
    SmallIsExact(|Render(j, false, 0)|, 4);
  }

  // ----------------------------------------------------------------------- the stages

  /** Where the client is after `|readLog|` messages. */
  ghost predicate ClientStage(cfg: Config, c: Client) {
    var r, w := |c.readLog|, |c.writeLog|;
    match r
    case 0 => c.pc == CLoop && c.state == IPERF_START && w == 1 && c.made == 0
    case 1 => c.pc == CLoop && c.state == PARAM_EXCHANGE && w == 2 && c.made == 0
    case 2 => c.state == CREATE_STREAMS && w == 2
              && ((c.pc == CStreams && c.made < Total(cfg)) || (c.pc == CLoop && c.made == Total(cfg)))
    case 3 => c.pc == CLoop && c.state == TEST_START && w == 2 && c.made == Total(cfg)
    case 4 => c.pc == CLoop && c.made == Total(cfg)
              && ((c.state == TEST_RUNNING && w == 2) || (c.state == TEST_END && w == 3))
    case 5 => c.state == EXCHANGE_RESULTS && w == 4 && c.made == Total(cfg)
              && (c.pc == CLength || c.pc == CBody(HeadOf(cfg.serverResults)))
    case 6 => c.pc == CLoop && c.state == EXCHANGE_RESULTS && w == 4 && c.made == Total(cfg)
    case 7 => c.pc == CDone && c.state == IPERF_DONE && w == 5 && c.made == Total(cfg)
    case _ => false
  }

  /** Where the server is after `|readLog|` messages. */
  ghost predicate ServerStage(cfg: Config, s: Server) {
    var r, w := |s.readLog|, |s.writeLog|;
    match r
    case 0 => (s.pc == SIdle || s.pc == SCookie) && s.state == IPERF_START && w == 0 && s.accepted == []
    case 1 => s.state == PARAM_EXCHANGE && w == 1 && s.accepted == []
              && (s.pc == SParamLength || s.pc == SParamBody(HeadOf(ParamsOf(cfg))))
    case 2 => s.pc == SLoop
              && ((s.state == CREATE_STREAMS && w == 2 && |s.accepted| < Total(cfg))
                  || (s.state == TEST_RUNNING && w == 4 && |s.accepted| == Total(cfg)))
    case 3 => s.state == EXCHANGE_RESULTS && w == 5 && |s.accepted| == Total(cfg)
              && (s.pc == SResultLength || s.pc == SResultBody(HeadOf(cfg.clientResults)))
    case 4 => s.pc == SLoop && s.state == DISPLAY_RESULTS && w == 7 && |s.accepted| == Total(cfg)
    case 5 => s.pc == SDone && s.state == IPERF_DONE && w == 7 && |s.accepted| == Total(cfg)
    case _ => false
  }

  /** The client is at its stage, has read and written its part of the scripts, and holds what it read. */
  ghost predicate ClientAt(cfg: Config, c: Client) {
    && ClientStage(cfg, c) && |c.readLog| <= 7 && |c.writeLog| <= 5
    && c.readLog == ServerScript(cfg)[..|c.readLog|] && c.writeLog == ClientScript(cfg)[..|c.writeLog|]
    && c.results == if |c.readLog| >= 6 then Some(cfg.serverResults) else None
  }

  ghost predicate ServerAt(cfg: Config, s: Server) {
    && ServerStage(cfg, s) && |s.readLog| <= 5 && |s.writeLog| <= 7
    && s.readLog == ClientScript(cfg)[..|s.readLog|] && s.writeLog == ServerScript(cfg)[..|s.writeLog|]
    && s.params == (if |s.readLog| >= 2 then Some(ParamsOf(cfg)) else None)
    && s.expected == (if |s.readLog| >= 2 then Total(cfg) else 0)
    && s.mode == (if |s.readLog| >= 2 then Opposite(ModeOf(cfg.terms)) else ReceiverMode)
    && s.tos == (if |s.readLog| >= 2 then cfg.terms.tos else 0) && s.closedReported == cfg.closedReported
    && s.results == if |s.readLog| >= 4 then Some(cfg.clientResults) else None
  }

  /** A read under way is not complete, and there is nothing left over from one that is. */
  ghost predicate Unfinished(inbox: Text, needed: nat) { inbox == [] || |inbox| < needed }

  // -------------------------------------------------------------------- the connections

  /** The client's streams among the connections, in order. */
  function StreamsOf(conns: seq<Conn>): seq<nat> {
    if conns == [] then []
    else (if conns[0].OwnStream? then [conns[0].k] else []) + StreamsOf(conns[1..])
  }

  function FirstNumbers(n: nat): (ks: seq<nat>)
    ensures |ks| == n && forall k :: 0 <= k < n ==> ks[k] == k
  {
    seq(n, k requires 0 <= k < n => k)
  }

  /** Streams are accepted in the order they were made, and only other clients were ever turned away. */
  ghost predicate Queued(s: System) {
    && s.server.accepted + StreamsOf(s.queue) == FirstNumbers(s.client.made)
    && (s.server.pc == SIdle ==> s.queue != [] && s.queue[0] == ControlConn)
    && (forall i :: 0 <= i < |s.queue| ==> s.queue[i] == ControlConn ==> i == 0 && s.server.pc == SIdle)
    && forall i :: 0 <= i < |s.denied| ==> s.denied[i].Foreign?
  }

  ghost predicate ToServer(cfg: Config, s: System) {
    InStep(ClientScript(cfg), |s.server.readLog|, |s.client.writeLog|, ServerPartial(s.server), s.toServer,
           s.client.outbox)
  }

  ghost predicate ToClient(cfg: Config, s: System) {
    InStep(ServerScript(cfg), |s.client.readLog|, |s.server.writeLog|, ClientPartial(s.client), s.toClient,
           s.server.outbox)
  }

  /** The invariant of the protocol. */
  ghost predicate Inv(cfg: Config, s: System) {
    && ClientAt(cfg, s.client) && ServerAt(cfg, s.server)
    && Unfinished(s.client.inbox, ClientNeeds(s.client)) && Unfinished(s.server.inbox, ServerNeeds(s.server))
    && ToServer(cfg, s) && ToClient(cfg, s) && Queued(s)
  }

  lemma {:induction false} StreamsSplit(a: seq<Conn>, b: seq<Conn>)
    ensures StreamsOf(a + b) == StreamsOf(a) + StreamsOf(b)
  {
    if a == [] {
      assert a + b == b;
    } else {
      assert (a + b)[1..] == a[1..] + b;
      StreamsSplit(a[1..], b);
      Associates(if a[0].OwnStream? then [a[0].k] else [], StreamsOf(a[1..]), StreamsOf(b));
    }
  }

  lemma StreamsOne(conn: Conn)
    ensures StreamsOf([conn]) == if conn.OwnStream? then [conn.k] else []
  {
    assert [conn][1..] == [];
  }

  lemma EncodeOne(m: Msg)
    ensures Encode([m]) == Wire(m)
  {
    assert [m][1..] == [];
  }

  lemma InitInv(cfg: Config)
    requires ConfigOk(cfg)
    ensures Inv(cfg, Init(cfg))
  {
    hide Fits, Render;
    var s := Init(cfg);
    EncodeOne(Cookie(cfg.cookie));
    assert ClientScript(cfg)[0..1] == [Cookie(cfg.cookie)];
    assert ServerScript(cfg)[0..0] == [] && Encode([]) == [];
    StreamsOne(ControlConn);
    assert [] + ([] + cfg.cookie) == cfg.cookie;
  }

  // ---------------------------------------------------------------- steps without reading

  lemma ClientWriteKeeps(cfg: Config, s: System, n: nat)
    requires Inv(cfg, s) && Enabled(cfg, s, ClientWrite(n))
    ensures Inv(cfg, Next(cfg, s, ClientWrite(n)))
  {
    hide InStep, StreamsOf, Render;
    StillInStep(ClientScript(cfg), |s.server.readLog|, |s.client.writeLog|, ServerPartial(s.server), s.toServer,
                s.client.outbox, n);
  }

  lemma ServerWriteKeeps(cfg: Config, s: System, n: nat)
    requires Inv(cfg, s) && Enabled(cfg, s, ServerWrite(n))
    ensures Inv(cfg, Next(cfg, s, ServerWrite(n)))
  {
    hide InStep, StreamsOf, Render;
    StillInStep(ServerScript(cfg), |s.client.readLog|, |s.server.writeLog|, ClientPartial(s.client), s.toClient,
                s.server.outbox, n);
  }

  lemma ForeignKeeps(cfg: Config, s: System, id: nat, broken: bool)
    requires Inv(cfg, s)
    ensures Inv(cfg, Next(cfg, s, ForeignConnect(id, broken)))
  {
    hide InStep, StreamsOf, Render, ClientStage, ServerStage;
    StreamsSplit(s.queue, [Foreign(id, broken)]);
    StreamsOne(Foreign(id, broken));
    assert StreamsOf(s.queue) + [] == StreamsOf(s.queue);
  }

  lemma ConnectKeeps(cfg: Config, s: System)
    requires Inv(cfg, s) && Enabled(cfg, s, ClientConnect)
    ensures Inv(cfg, Next(cfg, s, ClientConnect))
  {
    hide InStep, StreamsOf, Render, ServerStage;
    var made := s.client.made;
    StreamsSplit(s.queue, [OwnStream(made)]);
    StreamsOne(OwnStream(made));
    assert s.server.accepted + (StreamsOf(s.queue) + [made]) == FirstNumbers(made) + [made];
    assert FirstNumbers(made + 1) == FirstNumbers(made) + [made];
  }

  lemma FinishKeeps(cfg: Config, s: System)
    requires Inv(cfg, s) && Enabled(cfg, s, ClientFinish)
    ensures Inv(cfg, Next(cfg, s, ClientFinish))
  {
    hide InStep, StreamsOf, Render, ServerStage, Encode;
    var script := ClientScript(cfg);
    SaysNext(script, |s.server.readLog|, 2, 3, ServerPartial(s.server), s.toServer, s.client.outbox);
    assert script[2..3] == [State(TEST_END)];
  }

  // ------------------------------------------------------------------- the client reads

  /** Bytes arrive in the client's buffer. */
  function ClientTook(s: System, n: nat): System
    requires n <= |s.toClient|
  {
    s.(toClient := s.toClient[n..], client := s.client.(inbox := s.client.inbox + s.toClient[..n]))
  }

  /** The invariant but for a read that may be complete. */
  ghost predicate Almost(cfg: Config, s: System) {
    && ClientAt(cfg, s.client) && ServerAt(cfg, s.server)
    && ToServer(cfg, s) && ToClient(cfg, s) && Queued(s)
  }

  lemma ClientTakes(cfg: Config, s: System, n: nat)
    requires Inv(cfg, s) && n <= |s.toClient|
    ensures Almost(cfg, ClientTook(s, n))
  {
    hide InStep, StreamsOf, ServerStage, ClientNeeds, ServerNeeds;
    StillInStepRead(ServerScript(cfg), |s.client.readLog|, |s.server.writeLog|, ClientPartial(s.client), s.toClient,
                    s.server.outbox, n);
    if s.client.pc.CBody? {
      assert s.client.pc.head + s.client.inbox + s.toClient[..n]
          == s.client.pc.head + (s.client.inbox + s.toClient[..n]);
    }
  }

  /** The server is at least as far as the client's reading says, and the client as the server's. */
  lemma Order(cfg: Config, s: System)
    requires Almost(cfg, s)
    ensures |s.client.readLog| <= |s.server.writeLog| && |s.server.readLog| <= |s.client.writeLog|
  {
    hide Encode, StreamsOf;
  }

  /** A state byte has come in at the client's loop: it is the one the server wrote next. */
  lemma ClientHears(cfg: Config, s: System)
    requires Almost(cfg, s) && s.client.pc == CLoop && |s.client.inbox| == 1
    ensures var r, c := |s.client.readLog|, s.client;
            && r < |s.server.writeLog| && ServerScript(cfg)[r] == State(CodeOf(c.inbox[0]))
            && c.readLog + [State(CodeOf(c.inbox[0]))] == ServerScript(cfg)[..r + 1]
            && InStep(ServerScript(cfg), r + 1, |s.server.writeLog|, [], s.toClient, s.server.outbox)
  {
    hide InStep, StreamsOf, ServerStage;
    var r, script := |s.client.readLog|, ServerScript(cfg);
    assert r in {0, 1, 2, 3, 4, 6};
    assert script[r].State? && 0 <= script[r].code < 128;
    TakesMessage(script, r, |s.server.writeLog|, s.client.inbox, s.toClient, s.server.outbox);
    assert script[..r + 1] == script[..r] + [script[r]];
  }

  /** The client after the byte. */
  lemma ClientActs(cfg: Config, s: System)
    requires Almost(cfg, s) && s.client.pc == CLoop && |s.client.inbox| == 1
    requires s.client.outbox == []
    requires Unfinished(s.server.inbox, ServerNeeds(s.server))
    ensures Inv(cfg, s.(client := ClientOnState(cfg, s.client, CodeOf(s.client.inbox[0]))))
  {
    hide InStep, StreamsOf, ServerNeeds, Encode;
    ClientHears(cfg, s);
    Order(cfg, s);
    var c, sr := s.client, |s.server.readLog|;
    var w, script := |c.writeLog|, ClientScript(cfg);
    var partial := ServerPartial(s.server);
    if |c.readLog| == 0 {
      SaysNext(script, sr, w, 2, partial, s.toServer, c.outbox);
      assert script[1..2] == [Document(ParamsOf(cfg))];
    } else if |c.readLog| == 4 {
      SaysNext(script, sr, w, 4, partial, s.toServer, c.outbox);
      assert script[3..4] == [Document(cfg.clientResults)];
    } else if |c.readLog| == 6 {
      SaysNext(script, sr, w, 5, partial, s.toServer, c.outbox);
      assert script[4..5] == [State(IPERF_DONE)];
    }
  }

  /** The length of the server's results has come in. */
  lemma ClientSized(cfg: Config, s: System)
    requires ConfigOk(cfg) && Almost(cfg, s) && s.client.pc == CLength && |s.client.inbox| == 4
    requires Unfinished(s.server.inbox, ServerNeeds(s.server))
    ensures Inv(cfg, s.(client := ClientOnRead(cfg, s.client)))
  {
    hide StreamsOf, ServerNeeds, Encode, ServerStage, HeadOf, LengthOk, Value, Fits;
    var c := s.client;
    TakesLength(ServerScript(cfg), 5, |s.server.writeLog|, c.inbox, s.toClient, s.server.outbox, 0);
    assert c.inbox + [] == c.inbox;
  }

  /** The server's results have come in: they are the document the server wrote. */
  lemma ClientLearns(cfg: Config, s: System)
    requires ConfigOk(cfg) && Almost(cfg, s) && s.client.pc.CBody? && |s.client.inbox| == ClientNeeds(s.client)
    requires Unfinished(s.server.inbox, ServerNeeds(s.server))
    ensures Inv(cfg, s.(client := ClientOnRead(cfg, s.client)))
  {
    hide InStep, StreamsOf, ServerNeeds, ServerStage, HeadOf, LengthOk, Value, Fits, ParsedText, Wire;
    var c, script := s.client, ServerScript(cfg);
    FrameSize(cfg.serverResults, 0);
    TakesMessage(script, 5, |s.server.writeLog|, ClientPartial(c), s.toClient, s.server.outbox);
    ReadsDocument(cfg.serverResults, 0, c.pc.head, c.inbox);
    assert script[..6] == script[..5] + [script[5]];
  }

  lemma ClientReadKeeps(cfg: Config, s: System, n: nat)
    requires ConfigOk(cfg) && Inv(cfg, s) && Enabled(cfg, s, ClientRead(n))
    ensures Inv(cfg, Next(cfg, s, ClientRead(n)))
  {
    hide InStep, ServerNeeds, ServerStage, Fits, Queued, HeadOf, ClientOnState, ClientOnBody, ServerAt;
    ClientTakes(cfg, s, n);
    var t := ClientTook(s, n);
    if |t.client.inbox| == ClientNeeds(t.client) {
      if t.client.pc == CLoop {
        ClientActs(cfg, t);
      } else if t.client.pc == CLength {
        ClientSized(cfg, t);
      } else {
        ClientLearns(cfg, t);
      }
    }
  }

  // ------------------------------------------------------------------- the server reads

  /** Bytes arrive in the server's buffer. */
  function ServerTook(s: System, n: nat): System
    requires n <= |s.toServer|
  {
    s.(toServer := s.toServer[n..], server := s.server.(inbox := s.server.inbox + s.toServer[..n]))
  }

  lemma ServerTakes(cfg: Config, s: System, n: nat)
    requires Inv(cfg, s) && n <= |s.toServer|
    ensures Almost(cfg, ServerTook(s, n))
  {
    hide InStep, StreamsOf, ClientStage, ClientNeeds, ServerNeeds;
    StillInStepRead(ClientScript(cfg), |s.server.readLog|, |s.client.writeLog|, ServerPartial(s.server), s.toServer,
                    s.client.outbox, n);
    if s.server.pc.SParamBody? || s.server.pc.SResultBody? {
      assert s.server.pc.head + s.server.inbox + s.toServer[..n]
          == s.server.pc.head + (s.server.inbox + s.toServer[..n]);
    }
  }

  /** A state byte has come in at the server's loop: it is the one the client wrote next. */
  lemma ServerHears(cfg: Config, s: System)
    requires Almost(cfg, s) && s.server.pc == SLoop && |s.server.inbox| == 1
    ensures var r, v := |s.server.readLog|, s.server;
            && r < |s.client.writeLog| && ClientScript(cfg)[r] == State(CodeOf(v.inbox[0]))
            && v.readLog + [State(CodeOf(v.inbox[0]))] == ClientScript(cfg)[..r + 1]
            && InStep(ClientScript(cfg), r + 1, |s.client.writeLog|, [], s.toServer, s.client.outbox)
  {
    hide InStep, StreamsOf, ClientStage;
    var r, script := |s.server.readLog|, ClientScript(cfg);
    assert r in {2, 4};
    assert script[r].State? && 0 <= script[r].code < 128;
    TakesMessage(script, r, |s.client.writeLog|, s.server.inbox, s.toServer, s.client.outbox);
    assert script[..r + 1] == script[..r] + [script[r]];
  }

  lemma ServerActs(cfg: Config, s: System)
    requires Almost(cfg, s) && s.server.pc == SLoop && |s.server.inbox| == 1 && s.server.outbox == []
    requires Unfinished(s.client.inbox, ClientNeeds(s.client))
    ensures Inv(cfg, s.(server := ServerOnState(s.server, CodeOf(s.server.inbox[0]))))
  {
    hide InStep, StreamsOf, ClientNeeds, Encode;
    ServerHears(cfg, s);
    Order(cfg, s);
    var v, script := s.server, ServerScript(cfg);
    if |v.readLog| == 2 {
      SaysNext(script, |s.client.readLog|, 4, 5, ClientPartial(s.client), s.toClient, v.outbox);
      assert script[4..5] == [State(EXCHANGE_RESULTS)];
    }
  }

  /** The cookie has come in. */
  lemma ServerGreets(cfg: Config, s: System)
    requires ConfigOk(cfg) && Almost(cfg, s) && s.server.pc == SCookie && |s.server.inbox| == COOKIE_SIZE
    requires Unfinished(s.client.inbox, ClientNeeds(s.client))
    ensures Inv(cfg, s.(server := ServerOnCookie(s.server)))
  {
    hide InStep, StreamsOf, ClientNeeds, Encode, ClientStage, Fits;
    var v, script, mine := s.server, ClientScript(cfg), ServerScript(cfg);
    TakesMessage(script, 0, |s.client.writeLog|, v.inbox, s.toServer, s.client.outbox);
    assert script[..1] == [Cookie(v.inbox)];
    SaysNext(mine, |s.client.readLog|, 0, 1, ClientPartial(s.client), s.toClient, v.outbox);
    assert mine[0..1] == [State(PARAM_EXCHANGE)];
  }

  /** The length of a document has come in. */
  lemma ServerSized(cfg: Config, s: System)
    requires ConfigOk(cfg) && Almost(cfg, s) && (s.server.pc == SParamLength || s.server.pc == SResultLength)
    requires |s.server.inbox| == 4 && Unfinished(s.client.inbox, ClientNeeds(s.client))
    ensures Inv(cfg, s.(server := ServerOnRead(cfg, s.server)))
  {
    hide StreamsOf, ClientNeeds, Encode, ClientStage, HeadOf, LengthOk, Value, Fits;
    var v := s.server;
    var r, maxSize := |v.readLog|, if v.pc == SParamLength then MAX_PARAMS_JSON_STRING else 0;
    TakesLength(ClientScript(cfg), r, |s.client.writeLog|, v.inbox, s.toServer, s.client.outbox, maxSize);
    assert v.inbox + [] == v.inbox;
  }

  /** A document of the client's has come in: it is the one the client wrote. */
  lemma ServerLearns(cfg: Config, s: System)
    requires ConfigOk(cfg) && Almost(cfg, s) && (s.server.pc.SParamBody? || s.server.pc.SResultBody?)
    requires |s.server.inbox| == ServerNeeds(s.server)
    ensures var r := |s.server.readLog|;
            && r < |s.client.writeLog| && ClientScript(cfg)[r].Document?
            && ParsedText(s.server.inbox) == Some(ClientScript(cfg)[r].json)
            && s.server.readLog + [ClientScript(cfg)[r]] == ClientScript(cfg)[..r + 1]
            && InStep(ClientScript(cfg), r + 1, |s.client.writeLog|, [], s.toServer, s.client.outbox)
  {
    hide InStep, StreamsOf, ClientStage, HeadOf, LengthOk, Value, Fits, ParsedText, Wire, Queued;
    var v, script := s.server, ClientScript(cfg);
    var r, maxSize := |v.readLog|, if v.pc.SParamBody? then MAX_PARAMS_JSON_STRING else 0;
    FrameSize(script[r].json, maxSize);
    TakesMessage(script, r, |s.client.writeLog|, ServerPartial(v), s.toServer, s.client.outbox);
    ReadsDocument(script[r].json, maxSize, v.pc.head, v.inbox);
    assert script[..r + 1] == script[..r] + [script[r]];
  }

  lemma ParamsArrive(cfg: Config, s: System)
    requires ConfigOk(cfg) && Almost(cfg, s) && s.server.pc.SParamBody?
    requires |s.server.inbox| == ServerNeeds(s.server) && s.server.outbox == []
    requires Unfinished(s.client.inbox, ClientNeeds(s.client))
    ensures Inv(cfg, s.(server := ServerOnParams(s.server)))
  {
    hide InStep, StreamsOf, ClientNeeds, ClientStage, HeadOf, Fits, ParsedText, ExpectedIn, TosIn, Encode;
    ServerLearns(cfg, s);
    TermsAgree(cfg);
    var v, mine := s.server, ServerScript(cfg);
    SaysNext(mine, |s.client.readLog|, 1, 2, ClientPartial(s.client), s.toClient, v.outbox);
    assert mine[1..2] == [State(CREATE_STREAMS)];
    SaysNext(mine, |s.client.readLog|, 2, 4, ClientPartial(s.client), s.toClient, v.outbox + Encode(mine[1..2]));
    assert mine[2..4] == [State(TEST_START), State(TEST_RUNNING)];
  }

  lemma ResultsArrive(cfg: Config, s: System)
    requires ConfigOk(cfg) && Almost(cfg, s) && s.server.pc.SResultBody?
    requires |s.server.inbox| == ServerNeeds(s.server) && s.server.outbox == []
    requires Unfinished(s.client.inbox, ClientNeeds(s.client))
    ensures Inv(cfg, s.(server := ServerOnResults(cfg, s.server)))
  {
    hide InStep, StreamsOf, ClientNeeds, ClientStage, HeadOf, Fits, ParsedText, Encode;
    ServerLearns(cfg, s);
    var mine := ServerScript(cfg);
    SaysNext(mine, |s.client.readLog|, 5, 7, ClientPartial(s.client), s.toClient, s.server.outbox);
    assert mine[5..7] == [Document(cfg.serverResults), State(DISPLAY_RESULTS)];
  }

  lemma ServerReadKeeps(cfg: Config, s: System, n: nat)
    requires ConfigOk(cfg) && Inv(cfg, s) && Enabled(cfg, s, ServerRead(n))
    ensures Inv(cfg, Next(cfg, s, ServerRead(n)))
  {
    hide InStep, ClientNeeds, ClientStage, Fits, Queued, HeadOf, ClientAt;
    hide ServerOnState, ServerOnCookie, ServerOnParams, ServerOnResults;
    ServerTakes(cfg, s, n);
    var t := ServerTook(s, n);
    if |t.server.inbox| == ServerNeeds(t.server) {
      match t.server.pc
      case SCookie => ServerGreets(cfg, t);
      case SLoop => ServerActs(cfg, t);
      case SParamLength => ServerSized(cfg, t);
      case SResultLength => ServerSized(cfg, t);
      case SParamBody(_) => ParamsArrive(cfg, t);
      case SResultBody(_) => ResultsArrive(cfg, t);
      case _ =>
    }
  }

  // ------------------------------------------------------------------ the server accepts

  /** Only while streams are being created is one of the client's in the queue. */
  lemma NoStreamLate(cfg: Config, s: System)
    requires Inv(cfg, s) && s.queue != [] && s.server.pc == SLoop && s.queue[0].OwnStream?
    ensures s.server.state == CREATE_STREAMS
  {
  }

  lemma AcceptKeeps(cfg: Config, s: System)
    requires Inv(cfg, s) && Enabled(cfg, s, ServerAccept) && !Fatal(s, ServerAccept)
    ensures Inv(cfg, Next(cfg, s, ServerAccept))
  {
    hide InStep, HeadOf, ClientNeeds, ClientStage, StreamsOf, Encode;
    var head, rest := s.queue[0], s.queue[1..];
    assert s.queue == [head] + rest;
    StreamsSplit([head], rest);
    StreamsOne(head);
    if head.OwnStream? && s.server.pc == SLoop {
      NoStreamLate(cfg, s);
      assert s.server.accepted + ([head.k] + StreamsOf(rest)) == s.server.accepted + [head.k] + StreamsOf(rest);
      var mine := ServerScript(cfg);
      SaysNext(mine, |s.client.readLog|, 2, 4, ClientPartial(s.client), s.toClient, s.server.outbox);
      assert mine[2..4] == [State(TEST_START), State(TEST_RUNNING)];
    } else {
      assert [] + StreamsOf(rest) == StreamsOf(rest);
    }
  }

  // ------------------------------------------------------------------------- theorems

  /** Every step of either side, of any size, and every call by others keeps the invariant, unless it ends the test. */
  lemma StepKeepsInv(cfg: Config, s: System, a: Action)
    requires ConfigOk(cfg) && Inv(cfg, s) && Enabled(cfg, s, a) && !Fatal(s, a)
    ensures Inv(cfg, Next(cfg, s, a))
  {
    hide Inv, Enabled, Next, Fatal;
    match a
    case ClientWrite(n) => ClientWriteKeeps(cfg, s, n);
    case ClientRead(n) => ClientReadKeeps(cfg, s, n);
    case ClientConnect => ConnectKeeps(cfg, s);
    case ClientFinish => FinishKeeps(cfg, s);
    case ServerWrite(n) => ServerWriteKeeps(cfg, s, n);
    case ServerRead(n) => ServerReadKeeps(cfg, s, n);
    case ServerAccept => AcceptKeeps(cfg, s);
    case ForeignConnect(id, broken) => ForeignKeeps(cfg, s, id, broken);
  }

  // --------------------------------------------------------------- runs that were ended

  /** A server that was ended, put back into its loop: nothing else about it has changed. */
  function Revived(s: System): System {
    if s.server.pc == SFailed then s.(server := s.server.(pc := SLoop)) else s
  }

  lemma NotFailed(cfg: Config, s: System)
    requires Inv(cfg, s)
    ensures s.server.pc != SFailed && Revived(s) == s
  {
    hide InStep, StreamsOf, HeadOf, ClientStage, Queued;
  }

  /** A fatal step takes the caller off the queue and stops the server, no more. */
  lemma FatalStep(cfg: Config, s: System)
    requires Inv(cfg, s) && Enabled(cfg, s, ServerAccept) && Fatal(s, ServerAccept)
    ensures var t := Next(cfg, s, ServerAccept);
            t.server.pc == SFailed && t.server.outbox == [] && Inv(cfg, Revived(t))
  {
    hide InStep, HeadOf, ClientNeeds, ClientStage, ServerStage, StreamsOf;
    var head, rest := s.queue[0], s.queue[1..];
    assert s.queue == [head] + rest;
    StreamsSplit([head], rest);
    StreamsOne(head);
    assert [] + StreamsOf(rest) == StreamsOf(rest);
  }

  /** Afterwards only the client and other callers act, as they would have done. */
  lemma StepAfterEnd(cfg: Config, s: System, a: Action)
    requires s.server.pc == SFailed && s.server.outbox == [] && Enabled(cfg, s, a)
    ensures Next(cfg, s, a).server == s.server && !Fatal(s, a)
    ensures Enabled(cfg, Revived(s), a) && !Fatal(Revived(s), a)
    ensures Revived(Next(cfg, s, a)) == Next(cfg, Revived(s), a)
  {
    hide ClientOnRead, ClientSays, Total, Value;
  }

  /** In every run the invariant holds, but for a server that was ended; and it was exactly if a step was fatal. */
  lemma {:induction false} RunInv(cfg: Config, actions: seq<Action>, s: System)
    requires ConfigOk(cfg) && Run(cfg, actions, s)
    ensures Inv(cfg, Revived(s)) && (s.server.pc == SFailed ==> s.server.outbox == [])
    ensures s.server.pc == SFailed <==> !Harmless(cfg, actions)
    decreases |actions|
  {
    hide Inv, ConfigOk, Enabled, Next, Init, Fatal, Revived;
    if actions == [] {
      InitInv(cfg);
      NotFailed(cfg, s);
    } else {
      var short, last := actions[..|actions| - 1], actions[|actions| - 1];
      var before := Reach(cfg, short).value;
      RunInv(cfg, short, before);
      if before.server.pc == SFailed {
        StepAfterEnd(cfg, before, last);
        StepKeepsInv(cfg, Revived(before), last);
      } else {
        Unrevived(before);
        if Fatal(before, last) {
          FatalOnly(before, last);
          FatalStep(cfg, before);
        } else {
          StepKeepsInv(cfg, before, last);
          NotFailed(cfg, s);
        }
      }
    }
  }

  lemma Unrevived(s: System)
    requires s.server.pc != SFailed
    ensures Revived(s) == s
  {
  }

  lemma FatalOnly(s: System, a: Action)
    requires Fatal(s, a)
    ensures a == ServerAccept
  {
  }
}

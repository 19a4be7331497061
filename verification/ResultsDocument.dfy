/** Results as JSON documents: what one side writes about its streams is what the other reads. */
module ResultsDocument {
  import opened Bytes
  import opened JsonText
  import opened ControlProtocol
  import opened ControlInvariant
  import opened ControlTheorems
  import opened ResultsExchange
  import opened StreamPairing

  // ------------------------------------------------------------------------- one row

  const NAMES: seq<string> :=
    ["id", "bytes", "retransmits", "jitter", "errors", "omitted_errors", "packets", "omitted_packets", "start_time",
     "end_time"]

  /** Does a row say everything that `send_results` says? */
  predicate Full(row: Row) { row.omitted.Some? && row.times.Some? }

  /** `send_results` for one stream. */
  function RowMembers(row: Row): (ms: seq<Member>)
    requires Full(row)
    ensures |ms| == |NAMES| && forall i :: 0 <= i < |NAMES| ==> ms[i].key == Ascii(NAMES[i])
    ensures forall i :: 0 <= i < |ms| ==> ms[i].value.Number? || ms[i].value.Decimal?
  {
    [Member(Ascii("id"), Number(row.id)), Member(Ascii("bytes"), Number(row.bytes)),
     Member(Ascii("retransmits"), Number(row.retransmits)), Member(Ascii("jitter"), row.jitter),
     Member(Ascii("errors"), Number(row.errors)), Member(Ascii("omitted_errors"), Number(row.omitted.value.errors)),
     Member(Ascii("packets"), Number(row.packets)), Member(Ascii("omitted_packets"), Number(row.omitted.value.packets)),
     Member(Ascii("start_time"), row.times.value.start), Member(Ascii("end_time"), row.times.value.end)]
  }

  /** The number a document gives for a key, if it gives one. */
  function FigureIn(j: Json, key: Text): Option<Figure> {
    var v := Lookup(Members(j), key);
    if v.Some? && (v.value.Number? || v.value.Decimal?) then Some(v.value) else None
  }

  /** The same as an integer; `whole` is what the C library's conversions make of other text. */
  function IntIn(j: Json, key: Text, whole: Text -> int): Option<int> {
    var v := FigureIn(j, key);
    if v.None? then None else Some(if v.value.Number? then v.value.n else whole(v.value.text))
  }

  /** `get_results`' reading of one entry: every count must be there, and the omitted counts both or neither; the times
      may be missing. */
  function RowFrom(j: Json, whole: Text -> int): Option<Row> {
    var id, bytes := IntIn(j, Ascii("id"), whole), IntIn(j, Ascii("bytes"), whole);
    var retransmits, jitter := IntIn(j, Ascii("retransmits"), whole), FigureIn(j, Ascii("jitter"));
    var errors, packets := IntIn(j, Ascii("errors"), whole), IntIn(j, Ascii("packets"), whole);
    var omittedErrors := IntIn(j, Ascii("omitted_errors"), whole);
    var omittedPackets := IntIn(j, Ascii("omitted_packets"), whole);
    var start, end := FigureIn(j, Ascii("start_time")), FigureIn(j, Ascii("end_time"));
    if id.None? || bytes.None? || retransmits.None? || jitter.None? || errors.None? || packets.None? then None
    else if omittedErrors.Some? != omittedPackets.Some? then None
    else
      Some(Row(id.value, bytes.value, retransmits.value, jitter.value, errors.value, packets.value,
               if omittedErrors.Some? then Some(Omitted(omittedErrors.value, omittedPackets.value)) else None,
               if start.Some? && end.Some? then Some(Times(start.value, end.value)) else None))
  }

  /** Without a key that comes twice, looking up a member's key finds that member. */
  lemma {:induction false} LookupAt(ms: seq<Member>, i: nat)
    requires i < |ms| && forall j, k :: 0 <= j < k < |ms| ==> !SameKey(ms[j].key, ms[k].key)
    ensures Lookup(ms, ms[i].key) == Some(ms[i].value)
    decreases i
  {
    hide SameKey;
    if i == 0 {
      SameKeyItself(ms[0].key);
    } else {
      LookupAt(ms[1..], i - 1);
    }
  }

  lemma SameKeyItself(a: Text)
    ensures SameKey(a, a)
  {
  }

  /** Keys of different length, or with different first letters, are different. */
  lemma KeysDiffer(a: string, b: string)
    requires |a| != |b| || (|a| > 0 && 'a' <= a[0] <= 'z' && 'a' <= b[0] <= 'z' && a[0] != b[0])
    ensures !SameKey(Ascii(a), Ascii(b))
  {
  }

  lemma NamesDiffer(i: nat, j: nat)
    requires i < j < |NAMES|
    ensures !SameKey(Ascii(NAMES[i]), Ascii(NAMES[j]))
  {
    hide SameKey, Ascii;
    assert |NAMES[i]| == |NAMES[j]| ==> i == 3 && j == 4;
    KeysDiffer(NAMES[i], NAMES[j]);
  }

  /** Each member of a row is found under its name. */
  lemma RowLookup(row: Row, i: nat)
    requires Full(row) && i < |NAMES|
    ensures FigureIn(Object(RowMembers(row)), Ascii(NAMES[i])) == Some(RowMembers(row)[i].value)
  {
    hide SameKey, Ascii, Lookup;
    var ms := RowMembers(row);
    forall j, k | 0 <= j < k < |ms| ensures !SameKey(ms[j].key, ms[k].key) {
      NamesDiffer(j, k);
    }
    LookupAt(ms, i);
  }

  /** A row that was written is read as that row, whatever the C library makes of other numbers. */
  lemma RowRoundTrip(row: Row, whole: Text -> int)
    requires Full(row)
    ensures RowFrom(Object(RowMembers(row)), whole) == Some(row)
  {
    hide SameKey, Ascii, Lookup, FigureIn;
    forall i | 0 <= i < |NAMES|
      ensures FigureIn(Object(RowMembers(row)), Ascii(NAMES[i])) == Some(RowMembers(row)[i].value)
    {
      RowLookup(row, i);
    }
    AllNames();
  }

  function Dropped(ms: seq<Member>, i: nat): (rest: seq<Member>)
    requires i < |ms|
    ensures |rest| == |ms| - 1
  {
    ms[..i] + ms[i + 1..]
  }

  /** Without one of several members with different keys, its key is not found and the others are. */
  lemma LookupDropped(ms: seq<Member>, i: nat, key: Text)
    requires i < |ms| && forall j, k :: 0 <= j < k < |ms| ==> !SameKey(ms[j].key, ms[k].key)
    ensures Lookup(Dropped(ms, i), key) == if SameKey(ms[i].key, key) then None else Lookup(ms, key)
  {
    hide SameKey, Lookup;
    var one := [ms[i]];
    assert ms == ms[..i] + one + ms[i + 1..] && ms[i] == Member(ms[i].key, ms[i].value);
    LookupSplit(ms[..i], ms[i + 1..], key);
    LookupSplit(ms[..i] + one, ms[i + 1..], key);
    LookupSplit(ms[..i], one, key);
    LookupOne(ms[i].key, ms[i].value, key);
    if SameKey(ms[i].key, key) {
      OneKey(ms, i, key);
      NotAmong(ms[..i], key);
      NotAmong(ms[i + 1..], key);
    }
  }

  /** A key that is the `i`-th member's is no other member's. */
  lemma OneKey(ms: seq<Member>, i: nat, key: Text)
    requires i < |ms| && forall j, k :: 0 <= j < k < |ms| ==> !SameKey(ms[j].key, ms[k].key)
    requires SameKey(ms[i].key, key)
    ensures forall j :: 0 <= j < |ms| && j != i ==> !SameKey(ms[j].key, key)
  {
    hide SameKey;
    forall j | 0 <= j < |ms| && j != i ensures !SameKey(ms[j].key, key) {
      if SameKey(ms[j].key, key) {
        SameKeyBoth(ms[i].key, ms[j].key, key);
      }
    }
  }

  lemma SameKeyBoth(a: Text, b: Text, key: Text)
    requires SameKey(a, key) && SameKey(b, key)
    ensures SameKey(a, b) && SameKey(b, a)
  {
  }

  lemma {:induction false} NotAmong(ms: seq<Member>, key: Text)
    requires forall j :: 0 <= j < |ms| ==> !SameKey(ms[j].key, key)
    ensures Absent(ms, key)
  {
    hide SameKey;
    if ms != [] {
      NotAmong(ms[1..], key);
    }
  }

  /** What is found in a row that lacks one member. */
  lemma FigureDropped(row: Row, i: nat, k: nat)
    requires Full(row) && i < |NAMES| && k < |NAMES|
    ensures FigureIn(Object(Dropped(RowMembers(row), i)), Ascii(NAMES[k]))
         == if k == i then None else FigureIn(Object(RowMembers(row)), Ascii(NAMES[k]))
  {
    hide SameKey, Ascii, Lookup, RowMembers, Dropped;
    var ms := RowMembers(row);
    forall a, b | 0 <= a < b < |ms| ensures !SameKey(ms[a].key, ms[b].key) {
      NamesDiffer(a, b);
    }
    LookupDropped(ms, i, Ascii(NAMES[k]));
    if k == i {
      SameKeyItself(Ascii(NAMES[i]));
    } else {
      NamesDiffer(if k < i then k else i, if k < i then i else k);
      SameKeySwaps(Ascii(NAMES[k]), Ascii(NAMES[i]));
    }
  }

  lemma SameKeySwaps(a: Text, b: Text)
    ensures SameKey(a, b) <==> SameKey(b, a)
  {
  }

  /** A row that lacks a member is refused, unless it is one of the times: then both count as missing. */
  lemma RowLacking(row: Row, i: nat, whole: Text -> int)
    requires Full(row) && i < |NAMES|
    ensures RowFrom(Object(Dropped(RowMembers(row), i)), whole)
         == if NAMES[i] in ["start_time", "end_time"] then Some(row.(times := None)) else None
  {
    hide SameKey, Ascii, Lookup, FigureIn, Dropped;
    forall k | 0 <= k < |NAMES|
      ensures FigureIn(Object(RowMembers(row)), Ascii(NAMES[k])) == Some(RowMembers(row)[k].value)
      ensures FigureIn(Object(Dropped(RowMembers(row), i)), Ascii(NAMES[k]))
           == if k == i then None else Some(RowMembers(row)[k].value)
    {
      RowLookup(row, k);
      FigureDropped(row, i, k);
    }
    AllNames();
  }

  /** A row as a peer writes that does not count what it omits: without both counts it is read, as such. */
  lemma OlderRow(row: Row, whole: Text -> int)
    requires Full(row)
    ensures RowFrom(Object(Dropped(Dropped(RowMembers(row), 7), 5)), whole) == Some(row.(omitted := None))
  {
    hide SameKey, Ascii, Lookup, FigureIn, Dropped;
    AllNames();
    var ms := Dropped(Dropped(RowMembers(row), 7), 5);
    forall k | 0 <= k < |NAMES|
      ensures FigureIn(Object(RowMembers(row)), Ascii(NAMES[k])) == Some(RowMembers(row)[k].value)
      ensures FigureIn(Object(ms), Ascii(NAMES[k])) == if k in {5, 7} then None else Some(RowMembers(row)[k].value)
    {
      RowLookup(row, k);
      FigureDropped(row, 7, k);
      FigureDroppedTwice(row, k);
    }
  }

  lemma FigureDroppedTwice(row: Row, k: nat)
    requires Full(row) && k < |NAMES|
    ensures var once := Dropped(RowMembers(row), 7);
            FigureIn(Object(Dropped(once, 5)), Ascii(NAMES[k]))
            == if k == 5 then None else FigureIn(Object(once), Ascii(NAMES[k]))
  {
    hide SameKey, Ascii, Lookup, RowMembers;
    var ms := RowMembers(row);
    var once := Dropped(ms, 7);
    assert once[5] == ms[5] && forall a :: 0 <= a < |once| ==> once[a] == ms[if a < 7 then a else a + 1];
    forall a, b | 0 <= a < b < |once| ensures !SameKey(once[a].key, once[b].key) {
      NamesDiffer(if a < 7 then a else a + 1, if b < 7 then b else b + 1);
    }
    LookupDropped(once, 5, Ascii(NAMES[k]));
    if k == 5 {
      SameKeyItself(Ascii(NAMES[5]));
    } else {
      NamesDiffer(if k < 5 then k else 5, if k < 5 then 5 else k);
      SameKeySwaps(Ascii(NAMES[k]), Ascii(NAMES[5]));
    }
  }

  lemma AllNames()
    ensures |NAMES| == 10
    ensures NAMES[0] == "id" && NAMES[1] == "bytes" && NAMES[2] == "retransmits" && NAMES[3] == "jitter"
    ensures NAMES[4] == "errors" && NAMES[5] == "omitted_errors" && NAMES[6] == "packets"
    ensures NAMES[7] == "omitted_packets" && NAMES[8] == "start_time" && NAMES[9] == "end_time"
  {
  }

  // ------------------------------------------------------------------- a whole document

  predicate AllFull(rows: seq<Row>) {
    forall i :: 0 <= i < |rows| ==> Full(rows[i])
  }

  function RowItems(rows: seq<Row>): (items: seq<Json>)
    requires AllFull(rows)
    ensures |items| == |rows| && forall i :: 0 <= i < |rows| ==> items[i] == Object(RowMembers(rows[i]))
  {
    seq(|rows|, i requires 0 <= i < |rows| => Object(RowMembers(rows[i])))
  }

  /** `send_results`: the members about the test as a whole, and then the streams. */
  function ResultsJson(head: seq<Member>, rows: seq<Row>): Json
    requires AllFull(rows)
  {
    Object(head + [Member(Ascii("streams"), Array(RowItems(rows)))])
  }

  /** `get_results`: the rows, each readable or not; nothing without the members it insists on. */
  function RowsIn(j: Json, whole: Text -> int): Option<seq<Option<Row>>> {
    var streams := Lookup(Members(j), Ascii("streams"));
    if FigureIn(j, Ascii("cpu_util_total")).None? || FigureIn(j, Ascii("cpu_util_user")).None?
       || FigureIn(j, Ascii("cpu_util_system")).None? || FigureIn(j, Ascii("sender_has_retransmits")).None? then None
    else if streams.None? || !streams.value.Array? then None
    else
      var items := streams.value.items;
      Some(seq(|items|, i requires 0 <= i < |items| => RowFrom(items[i], whole)))
  }

  /** The members `send_results` puts in front. */
  ghost predicate HeadOk(head: seq<Member>) {
    && Absent(head, Ascii("streams"))
    && forall k :: k in {"cpu_util_total", "cpu_util_user", "cpu_util_system", "sender_has_retransmits"} ==>
         FigureIn(Object(head), Ascii(k)).Some?
  }

  lemma FigureStays(head: seq<Member>, more: seq<Member>, key: Text)
    requires FigureIn(Object(head), key).Some?
    ensures FigureIn(Object(head + more), key) == FigureIn(Object(head), key)
  {
    hide SameKey, Lookup;
    LookupSplit(head, more, key);
  }

  /** A results document that was written is read as its rows. */
  lemma DocumentRoundTrip(head: seq<Member>, rows: seq<Row>, whole: Text -> int)
    requires HeadOk(head) && AllFull(rows)
    ensures RowsIn(ResultsJson(head, rows), whole) == Some(Wrapped(rows))
  {
    hide SameKey, Lookup, Ascii, RowFrom, RowMembers, FigureIn;
    var last := [Member(Ascii("streams"), Array(RowItems(rows)))];
    FigureStays(head, last, Ascii("cpu_util_total"));
    FigureStays(head, last, Ascii("cpu_util_user"));
    FigureStays(head, last, Ascii("cpu_util_system"));
    FigureStays(head, last, Ascii("sender_has_retransmits"));
    LookupSplit(head, last, Ascii("streams"));
    LookupOne(Ascii("streams"), Array(RowItems(rows)), Ascii("streams"));
    SameKeyItself(Ascii("streams"));
    forall i | 0 <= i < |rows| ensures RowFrom(RowItems(rows)[i], whole) == Some(rows[i]) {
      RowRoundTrip(rows[i], whole);
    }
    assert RowsIn(ResultsJson(head, rows), whole).value == Wrapped(rows);
  }

  /** Exactly the documents with a figure for each of the four members in front and an array of streams are read, with a
      row or an error for each element. */
  lemma DocumentReadIff(j: Json, whole: Text -> int)
    ensures RowsIn(j, whole).Some? <==>
              && (forall k :: k in ["cpu_util_total", "cpu_util_user", "cpu_util_system", "sender_has_retransmits"] ==>
                    FigureIn(j, Ascii(k)).Some?)
              && exists items :: Lookup(Members(j), Ascii("streams")) == Some(Array(items))
    ensures forall items :: RowsIn(j, whole).Some? && Lookup(Members(j), Ascii("streams")) == Some(Array(items)) ==>
              |RowsIn(j, whole).value| == |items|
  {
    hide Ascii, Lookup, FigureIn, RowFrom;
    var streams := Lookup(Members(j), Ascii("streams"));
    assert streams.Some? && streams.value.Array? ==> streams == Some(Array(streams.value.items));
    assert forall k :: k in ["cpu_util_total", "cpu_util_user", "cpu_util_system", "sender_has_retransmits"]
                  <==> k == "cpu_util_total" || k == "cpu_util_user" || k == "cpu_util_system" || k == "sender_has_retransmits";
  }

  /** Over the wire: at the end of every run each side has read the rows the other side sent. */
  lemma RowsCross(cfg: Config, actions: seq<Action>, s: System, clientHead: seq<Member>, clientRows: seq<Row>,
                  serverHead: seq<Member>, serverRows: seq<Row>, whole: Text -> int)
    requires ConfigOk(cfg) && Run(cfg, actions, s) && Finished(s)
    requires HeadOk(clientHead) && HeadOk(serverHead) && AllFull(clientRows) && AllFull(serverRows)
    requires cfg.clientResults == ResultsJson(clientHead, clientRows)
    requires cfg.serverResults == ResultsJson(serverHead, serverRows)
    ensures s.server.results.Some? && RowsIn(s.server.results.value, whole) == Some(Wrapped(clientRows))
    ensures s.client.results.Some? && RowsIn(s.client.results.value, whole) == Some(Wrapped(serverRows))
  {
    hide ConfigOk, Run, HeadOk, RowsIn;
    Agreement(cfg, actions, s);
    DocumentRoundTrip(clientHead, clientRows, whole);
    DocumentRoundTrip(serverHead, serverRows, whole);
  }

  // ------------------------------------------------------------------------ the whole test

  /** The measurements of streams made with these flags, in order. */
  ghost predicate Numbers(ms: seq<Measures>, flags: seq<bool>) {
    |ms| == |flags| && forall k :: 0 <= k < |ms| ==> ms[k].id == Numbered(flags)[k].id && ms[k].sender == flags[k]
  }

  /** The server's streams by what it took from the parameters: their number and its mode. */
  function FlagsOf(server: Server): seq<bool> {
    var n := if server.params.Some? && StreamsIn(server.params.value) > 0 then StreamsIn(server.params.value) else 0;
    ServerFlags(ToReceive(server.mode, n), ToSend(server.mode, n))
  }

  lemma StreamsCross(cfg: Config)
    requires ConfigOk(cfg)
    ensures StreamsIn(ParamsOf(cfg)) == cfg.terms.streams
  {
    hide Lookup;
    TermsCross(cfg);
  }

  /** From the first byte to the last: when both sides are done, the server's k-th stream is the connection of the
      client's k-th, and the two, with what they read in each other's document, hold what the other measured and what
      they measured themselves. */
  lemma TestDelivers(cfg: Config, actions: seq<Action>, s: System, client: seq<Measures>, server: seq<Measures>, clientHead: seq<Member>,
                     serverHead: seq<Member>, clientHas: bool, serverHas: bool, whole: Text -> int)
    requires ConfigOk(cfg) && Run(cfg, actions, s) && Finished(s)
    requires Numbers(client, ClientFlags(ModeOf(cfg.terms), cfg.terms.streams)) && Numbers(server, FlagsOf(s.server))
    requires HeadOk(clientHead) && HeadOk(serverHead)
    requires cfg.clientResults == ResultsJson(clientHead, RowsOf(client, clientHas))
    requires var absorbed := AbsorbAll(server, Wrapped(RowsOf(client, clientHas)));
             cfg.serverResults == ResultsJson(serverHead, RowsOf(absorbed, serverHas))
    ensures s.server.accepted == FirstNumbers(|client|)
    ensures s.server.results.Some? && RowsIn(s.server.results.value, whole).Some?
    ensures s.client.results.Some? && RowsIn(s.client.results.value, whole).Some?
    ensures var server' := AbsorbAll(server, RowsIn(s.server.results.value, whole).value);
            var client' := AbsorbAll(client, RowsIn(s.client.results.value, whole).value);
            |client| == |server| && forall k :: 0 <= k < |client| ==>
              && HoldsPeer(client'[k], server[k], serverHas) && HoldsPeer(server'[k], client[k], clientHas)
              && OwnUnchanged(client[k], client'[k]) && OwnUnchanged(server[k], server'[k])
  {
    hide ConfigOk, Run, HeadOk, RowsIn, AbsorbAll, RowOf, HoldsPeer, OwnUnchanged, ResultsJson;
    Pairing(ModeOf(cfg.terms), cfg.terms.streams);
    Agreement(cfg, actions, s);
    StreamsCross(cfg);
    var rows := RowsOf(client, clientHas);
    RowsCross(cfg, actions, s, clientHead, rows, serverHead, RowsOf(AbsorbAll(server, Wrapped(rows)), serverHas), whole);
    AllExchanged(client, server, clientHas, serverHas);
  }
}

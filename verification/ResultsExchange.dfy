/** The exchange of results at the end of a test: what each side sends about its streams, and what it keeps of what
    the other side sent. */
module ResultsExchange {
  import opened Bytes
  import opened JsonText

  // -------------------------------------------------------------------- rows and streams

  /** A figure that need not be an integer: jitter, a time in seconds. */
  type Figure = j: Json | j.Number? || j.Decimal? witness Number(0)

  const NO_TIME: Figure := Number(0)

  datatype Omitted = Omitted(errors: int, packets: int)

  datatype Times = Times(start: Figure, end: Figure)

  /** One stream in a results document. */
  datatype Row = Row(id: int, bytes: int, retransmits: int, jitter: Figure, errors: int, packets: int,
                     omitted: Option<Omitted>, times: Option<Times>)

  /** A stream's measurements, its own and its peer's. The peer's duration is the difference of two times, or zero. */
  datatype Measures = Measured(
    id: int, sender: bool, bytesSent: int, bytesSentOmit: int, bytesReceived: int, retrans: int, jitter: Figure,
    cntError: int, omittedCntError: int, packetCount: int, omittedPacketCount: int, peerPacketCount: int,
    peerOmittedPacketCount: int, duration: Figure, receiverTime: Option<Times>, senderTime: Option<Times>)

  /** `send_results` for one stream. */
  function RowOf(m: Measures, hasRetransmits: bool): Row {
    Row(m.id, if m.sender then m.bytesSent - m.bytesSentOmit else m.bytesReceived,
        if m.sender && hasRetransmits then m.retrans else -1,
        m.jitter, m.cntError, m.packetCount, Some(Omitted(m.omittedCntError, m.omittedPacketCount)),
        Some(Times(NO_TIME, m.duration)))
  }

  /** `get_results` for one stream: a sender takes over what the receiver measured, a receiver what was sent. */
  function Absorbed(m: Measures, row: Row): Measures {
    if m.sender then
      var t := m.(jitter := row.jitter, cntError := row.errors, peerPacketCount := row.packets,
                  bytesReceived := row.bytes, receiverTime := row.times);
      if row.omitted.Some? then
        t.(omittedCntError := row.omitted.value.errors, peerOmittedPacketCount := row.omitted.value.packets)
      else
        t.(peerOmittedPacketCount := m.omittedPacketCount,
           omittedCntError := if m.omittedPacketCount > 0 then (if row.errors > 0 then -1 else 0) else row.errors)
    else
      m.(peerPacketCount := row.packets, bytesSent := row.bytes, retrans := row.retransmits, senderTime := row.times,
         peerOmittedPacketCount := if row.omitted.Some? then row.omitted.value.packets else row.packets)
  }

  /** The first stream with an identity, or the number of streams. */
  function Find(ms: seq<Measures>, id: int): (k: nat)
    ensures k <= |ms| && (k < |ms| ==> ms[k].id == id) && forall j :: 0 <= j < k ==> ms[j].id != id
  {
    if ms == [] || ms[0].id == id then 0 else 1 + Find(ms[1..], id)
  }

  /** One row of a document, which may be malformed, and the streams after it. */
  function AbsorbOne(ms: seq<Measures>, row: Option<Row>): (out: seq<Measures>)
    ensures |out| == |ms|
  {
    if row.None? || Find(ms, row.value.id) == |ms| then ms
    else
      var k := Find(ms, row.value.id);
      ms[k := Absorbed(ms[k], row.value)]
  }

  function AbsorbAll(ms: seq<Measures>, rows: seq<Option<Row>>): (out: seq<Measures>)
    ensures |out| == |ms|
  {
    if rows == [] then ms else AbsorbOne(AbsorbAll(ms, rows[..|rows| - 1]), rows[|rows| - 1])
  }

  // ------------------------------------------------------------------ the stateful form

  class Stream {
    const id: int
    const sender: bool
    var bytesSent: int
    var bytesSentOmit: int
    var bytesReceived: int
    var retrans: int
    var jitter: Figure
    var cntError: int
    var omittedCntError: int
    var packetCount: int
    var omittedPacketCount: int
    var peerPacketCount: int
    var peerOmittedPacketCount: int
    var duration: Figure
    var receiverTime: Option<Times>
    var senderTime: Option<Times>

    function Measures(): Measures
      reads this
    {
      Measured(id, sender, bytesSent, bytesSentOmit, bytesReceived, retrans, jitter, cntError, omittedCntError,
               packetCount, omittedPacketCount, peerPacketCount, peerOmittedPacketCount, duration, receiverTime,
               senderTime)
    }

    constructor (id: int, sender: bool)
      ensures this.id == id && this.sender == sender
    {
      this.id, this.sender := id, sender;
      jitter, duration, receiverTime, senderTime := NO_TIME, NO_TIME, None, None;
    }

    method GetRow(row: Row)
      modifies this
      ensures Measures() == Absorbed(old(Measures()), row)
    {
      if sender {
        jitter := row.jitter;
        cntError := row.errors;
        peerPacketCount := row.packets;
        bytesReceived := row.bytes;
        if row.omitted.Some? {
          omittedCntError := row.omitted.value.errors;
          peerOmittedPacketCount := row.omitted.value.packets;
        } else {
          peerOmittedPacketCount := omittedPacketCount;
          if peerOmittedPacketCount > 0 {
            omittedCntError := if cntError > 0 then -1 else 0;
          } else {
            omittedCntError := cntError;
          }
        }
        receiverTime := row.times;
      } else {
        peerPacketCount := row.packets;
        bytesSent := row.bytes;
        retrans := row.retransmits;
        if row.omitted.Some? {
          peerOmittedPacketCount := row.omitted.value.packets;
        } else {
          peerOmittedPacketCount := peerPacketCount;
        }
        senderTime := row.times;
      }
    }
  }

  ghost predicate Distinct(streams: seq<Stream>) {
    forall i, j :: 0 <= i < j < |streams| ==> streams[i] != streams[j]
  }

  ghost function All(streams: seq<Stream>): (ms: seq<Measures>)
    reads streams
    ensures |ms| == |streams| && forall k :: 0 <= k < |streams| ==> ms[k] == streams[k].Measures()
  {
    seq(|streams|, k requires 0 <= k < |streams| reads streams => streams[k].Measures())
  }

  /** `send_results`' loop. */
  method Rows(streams: seq<Stream>, hasRetransmits: bool) returns (rows: seq<Row>)
    ensures |rows| == |streams|
    ensures forall k :: 0 <= k < |streams| ==> rows[k] == RowOf(All(streams)[k], hasRetransmits)
  {
    rows := [];
    for k := 0 to |streams|
      invariant |rows| == k
      invariant forall j :: 0 <= j < k ==> rows[j] == RowOf(All(streams)[j], hasRetransmits)
    {
      rows := rows + [RowOf(streams[k].Measures(), hasRetransmits)];
    }
  }

  method FindStream(streams: seq<Stream>, id: int) returns (k: nat)
    ensures k == Find(All(streams), id)
  {
    k := 0;
    ghost var ms := All(streams);
    assert ms[0..] == ms;
    while k < |streams| && streams[k].id != id
      invariant 0 <= k <= |streams| && Find(ms, id) == k + Find(ms[k..], id)
    {
      assert ms[k..][1..] == ms[k + 1..];
      k := k + 1;
    }
  }

  /** Is the row well-formed and about one of the streams? */
  ghost predicate Known(streams: seq<Stream>, row: Option<Row>) {
    row.Some? && exists k :: 0 <= k < |streams| && streams[k].id == row.value.id
  }

  /** The body of `get_results`' loop. */
  method GetOneRow(streams: seq<Stream>, row: Option<Row>) returns (ok: bool)
    requires Distinct(streams)
    modifies streams
    ensures All(streams) == AbsorbOne(old(All(streams)), row)
    ensures ok <==> Known(streams, row)
  {
    hide Absorbed;
    if row.None? {
      return false;
    }
    ghost var before := All(streams);
    var k := FindStream(streams, row.value.id);
    assert forall j :: 0 <= j < |streams| ==> streams[j].id == before[j].id;
    if k == |streams| {
      return false;
    }
    streams[k].GetRow(row.value);
    assert All(streams) == before[k := Absorbed(before[k], row.value)];
    return true;
  }

  /** `get_results`' loop: a malformed row or an unknown stream is an error, and the loop goes on. */
  method GetRows(streams: seq<Stream>, rows: seq<Option<Row>>) returns (r: int)
    requires Distinct(streams)
    modifies streams
    ensures All(streams) == AbsorbAll(old(All(streams)), rows)
    ensures r == if forall i :: 0 <= i < |rows| ==> Known(streams, rows[i]) then 0 else -1
  {
    hide AbsorbOne, Known, AbsorbAll, Distinct;
    r := 0;
    var i := 0;
    NoRows(All(streams), rows[..0]);
    while i < |rows|
      invariant 0 <= i <= |rows| && All(streams) == AbsorbAll(old(All(streams)), rows[..i])
      invariant r == if forall j :: 0 <= j < i ==> Known(streams, rows[j]) then 0 else -1
    {
      OneMoreRow(old(All(streams)), rows, i);
      var ok := GetOneRow(streams, rows[i]);
      if !ok {
        r := -1;
      }
      i := i + 1;
    }
    assert rows[..|rows|] == rows;
  }

  lemma NoRows(ms: seq<Measures>, rows: seq<Option<Row>>)
    requires rows == []
    ensures AbsorbAll(ms, rows) == ms
  {
  }

  lemma OneMoreRow(ms: seq<Measures>, rows: seq<Option<Row>>, i: nat)
    requires i < |rows|
    ensures AbsorbAll(ms, rows[..i + 1]) == AbsorbOne(AbsorbAll(ms, rows[..i]), rows[i])
  {
    hide AbsorbOne;
    assert rows[..i + 1][..i] == rows[..i];
  }

  // ------------------------------------------------------------- what the exchange achieves

  ghost predicate IdsDiffer(ms: seq<Measures>) {
    forall i, j :: 0 <= i < j < |ms| ==> ms[i].id != ms[j].id
  }

  function Wrapped(rows: seq<Row>): (out: seq<Option<Row>>)
    ensures |out| == |rows| && forall k :: 0 <= k < |rows| ==> out[k] == Some(rows[k])
  {
    seq(|rows|, k requires 0 <= k < |rows| => Some(rows[k]))
  }

  /** With one row for each stream, in the streams' order, every stream gets its own. */
  lemma {:induction false} EachItsOwn(ms: seq<Measures>, rows: seq<Row>, n: nat)
    requires IdsDiffer(ms) && n <= |rows| == |ms| && forall k :: 0 <= k < |ms| ==> rows[k].id == ms[k].id
    ensures var out := AbsorbAll(ms, Wrapped(rows)[..n]);
            forall k :: 0 <= k < |ms| ==> out[k] == if k < n then Absorbed(ms[k], rows[k]) else ms[k]
    decreases n
  {
    hide AbsorbAll;
    var all := Wrapped(rows);
    if n == 0 {
      NoRows(ms, all[..0]);
    } else {
      EachItsOwn(ms, rows, n - 1);
      OneMoreRow(ms, all, n - 1);
      var before := AbsorbAll(ms, all[..n - 1]);
      assert forall k :: 0 <= k < |ms| ==> before[k].id == ms[k].id;
      assert Find(before, rows[n - 1].id) == n - 1;
    }
  }

  /** A row that cannot be read, or is about no stream, changes nothing, and the rows behind it are read all the same. */
  lemma {:induction false} BadRowSkipped(ms: seq<Measures>, rows: seq<Option<Row>>, bad: Option<Row>, more: seq<Option<Row>>)
    requires bad.None? || forall k :: 0 <= k < |ms| ==> ms[k].id != bad.value.id
    ensures AbsorbAll(ms, rows + [bad] + more) == AbsorbAll(ms, rows + more)
    decreases more
  {
    hide AbsorbAll, Absorbed;
    var all := rows + [bad] + more;
    if more == [] {
      OneMoreRow(ms, all, |rows|);
      assert all[..|rows| + 1] == all && all[..|rows|] == rows == rows + more;
      IdsKept(ms, rows);
    } else {
      var n := |more| - 1;
      var fewer := rows + [bad] + more[..n];
      BadRowSkipped(ms, rows, bad, more[..n]);
      OneMoreRow(ms, all, |fewer|);
      assert all[..|fewer| + 1] == all && all[..|fewer|] == fewer && all[|fewer|] == more[n];
      OneMoreRow(ms, rows + more, |rows| + n);
      assert (rows + more)[..|rows| + n + 1] == rows + more && (rows + more)[..|rows| + n] == rows + more[..n];
    }
  }

  lemma {:induction false} IdsKept(ms: seq<Measures>, rows: seq<Option<Row>>)
    ensures forall k :: 0 <= k < |ms| ==> AbsorbAll(ms, rows)[k].id == ms[k].id
  {
    hide Absorbed;
    if rows != [] {
      IdsKept(ms, rows[..|rows| - 1]);
      var before, row := AbsorbAll(ms, rows[..|rows| - 1]), rows[|rows| - 1];
      if row.Some? && Find(before, row.value.id) < |ms| {
        AbsorbedId(before[Find(before, row.value.id)], row.value);
      }
    }
  }

  /** From a peer that does not tell what it omitted, a sender takes its own count of omitted packets for the peer's, and
      then does not know whether errors were among them; a receiver takes all packets for omitted. The rest is as in any
      other row. */
  lemma WithoutOmitted(m: Measures, row: Row, any: Omitted)
    requires row.omitted.None?
    ensures var t, full := Absorbed(m, row), Absorbed(m, row.(omitted := Some(any)));
            && t == full.(omittedCntError := t.omittedCntError, peerOmittedPacketCount := t.peerOmittedPacketCount)
            && (m.sender ==>
                  && t.peerOmittedPacketCount == m.omittedPacketCount
                  && (t.peerOmittedPacketCount <= 0 ==> t.omittedCntError == t.cntError == row.errors)
                  && (t.peerOmittedPacketCount > 0 ==> t.omittedCntError == if row.errors > 0 then -1 else 0))
            && (!m.sender ==>
                  t.peerOmittedPacketCount == t.peerPacketCount == row.packets && t.omittedCntError == m.omittedCntError)
  {
  }

  /** Two streams that are the ends of one connection. */
  ghost predicate Paired(c: Measures, s: Measures) {
    c.id == s.id && c.sender == !s.sender
  }

  /** `mine` holds the peer's count of bytes and packets and, at the sending end, what the receiver lost, at the receiving
      end what the sender sent again, all as the peer measured them in `theirs`; `peerHas` says that the peer knows what
      it sent again. */
  ghost predicate HoldsPeer(mine: Measures, theirs: Measures, peerHas: bool) {
    && mine.peerPacketCount == theirs.packetCount && mine.peerOmittedPacketCount == theirs.omittedPacketCount
    && (if mine.sender
        then && mine.bytesReceived == theirs.bytesReceived && mine.cntError == theirs.cntError
             && mine.omittedCntError == theirs.omittedCntError && mine.jitter == theirs.jitter
             && mine.receiverTime == Some(Times(NO_TIME, theirs.duration))
        else && mine.bytesSent == theirs.bytesSent - theirs.bytesSentOmit
             && mine.retrans == (if peerHas then theirs.retrans else -1)
             && mine.senderTime == Some(Times(NO_TIME, theirs.duration)))
  }

  /** The measurements a stream made itself. */
  ghost predicate OwnUnchanged(m: Measures, t: Measures) {
    && t.id == m.id && t.sender == m.sender && t.packetCount == m.packetCount
    && t.omittedPacketCount == m.omittedPacketCount && t.bytesSentOmit == m.bytesSentOmit
    && t.duration == m.duration
    && (if m.sender then t.bytesSent == m.bytesSent && t.retrans == m.retrans
        else && t.bytesReceived == m.bytesReceived && t.cntError == m.cntError
             && t.omittedCntError == m.omittedCntError && t.jitter == m.jitter)
  }

  /** The server reads before it sends. What it then sends is what it measured, unaltered, exactly for a receiving
      stream or when the client's errors and jitter happen to be the stream's own: a sending stream has taken them
      over. Its bytes and packets are never altered. */
  lemma SentAfterReading(s: Measures, c: Measures, clientHas: bool, has: bool)
    ensures var now, before := RowOf(Absorbed(s, RowOf(c, clientHas)), has), RowOf(s, has);
            && now.(jitter := before.jitter, errors := before.errors, omitted := before.omitted) == before
            && now.omitted.value.packets == before.omitted.value.packets
            && now.retransmits == (if s.sender && has then s.retrans else -1)
            && (now == before <==>
                !s.sender || (c.jitter == s.jitter && c.cntError == s.cntError
                              && c.omittedCntError == s.omittedCntError))
  {
  }

  /** So the server's own loss count of a sending stream is not what the client is sent. */
  lemma AlteredRow(s: Measures, c: Measures, clientHas: bool, has: bool)
    requires s.sender && c.cntError != s.cntError
    ensures RowOf(Absorbed(s, RowOf(c, clientHas)), has).errors == c.cntError != RowOf(s, has).errors
  {
  }

  /** One pair through the exchange: the client sends, the server reads, sends, and the client reads. */
  lemma PairExchanged(c: Measures, s: Measures, clientHas: bool, serverHas: bool)
    requires Paired(c, s)
    ensures var s' := Absorbed(s, RowOf(c, clientHas));
            var c' := Absorbed(c, RowOf(s', serverHas));
            && HoldsPeer(c', s, serverHas) && HoldsPeer(s', c, clientHas)
            && OwnUnchanged(c, c') && OwnUnchanged(s, s')
  {
  }

  function RowsOf(ms: seq<Measures>, has: bool): (rows: seq<Row>)
    ensures |rows| == |ms| && forall k :: 0 <= k < |ms| ==> rows[k] == RowOf(ms[k], has)
    ensures forall k :: 0 <= k < |ms| ==> rows[k].omitted.Some? && rows[k].times.Some?
  {
    seq(|ms|, k requires 0 <= k < |ms| => RowOf(ms[k], has))
  }

  /** All pairs through the exchange. */
  lemma AllExchanged(client: seq<Measures>, server: seq<Measures>, clientHas: bool, serverHas: bool)
    requires |client| == |server| && IdsDiffer(client)
    requires forall k :: 0 <= k < |client| ==> Paired(client[k], server[k])
    ensures var server' := AbsorbAll(server, Wrapped(RowsOf(client, clientHas)));
            var client' := AbsorbAll(client, Wrapped(RowsOf(server', serverHas)));
            forall k :: 0 <= k < |client| ==>
              && HoldsPeer(client'[k], server[k], serverHas) && HoldsPeer(server'[k], client[k], clientHas)
              && OwnUnchanged(client[k], client'[k]) && OwnUnchanged(server[k], server'[k])
  {
    hide Absorbed, RowOf, AbsorbAll, HoldsPeer, OwnUnchanged;
    var rows := RowsOf(client, clientHas);
    RowIds(client, rows, clientHas);
    EachItsOwn(server, rows, |rows|);
    assert Wrapped(rows)[..|rows|] == Wrapped(rows);
    var server' := AbsorbAll(server, Wrapped(rows));
    var answers := RowsOf(server', serverHas);
    RowIds(server', answers, serverHas);
    forall k | 0 <= k < |client| ensures server'[k].id == client[k].id {
      AbsorbedId(server[k], rows[k]);
    }
    EachItsOwn(client, answers, |answers|);
    assert Wrapped(answers)[..|answers|] == Wrapped(answers);
    var client' := AbsorbAll(client, Wrapped(answers));
    forall k | 0 <= k < |client|
      ensures HoldsPeer(client'[k], server[k], serverHas) && HoldsPeer(server'[k], client[k], clientHas)
      ensures OwnUnchanged(client[k], client'[k]) && OwnUnchanged(server[k], server'[k])
    {
      PairExchanged(client[k], server[k], clientHas, serverHas);
    }
  }

  /** `iperf_exchange_results` on both sides, for paired lists of streams: each side ends up with its peer's
      measurements, also those the server had before it read the client's, and keeps its own. */
  method Exchange(client: seq<Stream>, server: seq<Stream>, clientHas: bool, serverHas: bool)
    requires Distinct(client) && Distinct(server) && |client| == |server|
    requires forall i, j :: 0 <= i < |client| && 0 <= j < |server| ==> client[i] != server[j]
    requires IdsDiffer(All(client))
    requires forall k :: 0 <= k < |client| ==> Paired(All(client)[k], All(server)[k])
    modifies client, server
    ensures forall k :: 0 <= k < |client| ==>
              && HoldsPeer(All(client)[k], old(All(server)[k]), serverHas)
              && HoldsPeer(All(server)[k], old(All(client)[k]), clientHas)
              && OwnUnchanged(old(All(client)[k]), All(client)[k]) && OwnUnchanged(old(All(server)[k]), All(server)[k])
  {
    hide Absorbed, RowOf, AbsorbAll, HoldsPeer, OwnUnchanged, Paired, IdsDiffer, Distinct;
    ghost var c, s := All(client), All(server);
    AllExchanged(c, s, clientHas, serverHas);
    SendAndRead(client, server, clientHas);
    ghost var s' := All(server);
    SendAndRead(server, client, serverHas);
    assert All(server) == s';
  }

  /** One side's rows are sent and the other side reads them. */
  method SendAndRead(from: seq<Stream>, to: seq<Stream>, has: bool)
    requires Distinct(to) && forall i, j :: 0 <= i < |from| && 0 <= j < |to| ==> from[i] != to[j]
    modifies to
    ensures All(to) == AbsorbAll(old(All(to)), Wrapped(RowsOf(old(All(from)), has)))
    ensures All(from) == old(All(from))
  {
    hide RowOf, AbsorbAll, Distinct;
    var rows := Rows(from, has);
    assert rows == RowsOf(All(from), has);
    var r := GetRows(to, Wrapped(rows));
  }

  lemma RowIds(ms: seq<Measures>, rows: seq<Row>, has: bool)
    requires |rows| == |ms| && forall k :: 0 <= k < |ms| ==> rows[k] == RowOf(ms[k], has)
    ensures forall k :: 0 <= k < |ms| ==> rows[k].id == ms[k].id
  {
  }

  lemma AbsorbedId(m: Measures, row: Row)
    ensures Absorbed(m, row).id == m.id
  {
  }
}

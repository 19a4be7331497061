/** Interval statistics: nothing is lost or counted twice when intervals are closed and the omit period ends,
    although each stream keeps one interval record only. */
module Statistics {
  import opened Bytes
  import RateWindow

  /** Packet counters of a stream, or the change of them over an interval. */
  datatype Packets = Packets(count: int, outOfOrder: int, errors: int) {
    function Plus(p: Packets): Packets {
      Packets(count + p.count, outOfOrder + p.outOfOrder, errors + p.errors)
    }
    function Minus(p: Packets): Packets {
      Packets(count - p.count, outOfOrder - p.outOfOrder, errors - p.errors)
    }
  }

  const NO_PACKETS := Packets(0, 0, 0)

  /** What an interval record holds about packets: the change, and the counters when it was closed. */
  datatype PacketPart = PacketPart(delta: Packets, snapshot: Packets)

  datatype Interval = Interval(bytes: nat, omitted: bool, start: int, end: int, packets: Option<PacketPart>)

  function Delta(r: Interval): Packets {
    if r.packets.Some? then r.packets.value.delta else NO_PACKETS
  }

  function Snapshot(r: Interval): Packets {
    if r.packets.Some? then r.packets.value.snapshot else NO_PACKETS
  }

  function SumBytes(rs: seq<Interval>): nat {
    if rs == [] then 0 else SumBytes(rs[..|rs| - 1]) + rs[|rs| - 1].bytes
  }

  function SumPackets(rs: seq<Interval>): Packets {
    if rs == [] then NO_PACKETS else SumPackets(rs[..|rs| - 1]).Plus(Delta(rs[|rs| - 1]))
  }

  lemma OneMore(rs: seq<Interval>, mark: nat, r: Interval)
    requires mark <= |rs|
    ensures SumBytes((rs + [r])[mark..]) == SumBytes(rs[mark..]) + r.bytes
  {
    assert (rs + [r])[mark..] == rs[mark..] + [r];
    assert (rs[mark..] + [r])[..|rs[mark..]|] == rs[mark..];
  }

  lemma NoBytes(rs: seq<Interval>)
    requires rs == []
    ensures SumBytes(rs) == 0
  {
  }

  /** The packet counters as the last closed interval left them. */
  function LastSnapshot(rs: seq<Interval>): Packets {
    if rs == [] then NO_PACKETS else Snapshot(rs[|rs| - 1])
  }

  /** The interval `r` counts from where the ones `before` it stopped, in time and in packets. */
  ghost predicate Follows(before: seq<Interval>, r: Interval, tcp: bool) {
    && (before != [] ==> r.start == before[|before| - 1].end)
    && if tcp then r.packets == None
       else r.packets.Some? && Delta(r) == Snapshot(r).Minus(LastSnapshot(before))
  }

  ghost predicate Chained(rs: seq<Interval>, tcp: bool) {
    rs == [] || (Chained(rs[..|rs| - 1], tcp) && Follows(rs[..|rs| - 1], rs[|rs| - 1], tcp))
  }

  lemma ChainedStep(rs: seq<Interval>, r: Interval, tcp: bool)
    requires Chained(rs, tcp) && Follows(rs, r, tcp)
    ensures Chained(rs + [r], tcp)
  {
    assert (rs + [r])[..|rs|] == rs;
  }

  /** The changes add up to the last snapshot. */
  lemma {:induction false} Telescopes(rs: seq<Interval>)
    requires Chained(rs, false)
    ensures SumPackets(rs) == LastSnapshot(rs)
  {
    if rs != [] {
      Telescopes(rs[..|rs| - 1]);
    }
  }

  /** A record that follows the others extends the chain, and then everything it has counted is in the chain. */
  lemma NextInChain(rs: seq<Interval>, r: Interval, tcp: bool)
    requires Chained(rs, tcp) && Follows(rs, r, tcp)
    ensures Chained(rs + [r], tcp) && LastSnapshot(rs + [r]) == Snapshot(r)
    ensures !tcp ==> SumPackets(rs + [r]) == Snapshot(r)
  {
    hide Chained, SumPackets, Follows;
    ChainedStep(rs, r, tcp);
    if !tcp {
      Telescopes(rs + [r]);
    }
  }

  lemma SumPacketsStep(rs: seq<Interval>, r: Interval)
    ensures SumPackets(rs + [r]) == SumPackets(rs).Plus(Delta(r))
  {
    assert (rs + [r])[..|rs|] == rs;
  }

  lemma NoPackets(rs: seq<Interval>)
    requires rs == []
    ensures SumPackets(rs) == NO_PACKETS
  {
  }

  lemma {:induction false} SumPacketsSplit(a: seq<Interval>, b: seq<Interval>)
    ensures SumPackets(a + b) == SumPackets(a).Plus(SumPackets(b))
  {
    hide SumPackets, Delta;
    if b == [] {
      NoPackets(b);
      assert a + b == a;
    } else {
      var short, last := b[..|b| - 1], b[|b| - 1];
      SumPacketsSplit(a, short);
      SumPacketsStep(short, last);
      SumPacketsStep(a + short, last);
      assert b == short + [last] && a + b == (a + short) + [last];
    }
  }

  lemma {:induction false} ChainedPrefix(rs: seq<Interval>, mark: nat, tcp: bool)
    requires mark <= |rs| && Chained(rs, tcp)
    ensures Chained(rs[..mark], tcp)
  {
    hide Follows;
    if mark == |rs| {
      assert rs[..mark] == rs;
    } else {
      ChainedPrefix(rs[..|rs| - 1], mark, tcp);
      assert rs[..|rs| - 1][..mark] == rs[..mark];
    }
  }

  /** The intervals from `mark` on count the packets since the interval before `mark` was closed. */
  lemma TelescopesFrom(rs: seq<Interval>, mark: nat)
    requires mark <= |rs| && Chained(rs, false)
    ensures SumPackets(rs[mark..]) == LastSnapshot(rs).Minus(LastSnapshot(rs[..mark]))
  {
    hide Chained, SumPackets, LastSnapshot;
    ChainedPrefix(rs, mark, false);
    Telescopes(rs);
    Telescopes(rs[..mark]);
    SumPacketsSplit(rs[..mark], rs[mark..]);
    assert rs == rs[..mark] + rs[mark..];
  }

  class Stream {
    const sender: bool
    const tcp: bool
    const blksize: nat
    var pendingSize: nat
    var bytesSent: nat
    var bytesSentOmit: nat
    var bytesSentThisInterval: nat
    var bytesReceived: nat
    var bytesReceivedThisInterval: nat
    var packets: Packets
    var omittedPackets: Packets
    var startTime: int
    var endTime: int
    var intervals: seq<Interval>      // the list of interval records, of which one at most is kept
    ghost var closed: seq<Interval>   // every interval closed so far
    ghost var mark: nat               // how many of them were closed before the last omit reset
    ghost var atReset: Packets        // the packet counters at that reset
    ghost var atClose: Packets        // the packet counters when the last interval was closed

    /** The bytes of the interval that is still open. */
    function Open(): nat
      reads this
    {
      if sender then bytesSentThisInterval else bytesReceivedThisInterval
    }

    /** The bytes the stream reports for the test, omitted ones left out. */
    function Counted(): int
      reads this
    {
      if sender then bytesSent - bytesSentOmit else bytesReceived
    }

    ghost predicate OneWay()
      reads this
    {
      && (sender ==> bytesReceived == 0 && bytesReceivedThisInterval == 0)
      && (!sender ==> bytesSent == 0 && bytesSentThisInterval == 0)
    }

    /** Conservation: closed intervals since the reset and the open one add up to the stream's count. */
    ghost predicate Valid()
      reads this
    {
      && OneWay() && pendingSize <= blksize && mark <= |closed| && omittedPackets == atReset
      && intervals == (if closed == [] then [] else [closed[|closed| - 1]])
      && (closed != [] ==> endTime == closed[|closed| - 1].end)
      && Chained(closed, tcp) && (!tcp ==> LastSnapshot(closed) == atClose)
      && SumBytes(closed[mark..]) + Open() == Counted()
    }

    constructor (sender: bool, tcp: bool, blksize: nat, now: int)
      ensures Valid() && closed == [] && this.sender == sender && this.tcp == tcp && this.blksize == blksize
    {
      this.sender, this.tcp, this.blksize := sender, tcp, blksize;
      pendingSize, bytesSent, bytesSentOmit, bytesSentThisInterval := 0, 0, 0, 0;
      bytesReceived, bytesReceivedThisInterval := 0, 0;
      packets, omittedPackets, startTime, endTime := NO_PACKETS, NO_PACKETS, now, now;
      intervals, closed, mark, atReset, atClose := [], [], 0, NO_PACKETS, NO_PACKETS;
    }

    /** `iperf_tcp_send`, with `r` the result of the write. A block that was not sent whole is continued. */
    method TcpSend(r: int) returns (result: int)
      requires Valid() && sender && r <= (if pendingSize == 0 then blksize else pendingSize)
      modifies this`pendingSize, this`bytesSent, this`bytesSentThisInterval
      ensures Valid() && result == r
      ensures Counted() == old(Counted()) + if r < 0 then 0 else r
      ensures r >= 0 ==> pendingSize == (if old(pendingSize) == 0 then blksize else old(pendingSize)) - r
    {
      hide Chained, SumBytes;
      if pendingSize == 0 {
        pendingSize := blksize;
      }
      if r < 0 {
        return r;
      }
      pendingSize := pendingSize - r;
      bytesSent := bytesSent + r;
      bytesSentThisInterval := bytesSentThisInterval + r;
      return r;
    }

    /** `iperf_tcp_recv`: bytes count only while the test is running. */
    method TcpRecv(r: int, running: bool) returns (result: int)
      requires Valid() && !sender
      modifies this`bytesReceived, this`bytesReceivedThisInterval
      ensures Valid() && result == r
      ensures Counted() == old(Counted()) + if r < 0 || !running then 0 else r
    {
      hide Chained, SumBytes;
      if r < 0 {
        return r;
      }
      if running {
        bytesReceived := bytesReceived + r;
        bytesReceivedThisInterval := bytesReceivedThisInterval + r;
      }
      return r;
    }

    /** What a datagram sent or received does to the counters: bytes in both counts, packet counters to `now`. */
    method UdpCount(bytes: nat, now: Packets)
      requires Valid() && !tcp
      modifies this`packets, this`bytesSent, this`bytesSentThisInterval
      modifies this`bytesReceived, this`bytesReceivedThisInterval
      ensures Valid() && packets == now && Counted() == old(Counted()) + bytes
    {
      hide Chained, SumBytes;
      packets := now;
      if sender {
        bytesSent, bytesSentThisInterval := bytesSent + bytes, bytesSentThisInterval + bytes;
      } else {
        bytesReceived, bytesReceivedThisInterval := bytesReceived + bytes, bytesReceivedThisInterval + bytes;
      }
    }

    lemma OpenIsBoth()
      requires Valid()
      ensures bytesSentThisInterval + bytesReceivedThisInterval == Open()
    {
      hide Chained, SumBytes;
    }

    /** The interval record for the time up to `now`. */
    function Record(now: int, omitting: bool): Interval
      reads this
    {
      Interval(
        Open(), omitting,
        if intervals == [] then startTime else endTime, now,
        if tcp then None
        else if intervals == [] then Some(PacketPart(packets, packets))
        else Some(PacketPart(packets.Minus(Snapshot(intervals[|intervals| - 1])), packets)))
    }

    /** `add_to_interval_list`: the last record is dropped for the new one. */
    method AddToIntervalList(r: Interval)
      modifies this`intervals
      ensures intervals == (if old(intervals) == [] then [] else old(intervals)[..|old(intervals)| - 1]) + [r]
    {
      if intervals != [] {
        intervals := intervals[..|intervals| - 1];
      }
      intervals := intervals + [r];
    }

    /** `r` says what happened up to `now` since the last interval was closed, or since the start: the bytes of the open
        interval, the packets beyond those counted at the last close, and the counters themselves. */
    ghost predicate Accounts(r: Interval, now: int, omitting: bool)
      reads this
    {
      && r.bytes == Open() && r.omitted == omitting && r.end == now
      && r.start == (if closed == [] then startTime else closed[|closed| - 1].end)
      && r.packets
         == if tcp then None
            else Some(PacketPart(Packets(packets.count - atClose.count, packets.outOfOrder - atClose.outOfOrder,
                                         packets.errors - atClose.errors),
                                 packets))
    }

    /** Since the old state one record has been added, which accounts for everything up to `now`; with it the packets in
        all records are those counted, no byte is in the new interval, and no counter of the test has changed. */
    twostate predicate IntervalClosed(now: int, omitting: bool)
      reads this
    {
      && |closed| == |old(closed)| + 1 && closed[..|old(closed)|] == old(closed)
      && (var r := closed[|old(closed)|]; old(Accounts(r, now, omitting)))
      && packets == old(packets) && (!tcp ==> SumPackets(closed) == packets)
      && Open() == 0 && Counted() == old(Counted())
    }

    lemma RecordFollows(now: int, omitting: bool)
      requires Valid()
      ensures Follows(closed, Record(now, omitting), tcp) && Accounts(Record(now, omitting), now, omitting)
      ensures Record(now, omitting).bytes == Open() && Record(now, omitting).end == now
      ensures !tcp ==> Snapshot(Record(now, omitting)) == packets
    {
      hide Chained, SumBytes;
    }

    /** The body of `iperf_stats_callback`'s loop: the open interval is closed, nothing else changes, and all packets up
        to now are in closed intervals. */
    method CloseInterval(now: int, omitting: bool)
      requires Valid()
      modifies this`intervals, this`closed, this`endTime, this`bytesSentThisInterval, this`bytesReceivedThisInterval
      modifies this`atClose
      ensures Valid() && IntervalClosed(now, omitting) && atClose == packets
    {
      hide SumBytes, SumPackets, Chained, Follows, Record, Accounts, LastSnapshot, Snapshot;
      var record := Record(now, omitting);
      RecordFollows(now, omitting);
      NextInChain(closed, record, tcp);
      OneMore(closed, mark, record);
      StartInterval(record);
      closed := closed + [record];
      atClose := packets;
      assert closed[|old(closed)|] == record;
    }

    /** The record is kept in place of the last one, and the next interval is open. */
    method StartInterval(record: Interval)
      requires |intervals| <= 1
      modifies this`intervals, this`endTime, this`bytesSentThisInterval, this`bytesReceivedThisInterval
      ensures intervals == [record] && endTime == record.end
      ensures bytesSentThisInterval == bytesReceivedThisInterval == 0
    {
      endTime := record.end;
      AddToIntervalList(record);
      bytesReceivedThisInterval := 0;
      bytesSentThisInterval := 0;
    }

    /** The body of `iperf_reset_stats`' loop, when the omit period ends. */
    method Reset(now: int)
      requires Valid()
      modifies this`omittedPackets, this`bytesSentOmit, this`bytesReceived, this`bytesReceivedThisInterval
      modifies this`bytesSentThisInterval, this`startTime, this`mark, this`atReset
      ensures Valid() && mark == |closed| && Counted() == 0 && Open() == 0 && atReset == packets && startTime == now
    {
      hide Chained, SumBytes;
      NoBytes(closed[|closed|..]);
      omittedPackets := packets;
      bytesSentOmit := bytesSent;
      bytesReceived := 0;
      bytesReceivedThisInterval := 0;
      bytesSentThisInterval := 0;
      startTime := now;
      mark, atReset := |closed|, packets;
    }

    /** Packets in all intervals are the packets up to the last close. Packets in the intervals since the reset are the packets since the reset up to the last snapshot, and the
        ones between the last interval closed before the reset and the reset itself: bytes are cut off at the
        reset, packets only at the interval boundary. The difference that reports take is exact if and only if no
        packet was counted in between. */
    lemma PacketsSinceReset()
      requires Valid() && !tcp
      ensures SumPackets(closed) == atClose
      ensures SumPackets(closed[mark..])
           == atClose.Minus(atReset).Plus(atReset.Minus(LastSnapshot(closed[..mark])))
      ensures SumPackets(closed[mark..]) == atClose.Minus(omittedPackets) <==>
              atReset == LastSnapshot(closed[..mark])
    {
      hide Chained, SumBytes, SumPackets, LastSnapshot;
      Telescopes(closed);
      TelescopesFrom(closed, mark);
      ViaMiddle(LastSnapshot(closed), atReset, LastSnapshot(closed[..mark]));
    }
  }

  lemma ViaMiddle(a: Packets, b: Packets, c: Packets)
    ensures a.Minus(c) == a.Minus(b).Plus(b.Minus(c))
    ensures a.Minus(c) == a.Minus(b) <==> b == c
  {
  }

  // -------------------------------------------------------------- all streams of a test

  ghost predicate Distinct(streams: seq<Stream>) {
    forall i, j :: 0 <= i < j < |streams| ==> streams[i] != streams[j]
  }

  ghost predicate AllValid(streams: seq<Stream>)
    reads streams
  {
    forall i :: 0 <= i < |streams| ==> streams[i].Valid()
  }

  /** The bytes in each stream's open interval. */
  ghost function Opens(streams: seq<Stream>): (bs: seq<nat>)
    reads streams
    ensures |bs| == |streams| && forall i :: 0 <= i < |streams| ==> bs[i] == streams[i].Open()
  {
    seq(|streams|, i requires 0 <= i < |streams| reads streams => streams[i].Open())
  }

  class Test {
    const streams: seq<Stream>
    const isServer: bool
    const limiter: RateWindow.RateLimiter
    var omitting: bool
    var done: bool
    var bytesSent: nat
    var blocksSent: nat

    constructor (streams: seq<Stream>, isServer: bool, limiter: RateWindow.RateLimiter)
      ensures this.streams == streams && this.isServer == isServer && this.limiter == limiter
      ensures !omitting && !done && bytesSent == 0 && blocksSent == 0
    {
      this.streams, this.isServer, this.limiter := streams, isServer, limiter;
      omitting, done, bytesSent, blocksSent := false, false, 0, 0;
    }

    /** `iperf_stats_callback`: every stream's interval is closed, all its packets are in closed intervals, and the
        server's rate window gets exactly the bytes that went into the records. */
    method StatsCallback(nows: seq<int>)
      requires Distinct(streams) && AllValid(streams) && limiter.Valid() && |nows| == |streams|
      modifies streams, limiter, limiter.cells
      ensures AllValid(streams) && limiter.Valid()
      ensures forall i :: 0 <= i < |streams| ==>
                streams[i].IntervalClosed(nows[i], old(omitting))
      ensures limiter.samples
           == if isServer && !done && limiter.limit != 0
              then old(limiter.samples) + [RateWindow.Sum(old(Opens(streams)))] else old(limiter.samples)
    {
      hide Stream.Valid, Stream.Accounts, SumPackets, RateWindow.Sum, RateWindow.RateLimiter.Valid;
      ghost var opens := Opens(streams);
      var total, k := 0, 0;
      RateWindow.NothingSummed(opens[..0]);
      while k < |streams|
        invariant 0 <= k <= |streams| && total == RateWindow.Sum(opens[..k])
        invariant forall i :: 0 <= i < k ==>
                    streams[i].Valid() && streams[i].IntervalClosed(nows[i], omitting)
        invariant forall i :: k <= i < |streams| ==> unchanged(streams[i]) && streams[i].Valid()
        invariant unchanged(limiter, limiter.cells) && limiter.Valid()
      {
        var sp := streams[k];
        sp.OpenIsBoth();
        RateWindow.SumStep(opens, k);
        total := total + (sp.bytesSentThisInterval + sp.bytesReceivedThisInterval);
        sp.CloseInterval(nows[k], omitting);
        k := k + 1;
      }
      assert opens[..k] == opens;
      if isServer {
        limiter.CheckTotalRate(total, done);
      }
    }

    /** `iperf_reset_stats`: every stream starts counting from zero, its closed intervals stay as they are. */
    method ResetStats(now: int)
      requires Distinct(streams) && AllValid(streams)
      modifies this`bytesSent, this`blocksSent, streams
      ensures AllValid(streams) && bytesSent == 0 && blocksSent == 0
      ensures forall i :: 0 <= i < |streams| ==>
                && streams[i].closed == old(streams[i].closed) && streams[i].mark == |streams[i].closed|
                && streams[i].Counted() == 0 && streams[i].Open() == 0
                && streams[i].packets == streams[i].atReset == old(streams[i].packets) && streams[i].startTime == now
    {
      hide Stream.Valid;
      bytesSent, blocksSent := 0, 0;
      var k := 0;
      while k < |streams|
        invariant 0 <= k <= |streams| && bytesSent == 0 && blocksSent == 0
        invariant forall i :: 0 <= i < k ==>
                    && streams[i].Valid()
                    && streams[i].closed == old(streams[i].closed) && streams[i].mark == |streams[i].closed|
                    && streams[i].Counted() == 0 && streams[i].Open() == 0
                    && streams[i].packets == streams[i].atReset == old(streams[i].packets) && streams[i].startTime == now
        invariant forall i :: k <= i < |streams| ==> unchanged(streams[i]) && streams[i].Valid()
      {
        streams[k].Reset(now);
        k := k + 1;
      }
    }
  }
}

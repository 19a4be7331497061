/** UDP datagrams: the header both ends agree on, the sender's numbering and the receiver's counting loop. */
module UdpStream {
  import opened Bytes
  import opened ByteOrder
  import opened UdpLoss
  import opened UdpNumbers

  // -------------------------------------------------------------------- the header

  function CounterSize(wide: bool): nat { if wide then 8 else 4 }

  function HeaderSize(wide: bool): nat { 8 + CounterSize(wide) }

  function Header(secs: nat, usecs: nat, count: nat, wide: bool): (t: Text)
    ensures |t| == HeaderSize(wide)
  {
    BigEndian(secs, 4) + BigEndian(usecs, 4) + BigEndian(count, CounterSize(wide))
  }

  datatype Stamp = Stamp(secs: nat, usecs: nat, count: nat)

  /** What the receiver reads at the start of `d`. */
  function ReadHeader(d: Text, wide: bool): Stamp
    requires |d| >= HeaderSize(wide)
  {
    Stamp(Value(d[..4]), Value(d[4..8]), Value(d[8..HeaderSize(wide)]))
  }

  /** The receiver decodes the header the sender encoded, each field modulo its width. */
  lemma HeaderRoundTrip(secs: nat, usecs: nat, count: nat, wide: bool, payload: Text)
    ensures ReadHeader(Header(secs, usecs, count, wide) + payload, wide)
         == Stamp(secs % Power256(4), usecs % Power256(4), count % Power256(CounterSize(wide)))
  {
    var d := Header(secs, usecs, count, wide) + payload;
    assert d[..4] == BigEndian(secs, 4);
    assert d[4..8] == BigEndian(usecs, 4);
    assert d[8..HeaderSize(wide)] == BigEndian(count, CounterSize(wide));
    BigEndianRoundTrip(secs, 4);
    BigEndianRoundTrip(usecs, 4);
    BigEndianRoundTrip(count, CounterSize(wide));
  }

  /** On the wire the seconds come first, then the microseconds and the number, each most significant byte first. */
  lemma HeaderLayout(secs: nat, usecs: nat, count: nat, wide: bool)
    requires secs < 0x1_0000_0000 && usecs < 0x1_0000_0000 && count < 0x1_0000_0000
    ensures Header(secs, usecs, count, wide)
         == [secs / 0x100_0000, secs / 0x1_0000 % 0x100, secs / 0x100 % 0x100, secs % 0x100,
             usecs / 0x100_0000, usecs / 0x1_0000 % 0x100, usecs / 0x100 % 0x100, usecs % 0x100]
            + (if wide then [0, 0, 0, 0] else [])
            + [count / 0x100_0000, count / 0x1_0000 % 0x100, count / 0x100 % 0x100, count % 0x100]
  {
    hide BigEndian;
    FourBytes(secs);
    FourBytes(usecs);
    FourBytes(count);
    if wide {
      EightBytes(count);
    }
  }

  // -------------------------------------------------------------------- the sender

  /** The `i`-th datagram of a buffer that holds several of one size. */
  function Segment(b: Text, size: nat, i: nat): (d: Text)
    requires (i + 1) * size <= |b|
    ensures |d| == size
  {
    assert (i + 1) * size == i * size + size;
    b[i * size..i * size + size]
  }

  lemma InsideBuffer(i: nat, n: nat, size: nat, length: nat)
    requires i < n && size > 0 && n <= length / size
    ensures (i + 1) * size <= n * size <= length && i * size + size == (i + 1) * size
  {
    assert length / size * size <= length;
    assert n * size <= length / size * size;
    assert (i + 1) * size <= n * size;
  }

  /** `iperf_udp_send`. With segmentation offload one send carries as many datagrams of `size` bytes as the buffer holds,
      without it the datagram is the whole buffer. `attempts` says which sends the network accepted, and `sent` holds the
      datagrams of those. */
  class Sender {
    const wide: bool
    const size: nat
    const buffer: array<byte>
    var packetCount: nat
    var bytesSent: nat
    var bytesSentThisInterval: nat
    ghost var attempts: seq<bool>
    ghost var sent: seq<Text>

    predicate Configured() {
      16 <= size <= buffer.Length
    }

    function Segments(): (n: nat)
      requires Configured()
      ensures n > 0
    {
      buffer.Length / size
    }

    /** The counter and the numbers on the accepted datagrams, each in its field's width, are those of `UdpNumbers`. */
    ghost predicate Valid()
      reads this, buffer
    {
      && Configured() && packetCount == Counter(attempts, Segments())
      && |sent| == |SentNumbers(attempts, Segments())|
      && forall i :: 0 <= i < |sent| ==>
           && |sent[i]| == size
           && ReadHeader(sent[i], wide).count == SentNumbers(attempts, Segments())[i] % Power256(CounterSize(wide))
    }

    constructor (length: nat, size: nat, wide: bool)
      requires 16 <= size <= length
      ensures Valid() && sent == [] && attempts == [] && fresh(buffer)
      ensures this.wide == wide && this.size == size && buffer.Length == length
    {
      this.wide, this.size := wide, size;
      buffer := new byte[length];
      packetCount, bytesSent, bytesSentThisInterval := 0, 0, 0;
      attempts, sent := [], [];
    }

    /** The header of the `i`-th datagram of the buffer. */
    method PutHeader(i: nat, header: Text)
      requires Configured() && i < Segments() && |header| <= size
      modifies buffer
      ensures (i + 1) * size <= buffer.Length && header <= Segment(buffer[..], size, i)
      ensures buffer[..i * size] == old(buffer[..i * size])
    {
      InsideBuffer(i, Segments(), size, buffer.Length);
      var at := i * size;
      var k := 0;
      while k < |header|
        invariant 0 <= k <= |header| && buffer[at..at + k] == header[..k]
        invariant buffer[..at] == old(buffer[..at])
        modifies buffer
      {
        buffer[at + k] := header[k];
        k := k + 1;
      }
    }

    /** The header of the `j`-th datagram of a send that begins at the counter `from`. */
    function StampOf(j: nat, from: nat, stamps: seq<(nat, nat)>): Stamp
      requires j < |stamps|
    {
      Stamp(stamps[j].0 % Power256(4), stamps[j].1 % Power256(4), (from + 1 + j) % Power256(CounterSize(wide)))
    }

    /** The first `i` datagrams of `b` have their headers. */
    ghost predicate Stamped(b: Text, i: nat, from: nat, stamps: seq<(nat, nat)>)
      requires Configured() && i <= Segments() <= |stamps| && |b| == buffer.Length
    {
      forall j :: 0 <= j < i ==>
        (j + 1) * size <= |b| && ReadHeader(Segment(b, size, j), wide) == StampOf(j, from, stamps)
    }

    lemma StampedMore(a: Text, b: Text, i: nat, from: nat, stamps: seq<(nat, nat)>)
      requires Configured() && i < Segments() <= |stamps| && |a| == |b| == buffer.Length
      requires (i + 1) * size <= |b| && i * size <= |b| && a[..i * size] == b[..i * size]
      requires Stamped(a, i, from, stamps) && ReadHeader(Segment(b, size, i), wide) == StampOf(i, from, stamps)
      ensures Stamped(b, i + 1, from, stamps)
    {
      hide ReadHeader, Segment;
      forall j | 0 <= j < i
        ensures (j + 1) * size <= |b| && ReadHeader(Segment(b, size, j), wide) == StampOf(j, from, stamps)
      {
        InsideBuffer(j, i, size, |b|);
        SameSegment(b, a, size, j, i * size);
      }
    }

    method StampNext(i: nat, ghost from: nat, stamps: seq<(nat, nat)>)
      requires Configured() && i < Segments() <= |stamps| && Stamped(buffer[..], i, from, stamps)
      requires packetCount == from + 1 + i
      modifies buffer
      ensures Stamped(buffer[..], i + 1, from, stamps)
    {
      hide ReadHeader, Segment, Header, Stamped;
      var header := Header(stamps[i].0, stamps[i].1, packetCount, wide);
      ghost var before := buffer[..];
      InsideBuffer(i, Segments(), size, buffer.Length);
      PutHeader(i, header);
      ghost var d := Segment(buffer[..], size, i);
      assert d == header + d[|header|..];
      HeaderRoundTrip(stamps[i].0, stamps[i].1, packetCount, wide, d[|header|..]);
      assert before[..i * size] == buffer[..][..i * size];
      StampedMore(before, buffer[..], i, from, stamps);
    }

    /** One send; `stamps` are the times at which its datagrams were filled in and `r` is what the write to the socket
        returned. Each datagram carries its time. A send that was not accepted gives one number back. */
    method Send(stamps: seq<(nat, nat)>, r: int) returns (result: int)
      requires Valid() && r <= buffer.Length && |stamps| >= Segments()
      modifies this, buffer
      ensures Valid() && result == r && attempts == old(attempts) + [r > 0]
      ensures r > 0 ==> bytesSent == old(bytesSent) + r && |sent| == |old(sent)| + Segments()
      ensures r > 0 ==> sent[..|old(sent)|] == old(sent)
      ensures r > 0 ==> forall j :: 0 <= j < Segments() ==>
                var stamp := ReadHeader(sent[|old(sent)| + j], wide);
                stamp.secs == stamps[j].0 % 0x1_0000_0000 && stamp.usecs == stamps[j].1 % 0x1_0000_0000
      ensures r <= 0 ==> sent == old(sent) && bytesSent == old(bytesSent)
      ensures bytesSentThisInterval - old(bytesSentThisInterval) == bytesSent - old(bytesSent)
    {
      hide ReadHeader, Stamped, Counter, SentNumbers;
      ghost var from := packetCount;
      NoneStamped(from, stamps);
      var i := 0;
      while i < Segments()
        invariant 0 <= i <= Segments() && packetCount == from + i && Stamped(buffer[..], i, from, stamps)
        modifies this`packetCount, buffer
      {
        packetCount := packetCount + 1;
        StampNext(i, from, stamps);
        i := i + 1;
      }
      Attempted(attempts, r > 0, Segments());
      if r > 0 {
        Widths();
        TakeSegments(from, stamps);
        sent := sent + Cut(Segments());
      }
      attempts := attempts + [r > 0];
      if r <= 0 {
        packetCount := packetCount - 1;
        if r < 0 {
          return r;
        }
      }
      bytesSent := bytesSent + r;
      bytesSentThisInterval := bytesSentThisInterval + r;
      return r;
    }

    lemma NoneStamped(from: nat, stamps: seq<(nat, nat)>)
      requires Configured() && Segments() <= |stamps|
      ensures Stamped(buffer[..], 0, from, stamps)
    {
    }

    /** The datagrams of the buffer. */
    ghost function Cut(n: nat): (ds: seq<Text>)
      requires Configured() && n <= Segments()
      reads buffer
      ensures |ds| == n
    {
      seq(n, j requires 0 <= j < n reads buffer =>
        InsideBuffer(j, n, size, buffer.Length);
        Segment(buffer[..], size, j))
    }

    lemma TakeSegments(from: nat, stamps: seq<(nat, nat)>)
      requires Configured() && Segments() <= |stamps| && Stamped(buffer[..], Segments(), from, stamps)
      ensures forall j :: 0 <= j < Segments() ==>
                && |Cut(Segments())[j]| == size
                && ReadHeader(Cut(Segments())[j], wide)
                   == Stamp(stamps[j].0 % Power256(4), stamps[j].1 % Power256(4),
                            NextNumbers(from, Segments())[j] % Power256(CounterSize(wide)))
    {
      hide ReadHeader;
    }
  }

  lemma SameSegment(a: Text, b: Text, size: nat, j: nat, end: nat)
    requires |a| == |b| && end <= |a| && a[..end] == b[..end] && (j + 1) * size <= end
    ensures Segment(a, size, j) == Segment(b, size, j)
  {
    assert (j + 1) * size == j * size + size;
    assert a[j * size..j * size + size] == a[..end][j * size..j * size + size];
    assert b[j * size..j * size + size] == b[..end][j * size..j * size + size];
  }

  lemma Attempted(attempts: seq<bool>, ok: bool, k: nat)
    requires k > 0
    ensures var more := attempts + [ok];
            && Counter(more, k) == Counter(attempts, k) + (if ok then k else k - 1)
            && SentNumbers(more, k)
            == SentNumbers(attempts, k) + if ok then NextNumbers(Counter(attempts, k), k) else []
  {
    assert (attempts + [ok])[..|attempts + [ok]| - 1] == attempts;
  }

  // ------------------------------------------------------------------ the receiver

  /** The sequence numbers in what one read returned: one every `stride` bytes while a header fits. */
  function Numbers(buf: Text, stride: nat, wide: bool): seq<nat>
    requires stride > 0
    decreases |buf|
  {
    if |buf| < stride || |buf| < HeaderSize(wide) then []
    else [ReadHeader(buf, wide).count] + Numbers(buf[stride..], stride, wide)
  }

  class Receiver {
    const wide: bool
    var packetCount: nat
    var cntError: nat
    var outOfOrder: nat
    var bytesReceived: nat
    var bytesReceivedThisInterval: nat

    ghost function Counters(): Counters
      reads this
    {
      UdpLoss.Counters(packetCount, cntError, outOfOrder)
    }

    constructor (wide: bool)
      ensures Counters() == START && this.wide == wide
    {
      this.wide := wide;
      packetCount, cntError, outOfOrder := 0, 0, 0;
      bytesReceived, bytesReceivedThisInterval := 0, 0;
    }

    /** The sequence-number part of the loop body. */
    method Account(p: nat)
      modifies this`packetCount, this`cntError, this`outOfOrder
      ensures Counters() == Arrive(old(Counters()), p)
    {
      if p >= packetCount + 1 {
        if p > packetCount + 1 {
          cntError := cntError + (p - 1) - packetCount;
        }
        packetCount := p;
      } else {
        outOfOrder := outOfOrder + 1;
        if cntError > 0 {
          cntError := cntError - 1;
        }
      }
    }

    /** `iperf_udp_recv` after a read that returned `buf`: every number in it is accounted for, in order. */
    method Receive(buf: Text, stride: nat, running: bool)
      requires stride > 0
      modifies this
      ensures if running && buf != []
              then Counters() == ArriveAll(old(Counters()), Numbers(buf, stride, wide))
                   && bytesReceived == old(bytesReceived) + |buf|
              else Counters() == old(Counters()) && bytesReceived == old(bytesReceived)
      ensures bytesReceivedThisInterval - old(bytesReceivedThisInterval) == bytesReceived - old(bytesReceived)
    {
      hide ReadHeader, ArriveAll, Numbers, Arrive, HeaderSize;
      HeaderSizes();
      if |buf| <= 0 || !running {
        return;
      }
      bytesReceived := bytesReceived + |buf|;
      bytesReceivedThisInterval := bytesReceivedThisInterval + |buf|;
      var left, at := |buf|, 0;
      NoneArrived(Counters());
      ghost var done: seq<nat> := [];
      assert buf[0..] == buf;
      while left >= stride && at + stride <= |buf|
        invariant at + left == |buf| && 0 <= at <= |buf|
        invariant done + Numbers(buf[at..], stride, wide) == Numbers(buf, stride, wide)
        invariant Counters() == ArriveAll(old(Counters()), done)
        invariant bytesReceived == old(bytesReceived) + |buf|
        invariant bytesReceivedThisInterval == old(bytesReceivedThisInterval) + |buf|
        decreases left
      {
        if left < 12 || (wide && left < 16) {
          break;
        }
        var p := ReadHeader(buf[at..], wide).count;
        NumbersStep(buf, at, stride, wide, done);
        OneMoreArrived(old(Counters()), done, p);
        Account(p);
        done := done + [p];
        at, left := at + stride, left - stride;
      }
      NoNumbers(buf[at..], stride, wide);
      assert done + [] == done;
    }
  }

  lemma Widths()
    ensures Power256(4) == 0x1_0000_0000 && Power256(8) == 0x1_0000_0000_0000_0000
  {
    assert Power256(2) == 0x1_0000 && Power256(6) == 0x1_0000_0000_0000;
  }

  lemma HeaderSizes()
    ensures HeaderSize(false) == 12 && HeaderSize(true) == 16
  {
  }

  lemma NoneArrived(c: Counters)
    ensures ArriveAll(c, []) == c
  {
  }

  lemma OneArrived(c: Counters, p: nat)
    ensures ArriveAll(c, [p]) == Arrive(c, p)
  {
    assert [p][..0] == [];
  }

  lemma OneMoreArrived(c: Counters, ps: seq<nat>, p: nat)
    ensures ArriveAll(c, ps + [p]) == Arrive(ArriveAll(c, ps), p)
  {
    assert (ps + [p])[..|ps + [p]| - 1] == ps;
  }

  lemma NoNumbers(buf: Text, stride: nat, wide: bool)
    requires stride > 0 && (|buf| < stride || |buf| < HeaderSize(wide))
    ensures Numbers(buf, stride, wide) == []
  {
  }

  lemma NumbersStep(buf: Text, at: nat, stride: nat, wide: bool, done: seq<nat>)
    requires stride > 0 && at + stride <= |buf| && at + HeaderSize(wide) <= |buf|
    ensures done + Numbers(buf[at..], stride, wide)
         == (done + [ReadHeader(buf[at..], wide).count]) + Numbers(buf[at + stride..], stride, wide)
  {
  }

  function Joined(ds: seq<Text>): Text {
    if ds == [] then [] else ds[0] + Joined(ds[1..])
  }

  /** A read that returned several datagrams of one size behind each other holds their numbers in order; a shorter piece at
      the end holds none. */
  lemma {:induction false} NumbersOfMany(ds: seq<Text>, end: Text, stride: nat, wide: bool)
    requires stride >= HeaderSize(wide) && |end| < stride && forall k :: 0 <= k < |ds| ==> |ds[k]| == stride
    ensures |Numbers(Joined(ds) + end, stride, wide)| == |ds|
    ensures forall k :: 0 <= k < |ds| ==> Numbers(Joined(ds) + end, stride, wide)[k] == ReadHeader(ds[k], wide).count
    decreases |ds|
  {
    hide ReadHeader;
    var buf := Joined(ds) + end;
    if ds == [] {
      NoNumbers(buf, stride, wide);
    } else {
      var rest := Joined(ds[1..]) + end;
      assert buf == ds[0] + rest && buf[stride..] == rest;
      NumbersOfMany(ds[1..], end, stride, wide);
      SameHeader(buf, ds[0], wide);
    }
  }

  lemma SameHeader(a: Text, b: Text, wide: bool)
    requires HeaderSize(wide) <= |b| && b <= a
    ensures ReadHeader(a, wide) == ReadHeader(b, wide)
  {
    HeaderSizes();
    assert a[..4] == b[..4] && a[4..8] == b[4..8] && a[8..HeaderSize(wide)] == b[8..HeaderSize(wide)];
  }

  // --------------------------------------------------------------------- end to end

  /** What arrives when the network delivers the datagrams at the places `order` of what was sent. */
  function Delivered(sent: seq<Text>, order: seq<nat>, wide: bool): (ps: seq<nat>)
    requires forall k :: 0 <= k < |order| ==> order[k] < |sent| && |sent[order[k]]| >= HeaderSize(wide)
    ensures |ps| == |order|
    ensures forall k :: 0 <= k < |order| ==> ps[k] == ReadHeader(sent[order[k]], wide).count
  {
    seq(|order|, k requires 0 <= k < |order| => ReadHeader(sent[order[k]], wide).count)
  }

  /** The datagrams that a sender's accepted sends put on the wire, as `Sender.Valid` says. */
  ghost predicate Numbered(sent: seq<Text>, attempts: seq<bool>, k: nat, wide: bool)
    requires k > 0
  {
    && |sent| == |SentNumbers(attempts, k)|
    && forall i :: 0 <= i < |sent| ==>
         |sent[i]| >= 16 && ReadHeader(sent[i], wide).count == SentNumbers(attempts, k)[i] % Power256(CounterSize(wide))
  }

  /** End to end through a network that drops and reorders but does not duplicate: what was received and what
      was counted as lost add up to the receiver's packet count, which is at most the sender's, as long as the
      numbers fit their field. */
  lemma EndToEnd(sent: seq<Text>, attempts: seq<bool>, k: nat, order: seq<nat>, wide: bool)
    requires k > 0 && Counter(attempts, k) < Power256(CounterSize(wide)) && Numbered(sent, attempts, k, wide)
    requires forall i :: 0 <= i < |order| ==> order[i] < |sent|
    requires NoDuplicates(order)
    ensures var ps := Delivered(sent, order, wide);
            var c := ArriveAll(START, ps);
            && |order| + c.cntError == c.packetCount <= Counter(attempts, k)
            && c.cntError == |Missing(ps)|
  {
    hide ReadHeader, Missing, LateArrivals, Duplicates, ArriveAll, SentNumbers, Counter;
    var ps := Delivered(sent, order, wide);
    NumbersGoUp(attempts, k);
    NumbersArePlaces(sent, attempts, k, order, wide);
    CountersExact(ps);
    CountersBound(ps);
  }

  lemma NumbersArePlaces(sent: seq<Text>, attempts: seq<bool>, k: nat, order: seq<nat>, wide: bool)
    requires k > 0 && Counter(attempts, k) < Power256(CounterSize(wide)) && Numbered(sent, attempts, k, wide)
    requires forall i :: 0 <= i < |order| ==> order[i] < |sent|
    ensures var ps := Delivered(sent, order, wide);
            && (forall i :: 0 <= i < |ps| ==> ps[i] == SentNumbers(attempts, k)[order[i]])
            && Highest(ps) <= Counter(attempts, k)
  {
    hide ReadHeader, SentNumbers, Counter;
    NumbersGoUp(attempts, k);
    var ps := Delivered(sent, order, wide);
    forall i | 0 <= i < |order| ensures ps[i] == SentNumbers(attempts, k)[order[i]] {
      SmallMod(SentNumbers(attempts, k)[order[i]], Power256(CounterSize(wide)));
    }
    if Highest(ps) != 0 {
      var i :| 0 <= i < |ps| && ps[i] == Highest(ps);
    }
  }

  /** With nothing lost and nothing out of order, the losses that the receiver reports are those of `UdpNumbers`. */
  lemma NothingLost(sent: seq<Text>, attempts: seq<bool>, k: nat, wide: bool)
    requires k > 0 && Counter(attempts, k) < Power256(CounterSize(wide)) && Numbered(sent, attempts, k, wide)
    ensures var all := InOrder(|sent|);
            && Delivered(sent, all, wide) == SentNumbers(attempts, k)
            && ArriveAll(START, Delivered(sent, all, wide)).cntError == Skipped(k, Failures(ToLastAccepted(attempts)))
  {
    hide ReadHeader, ArriveAll, SentNumbers, Counter;
    NumbersArePlaces(sent, attempts, k, InOrder(|sent|), wide);
    PhantomLosses(attempts, k);
  }

  function InOrder(n: nat): (order: seq<nat>)
    ensures |order| == n && forall i :: 0 <= i < n ==> order[i] == i
  {
    seq(n, i requires 0 <= i < n => i)
  }

  lemma SmallMod(n: nat, m: nat)
    requires n < m
    ensures n % m == n
  {
  }

  /** Delivered one by one, the datagrams are accounted for exactly by their numbers. */
  lemma OneDatagramOneNumber(d: Text, wide: bool)
    requires |d| >= 16
    ensures Numbers(d, |d|, wide) == [ReadHeader(d, wide).count]
  {
    assert d[|d|..] == [];
  }

  lemma OneMoreDelivered(sent: seq<Text>, order: seq<nat>, wide: bool, k: nat)
    requires k < |order|
    requires forall i :: 0 <= i < |order| ==> order[i] < |sent| && |sent[order[i]]| >= HeaderSize(wide)
    ensures Delivered(sent, order[..k + 1], wide)
         == Delivered(sent, order[..k], wide) + [ReadHeader(sent[order[k]], wide).count]
  {
    hide ReadHeader;
  }

  /** A fresh receiver that is handed a sender's datagrams, some of them, in any order, none twice: its counters add up,
      and all bytes are counted. */
  method Deliver(ghost sender: Sender, receiver: Receiver, datagrams: seq<Text>, ghost order: seq<nat>)
    requires sender.Valid() && sender.wide == receiver.wide && sender.packetCount < Power256(CounterSize(sender.wide))
    requires receiver.Counters() == START && NoDuplicates(order)
    requires |datagrams| == |order|
    requires forall k :: 0 <= k < |order| ==> order[k] < |sender.sent| && datagrams[k] == sender.sent[order[k]]
    modifies receiver
    ensures |order| + receiver.cntError == receiver.packetCount <= sender.packetCount
    ensures receiver.cntError == |Missing(Delivered(sender.sent, order, sender.wide))|
    ensures receiver.bytesReceived == old(receiver.bytesReceived) + |order| * sender.size
  {
    hide ReadHeader, Missing, ArriveAll, Numbers;
    ghost var sent, wide := sender.sent, sender.wide;
    NoneArrived(START);
    var k := 0;
    while k < |datagrams|
      invariant 0 <= k <= |order|
      invariant receiver.Counters() == ArriveAll(START, Delivered(sent, order[..k], wide))
      invariant receiver.bytesReceived == old(receiver.bytesReceived) + k * sender.size
    {
      var d := datagrams[k];
      OneDatagramOneNumber(d, wide);
      OneMoreDelivered(sent, order, wide, k);
      OneArrived(receiver.Counters(), ReadHeader(d, wide).count);
      OneMoreArrived(START, Delivered(sent, order[..k], wide), ReadHeader(d, wide).count);
      receiver.Receive(d, |d|, true);
      k := k + 1;
    }
    assert order[..|order|] == order;
    EndToEnd(sent, sender.attempts, sender.Segments(), order, wide);
  }
}

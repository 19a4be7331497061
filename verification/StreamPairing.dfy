/** The streams of the two sides: their identities and their pairing. */
module StreamPairing {

  // ---------------------------------------------------------------- identities and pairing

  datatype Mode = SenderMode | ReceiverMode | Bidirectional

  /** The server's mode when the client runs in `m`. */
  function Opposite(m: Mode): Mode {
    match m
    case SenderMode => ReceiverMode
    case ReceiverMode => SenderMode
    case Bidirectional => Bidirectional
  }

  /** A stream when it is made. */
  datatype StreamId = StreamId(id: nat, sender: bool)

  /** The identity of the `k`-th stream: 1, 3, 4, 5, ... */
  function IdOf(k: nat): nat { if k == 0 then 1 else k + 2 }

  /** Streams with the sender flags `flags`, numbered in order. */
  function Numbered(flags: seq<bool>): (ss: seq<StreamId>)
    ensures |ss| == |flags| && forall k :: 0 <= k < |flags| ==> ss[k] == StreamId(IdOf(k), flags[k])
  {
    seq(|flags|, k requires 0 <= k < |flags| => StreamId(IdOf(k), flags[k]))
  }

  function Repeat(b: bool, n: nat): (bs: seq<bool>)
    ensures |bs| == n && forall k :: 0 <= k < n ==> bs[k] == b
  {
    seq(n, _ => b)
  }

  /** The client connects its sending streams first. */
  function ClientFlags(m: Mode, n: nat): seq<bool> {
    match m
    case SenderMode => Repeat(true, n)
    case ReceiverMode => Repeat(false, n)
    case Bidirectional => Repeat(true, n) + Repeat(false, n)
  }

  /** The server counts receiving streams first. */
  function ServerFlags(toReceive: nat, toSend: nat): seq<bool> {
    Repeat(false, toReceive) + Repeat(true, toSend)
  }

  function ToReceive(m: Mode, n: nat): nat { if m == SenderMode then 0 else n }

  function ToSend(m: Mode, n: nat): nat { if m == ReceiverMode then 0 else n }

  /** One side's list of streams. */
  class StreamList {
    var streams: seq<StreamId>

    constructor ()
      ensures streams == []
    {
      streams := [];
    }

    /** `iperf_add_stream`: the list is walked to its end, counting from two. */
    method AddStream(sender: bool)
      modifies this
      ensures streams == old(streams) + [StreamId(IdOf(|old(streams)|), sender)]
    {
      if streams == [] {
        streams := [StreamId(1, sender)];
      } else {
        var i, k := 2, 0;
        while k < |streams|
          invariant 0 <= k <= |streams| && i == k + 2
        {
          i, k := i + 1, k + 1;
        }
        streams := streams + [StreamId(i, sender)];
      }
    }

    /** `iperf_create_streams`: `n` streams in one direction. */
    method CreateStreams(ghost before: seq<bool>, n: nat, sender: bool)
      requires streams == Numbered(before)
      modifies this
      ensures streams == Numbered(before + Repeat(sender, n))
    {
      var i := 0;
      assert before + Repeat(sender, 0) == before;
      while i < n
        invariant 0 <= i <= n && streams == Numbered(before + Repeat(sender, i))
      {
        AddStream(sender);
        assert before + Repeat(sender, i + 1) == before + Repeat(sender, i) + [sender];
        i := i + 1;
      }
    }

    /** The client's reaction to CREATE_STREAMS. */
    method CreateForMode(m: Mode, n: nat)
      requires streams == []
      modifies this
      ensures streams == Numbered(ClientFlags(m, n))
    {
      if m == Bidirectional {
        CreateStreams([], n, true);
        assert [] + Repeat(true, n) == Repeat(true, n);
        CreateStreams(Repeat(true, n), n, false);
      } else {
        CreateStreams([], n, m == SenderMode);
        assert [] + Repeat(m == SenderMode, n) == Repeat(m == SenderMode, n);
      }
    }
  }

  /** The server's side of creating streams: the counters of its select loop. */
  class Acceptor {
    const toReceive: nat
    const toSend: nat
    const list: StreamList
    var received: nat
    var sent: nat

    ghost predicate Valid()
      reads this, list
    {
      && received <= toReceive && sent <= toSend && (sent > 0 ==> received == toReceive)
      && list.streams == Numbered(ServerFlags(toReceive, toSend)[..received + sent])
    }

    constructor (m: Mode, n: nat)
      ensures Valid() && fresh(list) && received == 0 && sent == 0
      ensures toReceive == ToReceive(m, n) && toSend == ToSend(m, n)
    {
      toReceive, toSend, received, sent := ToReceive(m, n), ToSend(m, n), 0, 0;
      list := new StreamList();
    }

    /** One stream connection: first the receiving ones are counted, then the sending ones. A connection too many is
        left alone. */
    method Accept() returns (complete: bool)
      requires Valid()
      modifies this, list
      ensures Valid() && received + sent == (if old(received + sent) < toReceive + toSend
                                             then old(received + sent) + 1 else old(received + sent))
      ensures complete <==> received + sent == toReceive + toSend
      ensures complete ==> list.streams == Numbered(ServerFlags(toReceive, toSend))
    {
      ghost var flags := ServerFlags(toReceive, toSend);
      ghost var k := received + sent;
      var flag := -1;
      if received != toReceive {
        flag := 0;
        received := received + 1;
      } else if sent != toSend {
        flag := 1;
        sent := sent + 1;
      }
      if flag != -1 {
        list.AddStream(flag == 1);
        assert flags[..k + 1] == flags[..k] + [flags[k]];
      }
      complete := received == toReceive && sent == toSend;
      assert flags[..|flags|] == flags;
    }
  }

  /** The `k`-th streams of the two sides have the same identity, 1, 3, 4, 5 and so on, which no other stream of a side
      has, and one sends while the other receives, in every mode; in a bidirectional test the client sends on the first
      half. */
  lemma Pairing(m: Mode, n: nat)
    ensures var client, server := ClientFlags(m, n), ServerFlags(ToReceive(Opposite(m), n), ToSend(Opposite(m), n));
            && |client| == |server|
            && (forall k :: 0 <= k < |client| ==>
                  Numbered(client)[k].id == Numbered(server)[k].id && client[k] == !server[k])
            && (forall j, k :: 0 <= j < k < |client| ==> Numbered(client)[j].id != Numbered(client)[k].id)
            && (forall k :: 0 <= k < |client| ==> Numbered(client)[k].id == if k == 0 then 1 else k + 2)
            && |client| == (if m == Bidirectional then 2 * n else n)
            && forall k :: 0 <= k < |client| ==> (client[k] <==> m != ReceiverMode && k < n)
  {
  }
}

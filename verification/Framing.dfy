/** JSON documents over a byte stream: the read and write loops over partial transfers, and the length prefix. */
module Framing {
  import opened Bytes
  import opened ByteOrder
  import opened JsonText
  import opened JsonGrammar
  import opened JsonRoundTrip
  import JsonParse
  import JsonPrint

  const SOFT_ERROR := -1
  const HARD_ERROR := -2

  /** One direction of a connection: the bytes written and not yet read. */
  class Pipe {
    var bytes: Text

    constructor ()
      ensures bytes == []
    {
      bytes := [];
    }
  }

  function Min(a: nat, b: nat): nat { if a <= b then a else b }

  /** The conversion of a byte count to `int`, which has 32 bits. */
  function ToInt(n: int): (i: int)
    ensures -INT_LIMIT <= i < INT_LIMIT && (-INT_LIMIT <= n < INT_LIMIT ==> i == n)
  {
    (n + INT_LIMIT) % (2 * INT_LIMIT) - INT_LIMIT
  }

  const INT_LIMIT: int := 2147483648

  // ------------------------------------------------------------------------ writing

  /** What the system does with one write: take up to `n` bytes, or refuse. */
  datatype WriteTurn = Wrote(n: nat) | Again | NoBuffers | WriteFailed

  /** How `Nwrite` ends: its result before it is converted to `int`, and how many bytes went out. */
  datatype WriteEnd = WriteEnd(result: int, written: nat)

  function Writing(count: nat, left: nat, turns: seq<WriteTurn>): WriteEnd
    requires left <= count && left <= |turns|
    decreases left
  {
    if left == 0 then WriteEnd(count, count)
    else
      match turns[0]
      case Again => WriteEnd(if count == left then SOFT_ERROR else count - left, count - left)
      case NoBuffers => WriteEnd(SOFT_ERROR, count - left)
      case WriteFailed => WriteEnd(HARD_ERROR, count - left)
      case Wrote(n) =>
        if n == 0 then WriteEnd(SOFT_ERROR, count - left)
        else Writing(count, left - Min(n, left), turns[1..])
  }

  ghost predicate KeepsWriting(turns: seq<WriteTurn>) {
    forall i :: 0 <= i < |turns| ==> turns[i].Wrote? && turns[i].n > 0
  }

  /** However the system cuts the writes, all bytes go out as long as it takes some every time. */
  lemma {:induction false} WritesAll(count: nat, left: nat, turns: seq<WriteTurn>)
    requires left <= count && left <= |turns| && KeepsWriting(turns)
    ensures Writing(count, left, turns) == WriteEnd(count, count)
    decreases left
  {
    if left > 0 {
      WritesAll(count, left - Min(turns[0].n, left), turns[1..]);
    }
  }

  lemma {:induction false} WritesNoMore(count: nat, left: nat, turns: seq<WriteTurn>)
    requires left <= count && left <= |turns|
    ensures var e := Writing(count, left, turns);
            && count - left <= e.written <= count
            && (e.result == e.written || e.result == SOFT_ERROR || e.result == HARD_ERROR)
    decreases left
  {
    if left > 0 && turns[0].Wrote? && turns[0].n > 0 {
      WritesNoMore(count, left - Min(turns[0].n, left), turns[1..]);
    }
  }

  /** Exactly where the system first stops taking bytes the call ends, with what was taken until then, and the result
      tells a transient stop from an error. */
  lemma {:induction false} WriteStops(count: nat, left: nat, turns: seq<WriteTurn>, k: nat)
    requires left <= count && left <= |turns|
    requires k < |turns| && KeepsWriting(turns[..k]) && Taken(turns[..k]) < left
    ensures var e, out := Writing(count, left, turns), count - left + Taken(turns[..k]);
            match turns[k]
            case Again => e == WriteEnd(if out == 0 then -1 else out, out)
            case NoBuffers => e == WriteEnd(-1, out)
            case WriteFailed => e == WriteEnd(-2, out)
            case Wrote(n) => (n == 0 ==> e == WriteEnd(-1, out)) && (out + n >= count ==> e == WriteEnd(count, count) || n == 0)
    decreases left
  {
    if k > 0 {
      var first := turns[..k];
      assert first[0] == turns[0] && first[1..] == turns[1..][..k - 1];
      assert forall i :: 0 <= i < k - 1 ==> first[1..][i] == first[i + 1];
      WriteStops(count, left - turns[0].n, turns[1..], k - 1);
    }
  }

  /** The bytes that a run of writes takes. */
  function Taken(turns: seq<WriteTurn>): nat {
    if turns == [] then 0 else (if turns[0].Wrote? then turns[0].n else 0) + Taken(turns[1..])
  }

  /** The system refuses for now at turn `k`, with `before` bytes out already, after some of `count` and not all. */
  ghost predicate StoppedAt(count: nat, before: nat, turns: seq<WriteTurn>, k: nat) {
    && k < |turns| && turns[k].Again? && KeepsWriting(turns[..k])
    && 0 < before + Taken(turns[..k]) < count
  }

  ghost predicate Stopped(count: nat, before: nat, turns: seq<WriteTurn>) {
    exists k: nat :: StoppedAt(count, before, turns, k)
  }

  lemma StoppedShift(count: nat, before: nat, turns: seq<WriteTurn>, k: nat)
    requires turns != [] && turns[0].Wrote? && turns[0].n > 0 && k < |turns| - 1
    ensures StoppedAt(count, before, turns, k + 1) <==> StoppedAt(count, before + turns[0].n, turns[1..], k)
  {
    var short, long := turns[1..][..k], turns[..k + 1];
    assert long[1..] == short && long[0] == turns[0];
    assert forall i :: 1 <= i < |long| ==> long[i] == short[i - 1];
    assert forall i :: 0 <= i < |short| ==> short[i] == long[i + 1];
  }

  lemma StoppedLater(count: nat, before: nat, turns: seq<WriteTurn>)
    requires turns != [] && turns[0].Wrote? && turns[0].n > 0
    ensures Stopped(count, before, turns) <==> Stopped(count, before + turns[0].n, turns[1..])
  {
    var n, rest := turns[0].n, turns[1..];
    if Stopped(count, before, turns) {
      var k: nat :| StoppedAt(count, before, turns, k);
      StoppedShift(count, before, turns, k - 1);
    }
    if Stopped(count, before + n, rest) {
      var k: nat :| StoppedAt(count, before + n, rest, k);
      StoppedShift(count, before, turns, k);
    }
  }

  lemma NotStopped(count: nat, before: nat, turns: seq<WriteTurn>)
    requires before >= count || (turns != [] && turns[0].Wrote? && before + turns[0].n >= count)
             || (turns != [] && !turns[0].Again? && !(turns[0].Wrote? && turns[0].n > 0))
             || (turns != [] && turns[0].Again? && before == 0)
    ensures !Stopped(count, before, turns)
  {
    forall k: nat ensures !StoppedAt(count, before, turns, k) {
      if k > 0 && k <= |turns| {
        assert turns[..k][0] == turns[0];
      }
    }
  }

  /** A write is cut short without an error exactly if the system refuses for now after some bytes and not all. */
  lemma {:induction false} ShortIff(count: nat, left: nat, turns: seq<WriteTurn>)
    requires left <= count && left <= |turns|
    ensures var e := Writing(count, left, turns);
            (e.result >= 0 && e.written < count) <==> Stopped(count, count - left, turns)
    decreases left
  {
    hide Stopped;
    if left == 0 {
      NotStopped(count, count, turns);
    } else if turns[0].Again? {
      if left < count {
        StoppedNow(count, count - left, turns);
      } else {
        NotStopped(count, 0, turns);
      }
    } else if turns[0].Wrote? && turns[0].n > 0 {
      if turns[0].n < left {
        StoppedLater(count, count - left, turns);
        ShortIff(count, left - turns[0].n, turns[1..]);
      } else {
        NotStopped(count, count - left, turns);
      }
    } else {
      NotStopped(count, count - left, turns);
    }
  }

  lemma StoppedNow(count: nat, before: nat, turns: seq<WriteTurn>)
    requires turns != [] && turns[0].Again? && 0 < before < count
    ensures Stopped(count, before, turns)
  {
    assert turns[..0] == [];
    assert StoppedAt(count, before, turns, 0);
  }

  /** `Nwrite`. */
  method Nwrite(pipe: Pipe, text: Text, turns: seq<WriteTurn>) returns (r: int)
    requires |text| <= |turns|
    modifies pipe
    ensures var e := Writing(|text|, |text|, turns);
            r == ToInt(e.result) && e.written <= |text| && pipe.bytes == old(pipe.bytes) + text[..e.written]
  {
    WritesNoMore(|text|, |text|, turns);
    var left, k := |text|, 0;
    assert turns[0..] == turns;
    while left > 0
      invariant 0 <= left <= |text| && 0 <= k && k + left <= |turns|
      invariant pipe.bytes == old(pipe.bytes) + text[..|text| - left]
      invariant Writing(|text|, left, turns[k..]) == Writing(|text|, |text|, turns)
      decreases left
    {
      var turn := turns[k];
      match turn
      case Again =>
        if |text| == left {
          return SOFT_ERROR;
        }
        return ToInt(|text| - left);
      case NoBuffers => return SOFT_ERROR;
      case WriteFailed => return HARD_ERROR;
      case Wrote(n) =>
        if n == 0 {
          return SOFT_ERROR;
        }
        var done, w := |text| - left, Min(n, left);
        assert turns[k..][1..] == turns[k + 1..];
        assert text[..done + w] == text[..done] + text[done..done + w];
        pipe.bytes := pipe.bytes + text[done..done + w];
        left, k := left - w, k + 1;
    }
    return ToInt(|text|);
  }

  // ------------------------------------------------------------------------ reading

  /** One turn of the read loop: what `read` may return at most (zero at the end of the stream, negative on an
      error, transient or not), whether the call has taken too long, and what the wait for more returned. */
  datatype ReadTurn = ReadTurn(n: int, transient: bool, late: bool, ready: int)

  /** How `Nrecv` ends: its result before it is converted to `int`, and how many bytes it took from the stream. */
  datatype ReadEnd = ReadEnd(result: int, taken: nat)

  function Reading(available: nat, count: nat, left: nat, turns: seq<ReadTurn>): ReadEnd
    requires left <= count && left <= |turns|
    decreases left
  {
    if left == 0 then ReadEnd(count, count)
    else
      var t, sofar := turns[0], count - left;
      if t.n < 0 then ReadEnd(if t.transient then sofar else HARD_ERROR, sofar)
      else
        var k := Min(t.n, Min(left, available));
        if k == 0 then ReadEnd(sofar, sofar)
        else if left - k > 0 && (t.late || t.ready == 0) then ReadEnd(sofar + k, sofar + k)
        else if left - k > 0 && t.ready < 0 then ReadEnd(HARD_ERROR, sofar + k)
        else Reading(available - k, count, left - k, turns[1..])
  }

  ghost predicate KeepsReading(turns: seq<ReadTurn>) {
    forall i :: 0 <= i < |turns| ==> turns[i].n > 0 && !turns[i].late && turns[i].ready > 0
  }

  /** However the stream is cut into reads, a reader that is not timed out gets the whole count. */
  lemma {:induction false} ReadsAll(available: nat, count: nat, left: nat, turns: seq<ReadTurn>)
    requires left <= count && left <= |turns| && left <= available && KeepsReading(turns)
    ensures Reading(available, count, left, turns) == ReadEnd(count, count)
    decreases left
  {
    if left > 0 {
      var k := Min(turns[0].n, Min(left, available));
      ReadsAll(available - k, count, left - k, turns[1..]);
    }
  }

  lemma {:induction false} ReadsNoMore(available: nat, count: nat, left: nat, turns: seq<ReadTurn>)
    requires left <= count && left <= |turns|
    ensures var e := Reading(available, count, left, turns);
            && count - left <= e.taken <= count && e.taken - (count - left) <= available
            && (e.result == HARD_ERROR || e.result == e.taken)
    decreases left
  {
    if left > 0 && turns[0].n > 0 && available > 0 {
      var k := Min(turns[0].n, Min(left, available));
      ReadsNoMore(available - k, count, left - k, turns[1..]);
    }
  }

  /** The bytes that a run of reads asks for. */
  function Asked(turns: seq<ReadTurn>): int {
    if turns == [] then 0 else turns[0].n + Asked(turns[1..])
  }

  /** Exactly where reading first does not go on the call ends, with what was read until then. An error other than a
      transient one is all that is reported as one, also one of the wait behind a read; the end of the stream, a timeout
      and a transient error make the count short. */
  lemma {:induction false} ReadStops(available: nat, count: nat, left: nat, turns: seq<ReadTurn>, k: nat)
    requires left <= count && left <= |turns|
    requires k < |turns| && KeepsReading(turns[..k]) && Asked(turns[..k]) < left && Asked(turns[..k]) <= available
    ensures Asked(turns[..k]) >= 0
    ensures var e, got, t := Reading(available, count, left, turns), count - left + Asked(turns[..k]), turns[k];
            && (t.n < 0 ==> e == ReadEnd(if t.transient then got else -2, got))
            && (t.n == 0 || (t.n > 0 && available == Asked(turns[..k])) ==> e == ReadEnd(got, got))
            && (0 < t.n <= available - Asked(turns[..k]) && got + t.n < count && (t.late || t.ready <= 0) ==>
                  e == ReadEnd(if t.late || t.ready == 0 then got + t.n else -2, got + t.n))
            && (got + t.n >= count && available - Asked(turns[..k]) >= count - got ==> e == ReadEnd(count, count))
    decreases left
  {
    if k == 0 {
      assert turns[..0] == [] && Asked([]) == 0;
    } else {
      hide Asked, Reading;
      FirstGoesOn(turns, k);
      ReadGoesOn(available, count, left, turns);
      ReadStops(available - turns[0].n, count, left - turns[0].n, turns[1..], k - 1);
    }
  }

  /** A turn that does not stop hands on to the next one. */
  lemma ReadGoesOn(available: nat, count: nat, left: nat, turns: seq<ReadTurn>)
    requires left <= count && left <= |turns| && turns != [] && KeepsReading(turns[..1])
    requires turns[0].n < left && turns[0].n <= available
    ensures Reading(available, count, left, turns)
         == Reading(available - turns[0].n, count, left - turns[0].n, turns[1..])
  {
    assert turns[..1][0] == turns[0];
  }

  lemma FirstGoesOn(turns: seq<ReadTurn>, k: nat)
    requires 0 < k <= |turns| && KeepsReading(turns[..k])
    ensures KeepsReading(turns[..1]) && KeepsReading(turns[1..][..k - 1]) && turns[0].n > 0
    ensures Asked(turns[..k]) == turns[0].n + Asked(turns[1..][..k - 1]) && Asked(turns[1..][..k - 1]) >= 0
  {
    var first, rest := turns[..k], turns[1..][..k - 1];
    assert first[0] == turns[0] && turns[..1][0] == turns[0] && first[1..] == rest;
    assert forall i :: 0 <= i < |rest| ==> rest[i] == first[i + 1];
    AskedIsNatural(rest);
  }

  lemma {:induction false} AskedIsNatural(turns: seq<ReadTurn>)
    requires KeepsReading(turns)
    ensures Asked(turns) >= 0
  {
    if turns != [] {
      AskedIsNatural(turns[1..]);
    }
  }

  /** `Nrecv`: it takes bytes from the front of the stream, in order, and hands over all it took. */
  method Nrecv(pipe: Pipe, count: nat, entry: int, turns: seq<ReadTurn>) returns (r: int, buf: Text)
    requires count <= |turns|
    modifies pipe
    ensures entry <= 0 ==> pipe.bytes == old(pipe.bytes) && buf == [] && r == if entry < 0 then HARD_ERROR else 0
    ensures entry > 0 ==>
              var e := Reading(|old(pipe.bytes)|, count, count, turns);
              && r == ToInt(e.result) && e.taken <= |old(pipe.bytes)|
              && buf == old(pipe.bytes)[..e.taken] && pipe.bytes == old(pipe.bytes)[e.taken..]
  {
    hide ToInt;
    buf := [];
    if entry < 0 {
      return HARD_ERROR, buf;
    }
    if entry == 0 {
      return 0, buf;
    }
    ReadsNoMore(|pipe.bytes|, count, count, turns);
    var left, j := count, 0;
    assert turns[0..] == turns;
    while left > 0
      invariant 0 <= left <= count && 0 <= j && j + left <= |turns|
      invariant count - left <= |old(pipe.bytes)|
      invariant buf == old(pipe.bytes)[..count - left] && pipe.bytes == old(pipe.bytes)[count - left..]
      invariant Reading(|pipe.bytes|, count, left, turns[j..]) == Reading(|old(pipe.bytes)|, count, count, turns)
      decreases left
    {
      var t := turns[j];
      if t.n < 0 {
        if t.transient {
          break;
        }
        return HARD_ERROR, buf;
      }
      var k := Min(t.n, Min(left, |pipe.bytes|));
      if k == 0 {
        break;
      }
      assert turns[j..][1..] == turns[j + 1..];
      buf, pipe.bytes := buf + pipe.bytes[..k], pipe.bytes[k..];
      left, j := left - k, j + 1;
      if left > 0 {
        if t.late {
          break;
        }
        if t.ready < 0 {
          return HARD_ERROR, buf;
        }
        if t.ready == 0 {
          break;
        }
      }
    }
    r := ToInt(count - left);
  }

  // ------------------------------------------------------------------------- frames

  /** A document on the wire: four bytes of length, most significant first, and the unformatted text. */
  function Frame(j: Json): Text
    requires Printable(j)
  {
    var text := Render(j, false, 0);
    BigEndian(|text|, 4) + text
  }

  lemma FrameParts(j: Json, rest: Text)
    requires Printable(j) && |Render(j, false, 0)| < Power256(4)
    ensures var text := Render(j, false, 0);
            var wire := Frame(j) + rest;
            && |wire| == 4 + |text| + |rest|
            && Value(wire[..4]) == |text| && wire[4..][..|text|] == text && wire[4..][|text|..] == rest
  {
    hide Render, BigEndian, Value, Power256;
    var text := Render(j, false, 0);
    var wire := Frame(j) + rest;
    SmallIsExact(|text|, 4);
    assert wire[..4] == BigEndian(|text|, 4);
    assert wire[4..] == text + rest;
  }

  /** The bytes up to the first NUL, as `cJSON_Parse` sees a buffer with a NUL behind it. */
  function UpToNul(t: Text): (c: Text)
    ensures Terminated(c)
    decreases |t|
  {
    if t == [] || t[0] == NUL then [NUL] else [t[0]] + UpToNul(t[1..])
  }

  lemma {:induction false} UpToNulWhole(t: Text)
    requires NulFree(t)
    ensures UpToNul(t) == t + [NUL]
    decreases |t|
  {
    if t != [] {
      UpToNulWhole(t[1..]);
      assert t == [t[0]] + t[1..];
    }
  }

  /** Does `JSON_read` return a document of this length? From 2^31 bytes on, the count it reads is negative as an `int`. */
  predicate LengthOk(size: nat, maxSize: nat) {
    0 < size < INT_LIMIT && (maxSize == 0 || size <= maxSize)
  }

  /** How much of a text `JSON_write` writes: its length is kept in 32 bits. */
  function Cut(size: nat): (n: nat)
    ensures n < 2 * INT_LIMIT && n <= size && (n == size <==> size < 2 * INT_LIMIT)
  {
    size % (2 * INT_LIMIT)
  }

  /** `JSON_write`. A negative result of either write is a failure; a short one is not noticed, nor is a text that is too
      long for its 32-bit length. So a result of zero means that the frame went out exactly if neither write was stopped
      half way and the length fits; and if all goes out, it is zero exactly for what is below 2^31. */
  method JsonWrite(pipe: Pipe, j: Json, available: nat, head: seq<WriteTurn>, body: seq<WriteTurn>) returns (r: int)
    requires Printable(j) && |head| >= 4 && |body| >= Cut(|Render(j, false, 0)|)
    modifies pipe
    ensures r == 0 || r == -1
    ensures var text := Render(j, false, 0);
            JsonPrint.DEFAULT_BUFFER_SIZE <= available && 2 * (|text| + 2) <= available <= JsonPrint.SIZE_MAX ==>
              var cut := Cut(|text|);
              var first, second := Writing(4, 4, head), Writing(cut, cut, body);
              && (r == 0 <==> first.result >= 0 && ToInt(second.result) >= 0)
              && (r == 0 ==>
                    && first.written <= 4 && second.written <= cut
                    && pipe.bytes == old(pipe.bytes) + Frame(j)[..first.written] + text[..second.written])
              && (r == 0 ==>
                    (pipe.bytes == old(pipe.bytes) + Frame(j) <==>
                     !Stopped(4, 0, head) && !Stopped(cut, 0, body) && |text| < 2 * INT_LIMIT))
              && (KeepsWriting(head) && KeepsWriting(body) ==>
                    && (r == 0 <==> cut < INT_LIMIT)
                    && pipe.bytes == old(pipe.bytes) + Frame(j)[..4] + text[..cut])
  {
    hide Render, Writing, Printable, NulFree, BigEndian, Power256, Stopped, ToInt, Cut;
    var printed := JsonPrint.PrintTree(j, false, available);
    if printed.None? {
      return -1;
    }
    var text := printed.value;
    var size := BigEndian(|text|, 4);
    var cut := CutSize(text);
    WritesNoMore(4, 4, head);
    WritesNoMore(cut, cut, body);
    IntFacts(cut, Writing(4, 4, head).result);
    IntFacts(cut, SOFT_ERROR);
    IntFacts(cut, HARD_ERROR);
    if KeepsWriting(head) { WritesAll(4, 4, head); }
    if KeepsWriting(body) { WritesAll(cut, cut, body); }
    ghost var before := pipe.bytes;
    ghost var w, v := Writing(4, 4, head).written, Writing(cut, cut, body).written;
    assert size[..w] == Frame(j)[..w] && size[..4] == Frame(j)[..4];
    var sent := Nwrite(pipe, size, head);
    if sent < 0 {
      return -1;
    }
    assert text[..cut][..v] == text[..v];
    sent := Nwrite(pipe, text[..cut], body);
    ShortIff(4, 4, head);
    ShortIff(cut, cut, body);
    assert |pipe.bytes| == |before| + w + v && |before + Frame(j)| == |before| + 4 + |text|;
    assert size[..4] == size && text[..|text|] == text;
    if sent < 0 {
      return -1;
    }
    return 0;
  }

  /** `hsize`, a `uint32_t`. */
  method CutSize(text: Text) returns (n: nat)
    ensures n == Cut(|text|) <= |text| && (n == |text| <==> |text| < 2 * INT_LIMIT) && n < 2 * INT_LIMIT
  {
    n := |text| % (2 * INT_LIMIT);
  }

  lemma IntFacts(cut: nat, n: int)
    requires cut < 2 * INT_LIMIT
    ensures -INT_LIMIT <= n < INT_LIMIT ==> ToInt(n) == n
    ensures ToInt(cut) >= 0 <==> cut < INT_LIMIT
  {
  }

  /** `JSON_read` of whatever is on the wire: a document comes of nothing but a frame of an accepted length that is there
      whole. A length that is not accepted is taken from the wire and nothing else is. */
  method JsonRead(pipe: Pipe, maxSize: nat, entry: int, head: seq<ReadTurn>, again: int, body: seq<ReadTurn>)
    returns (j: Option<Json>)
    requires |head| >= 4 && (|pipe.bytes| >= 4 ==> |body| >= Value(pipe.bytes[..4]))
    modifies pipe
    ensures var wire := old(pipe.bytes);
            entry > 0 && again > 0 && KeepsReading(head) && KeepsReading(body) && |wire| >= 4
              && LengthOk(Value(wire[..4]), maxSize) && |wire| >= 4 + Value(wire[..4]) ==>
              var size := Value(wire[..4]);
              && j == ParsedText(wire[4..][..size]) && pipe.bytes == wire[4..][size..]
    ensures var wire := old(pipe.bytes);
            j.Some? ==>
              && |wire| >= 4 && LengthOk(Value(wire[..4]), maxSize) && |wire| >= 4 + Value(wire[..4])
              && var size := Value(wire[..4]);
                 j == ParsedText(wire[4..][..size]) && pipe.bytes == wire[4..][size..]
    ensures var wire := old(pipe.bytes);
            entry > 0 && KeepsReading(head) && |wire| >= 4 ==>
              var size := Value(wire[..4]);
              size == 0 || (0 < maxSize < size) ==> j == None && pipe.bytes == wire[4..]
    ensures exists n: nat :: n <= |old(pipe.bytes)| && pipe.bytes == old(pipe.bytes)[n..]
  {
    hide ParseText, Reading, Value, Power256, ToInt;
    IntFacts(0, 4);
    j := None;
    ghost var wire := pipe.bytes;
    assert wire[0..] == wire;
    ReadsNoMore(|wire|, 4, 4, head);
    if KeepsReading(head) && |wire| >= 4 { ReadsAll(|wire|, 4, 4, head); }
    var rc, length := Nrecv(pipe, 4, entry, head);
    if rc != 4 {
      return;
    }
    ghost var later := pipe.bytes;
    var size := Value(length);
    if size == 0 || (maxSize != 0 && size > maxSize) {
      return;
    }
    if size + 1 == 2 * INT_LIMIT {
      return;
    }
    ReadsNoMore(|later|, size, size, body);
    if KeepsReading(body) && |later| >= size { ReadsAll(|later|, size, size, body); }
    var text: Text;
    rc, text := Nrecv(pipe, size, again, body);
    assert pipe.bytes == later || exists n: nat :: n <= |later| && pipe.bytes == later[n..];
    if rc >= 0 && rc == size {
      var c := UpToNul(text);
      var buffer := new JsonParse.ParseBuffer(c);
      j := buffer.Parse();
    }
  }

  /** Four bytes hold what 32 bits hold. */
  lemma FourBytesHold()
    ensures Power256(4) == 2 * INT_LIMIT
  {
    assert Power256(2) == 65536;
  }

  function ParsedText(t: Text): Option<Json> {
    var p := ParseText(UpToNul(t));
    if p.Fail? then None else Some(p.value)
  }

  /** What was framed is read back as the same tree, and the bytes behind it stay on the wire: exactly for trees
      that nest at most 1000 deep; a deeper one is taken from the wire and refused. */
  lemma FrameRoundTrip(j: Json, maxSize: nat, rest: Text)
    requires Printable(j) && LengthOk(|Render(j, false, 0)|, maxSize)
    ensures var wire := Frame(j) + rest;
            var size := |Render(j, false, 0)|;
            && |wire| >= 4 + size && Value(wire[..4]) == size && wire[4..][size..] == rest
            && ParsedText(wire[4..][..size]) == if NestsWithin(j, 1000) then Some(j) else None
  {
    hide Render, Value, Power256, ParseText;
    FourBytesHold();
    FrameParts(j, rest);
    RenderNulFree(j, false, 0);
    UpToNulWhole(Render(j, false, 0));
    RoundTrip(j, false);
  }

  /** On a socket that refuses to block, `JSON_write` can report success for a frame that did not go out: here two of
      the four bytes of the length did, and then the whole text. */
  method ShortFrame(pipe: Pipe) returns (r: int)
    modifies pipe
    ensures r == 0 && pipe.bytes == old(pipe.bytes) + [0, 0] + NULL_TEXT != old(pipe.bytes) + Frame(Null)
  {
    hide Writing;
    var head, body := [Wrote(2), Again, Again, Again], [Wrote(4), Wrote(1), Wrote(1), Wrote(1)];
    TwoThenAgain(head);
    WritesAll(4, 4, body);
    NullFrame();
    r := JsonWrite(pipe, Null, JsonPrint.DEFAULT_BUFFER_SIZE, head, body);
    assert NULL_TEXT[..4] == NULL_TEXT;
  }

  lemma TwoThenAgain(turns: seq<WriteTurn>)
    requires |turns| >= 4 && turns[0] == Wrote(2) && turns[1] == Again
    ensures Writing(4, 4, turns) == WriteEnd(2, 2)
  {
    assert turns[1..][0] == Again;
  }

  lemma NullFrame()
    ensures Render(Null, false, 0) == NULL_TEXT && Frame(Null) == [0, 0, 0, 4] + NULL_TEXT
    ensures Frame(Null)[..2] == [0, 0]
  {
    assert BigEndian(0, 0) == [] && BigEndian(0, 1) == [0] && BigEndian(0, 2) == [0, 0] && BigEndian(0, 3) == [0, 0, 0];
    assert BigEndian(4, 4) == [0, 0, 0, 4];
  }

  /** `n` bytes that need no escape. */
  function Plain(n: nat): Text { seq(n, _ => 97) }

  lemma {:induction false} PlainEscaped(n: nat)
    ensures |JsonText.Escaped(Plain(n))| == n
  {
    var t := Plain(n);
    if n > 0 {
      PlainEscaped(n - 1);
      assert t[1..] == Plain(n - 1) && t[0] == 97;
      assert JsonText.UnitsOf(t)[1..] == JsonText.UnitsOf(t[1..]);
    }
  }

  /** A text of exactly 2^32 bytes, a string with its quotes: written without any hindrance, all that goes out is a length
      of zero, and success is reported. No reader accepts that. */
  method HugeFrame(pipe: Pipe, available: nat, head: seq<WriteTurn>) returns (r: int)
    requires |head| >= 4 && KeepsWriting(head)
    requires JsonPrint.DEFAULT_BUFFER_SIZE <= available && 4 * INT_LIMIT + 4 <= available <= JsonPrint.SIZE_MAX
    modifies pipe
    ensures r == 0 && pipe.bytes == old(pipe.bytes) + [0, 0, 0, 0] && !LengthOk(Value([0, 0, 0, 0]), 0)
  {
    hide Writing, Stopped, ToInt, JsonText.Escaped, Power256, BigEndian, Value;
    var j := String(Plain(2 * INT_LIMIT - 2));
    PlainEscaped(2 * INT_LIMIT - 2);
    assert |Render(j, false, 0)| == 2 * INT_LIMIT;
    ZeroLength(2 * INT_LIMIT);
    WritesAll(4, 4, head);
    IntFacts(0, 0);
    hide Render;
    assert KeepsWriting([]);
    assert Frame(j)[..4] == BigEndian(2 * INT_LIMIT, 4);
    r := JsonWrite(pipe, j, available, head, []);
  }

  lemma ZeroLength(n: nat)
    requires n == 2 * INT_LIMIT
    ensures BigEndian(n, 4) == [0, 0, 0, 0] && Value([0, 0, 0, 0]) == 0 && Cut(n) == 0
  {
    var b := n / 256 / 256 / 256;
    assert b == 256 && BigEndian(b, 1) == BigEndian(1, 0) + [0] == [0];
    assert BigEndian(n / 256 / 256, 2) == [0, 0] && BigEndian(n / 256, 3) == [0, 0, 0];
    SmallIsExact(0, 4);
    assert BigEndian(0, 0) == [] && BigEndian(0, 1) == [0] && BigEndian(0, 2) == [0, 0] && BigEndian(0, 3) == [0, 0, 0];
  }
}

/** JSON string literals: the two-pass reader of `parse_string`, UTF-16 escapes, and what a literal means. */
module JsonString {
  import opened Bytes

  // ---------------------------------------------------------------- first scan

  /** Where the first pass, standing at `p`, finds the closing quote. */
  function ClosingQuote(c: Text, p: nat): (r: Option<nat>)
    requires p <= |c|
    ensures r.Some? ==> p <= r.value < |c| && c[r.value] == QUOTE
    decreases |c| - p
  {
    if p == |c| then None
    else if c[p] == QUOTE then Some(p)
    else if c[p] != BACKSLASH then ClosingQuote(c, p + 1)
    else if p + 1 >= |c| then None
    else ClosingQuote(c, p + 2)
  }

  /** How many escapes the first pass, standing at `q`, opens before position `p`. */
  function Escapes(c: Text, q: nat, p: nat): (n: nat)
    requires p <= |c|
    ensures n <= if q < p then p - q else 0
    decreases if q < p then p - q else 0
  {
    if q >= p then 0
    else if c[q] == BACKSLASH then 1 + Escapes(c, q + 2, p)
    else Escapes(c, q + 1, p)
  }

  lemma {:induction false} EscapesPlainStep(c: Text, q: nat, p: nat)
    requires p < |c| && c[p] != BACKSLASH
    ensures Escapes(c, q, p + 1) == Escapes(c, q, p)
    decreases if q < p then p - q else 0
  {
    if q < p {
      EscapesPlainStep(c, if c[q] == BACKSLASH then q + 2 else q + 1, p);
    }
  }

  /** Two neighbouring positions cannot both open an escape, in step or out of step. */
  lemma {:induction false} EscapesPairStep(c: Text, q: nat, p: nat)
    requires p + 2 <= |c|
    ensures Escapes(c, q, p) <= Escapes(c, q, p + 2) <= Escapes(c, q, p) + 1
    decreases if q < p then p - q else 0
  {
    assert Escapes(c, p + 2, p + 2) == 0;
    assert Escapes(c, p + 1, p + 2) <= 1;
    if q < p {
      EscapesPairStep(c, if c[q] == BACKSLASH then q + 2 else q + 1, p);
    }
  }

  lemma {:induction false} EscapesMonotone(c: Text, q: nat, p: nat)
    requires p < |c|
    ensures Escapes(c, q, p) <= Escapes(c, q, p + 1)
    decreases if q < p then p - q else 0
  {
    if q < p {
      EscapesMonotone(c, if c[q] == BACKSLASH then q + 2 else q + 1, p);
    }
  }

  lemma EscapesSixStep(c: Text, q: nat, p: nat)
    requires p + 6 <= |c|
    ensures Escapes(c, q, p + 6) <= Escapes(c, q, p) + 3
  {
    EscapesPairStep(c, q, p);
    EscapesPairStep(c, q, p + 2);
    EscapesPairStep(c, q, p + 4);
  }

  // ------------------------------------------------------ hexadecimal and UTF-8

  predicate IsHex(b: byte) {
    48 <= b <= 57 || 65 <= b <= 70 || 97 <= b <= 102
  }

  function HexValue(b: byte): (v: nat)
    requires IsHex(b)
    ensures v < 16
  {
    if b <= 57 then b - 48 else if b <= 70 then b - 55 else b - 87
  }

  predicate FourHex(h: Text) {
    |h| == 4 && forall i :: 0 <= i < 4 ==> IsHex(h[i])
  }

  /** The number four hexadecimal digits spell. */
  function HexNumber(h: Text): (v: nat)
    requires FourHex(h)
    ensures v < 0x10000
  {
    4096 * HexValue(h[0]) + 256 * HexValue(h[1]) + 16 * HexValue(h[2]) + HexValue(h[3])
  }

  /** What `parse_hex4` returns: 0 stands for "not four digits" too. */
  function Hex4(c: Text, p: nat): (v: nat)
    requires p + 4 <= |c|
    ensures v < 0x10000
  {
    if FourHex(c[p..p + 4]) then HexNumber(c[p..p + 4]) else 0
  }

  method ParseHex4(c: Text, p: nat) returns (h: nat)
    requires p + 4 <= |c|
    ensures h == Hex4(c, p)
  {
    h := 0;
    ghost var t := c[p..p + 4];
    var i := 0;
    while i < 4
      invariant 0 <= i <= 4
      invariant forall k :: 0 <= k < i ==> IsHex(t[k])
      invariant i == 0 ==> h == 0
      invariant i == 1 ==> h == 16 * HexValue(t[0])
      invariant i == 2 ==> h == 16 * (16 * HexValue(t[0]) + HexValue(t[1]))
      invariant i == 3 ==> h == 16 * (16 * (16 * HexValue(t[0]) + HexValue(t[1])) + HexValue(t[2]))
      invariant i == 4 ==> h == HexNumber(t)
    {
      var b := c[p + i];
      assert b == t[i];
      if 48 <= b <= 57 {
        h := h + (b - 48);
      } else if 65 <= b <= 70 {
        h := h + 10 + (b - 65);
      } else if 97 <= b <= 102 {
        h := h + 10 + (b - 97);
      } else {
        return 0;
      }
      if i < 3 {
        h := 16 * h;
      }
      i := i + 1;
    }
  }

  const UPPER_DIGITS := "0123456789ABCDEF"
  const LOWER_DIGITS := "0123456789abcdef"

  /** `b` is the digit of `d`, in upper or in lower case. */
  predicate DigitFor(b: byte, d: nat) {
    d < 16 && (b == UPPER_DIGITS[d] as int || b == LOWER_DIGITS[d] as int)
  }

  /** The digits of `n` in base sixteen. */
  predicate SpellsHex(h: Text, n: nat) {
    && |h| == 4 && n < 0x10000
    && DigitFor(h[0], n / 4096) && DigitFor(h[1], n / 256 % 16) && DigitFor(h[2], n / 16 % 16) && DigitFor(h[3], n % 16)
  }

  lemma DigitMeaning(b: byte, d: nat)
    ensures DigitFor(b, d) <==> IsHex(b) && HexValue(b) == d
  {
    if d < 10 {
      assert UPPER_DIGITS[d] as int == LOWER_DIGITS[d] as int == 48 + d;
    } else if d < 16 {
      assert UPPER_DIGITS[d] as int == 55 + d && LOWER_DIGITS[d] as int == 87 + d;
    }
  }

  /** Four bytes are taken for a number exactly if they are the digits of one, and then it is that number. */
  lemma HexMeaning(c: Text, p: nat, n: nat)
    requires p + 4 <= |c|
    ensures SpellsHex(c[p..p + 4], n) ==> FourHex(c[p..p + 4]) && Hex4(c, p) == n
    ensures FourHex(c[p..p + 4]) ==> SpellsHex(c[p..p + 4], Hex4(c, p))
    ensures !FourHex(c[p..p + 4]) ==> Hex4(c, p) == 0
  {
    hide SpellsHex, HexNumber, FourHex;
    var h := c[p..p + 4];
    if SpellsHex(h, n) {
      SpelledNumber(h, n);
    }
    if FourHex(h) {
      NumberSpelled(h);
    }
  }

  lemma SpelledNumber(h: Text, n: nat)
    requires SpellsHex(h, n)
    ensures FourHex(h) && HexNumber(h) == n
  {
    hide DigitFor, HexValue, IsHex;
    DigitMeaning(h[0], n / 4096);
    DigitMeaning(h[1], n / 256 % 16);
    DigitMeaning(h[2], n / 16 % 16);
    DigitMeaning(h[3], n % 16);
    BaseSixteen(n);
  }

  lemma BaseSixteen(n: nat)
    ensures n == 4096 * (n / 4096) + 256 * (n / 256 % 16) + 16 * (n / 16 % 16) + n % 16
  {
    assert n / 16 / 16 == n / 256 && n / 256 / 16 == n / 4096;
  }

  lemma NumberSpelled(h: Text)
    requires FourHex(h)
    ensures SpellsHex(h, HexNumber(h))
  {
    hide DigitFor, HexValue, IsHex;
    DigitMeaning(h[0], HexValue(h[0]));
    DigitMeaning(h[1], HexValue(h[1]));
    DigitMeaning(h[2], HexValue(h[2]));
    DigitMeaning(h[3], HexValue(h[3]));
    FourDigits(HexValue(h[0]), HexValue(h[1]), HexValue(h[2]), HexValue(h[3]));
  }

  lemma FourDigits(a: nat, b: nat, c: nat, d: nat)
    requires a < 16 && b < 16 && c < 16 && d < 16
    ensures var n := 4096 * a + 256 * b + 16 * c + d; n / 4096 == a && n / 256 % 16 == b && n / 16 % 16 == c && n % 16 == d
  {
    var n := 4096 * a + 256 * b + 16 * c + d;
    assert n / 256 == 16 * a + b && n / 16 == 256 * a + 16 * b + c;
  }

  /** The encoding of a code point, as the table in section 3 of RFC 3629 gives it. */
  function Utf8(cp: nat): (t: Text)
    requires cp <= 0x10FFFF
    ensures 1 <= |t| <= 4
    ensures cp < 0x10000 ==> |t| <= 3
  {
    if cp < 0x80 then [cp]
    else if cp < 0x800 then [0xC0 + cp / 64, 0x80 + cp % 64]
    else if cp < 0x10000 then [0xE0 + cp / 4096, 0x80 + cp / 64 % 64, 0x80 + cp % 64]
    else [0xF0 + cp / 262144, 0x80 + cp / 4096 % 64, 0x80 + cp / 64 % 64, 0x80 + cp % 64]
  }

  predicate HighSurrogate(code: nat) { 0xD800 <= code <= 0xDBFF }

  predicate LowSurrogate(code: nat) { 0xDC00 <= code <= 0xDFFF }

  /** The code point of a surrogate pair. */
  function Combine(high: nat, low: nat): (cp: nat)
    requires HighSurrogate(high) && LowSurrogate(low)
    ensures 0x10000 <= cp <= 0x10FFFF
  {
    0x10000 + (high - 0xD800) * 0x400 + (low - 0xDC00)
  }

  function Bits(b: nat, n: nat): nat
    requires n > 0
  {
    b % n
  }

  /** Reading the bits of an encoding back: the leading byte tells the length and carries the first bits, every byte after
      it is a continuation byte with six more. */
  function Utf8Bits(t: Text): Option<nat> {
    if |t| == 1 && t[0] < 0x80 then Some(t[0])
    else if |t| == 2 && t[0] / 0x20 == 0x6 && t[1] / 0x40 == 0x2 then Some(0x40 * Bits(t[0], 0x20) + Bits(t[1], 0x40))
    else if |t| == 3 && t[0] / 0x10 == 0xE && t[1] / 0x40 == 0x2 && t[2] / 0x40 == 0x2 then
      Some(0x1000 * Bits(t[0], 0x10) + 0x40 * Bits(t[1], 0x40) + Bits(t[2], 0x40))
    else if |t| == 4 && t[0] / 0x8 == 0x1E && t[1] / 0x40 == 0x2 && t[2] / 0x40 == 0x2 && t[3] / 0x40 == 0x2 then
      Some(0x40000 * Bits(t[0], 0x8) + 0x1000 * Bits(t[1], 0x40) + 0x40 * Bits(t[2], 0x40) + Bits(t[3], 0x40))
    else None
  }

  /** The encoding of a code point decodes to it, and is the shortest that could. */
  lemma Utf8Meaning(cp: nat)
    requires cp <= 0x10FFFF
    ensures Utf8Bits(Utf8(cp)) == Some(cp)
    ensures |Utf8(cp)| == if cp < 0x80 then 1 else if cp < 0x800 then 2 else if cp < 0x10000 then 3 else 4
  {
    hide Utf8Bits;
    SixBits(cp);
    if cp < 0x80 {
      BitsOfOne(cp);
    } else if cp < 0x800 {
      BitsOfTwo(cp / 64, cp % 64);
    } else if cp < 0x10000 {
      BitsOfThree(cp / 4096, cp / 64 % 64, cp % 64);
    } else {
      BitsOfFour(cp / 262144, cp / 4096 % 64, cp / 64 % 64, cp % 64);
    }
  }

  lemma SixBits(n: nat)
    ensures n == 64 * (n / 64) + n % 64
    ensures n / 64 == 64 * (n / 4096) + n / 64 % 64
    ensures n / 4096 == 64 * (n / 262144) + n / 4096 % 64
  {
    assert n / 64 / 64 == n / 4096 && n / 4096 / 64 == n / 262144;
  }

  lemma BitsOfOne(a: nat)
    requires a < 0x80
    ensures Utf8Bits([a]) == Some(a)
  {
  }

  lemma BitsOfTwo(a: nat, b: nat)
    requires a < 0x20 && b < 0x40
    ensures Utf8Bits([0xC0 + a, 0x80 + b]) == Some(0x40 * a + b)
  {
  }

  lemma BitsOfThree(a: nat, b: nat, c: nat)
    requires a < 0x10 && b < 0x40 && c < 0x40
    ensures Utf8Bits([0xE0 + a, 0x80 + b, 0x80 + c]) == Some(0x1000 * a + 0x40 * b + c)
  {
  }

  lemma BitsOfFour(a: nat, b: nat, c: nat, d: nat)
    requires a < 0x8 && b < 0x40 && c < 0x40 && d < 0x40
    ensures Utf8Bits([0xF0 + a, 0x80 + b, 0x80 + c, 0x80 + d]) == Some(0x40000 * a + 0x1000 * b + 0x40 * c + d)
  {
  }

  /** Every code point beyond the first plane has one pair of surrogates, its upper and lower ten bits, and every pair
      stands for such a code point. */
  lemma CombineMeaning(cp: nat)
    requires 0x10000 <= cp <= 0x10FFFF
    ensures var high, low := 0xD800 + (cp - 0x10000) / 0x400, 0xDC00 + (cp - 0x10000) % 0x400;
            && HighSurrogate(high) && LowSurrogate(low) && Combine(high, low) == cp
            && forall h, l :: HighSurrogate(h) && LowSurrogate(l) && Combine(h, l) == cp ==> h == high && l == low
  {
  }

  /** The code points that are not characters of their own are the 2048 surrogates, the upper half of a pair first. */
  lemma SurrogateRanges(code: nat)
    ensures HighSurrogate(code) <==> 0xD800 <= code < 0xDC00
    ensures LowSurrogate(code) <==> 0xDC00 <= code < 0xE000
  {
  }

  datatype Utf16 = Rejected | Decoded(length: nat, codepoint: nat)

  /** The escape at `p` in a literal whose closing quote is at `end`: its length in the text and its code point. */
  function Utf16Literal(c: Text, p: nat, end: nat): (u: Utf16)
    requires p < end < |c|
    ensures u.Decoded? ==> u.length in {6, 12} && p + u.length <= end && u.codepoint <= 0x10FFFF
    ensures u.Decoded? && u.length == 6 ==> u.codepoint < 0x10000
  {
    if end - p < 6 then Rejected
    else
      var first := Hex4(c, p + 2);
      if LowSurrogate(first) then Rejected
      else if !HighSurrogate(first) then Decoded(6, first)
      else if end - (p + 6) < 6 then Rejected
      else if c[p + 6] != BACKSLASH || c[p + 7] != LOWER_U then Rejected
      else
        var second := Hex4(c, p + 8);
        if !LowSurrogate(second) then Rejected else Decoded(12, Combine(first, second))
  }

  // --------------------------------------------------------------- second pass

  /** The letters that `\x` escapes with one byte of meaning. */
  function SimpleEscape(letter: byte): Option<byte> {
    if letter == LOWER_B then Some(BACKSPACE)
    else if letter == LOWER_F then Some(FORM_FEED)
    else if letter == LOWER_N then Some(NEWLINE)
    else if letter == LOWER_R then Some(RETURN)
    else if letter == LOWER_T then Some(TAB)
    else if letter == QUOTE || letter == BACKSLASH || letter == SLASH then Some(letter)
    else None
  }

  const ESCAPE_LETTERS := "bfnrt\"\\/"
  const ESCAPE_MEANINGS: Text := [8, 12, 10, 13, 9, 34, 92, 47]

  /** The table of section 7 of RFC 8259, `\/` among it: these letters and no others. */
  lemma SimpleEscapeTable(letter: byte)
    ensures SimpleEscape(letter).Some? <==> exists k :: 0 <= k < 8 && letter == ESCAPE_LETTERS[k] as int
    ensures forall k :: 0 <= k < 8 && letter == ESCAPE_LETTERS[k] as int ==>
              SimpleEscape(letter) == Some(ESCAPE_MEANINGS[k])
  {
    assert ESCAPE_LETTERS[0] == 'b' && ESCAPE_LETTERS[1] == 'f' && ESCAPE_LETTERS[2] == 'n' && ESCAPE_LETTERS[3] == 'r';
    assert ESCAPE_LETTERS[4] == 't' && ESCAPE_LETTERS[5] == '\"' && ESCAPE_LETTERS[6] == '\\' && ESCAPE_LETTERS[7] == '/';
  }

  /** One turn of the second pass at `p`: what it writes and where it goes on. */
  datatype Turn = Stop | Go(out: Text, next: nat)

  function DecodeTurn(c: Text, p: nat, end: nat): (t: Turn)
    requires p < end < |c|
    ensures t.Go? ==> p < t.next <= end + 1 && 1 <= |t.out| <= 4
  {
    if c[p] != BACKSLASH then Go([c[p]], p + 1)
    else if c[p + 1] != LOWER_U then
      var e := SimpleEscape(c[p + 1]);
      if e.None? then Stop else Go([e.value], p + 2)
    else
      var u := Utf16Literal(c, p, end);
      if u.Rejected? then Stop else Go(Utf8(u.codepoint), p + u.length)
  }

  /** The second pass from `p`. It may overrun `end` by one byte when it is out of step with the first scan. */
  function Decode(c: Text, p: nat, end: nat): Option<Text>
    requires p <= end + 1 && end < |c|
    decreases end + 1 - p
  {
    if p >= end then Some([])
    else
      var t := DecodeTurn(c, p, end);
      if t.Stop? then None
      else
        var rest := Decode(c, t.next, end);
        if rest.None? then None else Some(t.out + rest.value)
  }

  /** A turn pays for what it writes: bytes written plus escapes passed never exceed the text passed. */
  lemma TurnPays(c: Text, start: nat, p: nat, end: nat)
    requires p < end < |c| && DecodeTurn(c, p, end).Go?
    ensures var t := DecodeTurn(c, p, end);
            |t.out| + Escapes(c, start, t.next) <= t.next - p + Escapes(c, start, p)
  {
    if c[p] != BACKSLASH {
      EscapesPlainStep(c, start, p);
    } else if c[p + 1] != LOWER_U {
      EscapesPairStep(c, start, p);
    } else {
      EscapesSixStep(c, start, p);
      if DecodeTurn(c, p, end).next == p + 12 {
        EscapesSixStep(c, start, p + 6);
      }
    }
  }

  /** Where the second pass stops, it has written no more than the first scan reserved. */
  lemma PassFits(c: Text, start: nat, end: nat, p: nat, written: nat)
    requires start <= end && p <= end + 1 <= |c|
    requires written + Escapes(c, start, p) <= p - start
    requires p >= end
    ensures written <= end + 1 - start - Escapes(c, start, end)
  {
    if p == end + 1 {
      EscapesMonotone(c, start, end);
    }
  }

  /** Whatever a turn of the second pass wrote is inside the allocation. */
  lemma WriteFits(c: Text, start: nat, end: nat, p: nat, written: nat)
    requires start <= end && start <= p <= end + 1 <= |c|
    requires written + Escapes(c, start, p) <= p - start
    ensures written <= end + 1 - start - Escapes(c, start, end)
    decreases end + 1 - p
  {
    if p >= end {
      PassFits(c, start, end, p, written);
    } else {
      EscapesOneStep(c, start, p);
      WriteFits(c, start, end, p + 1, written);
    }
  }

  lemma {:induction false} EscapesOneStep(c: Text, q: nat, p: nat)
    requires p < |c|
    ensures Escapes(c, q, p + 1) <= Escapes(c, q, p) + 1
    decreases if q < p then p - q else 0
  {
    if q < p {
      EscapesOneStep(c, if c[q] == BACKSLASH then q + 2 else q + 1, p);
    }
  }

  /** Everything the second pass writes from `p` on, also when it then rejects the literal. */
  function Scribbled(c: Text, p: nat, end: nat): Text
    requires p <= end + 1 && end < |c|
    decreases end + 1 - p
  {
    if p >= end || DecodeTurn(c, p, end).Stop? then []
    else DecodeTurn(c, p, end).out + Scribbled(c, DecodeTurn(c, p, end).next, end)
  }

  /** The second pass writes at most the size the first scan computed, on every input; what it yields is what it wrote. */
  lemma {:induction false} DecodeFits(c: Text, start: nat, end: nat, p: nat, written: nat)
    requires start <= p <= end + 1 <= |c| && start <= end
    requires written + Escapes(c, start, p) <= p - start
    ensures written + |Scribbled(c, p, end)| <= end + 1 - start - Escapes(c, start, end)
    ensures Decode(c, p, end).Some? ==> Decode(c, p, end).value == Scribbled(c, p, end)
    decreases end + 1 - p
  {
    hide DecodeTurn;
    if p >= end || DecodeTurn(c, p, end).Stop? {
      WriteFits(c, start, end, p, written);
    } else {
      var t := DecodeTurn(c, p, end);
      TurnMoves(c, p, end);
      TurnPays(c, start, p, end);
      DecodeFits(c, start, end, t.next, written + |t.out|);
    }
  }

  lemma TurnMoves(c: Text, p: nat, end: nat)
    requires p < end < |c| && DecodeTurn(c, p, end).Go?
    ensures p < DecodeTurn(c, p, end).next <= end + 1
  {
  }

  /** What `parse_string` yields at `off`: the bytes of the literal and the offset after its closing quote. */
  datatype Parsed<+T> = Fail | Ok(value: T, next: nat)

  function StringLiteral(c: Text, off: nat): (r: Parsed<Text>)
    requires off < |c|
    ensures r.Ok? ==> off + 2 <= r.next <= |c| && c[r.next - 1] == QUOTE
  {
    if c[off] != QUOTE then Fail
    else
      var end := ClosingQuote(c, off + 1);
      if end.None? then Fail
      else
        var d := Decode(c, off + 1, end.value);
        if d.None? then Fail else Ok(d.value, end.value + 1)
  }

  /** The bytes the first scan reserves, the terminator not counted: the distance from the opening to the
      closing quote less one for each escape passed. */
  function Reserved(c: Text, off: nat): (n: int)
    requires off < |c| && ClosingQuote(c, off + 1).Some?
  {
    var end := ClosingQuote(c, off + 1).value;
    end - off - Escapes(c, off + 1, end)
  }

  /** The two-pass bound for a whole literal, in step or out of step, accepted or rejected: all that is written fits what
      was reserved, and what is accepted is what was written. */
  lemma LiteralFitsAllocation(c: Text, off: nat)
    requires off < |c| && ClosingQuote(c, off + 1).Some?
    ensures |Scribbled(c, off + 1, ClosingQuote(c, off + 1).value)| <= Reserved(c, off)
    ensures StringLiteral(c, off).Ok? ==>
              StringLiteral(c, off).value == Scribbled(c, off + 1, ClosingQuote(c, off + 1).value)
  {
    hide DecodeTurn;
    DecodeFits(c, off + 1, ClosingQuote(c, off + 1).value, off + 1, 0);
  }

  // ------------------------------------------- what a well-formed literal means

  /** A unit of a string literal in the grammar of section 7 of RFC 8259. */
  datatype Unit =
    | Plain(b: byte)
    | Short(letter: byte)
    | Basic(hex: Text)
    | Pair(high: Text, low: Text)

  predicate WellFormed(u: Unit) {
    match u
    case Plain(b) => b >= 0x20 && b != QUOTE && b != BACKSLASH
    case Short(letter) => SimpleEscape(letter).Some?
    case Basic(hex) => FourHex(hex) && !HighSurrogate(HexNumber(hex)) && !LowSurrogate(HexNumber(hex))
    case Pair(high, low) =>
      FourHex(high) && FourHex(low) && HighSurrogate(HexNumber(high)) && LowSurrogate(HexNumber(low))
  }

  function Spelling(u: Unit): (t: Text)
    ensures |t| > 0
  {
    match u
    case Plain(b) => [b]
    case Short(letter) => [BACKSLASH, letter]
    case Basic(hex) => [BACKSLASH, LOWER_U] + hex
    case Pair(high, low) => [BACKSLASH, LOWER_U] + high + [BACKSLASH, LOWER_U] + low
  }

  function Meaning(u: Unit): Text
    requires WellFormed(u)
  {
    match u
    case Plain(b) => [b]
    case Short(letter) => [SimpleEscape(letter).value]
    case Basic(hex) => Utf8(HexNumber(hex))
    case Pair(high, low) => Utf8(Combine(HexNumber(high), HexNumber(low)))
  }

  predicate AllWellFormed(us: seq<Unit>) {
    us == [] || (WellFormed(us[0]) && AllWellFormed(us[1..]))
  }

  function Spell(us: seq<Unit>): Text {
    if us == [] then [] else Spelling(us[0]) + Spell(us[1..])
  }

  function Denote(us: seq<Unit>): Text
    requires AllWellFormed(us)
  {
    if us == [] then [] else Meaning(us[0]) + Denote(us[1..])
  }

  /** The bytes of an escape are where the text says they are. */
  lemma EscapeBytes(c: Text, p: nat, u: Unit)
    requires WellFormed(u) && At(c, p, Spelling(u))
    ensures u.Plain? || c[p] == BACKSLASH
    ensures u.Basic? ==> c[p + 1] == LOWER_U && c[p + 2..p + 6] == u.hex
    ensures u.Pair? ==> c[p + 1] == LOWER_U && c[p + 2..p + 6] == u.high && c[p + 6] == BACKSLASH
                        && c[p + 7] == LOWER_U && c[p + 8..p + 12] == u.low
    ensures u.Short? ==> c[p + 1] == u.letter
    ensures u.Plain? ==> c[p] == u.b
  {
    var t := Spelling(u);
    AtByte(c, p, t, 0);
    match u
    case Plain(_) =>
    case Short(_) => AtByte(c, p, t, 1);
    case Basic(hex) =>
      AtByte(c, p, t, 1);
      AtSplit(c, p, [BACKSLASH, LOWER_U], hex);
    case Pair(high, low) =>
      AtByte(c, p, t, 1);
      AtSplit(c, p, [BACKSLASH, LOWER_U] + high + [BACKSLASH, LOWER_U], low);
      AtSplit(c, p, [BACKSLASH, LOWER_U] + high, [BACKSLASH, LOWER_U]);
      AtSplit(c, p, [BACKSLASH, LOWER_U], high);
      AtByte(c, p + 6, [BACKSLASH, LOWER_U], 0);
      AtByte(c, p + 6, [BACKSLASH, LOWER_U], 1);
  }

  lemma HexIsPlain(c: Text, p: nat, n: nat)
    requires p + n <= |c| && forall i :: p <= i < p + n ==> IsHex(c[i])
    ensures ClosingQuote(c, p) == ClosingQuote(c, p + n)
    decreases n
  {
    if n > 0 {
      HexIsPlain(c, p + 1, n - 1);
    }
  }

  lemma HexAt(c: Text, p: nat, h: Text)
    requires FourHex(h) && p + 4 <= |c| && c[p..p + 4] == h
    ensures forall i :: p <= i < p + 4 ==> IsHex(c[i])
  {
    forall i | p <= i < p + 4 ensures IsHex(c[i]) {
      assert c[i] == h[i - p];
    }
  }

  /** The first scan passes a well-formed unit as a whole. */
  lemma ScanUnit(c: Text, p: nat, u: Unit)
    requires WellFormed(u) && At(c, p, Spelling(u))
    ensures ClosingQuote(c, p) == ClosingQuote(c, p + |Spelling(u)|)
  {
    EscapeBytes(c, p, u);
    match u
    case Plain(_) =>
      assert ClosingQuote(c, p) == ClosingQuote(c, p + 1);
    case Short(_) =>
      assert ClosingQuote(c, p) == ClosingQuote(c, p + 2);
    case Basic(hex) =>
      HexAt(c, p + 2, hex);
      HexIsPlain(c, p + 2, 4);
      assert ClosingQuote(c, p) == ClosingQuote(c, p + 6);
    case Pair(high, low) =>
      HexAt(c, p + 2, high);
      HexAt(c, p + 8, low);
      HexIsPlain(c, p + 2, 4);
      HexIsPlain(c, p + 8, 4);
      assert ClosingQuote(c, p) == ClosingQuote(c, p + 12);
  }

  lemma {:induction false} ScanUnits(c: Text, p: nat, us: seq<Unit>)
    requires AllWellFormed(us) && At(c, p, Spell(us))
    requires p + |Spell(us)| < |c| && c[p + |Spell(us)|] == QUOTE
    ensures ClosingQuote(c, p) == Some(p + |Spell(us)|)
    decreases |us|
  {
    hide At, WellFormed, Spelling;
    if us != [] {
      AtSplit(c, p, Spelling(us[0]), Spell(us[1..]));
      ScanUnit(c, p, us[0]);
      ScanUnits(c, p + |Spelling(us[0])|, us[1..]);
    }
  }

  /** The second pass turns a well-formed unit into exactly its meaning. */
  lemma TurnOfUnit(c: Text, p: nat, end: nat, u: Unit)
    requires WellFormed(u) && p + |Spelling(u)| <= end < |c| && At(c, p, Spelling(u))
    ensures DecodeTurn(c, p, end) == Go(Meaning(u), p + |Spelling(u)|)
  {
    EscapeBytes(c, p, u);
  }

  lemma {:induction false} DecodeUnits(c: Text, p: nat, end: nat, us: seq<Unit>)
    requires AllWellFormed(us) && At(c, p, Spell(us)) && end == p + |Spell(us)| && end < |c|
    ensures Decode(c, p, end) == Some(Denote(us))
    decreases |us|
  {
    if us != [] {
      AtSplit(c, p, Spelling(us[0]), Spell(us[1..]));
      TurnOfUnit(c, p, end, us[0]);
      DecodeUnits(c, p + |Spelling(us[0])|, end, us[1..]);
    }
  }

  lemma LiteralParts(c: Text, off: nat, body: Text)
    requires At(c, off, [QUOTE] + body + [QUOTE])
    ensures c[off] == QUOTE && At(c, off + 1, body)
    ensures off + 1 + |body| < |c| && c[off + 1 + |body|] == QUOTE
  {
    assert [QUOTE] + body + [QUOTE] == [QUOTE] + (body + [QUOTE]);
    AtSplit(c, off, [QUOTE], body + [QUOTE]);
    AtByte(c, off, [QUOTE], 0);
    AtSplit(c, off + 1, body, [QUOTE]);
    AtByte(c, off + 1 + |body|, [QUOTE], 0);
  }

  /** Unescape correctness: a well-formed literal of any length yields the bytes its units denote,
      and exactly the literal is consumed. */
  lemma LiteralMeaning(c: Text, off: nat, us: seq<Unit>)
    requires AllWellFormed(us) && At(c, off, [QUOTE] + Spell(us) + [QUOTE])
    ensures StringLiteral(c, off) == Ok(Denote(us), off + |Spell(us)| + 2)
  {
    hide Decode, ClosingQuote, Denote, Spell, AllWellFormed;
    var body := Spell(us);
    LiteralParts(c, off, body);
    var end := off + 1 + |body|;
    assert ClosingQuote(c, off + 1) == Some(end) by { ScanUnits(c, off + 1, us); }
    assert Decode(c, off + 1, end) == Some(Denote(us)) by { DecodeUnits(c, off + 1, end, us); }
  }

  // ------------------------------------------------ which accepted literals conform

  /** The unit of the grammar that stands at `p` of a literal that ends at `end`, if there is one. */
  function UnitAt(c: Text, p: nat, end: nat): Option<Unit>
    requires p <= end <= |c|
  {
    if p == end then None
    else if c[p] != BACKSLASH then
      if c[p] >= 0x20 && c[p] != QUOTE then Some(Plain(c[p])) else None
    else if p + 1 >= end then None
    else if SimpleEscape(c[p + 1]).Some? then Some(Short(c[p + 1]))
    else if c[p + 1] != LOWER_U || p + 6 > end || !FourHex(c[p + 2..p + 6]) then None
    else
      var high := c[p + 2..p + 6];
      if LowSurrogate(HexNumber(high)) then None
      else if !HighSurrogate(HexNumber(high)) then Some(Basic(high))
      else if p + 12 > end || c[p + 6] != BACKSLASH || c[p + 7] != LOWER_U || !FourHex(c[p + 8..p + 12]) then None
      else
        var low := c[p + 8..p + 12];
        if LowSurrogate(HexNumber(low)) then Some(Pair(high, low)) else None
  }

  /** From `p` to `end` there is nothing but units of the grammar: printable bytes, known escapes, and four hexadecimal
      digits behind each `\u`, with surrogates in pairs. */
  predicate Strict(c: Text, p: nat, end: nat)
    requires p <= end <= |c|
    decreases end - p
  {
    p == end
    || (&& UnitAt(c, p, end).Some?
        && var next := p + |Spelling(UnitAt(c, p, end).value)|;
           next <= end && Strict(c, next, end))
  }

  lemma UnitStands(c: Text, p: nat, end: nat)
    requires p <= end <= |c| && UnitAt(c, p, end).Some?
    ensures var u := UnitAt(c, p, end).value; WellFormed(u) && At(c, p, Spelling(u)) && p + |Spelling(u)| <= end
  {
    var u := UnitAt(c, p, end).value;
    assert c[p..p + |Spelling(u)|] == Spelling(u);
  }

  lemma UnitFound(c: Text, p: nat, end: nat, u: Unit)
    requires WellFormed(u) && At(c, p, Spelling(u)) && p + |Spelling(u)| <= end <= |c|
    ensures UnitAt(c, p, end) == Some(u)
  {
    EscapeBytes(c, p, u);
    if u.Short? || u.Plain? {
      AtByte(c, p, Spelling(u), |Spelling(u)| - 1);
    }
  }

  /** Those units, in order. */
  function UnitsFrom(c: Text, p: nat, end: nat): seq<Unit>
    requires p <= end <= |c| && Strict(c, p, end)
    decreases end - p
  {
    if p == end then []
    else
      var u := UnitAt(c, p, end).value;
      [u] + UnitsFrom(c, p + |Spelling(u)|, end)
  }

  lemma {:induction false} StrictSpells(c: Text, p: nat, end: nat)
    requires p <= end <= |c| && Strict(c, p, end)
    ensures AllWellFormed(UnitsFrom(c, p, end)) && At(c, p, Spell(UnitsFrom(c, p, end)))
    ensures |Spell(UnitsFrom(c, p, end))| == end - p
    decreases end - p
  {
    hide UnitAt, WellFormed, At, Spelling;
    if p == end {
      EmptyAt(c, p);
    } else {
      var u := UnitAt(c, p, end).value;
      UnitStands(c, p, end);
      var next := p + |Spelling(u)|;
      StrictSpells(c, next, end);
      var us := UnitsFrom(c, p, end);
      assert us[1..] == UnitsFrom(c, next, end);
      AtSplit(c, p, Spelling(u), Spell(us[1..]));
    }
  }

  lemma EmptyAt(c: Text, p: nat)
    requires p <= |c|
    ensures At(c, p, [])
  {
  }

  lemma {:induction false} SpelledIsStrict(c: Text, p: nat, us: seq<Unit>)
    requires AllWellFormed(us) && At(c, p, Spell(us))
    ensures p + |Spell(us)| <= |c| && Strict(c, p, p + |Spell(us)|)
    decreases |us|
  {
    hide UnitAt, WellFormed, At, Spelling;
    AtInBounds(c, p, Spell(us));
    if us != [] {
      AtSplit(c, p, Spelling(us[0]), Spell(us[1..]));
      UnitFound(c, p, p + |Spell(us)|, us[0]);
      SpelledIsStrict(c, p + |Spelling(us[0])|, us[1..]);
    }
  }

  lemma AtInBounds(c: Text, p: nat, t: Text)
    requires At(c, p, t)
    ensures p + |t| <= |c|
  {
  }

  /** The text up to the closing quote is a literal of section 7 of RFC 8259 exactly if it is strict; then it is read as
      what that section assigns to it. */
  lemma ConformsIff(c: Text, off: nat, end: nat)
    requires off < end < |c| && c[off] == QUOTE && c[end] == QUOTE
    ensures (exists us :: AllWellFormed(us) && At(c, off + 1, Spell(us)) && |Spell(us)| == end - off - 1)
       <==> Strict(c, off + 1, end)
    ensures Strict(c, off + 1, end) ==>
              && AllWellFormed(UnitsFrom(c, off + 1, end))
              && StringLiteral(c, off) == Ok(Denote(UnitsFrom(c, off + 1, end)), end + 1)
  {
    hide AllWellFormed, Spell, Strict, At, UnitsFrom, Decode, Denote;
    if us :| AllWellFormed(us) && At(c, off + 1, Spell(us)) && |Spell(us)| == end - off - 1 {
      SpelledIsStrict(c, off + 1, us);
    }
    if Strict(c, off + 1, end) {
      StrictSpells(c, off + 1, end);
      var us := UnitsFrom(c, off + 1, end);
      ScanUnits(c, off + 1, us);
      DecodeUnits(c, off + 1, end, us);
    }
  }

  /** Where a literal does not conform, the second pass may still accept it. It reads an escape without four hexadecimal
      digits as a NUL byte, wherever it stands, and a control byte as itself. */
  lemma BrokenEscapeReadsAsNul(c: Text, p: nat, end: nat)
    requires p < end < |c|
    ensures c[p] == BACKSLASH && c[p + 1] == LOWER_U && p + 6 <= end && !FourHex(c[p + 2..p + 6]) ==>
              UnitAt(c, p, end) == None && DecodeTurn(c, p, end) == Go([NUL], p + 6)
    ensures c[p] < 0x20 ==> UnitAt(c, p, end) == None && DecodeTurn(c, p, end) == Go([c[p]], p + 1)
  {
  }

  /** Each turn of the second pass agrees with the grammar, or reads something that is not in it as one of these two; in
      every other case it rejects the literal. */
  lemma TurnExact(c: Text, p: nat, end: nat)
    requires p < end < |c|
    ensures var u, t := UnitAt(c, p, end), DecodeTurn(c, p, end);
            if u.Some? then WellFormed(u.value) && t == Go(Meaning(u.value), p + |Spelling(u.value)|)
            else t.Go? ==>
              || (c[p] != BACKSLASH && (c[p] < 0x20 || c[p] == QUOTE))
              || (c[p] == BACKSLASH && (p + 1 == end || (c[p + 1] == LOWER_U && !FourHex(c[p + 2..p + 6]))))
  {
    if UnitAt(c, p, end).Some? {
      UnitStands(c, p, end);
      TurnOfUnit(c, p, end, UnitAt(c, p, end).value);
    }
  }

  // ------------------------------------------------- acceptance and conformance

  /** The two things the reader does not check, along the first scan: no control bytes, and four hexadecimal digits behind
      each `\u` that the scan opens. */
  predicate Sound(c: Text, p: nat, end: nat)
    requires p <= end <= |c|
    decreases end - p
  {
    if p == end then true
    else if c[p] != BACKSLASH then c[p] >= 0x20 && Sound(c, p + 1, end)
    else
      && p + 2 <= end
      && (c[p + 1] == LOWER_U ==> p + 6 <= end && FourHex(c[p + 2..p + 6]))
      && Sound(c, p + 2, end)
  }

  lemma HexIsSound(c: Text, p: nat, end: nat, n: nat)
    requires p + n <= end <= |c| && forall i :: p <= i < p + n ==> IsHex(c[i])
    ensures Sound(c, p, end) <==> Sound(c, p + n, end)
    decreases n
  {
    if n > 0 {
      HexIsSound(c, p + 1, end, n - 1);
    }
  }

  /** A unit of the grammar is sound, and what follows it decides. */
  lemma UnitIsSound(c: Text, p: nat, end: nat, u: Unit)
    requires WellFormed(u) && At(c, p, Spelling(u)) && p + |Spelling(u)| <= end <= |c|
    ensures Sound(c, p, end) <==> Sound(c, p + |Spelling(u)|, end)
  {
    EscapeBytes(c, p, u);
    match u
    case Plain(_) =>
    case Short(_) =>
    case Basic(hex) =>
      HexAt(c, p + 2, hex);
      HexIsSound(c, p + 2, end, 4);
    case Pair(high, low) =>
      HexAt(c, p + 2, high);
      HexAt(c, p + 8, low);
      HexIsSound(c, p + 2, end, 4);
      HexIsSound(c, p + 8, end, 4);
      assert Sound(c, p + 6, end) <==> Sound(c, p + 8, end);
  }

  /** Where the second pass goes on and the text is sound, a unit of the grammar stands. */
  lemma SoundTurn(c: Text, p: nat, end: nat)
    requires p < end < |c| && ClosingQuote(c, p) == Some(end)
    requires DecodeTurn(c, p, end).Go? && Sound(c, p, end)
    ensures UnitAt(c, p, end).Some?
  {
  }

  /** Of the literals that are accepted, exactly the sound ones conform. */
  lemma {:induction false} AcceptedStrictIff(c: Text, p: nat, end: nat)
    requires p <= end < |c| && ClosingQuote(c, p) == Some(end) && Decode(c, p, end).Some?
    ensures Strict(c, p, end) <==> Sound(c, p, end)
    decreases end - p
  {
    hide WellFormed, At, Spelling, DecodeTurn, Meaning;
    if p < end {
      if UnitAt(c, p, end).Some? {
        UnitGoesOn(c, p, end);
        AcceptedStrictIff(c, p + |Spelling(UnitAt(c, p, end).value)|, end);
      } else if Sound(c, p, end) {
        SoundTurn(c, p, end);
      }
    }
  }

  lemma UnitGoesOn(c: Text, p: nat, end: nat)
    requires p < end < |c| && UnitAt(c, p, end).Some? && ClosingQuote(c, p) == Some(end) && Decode(c, p, end).Some?
    ensures var next := p + |Spelling(UnitAt(c, p, end).value)|;
            && p < next <= end && ClosingQuote(c, next) == Some(end) && Decode(c, next, end).Some?
            && (Sound(c, p, end) <==> Sound(c, next, end))
  {
    hide UnitAt, ClosingQuote, At, WellFormed, DecodeTurn, Sound, Meaning;
    var u := UnitAt(c, p, end).value;
    UnitStands(c, p, end);
    ScanUnit(c, p, u);
    TurnOfUnit(c, p, end, u);
    UnitIsSound(c, p, end, u);
  }

  /** An accepted literal is one of section 7 of RFC 8259 if and only if it is sound. */
  lemma AcceptedConformsIff(c: Text, off: nat)
    requires off < |c| && StringLiteral(c, off).Ok?
    ensures var end := StringLiteral(c, off).next - 1;
            && off + 1 <= end < |c|
            && ((exists us :: AllWellFormed(us) && At(c, off + 1, Spell(us)) && |Spell(us)| == end - off - 1)
                <==> Sound(c, off + 1, end))
  {
    hide AllWellFormed, Spell, Strict, At, UnitsFrom, Sound;
    var end := StringLiteral(c, off).next - 1;
    ConformsIff(c, off, end);
    AcceptedStrictIff(c, off + 1, end);
  }

  /** There are accepted literals that do not conform, of both kinds: a `\u` with four bytes that are no hexadecimal
      number, read as a NUL byte, and a bare control byte, read as itself. */
  lemma LaxLiterals(h: Text, b: byte)
    requires |h| == 4 && !FourHex(h) && forall i :: 0 <= i < 4 ==> h[i] != QUOTE && h[i] != BACKSLASH
    requires b < 0x20
    ensures var c := [QUOTE, BACKSLASH, LOWER_U] + h + [QUOTE]; StringLiteral(c, 0) == Ok([NUL], 8) && !Sound(c, 1, 7)
    ensures StringLiteral([QUOTE, b, QUOTE], 0) == Ok([b], 3) && !Sound([QUOTE, b, QUOTE], 1, 2)
  {
    BrokenEscapeAccepted(h);
    var c := [QUOTE, b, QUOTE];
    assert ClosingQuote(c, 1) == ClosingQuote(c, 2) == Some(2);
    assert Decode(c, 2, 2) == Some([]) && [b] + [] == [b];
    assert DecodeTurn(c, 1, 2) == Go([b], 2) && Decode(c, 1, 2) == Some([b]);
  }

  lemma BrokenEscapeAccepted(h: Text)
    requires |h| == 4 && !FourHex(h) && forall i :: 0 <= i < 4 ==> h[i] != QUOTE && h[i] != BACKSLASH
    ensures var c := [QUOTE, BACKSLASH, LOWER_U] + h + [QUOTE]; StringLiteral(c, 0) == Ok([NUL], 8) && !Sound(c, 1, 7)
  {
    var c := [QUOTE, BACKSLASH, LOWER_U] + h + [QUOTE];
    assert c[3..7] == h;
    assert forall i :: 3 <= i < 7 ==> c[i] == h[i - 3];
    assert ClosingQuote(c, 6) == ClosingQuote(c, 7) == Some(7);
    assert ClosingQuote(c, 5) == ClosingQuote(c, 6);
    assert ClosingQuote(c, 4) == ClosingQuote(c, 5);
    assert ClosingQuote(c, 3) == ClosingQuote(c, 4);
    assert ClosingQuote(c, 1) == ClosingQuote(c, 3);
    assert Hex4(c, 3) == 0 && Utf16Literal(c, 1, 7) == Decoded(6, 0);
    assert DecodeTurn(c, 1, 7) == Go([NUL], 7);
    assert Decode(c, 7, 7) == Some([]) && [NUL] + [] == [NUL];
    assert Decode(c, 1, 7) == Some([NUL]);
  }
}

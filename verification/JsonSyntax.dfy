/** The syntax that the reader accepts, as trees that spell a text and stand for a value, and the proof that the reader
    accepts exactly what they spell. */
module JsonSyntax {
  import opened Bytes
  import opened JsonString
  import opened JsonText
  import opened JsonGrammar

  // --------------------------------------------------------------------- numbers

  datatype Exponent = Exponent(letter: byte, sign: Option<byte>, digits: Text)

  /** A number as it may be written: `fraction` is what stands behind the point, if there is one. */
  datatype Num = Num(minus: bool, whole: Text, fraction: Option<Text>, exponent: Option<Exponent>)

  /** Beyond section 6 of RFC 8259, leading zeros are accepted, and a point without digits on one side of it; without
      digits in front of it only behind a sign. */
  predicate NumOk(n: Num) {
    && AllDigits(n.whole) && (n.fraction.Some? ==> AllDigits(n.fraction.value))
    && (n.whole != [] || (n.minus && n.fraction.Some? && n.fraction.value != []))
    && (n.exponent.Some? ==> ExponentOk(n.exponent.value))
    && |SpellNum(n)| <= 63
  }

  predicate ExponentOk(e: Exponent) {
    && (e.letter == UPPER_E || e.letter == LOWER_E)
    && (e.sign.Some? ==> e.sign.value == PLUS || e.sign.value == MINUS)
    && e.digits != [] && AllDigits(e.digits)
  }

  function Sign(minus: bool): Text { if minus then [MINUS] else [] }

  function SpellFraction(f: Option<Text>): Text {
    if f.Some? then [DOT] + f.value else []
  }

  function SpellExponent(e: Option<Exponent>): Text {
    if e.None? then []
    else [e.value.letter] + (if e.value.sign.Some? then [e.value.sign.value] else []) + e.value.digits
  }

  function SpellNum(n: Num): Text {
    Sign(n.minus) + n.whole + SpellFraction(n.fraction) + SpellExponent(n.exponent)
  }

  /** The run of digits from `p` is `t`, when no digit follows it. */
  lemma {:induction false} DigitsRun(c: Text, p: nat, t: Text)
    requires At(c, p, t) && AllDigits(t) && (p + |t| == |c| || !IsDigit(c[p + |t|]))
    ensures DigitsEnd(c, p) == p + |t|
    decreases |t|
  {
    if t != [] {
      AtSplit(c, p, [t[0]], t[1..]);
      assert t == [t[0]] + t[1..];
      AtByte(c, p, t, 0);
      DigitsRun(c, p + 1, t[1..]);
    }
  }

  /** And what it passes are digits. */
  lemma {:induction false} DigitsPassed(c: Text, p: nat)
    requires p <= |c|
    ensures AllDigits(c[p..DigitsEnd(c, p)]) && (DigitsEnd(c, p) == |c| || !IsDigit(c[DigitsEnd(c, p)]))
    decreases |c| - p
  {
    if p < |c| && IsDigit(c[p]) {
      DigitsPassed(c, p + 1);
      assert c[p..DigitsEnd(c, p)] == [c[p]] + c[p + 1..DigitsEnd(c, p)];
    }
  }

  /** Where the parts of a number stand. */
  lemma NumParts(n: Num)
    requires NumOk(n)
    ensures var t, a := SpellNum(n), |Sign(n.minus)|;
            var b := a + |n.whole|;
            var c := b + |SpellFraction(n.fraction)|;
            && At(t, 0, Sign(n.minus)) && At(t, a, n.whole) && At(t, b, SpellFraction(n.fraction))
            && At(t, c, SpellExponent(n.exponent)) && |t| == c + |SpellExponent(n.exponent)|
  {
    var t := SpellNum(n);
    var sign, fraction, exponent := Sign(n.minus), SpellFraction(n.fraction), SpellExponent(n.exponent);
    assert t == sign + n.whole + fraction + exponent && At(t, 0, t);
    AtSplit(t, 0, sign + n.whole + fraction, exponent);
    AtSplit(t, 0, sign + n.whole, fraction);
    AtSplit(t, 0, sign, n.whole);
  }

  /** The digits in front of the point end where they should. */
  lemma WholeEnds(n: Num)
    requires NumOk(n)
    ensures var t, first := SpellNum(n), |Sign(n.minus)|;
            var whole := first + |n.whole|;
            && whole <= |t| && DigitsEnd(t, first) == whole
            && (n.whole != [] ==> IsDigit(t[first])) && (n.minus ==> t[0] == MINUS)
            && (n.fraction.Some? <==> whole < |t| && t[whole] == DOT)
  {
    hide SpellNum;
    NumParts(n);
    var t, first := SpellNum(n), |Sign(n.minus)|;
    var whole := first + |n.whole|;
    if n.fraction.Some? {
      AtByte(t, whole, SpellFraction(n.fraction), 0);
    } else if n.exponent.Some? {
      AtByte(t, whole, SpellExponent(n.exponent), 0);
    }
    if n.minus {
      AtByte(t, 0, Sign(n.minus), 0);
    }
    if n.whole != [] {
      AtByte(t, first, n.whole, 0);
    }
    DigitsRun(t, first, n.whole);
  }

  lemma FractionEnds(n: Num)
    requires NumOk(n)
    ensures var t, whole := SpellNum(n), |Sign(n.minus)| + |n.whole|;
            var mantissa := whole + |SpellFraction(n.fraction)|;
            && mantissa <= |t| && (n.fraction.Some? ==> DigitsEnd(t, whole + 1) == mantissa)
            && (n.exponent.Some? ==> mantissa < |t| && t[mantissa] == n.exponent.value.letter)
            && (n.exponent.None? ==> mantissa == |t|)
  {
    hide SpellNum;
    NumParts(n);
    var t, whole := SpellNum(n), |Sign(n.minus)| + |n.whole|;
    var mantissa := whole + |SpellFraction(n.fraction)|;
    if n.exponent.Some? {
      AtByte(t, mantissa, SpellExponent(n.exponent), 0);
    }
    if n.fraction.Some? {
      AtSplit(t, whole, [DOT], n.fraction.value);
      DigitsRun(t, whole + 1, n.fraction.value);
    }
  }

  lemma ExponentEnds(n: Num)
    requires NumOk(n) && n.exponent.Some?
    ensures var t, mantissa := SpellNum(n), |Sign(n.minus)| + |n.whole| + |SpellFraction(n.fraction)|;
            var digits := if mantissa + 1 < |t| && IsSign(t[mantissa + 1]) then mantissa + 2 else mantissa + 1;
            digits < |t| && DigitsEnd(t, digits) == |t|
  {
    hide SpellNum, SpellExponent, DigitsEnd, At, AllDigits;
    NumParts(n);
    ExponentRun(SpellNum(n), |Sign(n.minus)| + |n.whole| + |SpellFraction(n.fraction)|, n.exponent.value);
  }

  lemma ExponentRun(t: Text, p: nat, e: Exponent)
    requires ExponentOk(e) && At(t, p, SpellExponent(Some(e))) && |t| == p + |SpellExponent(Some(e))|
    ensures var digits := if p + 1 < |t| && IsSign(t[p + 1]) then p + 2 else p + 1;
            digits < |t| && DigitsEnd(t, digits) == |t|
  {
    hide At;
    var mark := if e.sign.Some? then [e.sign.value] else [];
    AtSplit(t, p, [e.letter] + mark, e.digits);
    AtSplit(t, p, [e.letter], mark);
    if mark != [] {
      AtByte(t, p + 1, mark, 0);
    }
    AtByte(t, p + 1 + |mark|, e.digits, 0);
    DigitsRun(t, p + 1 + |mark|, e.digits);
  }

  /** The text of a number is converted whole. */
  lemma NumConverts(n: Num)
    requires NumOk(n)
    ensures StrtodLength(SpellNum(n)) == |SpellNum(n)| > 0
    ensures SpellNum(n)[0] == MINUS || IsDigit(SpellNum(n)[0])
  {
    hide SpellNum, DigitsEnd, SpellExponent;
    WholeEnds(n);
    FractionEnds(n);
    if n.exponent.Some? {
      ExponentEnds(n);
    }
  }

  /** All its bytes are bytes of numbers. */
  lemma NumBytes(n: Num)
    requires NumOk(n)
    ensures forall i :: 0 <= i < |SpellNum(n)| ==> NumberByte(SpellNum(n)[i])
  {
  }

  /** The part of a converted number in front of its exponent. */
  lemma MantissaRead(t: Text) returns (n: Num, p: nat)
    requires StrtodLength(t) > 0 && (t[0] == MINUS || IsDigit(t[0]))
    ensures n.exponent == None && p <= |t| && SpellNum(n) == t[..p]
    ensures AllDigits(n.whole) && (n.fraction.Some? ==> AllDigits(n.fraction.value))
    ensures n.whole != [] || (n.minus && n.fraction.Some? && n.fraction.value != [])
    ensures StrtodLength(t) != p ==>
              && p < |t| && (t[p] == LOWER_E || t[p] == UPPER_E)
              && var from := if p + 1 < |t| && IsSign(t[p + 1]) then p + 2 else p + 1;
                 StrtodLength(t) == DigitsEnd(t, from) > from
  {
    hide AllDigits, DigitsEnd, StrtodLength;
    var first := if t[0] == MINUS then 1 else 0;
    var whole := DigitsEnd(t, first);
    DigitsPassed(t, first);
    var pointed := whole < |t| && t[whole] == DOT;
    p := if pointed then DigitsEnd(t, whole + 1) else whole;
    Conversion(t, first, whole, p);
    if pointed {
      DigitsPassed(t, whole + 1);
    }
    n := Num(first == 1, t[first..whole], if pointed then Some(t[whole + 1..p]) else None, None);
    Pieces(t, first, whole, p, n);
  }

  /** The conversion in terms of its parts. */
  lemma Conversion(t: Text, first: nat, whole: nat, mantissa: nat)
    requires StrtodLength(t) > 0 && (t[0] == MINUS || IsDigit(t[0])) && first == (if t[0] == MINUS then 1 else 0)
    requires whole == DigitsEnd(t, first)
    requires mantissa == if whole < |t| && t[whole] == DOT then DigitsEnd(t, whole + 1) else whole
    ensures first == 0 ==> whole > 0
    ensures whole > first || mantissa > whole + 1
    ensures StrtodLength(t) != mantissa ==>
              && mantissa < |t| && (t[mantissa] == LOWER_E || t[mantissa] == UPPER_E)
              && var from := if mantissa + 1 < |t| && IsSign(t[mantissa + 1]) then mantissa + 2 else mantissa + 1;
                 StrtodLength(t) == DigitsEnd(t, from) > from
  {
    if first == 0 {
      assert DigitsEnd(t, 0) == DigitsEnd(t, 1);
    }
  }

  /** The number that is converted at the start of a text. */
  lemma NumRead(t: Text) returns (n: Num)
    requires 0 < StrtodLength(t) <= 63 && (t[0] == MINUS || IsDigit(t[0]))
    ensures NumOk(n) && SpellNum(n) == t[..StrtodLength(t)]
  {
    hide DigitsEnd, AllDigits, SpellExponent, StrtodLength, SpellNum, ExponentOk;
    var p: nat;
    n, p := MantissaRead(t);
    if StrtodLength(t) != p {
      var e := ExponentRead(t, p, StrtodLength(t));
      WithExponent(n, e);
      n := n.(exponent := Some(e));
      assert t[..p] + t[p..StrtodLength(t)] == t[..StrtodLength(t)];
    }
  }

  lemma WithExponent(n: Num, e: Exponent)
    requires n.exponent == None
    ensures SpellNum(n.(exponent := Some(e))) == SpellNum(n) + SpellExponent(Some(e))
  {
  }

  lemma ExponentRead(t: Text, p: nat, end: nat) returns (e: Exponent)
    requires p < |t| && (t[p] == LOWER_E || t[p] == UPPER_E)
    requires var from := if p + 1 < |t| && IsSign(t[p + 1]) then p + 2 else p + 1;
             from <= |t| && end == DigitsEnd(t, from) > from
    ensures p <= end <= |t| && ExponentOk(e) && SpellExponent(Some(e)) == t[p..end]
  {
    var signed := p + 1 < |t| && IsSign(t[p + 1]);
    var from := if signed then p + 2 else p + 1;
    hide AllDigits, DigitsEnd;
    DigitsPassed(t, from);
    e := Exponent(t[p], if signed then Some(t[p + 1]) else None, t[from..end]);
    if signed {
      assert t[p..end] == [t[p]] + [t[p + 1]] + t[from..end];
    } else {
      assert t[p..end] == [t[p]] + [] + t[from..end];
    }
  }

  lemma Pieces(t: Text, first: nat, whole: nat, mantissa: nat, n: Num)
    requires first <= whole <= mantissa <= |t| && first <= 1 && n.minus == (first == 1) && (first == 1 ==> t[0] == MINUS)
    requires n.whole == t[first..whole] && n.exponent == None
    requires if n.fraction.Some? then whole < mantissa && t[whole] == DOT && n.fraction.value == t[whole + 1..mantissa]
             else mantissa == whole
    ensures SpellNum(n) == Sign(n.minus) + n.whole + SpellFraction(n.fraction) == t[..mantissa]
  {
    assert Sign(n.minus) == t[..first] && SpellFraction(n.fraction) == t[whole..mantissa];
    assert t[..first] + t[first..whole] + t[whole..mantissa] == t[..mantissa];
  }

  // --------------------------------------------------------------------- strings

  /** A text that is one string literal and nothing else, as the reader takes it. */
  predicate IsLiteral(t: Text) {
    t != [] && StringLiteral(t, 0).Ok? && StringLiteral(t, 0).next == |t|
  }

  function LiteralValue(t: Text): Text
    requires IsLiteral(t)
  {
    StringLiteral(t, 0).value
  }

  lemma {:induction false} QuoteShift(c: Text, off: nat, t: Text, p: nat)
    requires At(c, off, t) && p <= |t|
    ensures ClosingQuote(t, p).Some? ==> ClosingQuote(c, off + p) == Some(off + ClosingQuote(t, p).value)
    ensures var q := ClosingQuote(c, off + p); q.Some? && q.value < off + |t| ==> ClosingQuote(t, p) == Some(q.value - off)
    decreases |t| - p
  {
    if p < |t| {
      AtByte(c, off, t, p);
      if t[p] == BACKSLASH && p + 2 <= |t| {
        QuoteShift(c, off, t, p + 2);
      } else if t[p] != BACKSLASH {
        QuoteShift(c, off, t, p + 1);
      }
    }
  }

  lemma SliceShift(c: Text, off: nat, t: Text, p: nat, n: nat)
    requires At(c, off, t) && p + n <= |t|
    ensures c[off + p..off + p + n] == t[p..p + n]
  {
    forall k | p <= k < p + n ensures c[off + k] == t[k] {
      AtByte(c, off, t, k);
    }
    assert |c[off + p..off + p + n]| == n;
  }

  lemma TurnShift(c: Text, off: nat, t: Text, p: nat, end: nat)
    requires At(c, off, t) && p < end < |t|
    ensures var turn := DecodeTurn(t, p, end);
            DecodeTurn(c, off + p, off + end) == if turn.Stop? then Stop else Go(turn.out, off + turn.next)
  {
    hide At, Utf16Literal, Utf8, SimpleEscape;
    AtFits(c, off, t);
    AtByte(c, off, t, p);
    AtByte(c, off, t, p + 1);
    Utf16Shift(c, off, t, p, end);
  }

  lemma Utf16Shift(c: Text, off: nat, t: Text, p: nat, end: nat)
    requires At(c, off, t) && p < end < |t| && off + |t| <= |c|
    ensures Utf16Literal(c, off + p, off + end) == Utf16Literal(t, p, end)
  {
    hide At, FourHex, HexNumber, Combine;
    if end - p >= 6 {
      SliceShift(c, off, t, p + 2, 4);
    }
    if end - p >= 12 {
      AtByte(c, off, t, p + 6);
      AtByte(c, off, t, p + 7);
      SliceShift(c, off, t, p + 8, 4);
    }
  }

  lemma {:induction false} DecodeShift(c: Text, off: nat, t: Text, p: nat, end: nat)
    requires At(c, off, t) && p <= end + 1 && end < |t|
    ensures Decode(c, off + p, off + end) == Decode(t, p, end)
    decreases end + 1 - p
  {
    hide DecodeTurn, At;
    assert off + |t| <= |c| by { AtFits(c, off, t); }
    if p < end {
      TurnShift(c, off, t, p, end);
      var turn := DecodeTurn(t, p, end);
      if turn.Go? {
        TurnMoves(t, p, end);
        DecodeShift(c, off, t, turn.next, end);
      }
    }
  }

  lemma AtFits(c: Text, off: nat, t: Text)
    requires At(c, off, t)
    ensures off + |t| <= |c|
  {
  }

  /** What a literal is does not depend on what stands around it. */
  lemma LiteralShift(c: Text, off: nat, t: Text)
    requires At(c, off, t) && t != []
    ensures IsLiteral(t) <==> StringLiteral(c, off).Ok? && StringLiteral(c, off).next == off + |t|
    ensures IsLiteral(t) ==> StringLiteral(c, off) == Ok(LiteralValue(t), off + |t|)
  {
    hide At, Decode, ClosingQuote;
    AtFits(c, off, t);
    AtByte(c, off, t, 0);
    QuoteShift(c, off, t, 1);
    var q := ClosingQuote(t, 1);
    if q.Some? {
      DecodeShift(c, off, t, 1, q.value);
    }
  }

  // ----------------------------------------------------------------------- trees

  /** Space between the parts: any bytes up to 32, the NUL that ends the text apart. */
  predicate IsBlank(t: Text) {
    forall i :: 0 <= i < |t| ==> 0 < t[i] <= 32
  }

  /** A value as it is written. `open` is the space behind the opening bracket. */
  datatype Tree =
    | NullTree
    | BoolTree(b: bool)
    | NumberTree(n: Num)
    | StringTree(literal: Text)
    | ArrayTree(open: Text, items: seq<Piece>)
    | ObjectTree(open: Text, entries: seq<Entry>)

  /** A value with the space around it. */
  datatype Piece = Piece(before: Text, tree: Tree, after: Text)

  /** A member: its key with the space around it, and its value with the space around that. */
  datatype Entry = Entry(before: Text, key: Text, after: Text, piece: Piece)

  predicate TreeOk(t: Tree) {
    match t
    case NumberTree(n) => NumOk(n)
    case StringTree(literal) => IsLiteral(literal)
    case ArrayTree(open, items) => IsBlank(open) && forall i :: 0 <= i < |items| ==> PieceOk(items[i])
    case ObjectTree(open, entries) => IsBlank(open) && forall i :: 0 <= i < |entries| ==> EntryOk(entries[i])
    case _ => true
  }

  predicate PieceOk(p: Piece) {
    IsBlank(p.before) && IsBlank(p.after) && TreeOk(p.tree)
  }

  predicate EntryOk(e: Entry) {
    IsBlank(e.before) && IsLiteral(e.key) && IsBlank(e.after) && PieceOk(e.piece)
  }

  function Spelled(t: Tree): Text
    decreases t, 1
  {
    match t
    case NullTree => Ascii("null")
    case BoolTree(b) => Ascii(if b then "true" else "false")
    case NumberTree(n) => SpellNum(n)
    case StringTree(literal) => literal
    case ArrayTree(open, items) => Ascii("[") + open + SpelledItems(items)
    case ObjectTree(open, entries) => Ascii("{") + open + SpelledEntries(entries)
  }

  /** The elements still to come, commas between them, and the closing bracket. */
  function SpelledItems(items: seq<Piece>): Text
    decreases items, 0
  {
    if items == [] then Ascii("]")
    else if |items| == 1 then SpelledPiece(items[0]) + Ascii("]")
    else SpelledPiece(items[0]) + Ascii(",") + SpelledItems(items[1..])
  }

  function SpelledPiece(p: Piece): Text
    decreases p, 2
  {
    p.before + Spelled(p.tree) + p.after
  }

  function SpelledEntries(entries: seq<Entry>): Text
    decreases entries, 0
  {
    if entries == [] then Ascii("}")
    else if |entries| == 1 then SpelledEntry(entries[0]) + Ascii("}")
    else SpelledEntry(entries[0]) + Ascii(",") + SpelledEntries(entries[1..])
  }

  function SpelledEntry(e: Entry): Text
    decreases e, 3
  {
    e.before + e.key + e.after + Ascii(":") + SpelledPiece(e.piece)
  }

  /** The value that a tree stands for. */
  function Meant(t: Tree): Json
    requires TreeOk(t)
  {
    match t
    case NullTree => Null
    case BoolTree(b) => Bool(b)
    case NumberTree(n) => NumberOf(SpellNum(n))
    case StringTree(literal) => String(LiteralValue(literal))
    case ArrayTree(_, items) => Array(MeantItems(items))
    case ObjectTree(_, entries) => Object(MeantEntries(entries))
  }

  function MeantItems(items: seq<Piece>): (vs: seq<Json>)
    requires forall i :: 0 <= i < |items| ==> PieceOk(items[i])
    ensures |vs| == |items|
  {
    if items == [] then []
    else
      assert PieceOk(items[0]);
      [Meant(items[0].tree)] + MeantItems(items[1..])
  }

  function MeantEntries(entries: seq<Entry>): (ms: seq<Member>)
    requires forall i :: 0 <= i < |entries| ==> EntryOk(entries[i])
    ensures |ms| == |entries|
  {
    if entries == [] then []
    else
      assert EntryOk(entries[0]) && PieceOk(entries[0].piece);
      [Member(LiteralValue(entries[0].key), Meant(entries[0].piece.tree))] + MeantEntries(entries[1..])
  }

  // ------------------------------------------------------------- what is spelled is read

  lemma Words()
    ensures Ascii("null") == NULL_TEXT && Ascii("true") == TRUE_TEXT && Ascii("false") == FALSE_TEXT
    ensures Ascii("[") == [OPEN_BRACKET] && Ascii("]") == [CLOSE_BRACKET]
    ensures Ascii("{") == [OPEN_BRACE] && Ascii("}") == [CLOSE_BRACE] && Ascii(",") == [COMMA] && Ascii(":") == [COLON]
  {
  }

  /** A value starts with a byte that is neither blank nor a closing bracket. */
  lemma TreeHead(t: Tree)
    requires TreeOk(t)
    ensures Spelled(t) != [] && Spelled(t)[0] > 32 && Spelled(t)[0] != CLOSE_BRACKET && Spelled(t)[0] != CLOSE_BRACE
    ensures Spelled(t)[0] != 0xEF
  {
    hide SpelledItems, SpelledEntries, StrtodLength, SpellNum;
    Words();
    if t.NumberTree? {
      NumConverts(t.n);
    }
  }

  /** Space is passed up to the next byte. */
  lemma BlankPassed(c: Text, p: nat, blank: Text)
    requires At(c, p, blank) && IsBlank(blank) && p + |blank| < |c| && c[p + |blank|] > 32
    ensures SkipBlank(c, p) == p + |blank|
    ensures blank != [] ==> c[p] <= 32
  {
    forall i | p <= i < p + |blank| ensures c[i] <= 32 {
      AtByte(c, p, blank, i - p);
    }
    SkipBlankRun(c, p, |blank|);
  }

  /** Space in two pieces is passed like space in one. */
  lemma BlankSplit(c: Text, p: nat, first: Text, end: nat)
    requires At(c, p, first) && IsBlank(first) && p + |first| <= end < |c| && SkipBlank(c, p + |first|) == end
    ensures SkipBlank(c, p) == end
  {
    forall i | p <= i < p + |first| ensures c[i] <= 32 {
      AtByte(c, p, first, i - p);
    }
    SkipBlankRun(c, p, |first|);
  }

  /** Where the parts of a value with its space stand, and that no number byte is behind the value. */
  lemma PieceParts(c: Text, p: nat, piece: Piece)
    requires PieceOk(piece) && At(c, p, SpelledPiece(piece))
    requires p + |SpelledPiece(piece)| < |c| && c[p + |SpelledPiece(piece)|] in [COMMA, CLOSE_BRACKET, CLOSE_BRACE]
    ensures var a := p + |piece.before|;
            var b := a + |Spelled(piece.tree)|;
            && At(c, p, piece.before) && At(c, a, Spelled(piece.tree)) && b < |c| && !NumberByte(c[b])
            && SkipBlank(c, p) == a < |c| && c[a] > 32 && c[a] != CLOSE_BRACKET && c[a] != CLOSE_BRACE
            && SkipBlank(c, b) == p + |SpelledPiece(piece)|
  {
    hide At, Spelled;
    var a := p + |piece.before|;
    var b := a + |Spelled(piece.tree)|;
    AtSplit(c, p, piece.before + Spelled(piece.tree), piece.after);
    AtSplit(c, p, piece.before, Spelled(piece.tree));
    TreeHead(piece.tree);
    AtByte(c, a, Spelled(piece.tree), 0);
    BlankPassed(c, p, piece.before);
    BlankPassed(c, b, piece.after);
  }

  /** Where the next element stands, and what is behind it. */
  lemma ItemParts(c: Text, p: nat, items: seq<Piece>)
    requires items != [] && At(c, p, SpelledItems(items))
    ensures At(c, p, SpelledPiece(items[0]))
    ensures var e := p + |SpelledPiece(items[0])|;
            && e < |c|
            && if |items| == 1 then c[e] == CLOSE_BRACKET && |SpelledItems(items)| == |SpelledPiece(items[0])| + 1
               else && c[e] == COMMA && At(c, e + 1, SpelledItems(items[1..]))
                    && |SpelledItems(items)| == |SpelledPiece(items[0])| + 1 + |SpelledItems(items[1..])|
  {
    hide At, SpelledPiece;
    var text := SpelledPiece(items[0]);
    Words();
    if |items| == 1 {
      AtSplit(c, p, text, [CLOSE_BRACKET]);
      AtFirst(c, p + |text|, [CLOSE_BRACKET]);
    } else {
      AtSplit(c, p, text + [COMMA], SpelledItems(items[1..]));
      AtSplit(c, p, text, [COMMA]);
      AtFirst(c, p + |text|, [COMMA]);
    }
  }

  /** A value that is spelled somewhere, with no number byte behind it, is read as what it means, and exactly its text is
      passed; one that nests too deep is refused. */
  lemma {:induction false} TreeRead(t: Tree, c: Text, off: nat, depth: nat)
    requires TreeOk(t) && depth <= NESTING_LIMIT && Stands(c, off, Spelled(t))
    ensures ValueAt(c, off, depth)
         == if NestsWithin(Meant(t), NESTING_LIMIT - depth) then Ok(Meant(t), off + |Spelled(t)|) else Fail
    decreases t, 1
  {
    hide StrtodLength, SpellNum, NumberOf, StringLiteral, NumberAt, SkipBlank, IsLiteral, LiteralValue;
    TreeHead(t);
    Literals(c, off);
    AtByte(c, off, Spelled(t), 0);
    Words();
    match t
    case NullTree =>
    case BoolTree(_) =>
    case NumberTree(n) =>
      NumConverts(n);
      NumBytes(n);
      NumberRoundTrip(c, off, SpellNum(n));
      NumberNests(SpellNum(n), NESTING_LIMIT - depth);
    case StringTree(literal) =>
      LiteralQuoted(literal);
      LiteralShift(c, off, literal);
    case ArrayTree(open, items) => ArrayRead(open, items, c, off, depth);
    case ObjectTree(open, entries) => ObjectRead(open, entries, c, off, depth);
  }

  lemma NumberNests(t: Text, limit: nat)
    ensures NestsWithin(NumberOf(t), limit)
  {
  }

  lemma {:induction false} ArrayRead(open: Text, items: seq<Piece>, c: Text, off: nat, depth: nat)
    requires TreeOk(ArrayTree(open, items)) && depth <= NESTING_LIMIT
    requires Stands(c, off, Spelled(ArrayTree(open, items)))
    ensures ValueAt(c, off, depth)
         == if NestsWithin(Array(MeantItems(items)), NESTING_LIMIT - depth)
            then Ok(Array(MeantItems(items)), off + |Spelled(ArrayTree(open, items))|) else Fail
    decreases items, 3
  {
    hide At, ValueAt, ElementsAt, SpelledItems, SkipBlank, IsBlank, PieceOk;
    Words();
    var rest := SpelledItems(items);
    var p := off + 1 + |open|;
    AtSplit(c, off, [OPEN_BRACKET] + open, rest);
    AtSplit(c, off, [OPEN_BRACKET], open);
    AtFirst(c, off, [OPEN_BRACKET]);
    AtContainer(c, off, depth);
    if depth < NESTING_LIMIT {
      AtBracket(c, off, depth);
      if items == [] {
        NoItems(items);
        AtFirst(c, p, [CLOSE_BRACKET]);
        BlankPassed(c, off + 1, open);
      } else {
        assert PieceOk(items[0]);
        ItemParts(c, p, items);
        PieceParts(c, p, items[0]);
        BlankSplit(c, off + 1, open, p + |items[0].before|);
        SkipStays(c, p + |items[0].before|);
        ItemsRead(items, c, p + |items[0].before| - 1, p, depth + 1);
      }
    }
  }

  lemma NoItems(items: seq<Piece>)
    requires items == []
    ensures SpelledItems(items) == [CLOSE_BRACKET] && MeantItems(items) == []
  {
    Words();
  }

  /** The element loop reads the elements still to come, and the closing bracket. */
  lemma {:induction false} ItemsRead(items: seq<Piece>, c: Text, off: nat, p: nat, depth: nat)
    requires items != [] && depth <= NESTING_LIMIT && forall i :: 0 <= i < |items| ==> PieceOk(items[i])
    requires Terminated(c) && At(c, p, SpelledItems(items)) && p + |SpelledItems(items)| < |c|
    requires off + 1 < |c| && SkipBlank(c, off + 1) == p + |items[0].before|
    ensures ElementsAt(c, off, depth)
         == if ItemsNest(MeantItems(items), NESTING_LIMIT - depth)
            then Ok(MeantItems(items), p + |SpelledItems(items)|) else Fail
    decreases items, 2
  {
    hide At, ValueAt, ElementsAt, SpelledItems, Spelled, SpelledPiece, SkipBlank, NestsWithin;
    var piece := items[0];
    assert PieceOk(piece);
    ItemParts(c, p, items);
    PieceParts(c, p, piece);
    var a, e := p + |piece.before|, p + |SpelledPiece(piece)|;
    TreeRead(piece.tree, c, a, depth);
    AfterElement(c, off, depth, ValueAt(c, a, depth));
    ItemsMeant(items, NESTING_LIMIT - depth);
    if |items| > 1 {
      assert PieceOk(items[1]);
      ItemParts(c, e + 1, items[1..]);
      PieceParts(c, e + 1, items[1]);
      ItemsRead(items[1..], c, e, e + 1, depth);
    }
  }

  lemma PiecesJoin(p: Piece, ps: seq<Piece>)
    requires PieceOk(p) && forall i :: 0 <= i < |ps| ==> PieceOk(ps[i])
    ensures TreeOk(p.tree) && forall i :: 0 <= i < |ps| + 1 ==> PieceOk(([p] + ps)[i])
    ensures MeantItems([p] + ps) == [Meant(p.tree)] + MeantItems(ps)
    ensures SpelledItems([p] + ps) == SpelledPiece(p) + if ps == [] then [CLOSE_BRACKET] else [COMMA] + SpelledItems(ps)
  {
    hide SpelledPiece, Meant;
    Words();
    assert ([p] + ps)[1..] == ps;
  }

  lemma ItemsMeant(items: seq<Piece>, limit: nat)
    requires items != [] && forall i :: 0 <= i < |items| ==> PieceOk(items[i])
    ensures TreeOk(items[0].tree) && MeantItems(items) == [Meant(items[0].tree)] + MeantItems(items[1..])
    ensures ItemsNest(MeantItems(items), limit) <==>
              NestsWithin(Meant(items[0].tree), limit) && ItemsNest(MeantItems(items[1..]), limit)
    ensures |items| == 1 ==> MeantItems(items) == [Meant(items[0].tree)]
  {
    hide NestsWithin;
    assert PieceOk(items[0]);
    var vs := MeantItems(items);
    assert vs[0] == Meant(items[0].tree) && vs[1..] == MeantItems(items[1..]);
    assert forall i :: 1 <= i < |vs| ==> vs[i] == vs[1..][i - 1];
    assert forall i :: 0 <= i < |vs| - 1 ==> vs[1..][i] == vs[i + 1];
  }

  /** Where the parts of a member stand. */
  lemma EntryParts(c: Text, p: nat, entry: Entry)
    requires EntryOk(entry) && At(c, p, SpelledEntry(entry))
    ensures var k := p + |entry.before|;
            var a := k + |entry.key|;
            var colon := a + |entry.after|;
            && At(c, k, entry.key) && k < |c| && c[k] == QUOTE && SkipBlank(c, p) == k
            && colon < |c| && c[colon] == COLON && SkipBlank(c, a) == colon
            && At(c, colon + 1, SpelledPiece(entry.piece))
            && |SpelledEntry(entry)| == |entry.before| + |entry.key| + |entry.after| + 1 + |SpelledPiece(entry.piece)|
  {
    hide At, SpelledPiece, StringLiteral;
    Words();
    var before, key, after := entry.before, entry.key, entry.after;
    AtSplit(c, p, before + key + after + [COLON], SpelledPiece(entry.piece));
    AtSplit(c, p, before + key + after, [COLON]);
    AtSplit(c, p, before + key, after);
    AtSplit(c, p, before, key);
    LiteralQuoted(key);
    AtFirst(c, p + |before|, key);
    AtFirst(c, p + |before| + |key| + |after|, [COLON]);
    BlankPassed(c, p, before);
    BlankPassed(c, p + |before| + |key|, after);
  }

  lemma LiteralQuoted(t: Text)
    requires IsLiteral(t)
    ensures |t| >= 2 && t[0] == QUOTE
  {
  }

  /** Where the next member stands, and what is behind it. */
  lemma MemberParts(c: Text, p: nat, entries: seq<Entry>)
    requires entries != [] && At(c, p, SpelledEntries(entries))
    ensures At(c, p, SpelledEntry(entries[0]))
    ensures var e := p + |SpelledEntry(entries[0])|;
            && e < |c|
            && if |entries| == 1 then c[e] == CLOSE_BRACE && |SpelledEntries(entries)| == |SpelledEntry(entries[0])| + 1
               else && c[e] == COMMA && At(c, e + 1, SpelledEntries(entries[1..]))
                    && |SpelledEntries(entries)| == |SpelledEntry(entries[0])| + 1 + |SpelledEntries(entries[1..])|
  {
    hide At, SpelledEntry;
    var text := SpelledEntry(entries[0]);
    Words();
    if |entries| == 1 {
      AtSplit(c, p, text, [CLOSE_BRACE]);
      AtFirst(c, p + |text|, [CLOSE_BRACE]);
    } else {
      AtSplit(c, p, text + [COMMA], SpelledEntries(entries[1..]));
      AtSplit(c, p, text, [COMMA]);
      AtFirst(c, p + |text|, [COMMA]);
    }
  }

  /** One unfolding of the reader at a member. */
  lemma AtMember(c: Text, off: nat, depth: nat, key: Text, k: nat, colon: nat)
    requires Terminated(c) && off + 1 < |c| && StringLiteral(c, SkipBlank(c, off + 1)) == Ok(key, k)
    requires k < |c| && SkipBlank(c, k) == colon && colon + 1 < |c| && c[colon] == COLON
    ensures var v := ValueAt(c, SkipBlank(c, colon + 1), depth);
            MemberAt(c, off, depth) == if v.Fail? then Fail else Ok(Member(key, v.value), v.next)
  {
    hide ValueAt, SkipBlank, StringLiteral;
  }

  /** One member is read: its key, its value, and up to the space behind it. */
  lemma {:induction false} EntryRead(entry: Entry, c: Text, off: nat, p: nat, depth: nat)
    requires EntryOk(entry) && TreeOk(entry.piece.tree) && depth <= NESTING_LIMIT
    requires Terminated(c) && At(c, p, SpelledEntry(entry))
    requires p + |SpelledEntry(entry)| < |c| && c[p + |SpelledEntry(entry)|] in [COMMA, CLOSE_BRACE]
    requires off + 1 < |c| && SkipBlank(c, off + 1) == p + |entry.before|
    ensures var m := MemberAt(c, off, depth);
            if NestsWithin(Meant(entry.piece.tree), NESTING_LIMIT - depth)
            then && m.Ok? && m.value == Member(LiteralValue(entry.key), Meant(entry.piece.tree)) && m.next < |c|
                 && SkipBlank(c, m.next) == p + |SpelledEntry(entry)|
            else m == Fail
    decreases entry, 2
  {
    hide At, ValueAt, MemberAt, SpelledEntry, SpelledPiece, Spelled, SkipBlank, StringLiteral, LiteralValue, NestsWithin;
    EntryParts(c, p, entry);
    var piece := entry.piece;
    var k := p + |entry.before|;
    var a := k + |entry.key|;
    var colon := a + |entry.after|;
    LiteralShift(c, k, entry.key);
    PieceParts(c, colon + 1, piece);
    TreeRead(piece.tree, c, colon + 1 + |piece.before|, depth);
    AtMember(c, off, depth, LiteralValue(entry.key), a, colon);
  }

  lemma {:induction false} ObjectRead(open: Text, entries: seq<Entry>, c: Text, off: nat, depth: nat)
    requires TreeOk(ObjectTree(open, entries)) && depth <= NESTING_LIMIT
    requires Stands(c, off, Spelled(ObjectTree(open, entries)))
    ensures ValueAt(c, off, depth)
         == if NestsWithin(Object(MeantEntries(entries)), NESTING_LIMIT - depth)
            then Ok(Object(MeantEntries(entries)), off + |Spelled(ObjectTree(open, entries))|) else Fail
    decreases entries, 4
  {
    hide At, ValueAt, MembersAt, SpelledEntries, SkipBlank, IsBlank, EntryOk;
    Words();
    var rest := SpelledEntries(entries);
    var p := off + 1 + |open|;
    AtSplit(c, off, [OPEN_BRACE] + open, rest);
    AtSplit(c, off, [OPEN_BRACE], open);
    AtFirst(c, off, [OPEN_BRACE]);
    AtContainer(c, off, depth);
    if depth < NESTING_LIMIT {
      AtBrace(c, off, depth);
      if entries == [] {
        NoEntries(entries);
        AtFirst(c, p, [CLOSE_BRACE]);
        BlankPassed(c, off + 1, open);
      } else {
        assert EntryOk(entries[0]);
        MemberParts(c, p, entries);
        EntryParts(c, p, entries[0]);
        BlankSplit(c, off + 1, open, p + |entries[0].before|);
        SkipStays(c, p + |entries[0].before|);
        EntriesRead(entries, c, p + |entries[0].before| - 1, p, depth + 1);
      }
    }
  }

  lemma NoEntries(entries: seq<Entry>)
    requires entries == []
    ensures SpelledEntries(entries) == [CLOSE_BRACE] && MeantEntries(entries) == []
  {
    Words();
  }

  /** The member loop reads the members still to come, and the closing brace. */
  lemma {:induction false} EntriesRead(entries: seq<Entry>, c: Text, off: nat, p: nat, depth: nat)
    requires entries != [] && depth <= NESTING_LIMIT && forall i :: 0 <= i < |entries| ==> EntryOk(entries[i])
    requires Terminated(c) && At(c, p, SpelledEntries(entries)) && p + |SpelledEntries(entries)| < |c|
    requires off + 1 < |c| && SkipBlank(c, off + 1) == p + |entries[0].before|
    ensures MembersAt(c, off, depth)
         == if MembersNest(MeantEntries(entries), NESTING_LIMIT - depth)
            then Ok(MeantEntries(entries), p + |SpelledEntries(entries)|) else Fail
    decreases entries, 3
  {
    hide At, MemberAt, MembersAt, SpelledEntries, SpelledEntry, SkipBlank, NestsWithin, LiteralValue, IsLiteral, TreeOk;
    hide Meant, IsBlank, MeantEntries;
    var entry := entries[0];
    assert EntryOk(entry);
    MemberParts(c, p, entries);
    var e := p + |SpelledEntry(entry)|;
    EntryRead(entry, c, off, p, depth);
    AfterMember(c, off, depth);
    EntriesMeant(entries, NESTING_LIMIT - depth);
    if |entries| > 1 {
      assert EntryOk(entries[1]);
      MemberParts(c, e + 1, entries[1..]);
      EntryParts(c, e + 1, entries[1]);
      EntriesRead(entries[1..], c, e, e + 1, depth);
    }
  }

  lemma EntriesMeant(entries: seq<Entry>, limit: nat)
    requires entries != [] && forall i :: 0 <= i < |entries| ==> EntryOk(entries[i])
    ensures EntryOk(entries[0]) && TreeOk(entries[0].piece.tree)
    ensures var m := Member(LiteralValue(entries[0].key), Meant(entries[0].piece.tree));
            && MeantEntries(entries) == [m] + MeantEntries(entries[1..])
            && (MembersNest(MeantEntries(entries), limit) <==>
                  NestsWithin(m.value, limit) && MembersNest(MeantEntries(entries[1..]), limit))
            && (|entries| == 1 ==> MeantEntries(entries) == [m])
  {
    hide NestsWithin;
    assert EntryOk(entries[0]) && PieceOk(entries[0].piece);
    var ms := MeantEntries(entries);
    assert ms[1..] == MeantEntries(entries[1..]);
    NestStep(ms, limit);
  }

  lemma NestStep(ms: seq<Member>, limit: nat)
    requires ms != []
    ensures MembersNest(ms, limit) <==> NestsWithin(ms[0].value, limit) && MembersNest(ms[1..], limit)
  {
    hide NestsWithin;
    assert forall i :: 1 <= i < |ms| ==> ms[i].value == ms[1..][i - 1].value;
    assert forall i :: 0 <= i < |ms| - 1 ==> ms[1..][i].value == ms[i + 1].value;
    if NestsWithin(ms[0].value, limit) && MembersNest(ms[1..], limit) {
      forall i | 0 <= i < |ms| ensures NestsWithin(ms[i].value, limit) {
        assert i > 0 ==> NestsWithin(ms[1..][i - 1].value, limit);
      }
    }
  }

  // ------------------------------------------------------------- what is read was spelled

  /** What is passed as space is space. */
  lemma {:induction false} SpacePassed(c: Text, p: nat)
    requires Terminated(c) && p < |c|
    ensures IsBlank(c[p..SkipBlank(c, p)])
    decreases |c| - p
  {
    if c[p] <= 32 && p + 1 < |c| {
      SpacePassed(c, p + 1);
      assert c[p..SkipBlank(c, p)] == [c[p]] + c[p + 1..SkipBlank(c, p)];
    }
  }

  lemma NumberFound(c: Text, off: nat) returns (n: Num)
    requires Terminated(c) && off < |c| && (c[off] == MINUS || IsDigit(c[off])) && NumberAt(c, off).Ok?
    ensures var r := NumberAt(c, off);
            NumOk(n) && r.next <= |c| && SpellNum(n) == c[off..r.next] && r.value == NumberOf(SpellNum(n))
  {
    hide NumOk, SpellNum, NumberOf, StrtodLength;
    var t := c[off..NumberEnd(c, off, NumberLimit(c, off))];
    assert t != [] && t[0] == c[off];
    n := NumRead(t);
    assert t[..StrtodLength(t)] == c[off..off + StrtodLength(t)];
  }

  lemma LiteralFound(c: Text, off: nat)
    requires off < |c| && StringLiteral(c, off).Ok?
    ensures var r := StringLiteral(c, off);
            && off < r.next <= |c| && IsLiteral(c[off..r.next]) && LiteralValue(c[off..r.next]) == r.value
  {
    hide StringLiteral, IsLiteral, LiteralValue;
    LiteralShift(c, off, c[off..StringLiteral(c, off).next]);
  }

  lemma WordFound(c: Text, off: nat, word: Text)
    requires At(c, off, word)
    ensures off + |word| <= |c| && c[off..off + |word|] == word
  {
  }

  /** Whatever is accepted as a value is the text of a tree that means that value and does not nest too deep. */
  lemma {:induction false} TreeFound(c: Text, off: nat, depth: nat) returns (t: Tree)
    requires Terminated(c) && off < |c| && depth <= NESTING_LIMIT && ValueAt(c, off, depth).Ok?
    ensures var r := ValueAt(c, off, depth);
            && TreeOk(t) && Meant(t) == r.value && NestsWithin(r.value, NESTING_LIMIT - depth)
            && off < r.next < |c| && Spelled(t) == c[off..r.next]
    decreases |c| - off, 3
  {
    hide At, NumberAt, NumOk, SpellNum, IsLiteral, LiteralValue, StringLiteral, ElementsAt, MembersAt, SkipBlank;
    Words();
    if At(c, off, NULL_TEXT) {
      WordFound(c, off, NULL_TEXT);
      return NullTree;
    }
    if At(c, off, FALSE_TEXT) {
      WordFound(c, off, FALSE_TEXT);
      return BoolTree(false);
    }
    if At(c, off, TRUE_TEXT) {
      WordFound(c, off, TRUE_TEXT);
      return BoolTree(true);
    }
    if c[off] == QUOTE {
      LiteralFound(c, off);
      return StringTree(c[off..StringLiteral(c, off).next]);
    }
    if c[off] == MINUS || IsDigit(c[off]) {
      var n := NumberFound(c, off);
      NumberNests(SpellNum(n), NESTING_LIMIT - depth);
      return NumberTree(n);
    }
    if c[off] == OPEN_BRACKET {
      t := ArrayFound(c, off, depth);
    } else {
      t := ObjectFound(c, off, depth);
    }
  }

  lemma {:induction false} ArrayFound(c: Text, off: nat, depth: nat) returns (t: Tree)
    requires Terminated(c) && off < |c| && depth <= NESTING_LIMIT && ValueAt(c, off, depth).Ok?
    requires c[off] == OPEN_BRACKET
    ensures var r := ValueAt(c, off, depth);
            && TreeOk(t) && Meant(t) == r.value && NestsWithin(r.value, NESTING_LIMIT - depth)
            && off < r.next < |c| && Spelled(t) == c[off..r.next]
    decreases |c| - off, 2
  {
    hide ValueAt, ElementsAt, SkipBlank, SpelledItems, IsBlank, PieceOk;
    Words();
    AtContainer(c, off, depth);
    AtBracket(c, off, depth);
    SpacePassed(c, off + 1);
    var first := SkipBlank(c, off + 1);
    var open := c[off + 1..first];
    if c[first] == CLOSE_BRACKET {
      NoItems([]);
      t := ArrayTree(open, []);
      assert c[off..first + 1] == [OPEN_BRACKET] + open + [CLOSE_BRACKET];
    } else {
      var items := ItemsFound(c, first - 1, depth + 1);
      t := ArrayTree(open, items);
      var next := ElementsAt(c, first - 1, depth + 1).next;
      assert c[off..next] == [OPEN_BRACKET] + open + c[first..next];
    }
  }

  lemma SlicesMeet(c: Text, i: nat, j: nat, k: nat)
    requires i <= j < k <= |c|
    ensures c[i..k] == c[i..j] + [c[j]] + c[j + 1..k]
    ensures k == j + 1 ==> c[i..k] == c[i..j] + [c[j]]
  {
  }

  /** A value with the space in front of it and behind it. */
  lemma {:induction false} PieceFound(c: Text, from: nat, depth: nat) returns (piece: Piece)
    requires Terminated(c) && from < |c| && depth <= NESTING_LIMIT && ValueAt(c, SkipBlank(c, from), depth).Ok?
    ensures var r := ValueAt(c, SkipBlank(c, from), depth);
            && PieceOk(piece) && TreeOk(piece.tree) && Meant(piece.tree) == r.value && NestsWithin(r.value, NESTING_LIMIT - depth)
            && from < r.next < |c| && SpelledPiece(piece) == c[from..SkipBlank(c, r.next)]
    decreases |c| - from, 4
  {
    hide ValueAt, SkipBlank, Spelled, IsBlank, TreeOk, NestsWithin;
    var a := SkipBlank(c, from);
    SpacePassed(c, from);
    var t := TreeFound(c, a, depth);
    var next := ValueAt(c, a, depth).next;
    SpacePassed(c, next);
    piece := Piece(c[from..a], t, c[next..SkipBlank(c, next)]);
  }

  lemma {:induction false} ItemsFound(c: Text, off: nat, depth: nat) returns (items: seq<Piece>)
    requires Terminated(c) && off + 1 < |c| && depth <= NESTING_LIMIT && ElementsAt(c, off, depth).Ok?
    ensures var r := ElementsAt(c, off, depth);
            && items != [] && (forall i :: 0 <= i < |items| ==> PieceOk(items[i])) && MeantItems(items) == r.value
            && ItemsNest(r.value, NESTING_LIMIT - depth) && off + 1 < r.next < |c| && SpelledItems(items) == c[off + 1..r.next]
    decreases |c| - off, 0
  {
    hide ValueAt, ElementsAt, SkipBlank, SpelledPiece, PieceOk, NestsWithin, SpelledItems, MeantItems, Meant;
    var v := ValueAt(c, SkipBlank(c, off + 1), depth);
    AfterElement(c, off, depth, v);
    var piece := PieceFound(c, off + 1, depth);
    var sep := SkipBlank(c, v.next);
    items := [piece];
    if c[sep] == COMMA {
      var rest := ItemsFound(c, sep, depth);
      PiecesJoin(piece, rest);
      items := [piece] + rest;
      var next := ElementsAt(c, sep, depth).next;
      SlicesMeet(c, off + 1, sep, next);
    } else {
      NoItems([]);
      PiecesJoin(piece, []);
      assert [piece] + [] == [piece];
      SlicesMeet(c, off + 1, sep, sep + 1);
    }
    assert items[1..] == [] || c[sep] == COMMA;
    ItemsMeant(items, NESTING_LIMIT - depth);
  }

  lemma {:induction false} ObjectFound(c: Text, off: nat, depth: nat) returns (t: Tree)
    requires Terminated(c) && off < |c| && depth <= NESTING_LIMIT && ValueAt(c, off, depth).Ok?
    requires c[off] == OPEN_BRACE
    ensures var r := ValueAt(c, off, depth);
            && TreeOk(t) && Meant(t) == r.value && NestsWithin(r.value, NESTING_LIMIT - depth)
            && off < r.next < |c| && Spelled(t) == c[off..r.next]
    decreases |c| - off, 2
  {
    hide ValueAt, MembersAt, SkipBlank, SpelledEntries, IsBlank, EntryOk;
    Words();
    AtContainer(c, off, depth);
    AtBrace(c, off, depth);
    SpacePassed(c, off + 1);
    var first := SkipBlank(c, off + 1);
    var open := c[off + 1..first];
    if c[first] == CLOSE_BRACE {
      NoEntries([]);
      t := ObjectTree(open, []);
      assert c[off..first + 1] == [OPEN_BRACE] + open + [CLOSE_BRACE];
    } else {
      var entries := EntriesFound(c, first - 1, depth + 1);
      t := ObjectTree(open, entries);
      var next := MembersAt(c, first - 1, depth + 1).next;
      assert c[off..next] == [OPEN_BRACE] + open + c[first..next];
    }
  }

  /** A member, with the space in front of it and behind it. */
  lemma {:induction false} EntryFound(c: Text, off: nat, depth: nat) returns (entry: Entry)
    requires Terminated(c) && off + 1 < |c| && depth <= NESTING_LIMIT && MemberAt(c, off, depth).Ok?
    ensures var r := MemberAt(c, off, depth);
            && EntryOk(entry) && TreeOk(entry.piece.tree) && off < r.next < |c|
            && r.value == Member(LiteralValue(entry.key), Meant(entry.piece.tree))
            && NestsWithin(r.value.value, NESTING_LIMIT - depth)
            && off + 1 < SkipBlank(c, r.next) && SpelledEntry(entry) == c[off + 1..SkipBlank(c, r.next)]
    decreases |c| - off, 0
  {
    hide ValueAt, MemberAt, SkipBlank, SpelledEntry, SpelledPiece, PieceOk, StringLiteral, IsLiteral, IsBlank, LiteralValue;
    hide NestsWithin, Meant;
    MemberTaken(c, off, depth);
    var k := SkipBlank(c, off + 1);
    SpacePassed(c, off + 1);
    LiteralFound(c, k);
    var a := StringLiteral(c, k).next;
    var colon := SkipBlank(c, a);
    SpacePassed(c, a);
    var piece := PieceFound(c, colon + 1, depth);
    entry := Entry(c[off + 1..k], c[k..a], c[a..colon], piece);
    EntrySlices(c, off + 1, k, a, colon, SkipBlank(c, MemberAt(c, off, depth).next), entry);
  }

  /** A member that is read has all its parts. */
  lemma MemberTaken(c: Text, off: nat, depth: nat)
    requires Terminated(c) && off + 1 < |c| && MemberAt(c, off, depth).Ok?
    ensures var key := StringLiteral(c, SkipBlank(c, off + 1));
            && key.Ok? && key.next < |c|
            && var colon := SkipBlank(c, key.next);
               && c[colon] == COLON && colon + 1 < |c|
               && var v := ValueAt(c, SkipBlank(c, colon + 1), depth);
                  v.Ok? && MemberAt(c, off, depth) == Ok(Member(key.value, v.value), v.next)
  {
    hide ValueAt, SkipBlank, StringLiteral;
  }

  lemma EntrySlices(c: Text, i: nat, k: nat, a: nat, colon: nat, end: nat, entry: Entry)
    requires i <= k <= a <= colon < end <= |c| && c[colon] == COLON
    requires entry.before == c[i..k] && entry.key == c[k..a] && entry.after == c[a..colon]
    requires SpelledPiece(entry.piece) == c[colon + 1..end]
    ensures SpelledEntry(entry) == c[i..end]
  {
    hide SpelledPiece;
    Words();
    assert c[i..k] + c[k..a] + c[a..colon] == c[i..colon];
    SlicesMeet(c, i, colon, end);
  }

  lemma {:induction false} EntriesFound(c: Text, off: nat, depth: nat) returns (entries: seq<Entry>)
    requires Terminated(c) && off + 1 < |c| && depth <= NESTING_LIMIT && MembersAt(c, off, depth).Ok?
    ensures var r := MembersAt(c, off, depth);
            && entries != [] && (forall i :: 0 <= i < |entries| ==> EntryOk(entries[i])) && MeantEntries(entries) == r.value
            && MembersNest(r.value, NESTING_LIMIT - depth) && off + 1 < r.next < |c|
            && SpelledEntries(entries) == c[off + 1..r.next]
    decreases |c| - off, 1
  {
    hide MemberAt, MembersAt, SkipBlank, SpelledEntry, EntryOk, NestsWithin, LiteralValue;
    Words();
    AfterMember(c, off, depth);
    var m := MemberAt(c, off, depth);
    var sep := SkipBlank(c, m.next);
    var entry := EntryFound(c, off, depth);
    entries := [entry];
    if c[sep] == COMMA {
      var rest := EntriesFound(c, sep, depth);
      entries := [entry] + rest;
      var next := MembersAt(c, sep, depth).next;
      SlicesMeet(c, off + 1, sep, next);
    } else {
      NoEntries([]);
      SlicesMeet(c, off + 1, sep, sep + 1);
    }
    assert entries[1..] == [] || c[sep] == COMMA;
    EntriesMeant(entries, NESTING_LIMIT - depth);
  }

  // ------------------------------------------------------------------- whole texts

  function Mark(marked: bool): Text { if marked then [0xEF, 0xBB, 0xBF] else [] }

  /** Up to `next` the text is a byte order mark perhaps, space, and a tree that means `v`. */
  ghost predicate Spells(c: Text, next: nat, v: Json) {
    next <= |c| && exists marked, blank, t :: SpelledSo(c[..next], marked, blank, t) && Meant(t) == v
  }

  ghost predicate SpelledSo(text: Text, marked: bool, blank: Text, t: Tree) {
    IsBlank(blank) && TreeOk(t) && text == Mark(marked) + blank + Spelled(t)
  }

  /** A text that spells a tree, with no number byte behind it, is read as what the tree means. */
  lemma SpelledIsRead(c: Text, next: nat, marked: bool, blank: Text, t: Tree)
    requires Terminated(c) && next < |c| && !NumberByte(c[next]) && SpelledSo(c[..next], marked, blank, t)
    ensures ParseText(c) == if NestsWithin(Meant(t), NESTING_LIMIT) then Ok(Meant(t), next) else Fail
  {
    hide Spelled, IsBlank, TreeOk, ValueAt;
    var mark := Mark(marked);
    var p := |mark| + |blank|;
    assert At(c, 0, mark + blank + Spelled(t)) by { assert c[0..next] == c[..next]; }
    AtSplit(c, 0, mark + blank, Spelled(t));
    AtSplit(c, 0, mark, blank);
    TreeHead(t);
    AtFirst(c, p, Spelled(t));
    BlankPassed(c, |mark|, blank);
    MarkSeen(c, marked, blank, p);
    TreeRead(t, c, p, 0);
  }

  lemma MarkSeen(c: Text, marked: bool, blank: Text, p: nat)
    requires At(c, 0, Mark(marked)) && At(c, |Mark(marked)|, blank) && IsBlank(blank) && p == |Mark(marked)| + |blank|
    requires p + 1 < |c| && c[p] != 0xEF
    ensures |c| > 4 && At(c, 0, BYTE_ORDER_MARK) <==> marked
  {
    if !marked && At(c, 0, BYTE_ORDER_MARK) {
      AtByte(c, 0, BYTE_ORDER_MARK, 0);
      if blank != [] {
        AtByte(c, 0, blank, 0);
      }
    }
  }

  /** And what is read was spelled so, within the nesting limit. */
  lemma ReadWasSpelled(c: Text)
    requires Terminated(c) && ParseText(c).Ok?
    ensures var r := ParseText(c); r.next < |c| && Spells(c, r.next, r.value) && NestsWithin(r.value, NESTING_LIMIT)
  {
    hide ValueAt, SkipBlank, Spelled, IsBlank, TreeOk, At, NestsWithin, Meant;
    var marked := |c| > 4 && At(c, 0, BYTE_ORDER_MARK);
    var p := |Mark(marked)|;
    SpacePassed(c, p);
    var a := SkipBlank(c, p);
    var t := TreeFound(c, a, 0);
    var next := ValueAt(c, a, 0).next;
    SpelledFrom(c, marked, a, next, t);
  }

  lemma SpelledFrom(c: Text, marked: bool, a: nat, next: nat, t: Tree)
    requires marked ==> At(c, 0, BYTE_ORDER_MARK)
    requires |Mark(marked)| <= a <= next <= |c| && IsBlank(c[|Mark(marked)|..a])
    requires TreeOk(t) && Spelled(t) == c[a..next]
    ensures SpelledSo(c[..next], marked, c[|Mark(marked)|..a], t)
  {
    hide Spelled, IsBlank, TreeOk;
    var p := |Mark(marked)|;
    assert c[..p] == Mark(marked);
    assert c[..next] == c[..p] + c[p..a] + c[a..next];
  }

  /** The reader accepts exactly what the grammar spells, as what it means: no more and no less, whatever the space. */
  lemma ReadIffSpelled(c: Text, next: nat, v: Json)
    requires Terminated(c) && next < |c| && !NumberByte(c[next])
    ensures ParseText(c) == Ok(v, next) <==> Spells(c, next, v) && NestsWithin(v, 1000)
  {
    hide ParseText, NestsWithin, IsBlank, TreeOk, Spelled;
    if ParseText(c) == Ok(v, next) {
      ReadWasSpelled(c);
    }
    if Spells(c, next, v) {
      var marked, blank, t :| SpelledSo(c[..next], marked, blank, t) && Meant(t) == v;
      SpelledIsRead(c, next, marked, blank, t);
    }
  }

  /** A number is cut after 63 bytes: of more digits than that the first 63 are the value, and the rest is left. */
  lemma LongNumberCut(digits: Text)
    requires |digits| > 63 && AllDigits(digits)
    ensures Terminated(digits + [NUL]) && ParseText(digits + [NUL]) == Ok(NumberOf(digits[..63]), 63)
  {
    hide NumberOf;
    var c, n := digits + [NUL], Num(false, digits[..63], None, None);
    assert c[..63] == digits[..63] == SpellNum(n);
    NumConverts(n);
    NumberEndCovers(c, 0, 63, 63);
    assert !At(c, 0, BYTE_ORDER_MARK) by { if At(c, 0, BYTE_ORDER_MARK) { AtByte(c, 0, BYTE_ORDER_MARK, 0); } }
    Literals(c, 0);
    assert digits[..63][..63] == digits[..63];
  }

  // ------------------------------------------------------------------------ conformance

  /** The numbers of section 6 of RFC 8259 that fit. */
  predicate StrictNum(n: Num) {
    && NumOk(n) && n.whole != [] && (|n.whole| > 1 ==> n.whole[0] != DIGIT_0)
    && (n.fraction.Some? ==> n.fraction.value != [])
  }

  /** The strings of its section 7. */
  ghost predicate StrictLiteral(t: Text) {
    exists us :: AllWellFormed(us) && t == [QUOTE] + Spell(us) + [QUOTE]
  }

  /** The space of its section 2. */
  predicate StrictBlank(t: Text) {
    forall i :: 0 <= i < |t| ==> t[i] in [32, 9, 10, 13]
  }

  /** A text of RFC 8259, with numbers of at most 63 bytes. */
  ghost predicate StrictTree(t: Tree) {
    match t
    case NumberTree(n) => StrictNum(n)
    case StringTree(literal) => StrictLiteral(literal)
    case ArrayTree(open, items) =>
      StrictBlank(open) && (items != [] ==> open == []) && forall i :: 0 <= i < |items| ==> StrictPiece(items[i])
    case ObjectTree(open, entries) =>
      StrictBlank(open) && (entries != [] ==> open == []) && forall i :: 0 <= i < |entries| ==> StrictEntry(entries[i])
    case _ => true
  }

  ghost predicate StrictPiece(p: Piece) {
    StrictBlank(p.before) && StrictBlank(p.after) && StrictTree(p.tree)
  }

  ghost predicate StrictEntry(e: Entry) {
    StrictBlank(e.before) && StrictLiteral(e.key) && StrictBlank(e.after) && StrictPiece(e.piece)
  }

  lemma StrictBlankOk(t: Text)
    requires StrictBlank(t)
    ensures IsBlank(t)
  {
  }

  lemma StrictLiteralOk(t: Text, us: seq<Unit>)
    requires AllWellFormed(us) && t == [QUOTE] + Spell(us) + [QUOTE]
    ensures IsLiteral(t) && LiteralValue(t) == Denote(us)
  {
    hide Spell, Denote, AllWellFormed, StringLiteral;
    assert At(t, 0, t);
    LiteralMeaning(t, 0, us);
  }

  /** Every text of RFC 8259 is one that the reader takes. */
  lemma {:induction false} StrictIsOk(t: Tree)
    requires StrictTree(t)
    ensures TreeOk(t)
    decreases t, 0
  {
    hide NumOk, IsLiteral, AllWellFormed, Spell;
    match t
    case StringTree(literal) =>
      var us :| AllWellFormed(us) && literal == [QUOTE] + Spell(us) + [QUOTE];
      StrictLiteralOk(literal, us);
    case ArrayTree(open, items) =>
      StrictBlankOk(open);
      forall i | 0 <= i < |items| ensures PieceOk(items[i]) {
        assert StrictPiece(items[i]);
        StrictPieceIsOk(items[i]);
      }
    case ObjectTree(open, entries) =>
      StrictBlankOk(open);
      forall i | 0 <= i < |entries| ensures EntryOk(entries[i]) {
        assert StrictEntry(entries[i]);
        StrictEntryIsOk(entries[i]);
      }
    case _ =>
  }

  lemma {:induction false} StrictPieceIsOk(p: Piece)
    requires StrictPiece(p)
    ensures PieceOk(p)
    decreases p, 1
  {
    StrictBlankOk(p.before);
    StrictBlankOk(p.after);
    StrictIsOk(p.tree);
  }

  lemma {:induction false} StrictEntryIsOk(e: Entry)
    requires StrictEntry(e)
    ensures EntryOk(e)
    decreases e, 2
  {
    hide IsLiteral, AllWellFormed, Spell;
    var us :| AllWellFormed(us) && e.key == [QUOTE] + Spell(us) + [QUOTE];
    StrictLiteralOk(e.key, us);
    StrictBlankOk(e.before);
    StrictBlankOk(e.after);
    StrictPieceIsOk(e.piece);
  }

  // A conforming text holds no NUL.

  lemma {:induction false} UnitsNulFree(us: seq<Unit>)
    requires AllWellFormed(us)
    ensures NulFree(Spell(us))
    decreases |us|
  {
    hide WellFormed, Spelling;
    if us != [] {
      SpellingNulFree(us[0]);
      UnitsNulFree(us[1..]);
    }
  }

  lemma SpellingNulFree(u: Unit)
    requires WellFormed(u)
    ensures NulFree(Spelling(u))
  {
  }

  lemma NumNulFree(n: Num)
    requires NumOk(n)
    ensures NulFree(SpellNum(n))
  {
    NumBytes(n);
  }

  lemma {:induction false} TreeNulFree(t: Tree)
    requires StrictTree(t)
    ensures NulFree(Spelled(t))
    decreases t, 1
  {
    hide NumOk, SpellNum, Spell, AllWellFormed, SpelledItems, SpelledEntries, StrictPiece, StrictEntry;
    Words();
    match t
    case NumberTree(n) => NumNulFree(n);
    case StringTree(literal) =>
      LiteralNulFree(literal);
    case ArrayTree(open, items) =>
      PiecesNulFree(items);
      NulFreeJoin([OPEN_BRACKET] + open, SpelledItems(items));
    case ObjectTree(open, entries) =>
      EntriesNulFree(entries);
      NulFreeJoin([OPEN_BRACE] + open, SpelledEntries(entries));
    case _ =>
  }

  lemma LiteralNulFree(t: Text)
    requires StrictLiteral(t)
    ensures NulFree(t)
  {
    hide AllWellFormed, Spell;
    var us :| AllWellFormed(us) && t == [QUOTE] + Spell(us) + [QUOTE];
    UnitsNulFree(us);
  }

  lemma {:induction false} PieceNulFree(p: Piece)
    requires StrictPiece(p)
    ensures NulFree(SpelledPiece(p))
    decreases p, 2
  {
    hide Spelled, StrictTree;
    TreeNulFree(p.tree);
  }

  lemma {:induction false} PiecesNulFree(items: seq<Piece>)
    requires forall i :: 0 <= i < |items| ==> StrictPiece(items[i])
    ensures NulFree(SpelledItems(items))
    decreases items, 0
  {
    hide SpelledPiece, StrictPiece;
    Words();
    if items != [] {
      PieceNulFree(items[0]);
      PiecesNulFree(items[1..]);
    }
  }

  lemma {:induction false} EntryNulFree(e: Entry)
    requires StrictEntry(e)
    ensures NulFree(SpelledEntry(e))
    decreases e, 3
  {
    hide SpelledPiece, StrictPiece, StrictLiteral;
    Words();
    LiteralNulFree(e.key);
    PieceNulFree(e.piece);
    NulFreeJoin(e.before, e.key);
    NulFreeJoin(e.before + e.key, e.after);
    NulFreeJoin(e.before + e.key + e.after, [COLON]);
    NulFreeJoin(e.before + e.key + e.after + [COLON], SpelledPiece(e.piece));
  }

  lemma {:induction false} EntriesNulFree(entries: seq<Entry>)
    requires forall i :: 0 <= i < |entries| ==> StrictEntry(entries[i])
    ensures NulFree(SpelledEntries(entries))
    decreases entries, 0
  {
    hide SpelledEntry, StrictEntry;
    Words();
    if entries != [] {
      EntryNulFree(entries[0]);
      EntriesNulFree(entries[1..]);
    }
  }

  /** So every conforming text that nests at most 1000 deep is read, as what it means. */
  lemma ConformingIsRead(t: Tree, before: Text, after: Text)
    requires StrictTree(t) && StrictBlank(before) && StrictBlank(after)
    ensures TreeOk(t)
    ensures var c := before + Spelled(t) + after + [NUL];
            && Terminated(c)
            && ParseText(c) == if NestsWithin(Meant(t), NESTING_LIMIT) then Ok(Meant(t), |before + Spelled(t)|) else Fail
  {
    hide Spelled, TreeOk, ParseText, StrictTree;
    StrictIsOk(t);
    StrictBlankOk(before);
    TreeNulFree(t);
    NulFreeJoin(before, Spelled(t));
    NulFreeJoin(before + Spelled(t), after);
    var c, next := before + Spelled(t) + after + [NUL], |before + Spelled(t)|;
    assert c[..next] == Mark(false) + before + Spelled(t);
    assert c[next] == (after + [NUL])[0];
    SpelledIsRead(c, next, false, before, t);
  }
}

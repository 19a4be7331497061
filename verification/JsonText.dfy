/** JSON values and the text the printer is meant to produce for them. */
module JsonText {
  import opened Bytes
  import opened JsonString

  /** A tree as the parser builds it. `Decimal` stands for a double that is not an integer of at most 53 bits, by
      its text: which text `sprintf` gives a double, and which double `strtod` makes of it, is the C library's. */
  datatype Json =
    | Null
    | Bool(b: bool)
    | Number(n: int)
    | Decimal(text: Text)
    | String(s: Text)
    | Array(items: seq<Json>)
    | Object(members: seq<Member>)

  datatype Member = Member(key: Text, value: Json)

  const NESTING_LIMIT: nat := 1000

  /** Integers a double holds exactly. */
  const EXACT: int := 0x20_0000_0000_0000

  /** The trees that have a text of their own: numbers in at most 25 bytes, strings without NUL. */
  predicate Printable(v: Json) {
    match v
    case Number(n) => -EXACT <= n <= EXACT
    case Decimal(t) => NumberText(t)
    case String(s) => NulFree(s)
    case Array(items) => forall i :: 0 <= i < |items| ==> Printable(items[i])
    case Object(members) =>
      forall i :: 0 <= i < |members| ==> NulFree(members[i].key) && Printable(members[i].value)
    case _ => true
  }

  predicate ItemsNest(items: seq<Json>, limit: nat) {
    forall i :: 0 <= i < |items| ==> NestsWithin(items[i], limit)
  }

  predicate MembersNest(members: seq<Member>, limit: nat) {
    forall i :: 0 <= i < |members| ==> NestsWithin(members[i].value, limit)
  }

  /** Container nesting, bounded by `limit`. */
  predicate NestsWithin(v: Json, limit: nat) {
    match v
    case Array(items) => limit > 0 && ItemsNest(items, limit - 1)
    case Object(members) => limit > 0 && MembersNest(members, limit - 1)
    case _ => true
  }

  // -------------------------------------------------------------------- numbers

  predicate IsDigit(b: byte) { DIGIT_0 <= b <= DIGIT_9 }

  predicate AllDigits(t: Text) { forall i :: 0 <= i < |t| ==> IsDigit(t[i]) }

  function Digits(n: nat): (t: Text)
    ensures |t| > 0 && AllDigits(t)
  {
    if n < 10 then [48 + n] else Digits(n / 10) + [48 + n % 10]
  }

  function DigitsValue(t: Text): nat
    requires AllDigits(t)
  {
    if t == [] then 0 else 10 * DigitsValue(t[..|t| - 1]) + (t[|t| - 1] - 48)
  }

  lemma {:induction false} DigitsRoundTrip(n: nat)
    ensures DigitsValue(Digits(n)) == n
  {
    if n < 10 {
      assert Digits(n)[..0] == [];
    } else {
      var t := Digits(n);
      assert t[..|t| - 1] == Digits(n / 10);
      DigitsRoundTrip(n / 10);
    }
  }

  /** The digits are decimal ones, the last one for the remainder by ten. */
  lemma DecimalDigits(n: nat, d: nat)
    requires d < 10
    ensures Digits(d) == [Ascii("0123456789")[d]]
    ensures n > 0 ==> Digits(10 * n + d) == Digits(n) + [Ascii("0123456789")[d]]
  {
    assert Ascii("0123456789")[d] == 48 + d;
  }

  function Power10(k: nat): nat {
    if k == 0 then 1 else 10 * Power10(k - 1)
  }

  lemma {:induction false} DigitsLength(n: nat, k: nat)
    requires k > 0 && n < Power10(k)
    ensures |Digits(n)| <= k
  {
    if n >= 10 {
      assert k > 1 by { assert Power10(1) == 10; }
      DigitsLength(n / 10, k - 1);
    }
  }

  lemma ExactLength(n: nat)
    requires n <= EXACT
    ensures |Digits(n)| <= 16
  {
    assert Power10(4) == 10_000;
    assert Power10(8) == 100_000_000;
    assert Power10(12) == 1_000_000_000_000;
    assert Power10(16) == 10_000_000_000_000_000;
    DigitsLength(n, 16);
  }

  function IntegerText(n: int): (t: Text)
    ensures |t| > 0
  {
    if n < 0 then [MINUS] + Digits(-n) else Digits(n)
  }

  // ---------------------------------------------------------------- number text

  predicate NumberByte(b: byte) {
    IsDigit(b) || b == PLUS || b == MINUS || b == LOWER_E || b == UPPER_E || b == DOT
  }

  function DigitsEnd(t: Text, p: nat): (r: nat)
    requires p <= |t|
    ensures p <= r <= |t|
    decreases |t| - p
  {
    if p < |t| && IsDigit(t[p]) then DigitsEnd(t, p + 1) else p
  }

  predicate IsSign(b: byte) { b == PLUS || b == MINUS }

  /** How much of `t` the C library's `strtod` converts: a decimal number, or nothing. */
  function StrtodLength(t: Text): (n: nat)
    ensures n <= |t|
  {
    var first := if |t| > 0 && IsSign(t[0]) then 1 else 0;
    var whole := DigitsEnd(t, first);
    var mantissa := if whole < |t| && t[whole] == DOT then DigitsEnd(t, whole + 1) else whole;
    if whole == first && mantissa <= whole + 1 then 0
    else if mantissa == |t| || (t[mantissa] != LOWER_E && t[mantissa] != UPPER_E) then mantissa
    else
      var exponent := if mantissa + 1 < |t| && IsSign(t[mantissa + 1]) then mantissa + 2 else mantissa + 1;
      var end := DigitsEnd(t, exponent);
      if end > exponent then end else mantissa
  }

  /** The value of converted text. */
  function NumberOf(t: Text): Json {
    if |t| > 0 && AllDigits(t) && DigitsValue(t) <= EXACT then Number(DigitsValue(t))
    else if |t| > 1 && t[0] == MINUS && AllDigits(t[1..]) && DigitsValue(t[1..]) <= EXACT then
      Number(0 - DigitsValue(t[1..]))
    else Decimal(t)
  }

  /** The text of a double as `print_number` may find it in its buffer of 26 bytes. */
  predicate NumberText(t: Text) {
    && 0 < |t| <= 25 && (t[0] == MINUS || IsDigit(t[0])) && (forall i :: 0 <= i < |t| ==> NumberByte(t[i]))
    && StrtodLength(t) == |t| && NumberOf(t) == Decimal(t)
  }

  // -------------------------------------------------------------------- strings

  function HexDigit(v: nat): (b: byte)
    requires v < 16
    ensures IsHex(b) && HexValue(b) == v
  {
    if v < 10 then 48 + v else 87 + v
  }

  /** The letter of the one-letter escape of `b`, if the printer uses one. */
  function EscapeLetter(b: byte): (r: Option<byte>)
    ensures r.Some? ==> SimpleEscape(r.value) == Some(b)
  {
    if b == QUOTE || b == BACKSLASH then Some(b)
    else if b == BACKSPACE then Some(LOWER_B)
    else if b == FORM_FEED then Some(LOWER_F)
    else if b == NEWLINE then Some(LOWER_N)
    else if b == RETURN then Some(LOWER_R)
    else if b == TAB then Some(LOWER_T)
    else None
  }

  /** The unit the printer writes for one byte. */
  function UnitOf(b: byte): (u: Unit)
    ensures WellFormed(u) && Meaning(u) == [b]
  {
    var e := EscapeLetter(b);
    if e.Some? then Short(e.value)
    else if b < 32 then Basic([48, 48, HexDigit(b / 16), HexDigit(b % 16)])
    else Plain(b)
  }

  function UnitsOf(s: Text): (us: seq<Unit>)
    ensures |us| == |s| && AllWellFormed(us)
  {
    if s == [] then [] else [UnitOf(s[0])] + UnitsOf(s[1..])
  }

  lemma {:induction false} UnitsDenote(s: Text)
    ensures Denote(UnitsOf(s)) == s
  {
    if s != [] {
      assert UnitsOf(s)[1..] == UnitsOf(s[1..]);
      UnitsDenote(s[1..]);
    }
  }

  function Escaped(s: Text): Text { Spell(UnitsOf(s)) }

  function StringText(s: Text): (t: Text)
    ensures |t| >= 2
  {
    [QUOTE] + Escaped(s) + [QUOTE]
  }

  /** Printing a string and reading it back: the same bytes, and exactly the literal is consumed. */
  lemma StringRoundTrip(c: Text, off: nat, s: Text)
    requires At(c, off, StringText(s))
    ensures StringLiteral(c, off) == Ok(s, off + |StringText(s)|)
  {
    hide StringLiteral, Denote, AllWellFormed;
    UnitsDenote(s);
    LiteralMeaning(c, off, UnitsOf(s));
  }

  // ----------------------------------------------------------------- containers

  function Tabs(n: nat): (t: Text)
    ensures |t| == n
  {
    seq(n, _ => TAB)
  }

  function When(on: bool, b: byte): Text {
    if on then [b] else []
  }

  /** The text of a value printed at nesting `depth`, formatted or not. */
  function Render(v: Json, format: bool, depth: nat): (t: Text)
    requires Printable(v)
    ensures |t| > 0
    decreases v, 1
  {
    match v
    case Null => NULL_TEXT
    case Bool(b) => if b then TRUE_TEXT else FALSE_TEXT
    case Number(n) => IntegerText(n)
    case Decimal(t) => t
    case String(s) => StringText(s)
    case Array(items) => [OPEN_BRACKET] + RenderItems(items, format, depth + 1)
    case Object(members) =>
      [OPEN_BRACE] + When(format, NEWLINE) + RenderMembers(members, format, depth + 1)
  }

  /** The elements still to come and the closing bracket. */
  function RenderItems(items: seq<Json>, format: bool, depth: nat): (t: Text)
    requires forall i :: 0 <= i < |items| ==> Printable(items[i])
    ensures |t| > 0
    decreases items, 0
  {
    if items == [] then [CLOSE_BRACKET]
    else if |items| == 1 then Render(items[0], format, depth) + [CLOSE_BRACKET]
    else
      Render(items[0], format, depth) + ([COMMA] + When(format, SPACE)) + RenderItems(items[1..], format, depth)
  }

  /** One member: indentation, key, colon, value, then a comma if another follows and a line end if formatted. */
  function RenderMember(m: Member, format: bool, depth: nat, last: bool): (t: Text)
    requires NulFree(m.key) && Printable(m.value)
    decreases m, 2
  {
    MemberHead(m.key, format, depth) + Render(m.value, format, depth) + MemberTail(format, last)
  }

  function MemberHead(key: Text, format: bool, depth: nat): Text {
    (if format then Tabs(depth) else []) + StringText(key) + ([COLON] + When(format, TAB))
  }

  function MemberTail(format: bool, last: bool): Text {
    When(!last, COMMA) + When(format, NEWLINE)
  }

  function ObjectEnd(format: bool, depth: nat): (t: Text)
    requires depth > 0
    ensures |t| == if format then depth else 1
  {
    (if format then Tabs(depth - 1) else []) + [CLOSE_BRACE]
  }

  /** The members still to come and the closing brace. */
  function RenderMembers(members: seq<Member>, format: bool, depth: nat): (t: Text)
    requires depth > 0
    requires forall i :: 0 <= i < |members| ==> NulFree(members[i].key) && Printable(members[i].value)
    ensures |t| > 0
    decreases members, 0
  {
    if members == [] then ObjectEnd(format, depth)
    else
      RenderMember(members[0], format, depth, |members| == 1) + RenderMembers(members[1..], format, depth)
  }
}

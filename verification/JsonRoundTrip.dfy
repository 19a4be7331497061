/** Every text the printer is meant to produce is one of the grammar, so that the reader takes it back as it was. */
module JsonRoundTrip {
  import opened Bytes
  import opened Sequences
  import opened JsonString
  import opened JsonText
  import opened JsonGrammar
  import opened JsonSyntax

  lemma NumExists(t: Text)
    requires NumberText(t)
    ensures exists n :: NumOk(n) && SpellNum(n) == t
  {
    hide StrtodLength, NumberOf, NumOk, SpellNum;
    var n := NumRead(t);
    assert t[..|t|] == t;
  }

  ghost function DecimalNum(t: Text): (n: Num)
    requires NumberText(t)
    ensures NumOk(n) && SpellNum(n) == t
  {
    NumExists(t);
    var n :| NumOk(n) && SpellNum(n) == t;
    n
  }

  function IntegerNum(n: int): Num {
    Num(n < 0, Digits(if n < 0 then -n else n), None, None)
  }

  lemma IntegerNumOk(n: int)
    requires -EXACT <= n <= EXACT
    ensures NumOk(IntegerNum(n)) && SpellNum(IntegerNum(n)) == IntegerText(n) && NumberOf(IntegerText(n)) == Number(n)
  {
    IntegerConverts(n);
  }

  lemma StringTextOk(s: Text)
    ensures IsLiteral(StringText(s)) && LiteralValue(StringText(s)) == s
  {
    hide StringText;
    assert At(StringText(s), 0, StringText(s));
    StringRoundTrip(StringText(s), 0, s);
  }

  /** The tree that is printed for a value, with the printer's space. */
  ghost function TreeOf(v: Json, format: bool, level: nat): Tree
    requires Printable(v)
    decreases v, 1
  {
    match v
    case Null => NullTree
    case Bool(b) => BoolTree(b)
    case Number(n) => NumberTree(IntegerNum(n))
    case Decimal(t) => NumberTree(DecimalNum(t))
    case String(s) => StringTree(StringText(s))
    case Array(items) => ArrayTree([], PiecesOf(items, format, level + 1, []))
    case Object(members) =>
      if members == [] then ObjectTree(Line(format, level), [])
      else ObjectTree([], EntriesOf(members, format, level + 1))
  }

  /** A line end and the indentation behind it. */
  function Line(format: bool, level: nat): Text {
    When(format, NEWLINE) + Indent(format, level)
  }

  ghost function PiecesOf(items: seq<Json>, format: bool, level: nat, before: Text): (ps: seq<Piece>)
    requires forall i :: 0 <= i < |items| ==> Printable(items[i])
    ensures |ps| == |items|
    decreases items, 0
  {
    if items == [] then []
    else [Piece(before, TreeOf(items[0], format, level), [])] + PiecesOf(items[1..], format, level, When(format, SPACE))
  }

  ghost function EntriesOf(members: seq<Member>, format: bool, level: nat): (es: seq<Entry>)
    requires level > 0 && AllPrintable(members)
    ensures |es| == |members|
    decreases members, 0
  {
    if members == [] then []
    else
      var last := if |members| == 1 then Line(format, level - 1) else [];
      var piece := Piece(When(format, TAB), TreeOf(members[0].value, format, level), last);
      [Entry(Line(format, level), StringText(members[0].key), [], piece)] + EntriesOf(members[1..], format, level)
  }

  /** It is a tree of the grammar, means the value, and is spelled as the printer's text. */
  ghost predicate Prints(t: Tree, v: Json, format: bool, level: nat)
    requires Printable(v)
  {
    TreeOk(t) && Meant(t) == v && Spelled(t) == Render(v, format, level)
  }

  lemma {:induction false} TreeOfPrints(v: Json, format: bool, level: nat)
    requires Printable(v)
    ensures Prints(TreeOf(v, format, level), v, format, level)
    decreases v, 1
  {
    match v
    case Array(items) => ArrayPrints(items, format, level);
    case Object(members) => ObjectPrints(members, format, level);
    case _ => ScalarPrints(v, format, level);
  }

  lemma ScalarPrints(v: Json, format: bool, level: nat)
    requires Printable(v) && !v.Array? && !v.Object?
    ensures Prints(TreeOf(v, format, level), v, format, level)
  {
    hide StringText, NumOk, SpellNum, NumberOf, IsLiteral, LiteralValue, IntegerText, Digits;
    Words();
    match v
    case Number(n) => IntegerNumOk(n);
    case Decimal(t) => NumOfText(t);
    case String(s) => StringTextOk(s);
    case _ =>
  }

  lemma {:induction false} ArrayPrints(items: seq<Json>, format: bool, level: nat)
    requires Printable(Array(items))
    ensures Prints(TreeOf(Array(items), format, level), Array(items), format, level)
    decreases items, 2
  {
    hide PiecesOf, PieceOk, SpelledItems, MeantItems, RenderItems, Spelled, Render;
    PiecesPrint(items, format, level + 1, []);
    ArrayText(items, format, level);
    ArraySpelled(PiecesOf(items, format, level + 1, []));
  }

  lemma ArraySpelled(ps: seq<Piece>)
    ensures Spelled(ArrayTree([], ps)) == [OPEN_BRACKET] + SpelledItems(ps)
  {
    Words();
  }

  lemma {:induction false} ObjectPrints(members: seq<Member>, format: bool, level: nat)
    requires Printable(Object(members))
    ensures Prints(TreeOf(Object(members), format, level), Object(members), format, level)
    decreases members, 2
  {
    hide EntriesOf, EntryOk, SpelledEntries, MeantEntries, RenderMembers;
    Words();
    ObjectText(members, format, level);
    if members == [] {
      LineBlank(format, level);
      NoEntries([]);
      NoMembersText(format, level + 1);
    } else {
      EntriesPrint(members, format, level + 1);
      Associates([OPEN_BRACE], When(format, NEWLINE), RenderMembers(members, format, level + 1));
    }
  }

  lemma NumOfText(t: Text)
    requires NumberText(t)
    ensures NumberOf(t) == Decimal(t)
  {
  }

  lemma LineBlank(format: bool, level: nat)
    ensures IsBlank(Line(format, level)) && IsBlank(When(format, TAB)) && IsBlank(When(format, SPACE)) && IsBlank([])
  {
  }

  lemma NoMembersText(format: bool, level: nat)
    requires level > 0
    ensures RenderMembers([], format, level) == Indent(format, level - 1) + [CLOSE_BRACE]
  {
  }

  lemma {:induction false} PiecesPrint(items: seq<Json>, format: bool, level: nat, before: Text)
    requires IsBlank(before) && forall i :: 0 <= i < |items| ==> Printable(items[i])
    ensures var ps := PiecesOf(items, format, level, before);
            && (forall i :: 0 <= i < |ps| ==> PieceOk(ps[i])) && MeantItems(ps) == items
            && SpelledItems(ps) == if items == [] then [CLOSE_BRACKET] else before + RenderItems(items, format, level)
    decreases items, 0
  {
    hide Render, TreeOk, Spelled, Meant, RenderItems, SpelledPiece, SpelledItems, MeantItems, PieceOk, IsBlank, When;
    if items == [] {
      NoItems([]);
    } else {
      var p := Piece(before, TreeOf(items[0], format, level), []);
      TreeOfPrints(items[0], format, level);
      LineBlank(format, level);
      PieceIsOk(p);
      PiecesPrint(items[1..], format, level, When(format, SPACE));
      PiecesJoin(p, PiecesOf(items[1..], format, level, When(format, SPACE)));
      ItemsText(items, before, p.tree, format, level);
    }
  }

  lemma PieceIsOk(p: Piece)
    requires IsBlank(p.before) && IsBlank(p.after) && TreeOk(p.tree)
    ensures PieceOk(p)
  {
  }

  lemma ItemsText(items: seq<Json>, before: Text, tree: Tree, format: bool, level: nat)
    requires items != [] && forall i :: 0 <= i < |items| ==> Printable(items[i])
    requires Spelled(tree) == Render(items[0], format, level)
    ensures before + RenderItems(items, format, level)
         == SpelledPiece(Piece(before, tree, []))
            + if |items| == 1 then [CLOSE_BRACKET]
              else [COMMA] + (When(format, SPACE) + RenderItems(items[1..], format, level))
  {
    hide Render, Spelled;
  }

  /** A member's text up to its value, with the line end in front of it. */
  function HeadText(m: Member, format: bool, level: nat): Text
    requires Printable(m.value)
  {
    When(format, NEWLINE) + (Indent(format, level) + StringText(m.key) + [COLON] + When(format, TAB)
                             + Render(m.value, format, level))
  }

  /** The printer's text of a member, and the grammar's, from there on. */
  lemma EntryText(m: Member, tree: Tree, after: Text, format: bool, level: nat, last: bool)
    requires NulFree(m.key) && Printable(m.value) && Spelled(tree) == Render(m.value, format, level)
    ensures var e := Entry(Line(format, level), StringText(m.key), [], Piece(When(format, TAB), tree, after));
            SpelledEntry(e) == HeadText(m, format, level) + after
    ensures When(format, NEWLINE) + RenderMember(m, format, level, last)
         == HeadText(m, format, level) + When(!last, COMMA) + When(format, NEWLINE)
  {
    hide StringText, Render, Spelled, Tabs, When;
    Words();
  }

  /** A value of the grammar for each member. */
  lemma {:induction false} EntriesPrint(members: seq<Member>, format: bool, level: nat)
    requires level > 0 && members != [] && AllPrintable(members)
    ensures var es := EntriesOf(members, format, level);
            && (forall i :: 0 <= i < |es| ==> EntryOk(es[i])) && MeantEntries(es) == members
            && SpelledEntries(es) == When(format, NEWLINE) + RenderMembers(members, format, level)
    decreases members, 0
  {
    hide Render, TreeOk, Spelled, Meant, Line, StringText, IsLiteral, LiteralValue, RenderMember, SpelledEntry, HeadText;
    Words();
    var m, rest, last := members[0], members[1..], |members| == 1;
    var line, head := When(format, NEWLINE), HeadText(m, format, level);
    TreeOfPrints(m.value, format, level);
    LineBlank(format, level);
    LineBlank(format, level - 1);
    StringTextOk(m.key);
    var es := EntriesOf(members, format, level);
    assert es[1..] == EntriesOf(rest, format, level);
    EntryText(m, es[0].piece.tree, es[0].piece.after, format, level, last);
    Associates(line, RenderMember(m, format, level, last), RenderMembers(rest, format, level));
    if last {
      LastText(head, format, level);
    } else {
      EntriesPrint(rest, format, level);
      Associates(head + [COMMA], line, RenderMembers(rest, format, level));
    }
  }

  lemma LastText(head: Text, format: bool, level: nat)
    requires level > 0
    ensures head + When(false, COMMA) + When(format, NEWLINE) + RenderMembers([], format, level)
         == head + Line(format, level - 1) + [CLOSE_BRACE]
  {
    NoMembersText(format, level);
  }

  /** JSON round trip: for every printable tree, formatted or not, parsing the printed text followed by a NUL
      returns the same tree and stops exactly at the end of the text. It does so if and only if containers
      nest at most 1000 deep; a deeper tree is refused. */
  lemma RoundTrip(v: Json, format: bool)
    requires Printable(v)
    ensures var t := Render(v, format, 0);
            && Terminated(t + [NUL])
            && ParseText(t + [NUL]) == if NestsWithin(v, 1000) then Ok(v, |t|) else Fail
  {
    hide ParseText, Render, TreeOk, Spelled, Meant;
    var t := Render(v, format, 0);
    RenderNulFree(v, format, 0);
    TreeOfPrints(v, format, 0);
    assert Mark(false) + [] + t == t == (t + [NUL])[..|t|];
    SpelledIsRead(t + [NUL], |t|, false, [], TreeOf(v, format, 0));
  }

  // ------------------------------------------------------------------------ conformance

  /** The numbers that the C library printed are numbers of RFC 8259. */
  ghost predicate StrictDecimals(v: Json)
    requires Printable(v)
  {
    match v
    case Decimal(t) => StrictNum(DecimalNum(t))
    case Array(items) => forall i :: 0 <= i < |items| ==> StrictDecimals(items[i])
    case Object(members) => forall i :: 0 <= i < |members| ==> StrictDecimals(members[i].value)
    case _ => true
  }

  lemma {:induction false} NoLeadingZero(n: nat)
    ensures Digits(n)[0] == DIGIT_0 <==> n == 0
    ensures |Digits(n)| > 1 ==> n >= 10
  {
    if n >= 10 {
      NoLeadingZero(n / 10);
    }
  }

  /** Then so is everything that is printed a text of RFC 8259. */
  lemma {:induction false} PrintedConforms(v: Json, format: bool, level: nat)
    requires Printable(v) && StrictDecimals(v)
    ensures StrictTree(TreeOf(v, format, level))
    decreases v, 1
  {
    hide StrictNum, StrictLiteral, DecimalNum, PiecesOf, EntriesOf, StrictPiece, StrictEntry, StrictBlank;
    StrictLine(format, level);
    match v
    case Number(n) => StrictInteger(n);
    case String(s) => StrictText(s);
    case Array(items) => PiecesConform(items, format, level + 1, []);
    case Object(members) =>
      EntriesConform(members, format, level + 1);
    case _ =>
  }

  lemma StrictInteger(n: int)
    requires -EXACT <= n <= EXACT
    ensures StrictNum(IntegerNum(n))
  {
    IntegerNumOk(n);
    NoLeadingZero(if n < 0 then -n else n);
  }

  lemma StrictText(s: Text)
    ensures StrictLiteral(StringText(s))
  {
  }

  lemma StrictLine(format: bool, level: nat)
    ensures StrictBlank(Line(format, level)) && StrictBlank(When(format, TAB)) && StrictBlank(When(format, SPACE))
    ensures StrictBlank([])
  {
  }

  lemma {:induction false} PiecesConform(items: seq<Json>, format: bool, level: nat, before: Text)
    requires StrictBlank(before) && forall i :: 0 <= i < |items| ==> Printable(items[i]) && StrictDecimals(items[i])
    ensures forall p :: p in PiecesOf(items, format, level, before) ==> StrictPiece(p)
    decreases items, 0
  {
    hide StrictTree, StrictDecimals;
    if items != [] {
      PrintedConforms(items[0], format, level);
      StrictLine(format, level);
      PiecesConform(items[1..], format, level, When(format, SPACE));
    }
  }

  lemma {:induction false} EntriesConform(members: seq<Member>, format: bool, level: nat)
    requires level > 0 && AllPrintable(members)
    requires forall i :: 0 <= i < |members| ==> StrictDecimals(members[i].value)
    ensures forall e :: e in EntriesOf(members, format, level) ==> StrictEntry(e)
    decreases members, 0
  {
    hide StrictTree, StrictDecimals, StrictLiteral, Line;
    if members != [] {
      PrintedConforms(members[0].value, format, level);
      StrictText(members[0].key);
      StrictLine(format, level);
      StrictLine(format, level - 1);
      EntriesConform(members[1..], format, level);
    }
  }

  // --------------------------------------------------------------------- the text itself

  /** The printed form of one byte: the letters that have a short escape, the other control bytes by their number in
      lower-case digits, and everything else as it is. */
  lemma PrintedByte(b: byte)
    ensures Escaped([b])
         == if b == '\"' as int then Ascii("\\\"") else if b == '\\' as int then Ascii("\\\\")
            else if b == 8 then Ascii("\\b") else if b == 12 then Ascii("\\f") else if b == 10 then Ascii("\\n")
            else if b == 13 then Ascii("\\r") else if b == 9 then Ascii("\\t")
            else if b < 32 then Ascii("\\u00") + [LOWER_DIGITS[b / 16] as int, LOWER_DIGITS[b % 16] as int]
            else [b]
  {
    hide Escaped;
    OneUnit(b);
    if b < 32 {
      LowerDigit(b / 16);
      LowerDigit(b % 16);
      ShortEscapes();
    }
  }

  lemma OneUnit(b: byte)
    ensures Escaped([b]) == Spelling(UnitOf(b))
  {
    hide UnitOf, Spelling;
    var u := UnitOf(b);
    assert [b][1..] == [];
    assert UnitsOf([b]) == [u] + UnitsOf([]) == [u];
    assert [u][1..] == [];
    assert Spell([u]) == Spelling(u) + Spell([]);
  }

  lemma ShortEscapes()
    ensures Ascii("\\b") == [92, 98] && Ascii("\\f") == [92, 102] && Ascii("\\n") == [92, 110]
    ensures Ascii("\\r") == [92, 114] && Ascii("\\t") == [92, 116] && Ascii("\\u00") == [92, 117, 48, 48]
  {
  }

  lemma LowerDigit(d: nat)
    requires d < 16
    ensures LOWER_DIGITS[d] as int == HexDigit(d)
  {
    if d < 10 {
      assert LOWER_DIGITS[d] as int == 48 + d;
    }
  }

  /** An array in an array, `n` deep. */
  function Deep(n: nat): (v: Json)
    ensures Printable(v)
  {
    if n == 0 then Null else assert Printable(Deep(n - 1)); Array([Deep(n - 1)])
  }

  lemma {:induction false} DeepNests(n: nat, limit: nat)
    ensures NestsWithin(Deep(n), limit) <==> n <= limit
    decreases n
  {
    if n > 0 {
      assert Deep(n).items[0] == Deep(n - 1);
      if limit > 0 {
        DeepNests(n - 1, limit - 1);
      }
    }
  }

  /** So 1000 brackets around a value are read, and 1001 are not. */
  lemma DeepestRead(n: nat, format: bool)
    ensures var t := Render(Deep(n), format, 0);
            Terminated(t + [NUL]) && (ParseText(t + [NUL]).Ok? <==> n <= 1000)
  {
    hide ParseText, Render;
    RoundTrip(Deep(n), format);
    DeepNests(n, 1000);
  }
}

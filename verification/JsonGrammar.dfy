/** What the recursive-descent parser does with a text, as functions of the text. */
module JsonGrammar {
  import opened Bytes
  import opened JsonString
  import opened JsonText

  // ----------------------------------------------------------------- whitespace

  /** `buffer_skip_whitespace`: passes bytes up to 32 but never leaves the buffer. */
  function SkipBlank(c: Text, off: nat): (r: nat)
    requires off < |c|
    ensures off <= r < |c|
    decreases |c| - off
  {
    if c[off] > 32 || off + 1 == |c| then off else SkipBlank(c, off + 1)
  }

  lemma SkipStays(c: Text, off: nat)
    ensures off < |c| && c[off] > 32 ==> SkipBlank(c, off) == off
  {
  }

  lemma {:induction false} SkipBlankRun(c: Text, off: nat, n: nat)
    requires off + n < |c| && forall i :: off <= i < off + n ==> c[i] <= 32
    ensures SkipBlank(c, off) == SkipBlank(c, off + n)
    decreases n
  {
    if n > 0 {
      SkipBlankRun(c, off + 1, n - 1);
    }
  }

  // -------------------------------------------------------------------- numbers

  /** The end of the number bytes from `p`, looking no further than `limit`. */
  function NumberEnd(c: Text, p: nat, limit: nat): (r: nat)
    requires p <= limit <= |c|
    ensures p <= r <= limit
    decreases limit - p
  {
    if p < limit && NumberByte(c[p]) then NumberEnd(c, p + 1, limit) else p
  }

  /** At most 63 bytes are handed to `strtod`. */
  function NumberLimit(c: Text, off: nat): (r: nat)
    requires off <= |c|
    ensures off <= r <= |c|
  {
    if off + 63 <= |c| then off + 63 else |c|
  }

  function NumberAt(c: Text, off: nat): (r: Parsed<Json>)
    requires off <= |c|
    ensures r.Ok? ==> off < r.next <= |c|
  {
    var t := c[off..NumberEnd(c, off, NumberLimit(c, off))];
    var n := StrtodLength(t);
    if n == 0 then Fail else Ok(NumberOf(t[..n]), off + n)
  }

  // --------------------------------------------------------------------- values

  /** `parse_value` at `off`, `depth` containers deep. */
  function ValueAt(c: Text, off: nat, depth: nat): (r: Parsed<Json>)
    requires Terminated(c) && off < |c|
    ensures r.Ok? ==> off < r.next < |c|
    decreases |c| - off, 2
  {
    if At(c, off, NULL_TEXT) then AtInside(c, off, NULL_TEXT); Ok(Null, off + 4)
    else if At(c, off, FALSE_TEXT) then AtInside(c, off, FALSE_TEXT); Ok(Bool(false), off + 5)
    else if At(c, off, TRUE_TEXT) then AtInside(c, off, TRUE_TEXT); Ok(Bool(true), off + 4)
    else if c[off] == QUOTE then
      var s := StringLiteral(c, off);
      if s.Fail? then Fail else Ok(String(s.value), s.next)
    else if c[off] == MINUS || IsDigit(c[off]) then
      NumberInside(c, off);
      NumberAt(c, off)
    else if c[off] == OPEN_BRACKET then
      if depth >= NESTING_LIMIT then Fail
      else
        var first := SkipBlank(c, off + 1);
        if c[first] == CLOSE_BRACKET then Ok(Array([]), first + 1)
        else
          var r := ElementsAt(c, first - 1, depth + 1);
          if r.Fail? then Fail else Ok(Array(r.value), r.next)
    else if c[off] == OPEN_BRACE then
      if depth >= NESTING_LIMIT then Fail
      else
        var first := SkipBlank(c, off + 1);
        if c[first] == CLOSE_BRACE then Ok(Object([]), first + 1)
        else
          var r := MembersAt(c, first - 1, depth + 1);
          if r.Fail? then Fail else Ok(Object(r.value), r.next)
    else Fail
  }

  /** The element loop of `parse_array`, standing one byte before the next element. */
  function ElementsAt(c: Text, off: nat, depth: nat): (r: Parsed<seq<Json>>)
    requires Terminated(c) && off + 1 < |c|
    ensures r.Ok? ==> off < r.next < |c|
    decreases |c| - off, 0
  {
    var v := ValueAt(c, SkipBlank(c, off + 1), depth);
    if v.Fail? then Fail
    else
      var sep := SkipBlank(c, v.next);
      if c[sep] == COMMA then
        var rest := ElementsAt(c, sep, depth);
        if rest.Fail? then Fail else Ok([v.value] + rest.value, rest.next)
      else if c[sep] == CLOSE_BRACKET then Ok([v.value], sep + 1)
      else Fail
  }

  /** One member as `parse_object` reads it, standing one byte before it. */
  function MemberAt(c: Text, off: nat, depth: nat): (r: Parsed<Member>)
    requires Terminated(c) && off + 1 < |c|
    ensures r.Ok? ==> off < r.next < |c|
    decreases |c| - off, 0
  {
    var key := StringLiteral(c, SkipBlank(c, off + 1));
    if key.Fail? then Fail
    else
      var colon := SkipBlank(c, key.next);
      if c[colon] != COLON then Fail
      else
        var v := ValueAt(c, SkipBlank(c, colon + 1), depth);
        if v.Fail? then Fail else Ok(Member(key.value, v.value), v.next)
  }

  /** The member loop of `parse_object`, standing one byte before the next member. */
  function MembersAt(c: Text, off: nat, depth: nat): (r: Parsed<seq<Member>>)
    requires Terminated(c) && off + 1 < |c|
    ensures r.Ok? ==> off < r.next < |c|
    decreases |c| - off, 1
  {
    var m := MemberAt(c, off, depth);
    if m.Fail? then Fail
    else
      var sep := SkipBlank(c, m.next);
      if c[sep] == COMMA then
        var rest := MembersAt(c, sep, depth);
        if rest.Fail? then Fail else Ok([m.value] + rest.value, rest.next)
      else if c[sep] == CLOSE_BRACE then Ok([m.value], sep + 1)
      else Fail
  }

  /** `cJSON_Parse` on a NUL-terminated text: the tree and the offset where it stopped reading. */
  function ParseText(c: Text): (r: Parsed<Json>)
    requires Terminated(c)
  {
    ValueAt(c, SkipBlank(c, if |c| > 4 && At(c, 0, BYTE_ORDER_MARK) then 3 else 0), 0)
  }

  lemma AtInside(c: Text, off: nat, t: Text)
    requires Terminated(c) && At(c, off, t) && |t| > 0 && t[|t| - 1] != NUL
    ensures off + |t| < |c|
  {
    AtByte(c, off, t, |t| - 1);
  }

  lemma {:induction false} NumberStops(c: Text, p: nat, limit: nat)
    requires Terminated(c) && p < |c| && p <= limit <= |c|
    ensures NumberEnd(c, p, limit) < |c|
    decreases limit - p
  {
    if p < limit && NumberByte(c[p]) {
      NumberStops(c, p + 1, limit);
    }
  }

  lemma NumberInside(c: Text, off: nat)
    requires Terminated(c) && off < |c|
    ensures var r := NumberAt(c, off); r.Ok? ==> r.next < |c|
  {
    NumberStops(c, off, NumberLimit(c, off));
  }

  // ------------------------------------------------------------ how it reads numbers

  lemma {:induction false} NumberEndCovers(c: Text, p: nat, limit: nat, n: nat)
    requires p + n <= limit <= |c| && forall i :: p <= i < p + n ==> NumberByte(c[i])
    requires p + n < limit ==> !NumberByte(c[p + n])
    ensures NumberEnd(c, p, limit) == p + n
    decreases n
  {
    if n > 0 {
      NumberEndCovers(c, p + 1, limit, n - 1);
    }
  }

  lemma {:induction false} DigitsEndCovers(t: Text, p: nat)
    requires p <= |t| && AllDigits(t[p..])
    ensures DigitsEnd(t, p) == |t|
    decreases |t| - p
  {
    if p < |t| {
      assert t[p] == t[p..][0];
      assert t[p + 1..] == t[p..][1..];
      DigitsEndCovers(t, p + 1);
    }
  }

  lemma IntegerConverts(n: int)
    requires -EXACT <= n <= EXACT
    ensures var t := IntegerText(n); StrtodLength(t) == |t| <= 17 && NumberOf(t) == Number(n)
    ensures forall i :: 0 <= i < |IntegerText(n)| ==> NumberByte(IntegerText(n)[i])
  {
    var t := IntegerText(n);
    if n < 0 {
      assert t[1..] == Digits(-n);
      DigitsEndCovers(t, 1);
      DigitsRoundTrip(-n);
      ExactLength(-n);
    } else {
      assert t[0..] == t;
      DigitsEndCovers(t, 0);
      DigitsRoundTrip(n);
      ExactLength(n);
    }
  }

  lemma IntegerRoundTrip(c: Text, off: nat, n: int)
    requires -EXACT <= n <= EXACT && At(c, off, IntegerText(n))
    requires off + |IntegerText(n)| < |c| && !NumberByte(c[off + |IntegerText(n)|])
    ensures NumberAt(c, off) == Ok(Number(n), off + |IntegerText(n)|)
  {
    hide StrtodLength, NumberOf;
    IntegerConverts(n);
    NumberRoundTrip(c, off, IntegerText(n));
  }

  /** Number text of up to 63 bytes is read as a whole, up to the byte behind it. */
  lemma NumberRoundTrip(c: Text, off: nat, t: Text)
    requires |t| <= 63 && StrtodLength(t) == |t| > 0 && forall i :: 0 <= i < |t| ==> NumberByte(t[i])
    requires At(c, off, t) && off + |t| < |c| && !NumberByte(c[off + |t|])
    ensures NumberAt(c, off) == Ok(NumberOf(t), off + |t|)
  {
    hide StrtodLength, NumberOf;
    forall i | off <= i < off + |t| ensures NumberByte(c[i]) {
      AtByte(c, off, t, i - off);
    }
    NumberEndCovers(c, off, NumberLimit(c, off), |t|);
    assert t[..|t|] == t;
  }

  /** The bytes that tell the kinds of values apart. */
  lemma Literals(c: Text, off: nat)
    requires off < |c|
    ensures At(c, off, NULL_TEXT) ==> c[off] == LOWER_N
    ensures At(c, off, TRUE_TEXT) ==> c[off] == LOWER_T
    ensures At(c, off, FALSE_TEXT) ==> c[off] == LOWER_F
  {
    if At(c, off, NULL_TEXT) { AtByte(c, off, NULL_TEXT, 0); }
    if At(c, off, TRUE_TEXT) { AtByte(c, off, TRUE_TEXT, 0); }
    if At(c, off, FALSE_TEXT) { AtByte(c, off, FALSE_TEXT, 0); }
  }

  /** `t` stands at `off`, inside the terminated text, and no number byte follows it. */
  predicate Stands(c: Text, off: nat, t: Text) {
    Terminated(c) && At(c, off, t) && off + |t| < |c| && !NumberByte(c[off + |t|])
  }

  /** One unfolding of the parser at a bracket. */
  lemma AtBracket(c: Text, off: nat, depth: nat)
    requires Terminated(c) && off + 1 < |c| && c[off] == OPEN_BRACKET && depth < NESTING_LIMIT
    ensures var first := SkipBlank(c, off + 1);
            ValueAt(c, off, depth)
            == if c[first] == CLOSE_BRACKET then Ok(Array([]), first + 1)
               else
                 var r := ElementsAt(c, first - 1, depth + 1);
                 if r.Fail? then Fail else Ok(Array(r.value), r.next)
  {
    hide At, ElementsAt, MembersAt, StringLiteral, NumberAt;
    Literals(c, off);
  }

  /** The nesting limit is checked before anything of a container is read. */
  lemma AtContainer(c: Text, off: nat, depth: nat)
    requires Terminated(c) && off + 1 < |c| && (c[off] == OPEN_BRACKET || c[off] == OPEN_BRACE)
    ensures depth >= NESTING_LIMIT ==> ValueAt(c, off, depth) == Fail
  {
  }

  /** One unfolding of the parser at a brace. */
  lemma AtBrace(c: Text, off: nat, depth: nat)
    requires Terminated(c) && off + 1 < |c| && c[off] == OPEN_BRACE && depth < NESTING_LIMIT
    ensures var first := SkipBlank(c, off + 1);
            ValueAt(c, off, depth)
            == if c[first] == CLOSE_BRACE then Ok(Object([]), first + 1)
               else
                 var r := MembersAt(c, first - 1, depth + 1);
                 if r.Fail? then Fail else Ok(Object(r.value), r.next)
  {
    hide At, ElementsAt, MembersAt, StringLiteral, NumberAt;
    Literals(c, off);
  }

  lemma ArrayText(items: seq<Json>, format: bool, level: nat)
    requires Printable(Array(items))
    ensures var rest := RenderItems(items, format, level + 1);
            Render(Array(items), format, level) == [OPEN_BRACKET] + rest
            && if items == [] then rest == [CLOSE_BRACKET] else rest[0] == Render(items[0], format, level + 1)[0]
  {
  }

  lemma AtFirst(c: Text, off: nat, t: Text)
    requires At(c, off, t) && |t| > 0
    ensures off + |t| <= |c| && c[off] == t[0]
  {
    AtByte(c, off, t, 0);
  }

  /** One unfolding of the element loop after its value was read. */
  lemma AfterElement(c: Text, off: nat, depth: nat, v: Parsed<Json>)
    requires Terminated(c) && off + 1 < |c| && ValueAt(c, SkipBlank(c, off + 1), depth) == v
    ensures v.Fail? ==> ElementsAt(c, off, depth) == Fail
    ensures v.Ok? ==>
              && v.next < |c|
              && var sep := SkipBlank(c, v.next);
                 ElementsAt(c, off, depth)
                 == if c[sep] == COMMA then
                      var rest := ElementsAt(c, sep, depth);
                      if rest.Fail? then Fail else Ok([v.value] + rest.value, rest.next)
                    else if c[sep] == CLOSE_BRACKET then Ok([v.value], sep + 1)
                    else Fail
  {
    hide ValueAt, SkipBlank;
  }

  lemma ObjectText(members: seq<Member>, format: bool, level: nat)
    requires Printable(Object(members))
    ensures var rest := RenderMembers(members, format, level + 1);
            Render(Object(members), format, level) == ([OPEN_BRACE] + When(format, NEWLINE)) + rest
            && (members == [] ==> rest == ObjectEnd(format, level + 1))
  {
  }

  function Indent(format: bool, level: nat): Text {
    if format then Tabs(level) else []
  }

  predicate AllPrintable(members: seq<Member>) {
    forall i :: 0 <= i < |members| ==> NulFree(members[i].key) && Printable(members[i].value)
  }

  lemma MembersText(members: seq<Member>, format: bool, level: nat)
    requires members != [] && level > 0 && AllPrintable(members)
    ensures var m := members[0];
            RenderMembers(members, format, level)
            == ((Indent(format, level) + StringText(m.key) + ([COLON] + When(format, TAB)))
                + Render(m.value, format, level) + MemberTail(format, |members| == 1))
               + RenderMembers(members[1..], format, level)
  {
    hide Render, MemberTail, StringText, Tabs, When;
  }

  /** One unfolding of the member loop. */
  lemma AfterMember(c: Text, off: nat, depth: nat)
    requires Terminated(c) && off + 1 < |c|
    ensures var m := MemberAt(c, off, depth);
            if m.Fail? then MembersAt(c, off, depth) == Fail
            else
              var sep := SkipBlank(c, m.next);
              MembersAt(c, off, depth)
              == if c[sep] == COMMA then
                   var rest := MembersAt(c, sep, depth);
                   if rest.Fail? then Fail else Ok([m.value] + rest.value, rest.next)
                 else if c[sep] == CLOSE_BRACE then Ok([m.value], sep + 1)
                 else Fail
  {
    hide MemberAt, SkipBlank;
  }

  /** The text of a printable tree holds no NUL. */
  lemma {:induction false} RenderNulFree(v: Json, format: bool, level: nat)
    requires Printable(v)
    ensures NulFree(Render(v, format, level))
    decreases v, 1
  {
    match v
    case Null =>
    case Bool(_) =>
    case Number(n) => IntegerNulFree(n);
    case Decimal(_) =>
    case String(s) => StringNulFree(s);
    case Array(items) => ItemsNulFree(items, format, level + 1);
    case Object(members) => MembersNulFree(members, format, level + 1);
  }

  lemma IntegerNulFree(n: int)
    ensures NulFree(IntegerText(n))
  {
    assert AllDigits(Digits(if n < 0 then -n else n));
  }

  lemma UnitNulFree(b: byte)
    requires b != NUL
    ensures NulFree(Spelling(UnitOf(b)))
  {
  }

  lemma {:induction false} EscapedNulFree(s: Text)
    requires NulFree(s)
    ensures NulFree(Escaped(s))
  {
    if s != [] {
      UnitNulFree(s[0]);
      assert UnitsOf(s)[1..] == UnitsOf(s[1..]);
      EscapedNulFree(s[1..]);
    }
  }

  lemma StringNulFree(s: Text)
    requires NulFree(s)
    ensures NulFree(StringText(s))
  {
    EscapedNulFree(s);
  }

  lemma {:induction false} ItemsNulFree(items: seq<Json>, format: bool, level: nat)
    requires forall i :: 0 <= i < |items| ==> Printable(items[i])
    ensures NulFree(RenderItems(items, format, level))
    decreases items, 0
  {
    if items != [] {
      RenderNulFree(items[0], format, level);
      ItemsNulFree(items[1..], format, level);
    }
  }

  lemma NulFreeJoin(a: Text, b: Text)
    requires NulFree(a) && NulFree(b)
    ensures NulFree(a + b)
  {
  }

  lemma {:induction false} MembersNulFree(members: seq<Member>, format: bool, level: nat)
    requires level > 0 && AllPrintable(members)
    ensures NulFree(RenderMembers(members, format, level))
    decreases members, 0
  {
    hide Render, StringText;
    if members != [] {
      var m := members[0];
      var indent, key, colon := Indent(format, level), StringText(m.key), [COLON] + When(format, TAB);
      var value, tail := Render(m.value, format, level), MemberTail(format, |members| == 1);
      StringNulFree(m.key);
      RenderNulFree(m.value, format, level);
      MembersNulFree(members[1..], format, level);
      MembersText(members, format, level);
      NulFreeJoin(indent, key);
      NulFreeJoin(indent + key, colon);
      NulFreeJoin(indent + key + colon, value);
      NulFreeJoin(indent + key + colon + value, tail);
      NulFreeJoin(indent + key + colon + value + tail, RenderMembers(members[1..], format, level));
    }
  }

}

/** The parser as it runs: a buffer with an offset and a depth that are advanced in place. */
module JsonParse {
  import opened Bytes
  import opened JsonString
  import opened JsonText
  import opened JsonGrammar

  /** Writes the UTF-8 encoding of `cp` from its last byte to its first, as `utf16_literal_to_utf8` does. */
  method EncodeUtf8(cp: nat, output: array<byte>, at: nat) returns (length: nat)
    requires cp <= 0x10FFFF && at + |Utf8(cp)| <= output.Length
    modifies output
    ensures length == |Utf8(cp)|
    ensures output[at..at + length] == Utf8(cp)
    ensures output[..at] == old(output[..at])
  {
    ghost var t := Utf8(cp);
    var mark;
    if cp < 0x80 {
      length, mark := 1, 0;
    } else if cp < 0x800 {
      length, mark := 2, 0xC0;
    } else if cp < 0x10000 {
      length, mark := 3, 0xE0;
    } else {
      length, mark := 4, 0xF0;
    }
    var rest := cp;
    var position := length - 1;
    while position > 0
      invariant 0 <= position < length
      invariant rest == if length - position == 1 then cp else if length - position == 2 then cp / 64
                        else if length - position == 3 then cp / 4096 else cp / 262144
      invariant forall k :: position < k < length ==> output[at + k] == t[k]
      invariant output[..at] == old(output[..at])
    {
      output[at + position] := 0x80 + rest % 64;
      rest := rest / 64;
      position := position - 1;
    }
    output[at] := mark + rest;
    assert forall k :: 0 <= k < length ==> output[at..at + length][k] == t[k];
  }

  class ParseBuffer {
    const content: Text
    var offset: nat
    var depth: nat

    ghost predicate Valid()
      reads this
    {
      Terminated(content) && offset < |content|
    }

    constructor (c: Text)
      requires Terminated(c)
      ensures Valid() && content == c && offset == 0 && depth == 0
    {
      content, offset, depth := c, 0, 0;
    }

    /** `buffer_skip_whitespace` */
    method SkipWhitespace()
      requires Valid()
      modifies this`offset
      ensures Valid() && offset == SkipBlank(content, old(offset))
    {
      ghost var start := offset;
      while offset < |content| && content[offset] <= 32
        invariant start <= offset <= |content|
        invariant offset < |content| ==> SkipBlank(content, start) == SkipBlank(content, offset)
        invariant offset == |content| ==> SkipBlank(content, start) == |content| - 1
      {
        offset := offset + 1;
      }
      if offset == |content| {
        offset := offset - 1;
      }
    }

    /** `skip_utf8_bom` */
    method SkipByteOrderMark()
      requires Valid() && offset == 0
      modifies this`offset
      ensures Valid()
      ensures offset == if |content| > 4 && At(content, 0, BYTE_ORDER_MARK) then 3 else 0
    {
      if 4 < |content| && content[0..3] == BYTE_ORDER_MARK {
        offset := offset + 3;
      }
    }

    /** The first scan of `parse_string`: finds the closing quote and counts the escapes on the way. */
    method FindClosingQuote(start: nat) returns (r: Option<nat>, skipped: nat)
      requires start <= |content|
      ensures r == ClosingQuote(content, start)
      ensures r.Some? ==> skipped == Escapes(content, start, r.value)
    {
      var inputEnd := start;
      skipped := 0;
      while inputEnd < |content| && content[inputEnd] != QUOTE
        invariant start <= inputEnd <= |content|
        invariant ClosingQuote(content, start) == ClosingQuote(content, inputEnd)
        invariant forall e :: inputEnd <= e <= |content| ==>
                    Escapes(content, start, e) == skipped + Escapes(content, inputEnd, e)
      {
        if content[inputEnd] == BACKSLASH {
          if inputEnd + 1 >= |content| {
            return None, skipped;
          }
          skipped := skipped + 1;
          inputEnd := inputEnd + 1;
        }
        inputEnd := inputEnd + 1;
      }
      if inputEnd >= |content| || content[inputEnd] != QUOTE {
        return None, skipped;
      }
      return Some(inputEnd), skipped;
    }

    /** One turn of the second pass, writing at `written`; a stop is reported as a next position of 0. */
    method UnescapeTurn(p: nat, end: nat, output: array<byte>, written: nat) returns (next: nat, length: nat)
      requires p < end < |content|
      requires var t := DecodeTurn(content, p, end); t.Go? ==> written + |t.out| <= output.Length
      modifies output
      ensures var t := DecodeTurn(content, p, end);
              if t.Stop? then next == 0
              else
                && next == t.next && length == |t.out|
                && output[..written + length] == old(output[..written]) + t.out
    {
      hide Utf8, Utf16Literal, SimpleEscape;
      next, length := 0, 0;
      if content[p] != BACKSLASH {
        output[written] := content[p];
        next, length := p + 1, 1;
      } else if content[p + 1] == LOWER_U {
        var u := Utf16Literal(content, p, end);
        if u.Decoded? {
          length := EncodeUtf8(u.codepoint, output, written);
          next := p + u.length;
          assert output[..written + length] == output[..written] + output[written..written + length];
        }
      } else {
        var e := SimpleEscape(content[p + 1]);
        if e.Some? {
          output[written] := e.value;
          next, length := p + 2, 1;
        }
      }
    }

    /** The second pass of `parse_string`. Every write lands inside what the first scan reserved, also when
        this pass is out of step with the first; `stop` is where it gave up. */
    method Unescape(start: nat, end: nat, output: array<byte>) returns (r: Option<nat>, stop: nat)
      requires start <= end < |content|
      requires output.Length == end + 2 - start - Escapes(content, start, end)
      modifies output
      ensures var d := Decode(content, start, end);
              if d.None? then r.None?
              else r.Some? && r.value < output.Length && output[..r.value] == d.value
      ensures r.None? ==> start <= stop < end
    {
      hide DecodeTurn;
      var p: nat, written: nat := start, 0;
      assert output[..0] == [];
      ghost var whole := Decode(content, start, end);
      JoinedNothing(whole);
      while p < end
        invariant start <= p <= end + 1
        invariant written + Escapes(content, start, p) <= p - start
        invariant written < output.Length
        invariant whole == Joined(output[..written], Decode(content, p, end))
      {
        JoinedTurn(content, p, end, output[..written]);
        if DecodeTurn(content, p, end).Go? {
          TurnPays(content, start, p, end);
          WriteFits(content, start, end, DecodeTurn(content, p, end).next, written + |DecodeTurn(content, p, end).out|);
        }
        var next, length := UnescapeTurn(p, end, output, written);
        if next == 0 {
          return None, p;
        }
        p, written := next, written + length;
      }
      JoinedNothing(Some(output[..written]));
      return Some(written), p;
    }

    /** `parse_string` */
    method ParseString() returns (r: Option<Text>)
      requires Valid()
      modifies this`offset
      ensures var p := StringLiteral(content, old(offset));
              if p.Fail? then r.None? else r == Some(p.value) && offset == p.next && Valid()
    {
      if content[offset] != QUOTE {
        offset := offset + 1;
        return None;
      }
      var end, skipped := FindClosingQuote(offset + 1);
      if end.None? {
        offset := offset + 1;
        return None;
      }
      var allocation := end.value - offset - skipped;
      var output := new byte[allocation + 1];
      var written, stop := Unescape(offset + 1, end.value, output);
      if written.None? {
        offset := stop;
        return None;
      }
      output[written.value] := NUL;
      offset := end.value + 1;
      return Some(output[..written.value]);
    }

    /** `parse_number`: at most 63 number bytes are copied out and handed to `strtod`. */
    method ParseNumber() returns (r: Option<Json>)
      requires Valid()
      modifies this`offset
      ensures var p := NumberAt(content, old(offset));
              if p.Fail? then r.None? else r == Some(p.value) && offset == p.next && Valid()
    {
      hide StrtodLength, NumberOf;
      var limit := NumberLimit(content, offset);
      var i := 0;
      while i < 63 && offset + i < |content| && NumberByte(content[offset + i])
        invariant i <= 63 && offset + i <= limit
        invariant NumberEnd(content, offset, limit) == NumberEnd(content, offset + i, limit)
      {
        i := i + 1;
      }
      var numberText := content[offset..offset + i];
      var n := StrtodLength(numberText);
      if n == 0 {
        return None;
      }
      NumberInside(content, offset);
      offset := offset + n;
      return Some(NumberOf(numberText[..n]));
    }

    /** `parse_value` */
    method ParseValue() returns (r: Option<Json>)
      requires Valid()
      modifies this
      ensures var p := ValueAt(content, old(offset), old(depth));
              if p.Fail? then r.None? else r == Some(p.value) && offset == p.next && depth == old(depth) && Valid()
      decreases |content| - offset, 3
    {
      hide StringLiteral, NumberAt, ElementsAt, MembersAt, At, SkipBlank;
      if At(content, offset, NULL_TEXT) {
        AtInside(content, offset, NULL_TEXT);
        offset := offset + 4;
        return Some(Null);
      }
      if At(content, offset, FALSE_TEXT) {
        AtInside(content, offset, FALSE_TEXT);
        offset := offset + 5;
        return Some(Bool(false));
      }
      if At(content, offset, TRUE_TEXT) {
        AtInside(content, offset, TRUE_TEXT);
        offset := offset + 4;
        return Some(Bool(true));
      }
      if content[offset] == QUOTE {
        var s := ParseString();
        return if s.None? then None else Some(String(s.value));
      }
      if content[offset] == MINUS || IsDigit(content[offset]) {
        r := ParseNumber();
        return;
      }
      if content[offset] == OPEN_BRACKET {
        r := ParseArray();
        return;
      }
      if content[offset] == OPEN_BRACE {
        r := ParseObject();
        return;
      }
      return None;
    }

    /** One element: the byte in front of it is passed, then blanks, the value, and blanks again. */
    method ParseElement() returns (r: Option<Json>)
      requires Valid() && offset + 1 < |content|
      modifies this
      ensures var v := ValueAt(content, SkipBlank(content, old(offset) + 1), old(depth));
              if v.Fail? then r.None?
              else
                && r == Some(v.value) && offset == SkipBlank(content, v.next)
                && depth == old(depth) && Valid() && offset > old(offset)
      decreases |content| - offset, 0
    {
      hide ValueAt, SkipBlank;
      offset := offset + 1;
      SkipWhitespace();
      r := ParseValue();
      if r.Some? {
        SkipWhitespace();
      }
    }

    /** The `do`-`while` loop over the items, entered one byte before the first. */
    method ParseElements() returns (r: Option<seq<Json>>)
      requires Valid() && offset + 1 < |content|
      modifies this
      ensures var p := ElementsAt(content, old(offset), old(depth));
              if p.Fail? then r.None?
              else r == Some(p.value) && offset + 1 == p.next && depth == old(depth) && Valid()
      decreases |content| - offset, 1
    {
      hide ValueAt, ElementsAt, SkipBlank;
      ghost var whole := ElementsAt(content, offset, depth);
      var items: seq<Json> := [];
      var more := true;
      AppendedNothing(whole);
      while more
        invariant old(offset) <= offset < |content| && depth == old(depth) && (more ==> offset + 1 < |content|)
        invariant more ==> whole == Appended(items, ElementsAt(content, offset, depth))
        invariant !more ==> whole == if content[offset] == CLOSE_BRACKET then Ok(items, offset + 1) else Fail
        decreases more, |content| - offset
      {
        ElementsLoop(content, offset, depth, items);
        var x := ParseElement();
        if x.None? {
          return None;
        }
        items := items + [x.value];
        more := content[offset] == COMMA;
      }
      if content[offset] != CLOSE_BRACKET {
        return None;
      }
      return Some(items);
    }

    /** `parse_array` */
    method ParseArray() returns (r: Option<Json>)
      requires Valid() && content[offset] == OPEN_BRACKET
      modifies this
      ensures var p := ValueAt(content, old(offset), old(depth));
              if p.Fail? then r.None? else r == Some(p.value) && offset == p.next && depth == old(depth) && Valid()
      decreases |content| - offset, 2
    {
      hide ValueAt, ElementsAt, SkipBlank;
      AtContainer(content, offset, depth);
      if depth >= NESTING_LIMIT {
        return None;
      }
      AtBracket(content, offset, depth);
      depth := depth + 1;
      offset := offset + 1;
      SkipWhitespace();
      var items: seq<Json> := [];
      if content[offset] != CLOSE_BRACKET {
        offset := offset - 1;
        var all := ParseElements();
        if all.None? {
          return None;
        }
        items := all.value;
      }
      depth := depth - 1;
      offset := offset + 1;
      return Some(Array(items));
    }

    /** One member: key, colon and value, with the blanks around them. */
    method ParseMember() returns (r: Option<Member>)
      requires Valid() && offset + 1 < |content|
      modifies this
      ensures var m := MemberAt(content, old(offset), old(depth));
              if m.Fail? then r.None?
              else
                && r == Some(m.value) && offset == SkipBlank(content, m.next)
                && depth == old(depth) && Valid() && offset > old(offset)
      decreases |content| - offset, 0
    {
      hide ValueAt, SkipBlank, StringLiteral;
      offset := offset + 1;
      SkipWhitespace();
      var key := ParseString();
      if key.None? {
        return None;
      }
      SkipWhitespace();
      if content[offset] != COLON {
        return None;
      }
      offset := offset + 1;
      SkipWhitespace();
      var v := ParseValue();
      if v.None? {
        return None;
      }
      SkipWhitespace();
      return Some(Member(key.value, v.value));
    }

    /** The `do`-`while` loop over the members, entered one byte before the first. */
    method ParseMembers() returns (r: Option<seq<Member>>)
      requires Valid() && offset + 1 < |content|
      modifies this
      ensures var p := MembersAt(content, old(offset), old(depth));
              if p.Fail? then r.None?
              else r == Some(p.value) && offset + 1 == p.next && depth == old(depth) && Valid()
      decreases |content| - offset, 1
    {
      hide ValueAt, MembersAt, SkipBlank, MemberAt;
      ghost var whole := MembersAt(content, offset, depth);
      var members: seq<Member> := [];
      var more := true;
      AppendedNothing(whole);
      while more
        invariant old(offset) <= offset < |content| && depth == old(depth) && (more ==> offset + 1 < |content|)
        invariant more ==> whole == Appended(members, MembersAt(content, offset, depth))
        invariant !more ==> whole == if content[offset] == CLOSE_BRACE then Ok(members, offset + 1) else Fail
        decreases more, |content| - offset
      {
        MembersLoop(content, offset, depth, members);
        var x := ParseMember();
        if x.None? {
          return None;
        }
        members := members + [x.value];
        more := content[offset] == COMMA;
      }
      if content[offset] != CLOSE_BRACE {
        return None;
      }
      return Some(members);
    }

    /** `parse_object` */
    method ParseObject() returns (r: Option<Json>)
      requires Valid() && content[offset] == OPEN_BRACE
      modifies this
      ensures var p := ValueAt(content, old(offset), old(depth));
              if p.Fail? then r.None? else r == Some(p.value) && offset == p.next && depth == old(depth) && Valid()
      decreases |content| - offset, 2
    {
      hide ValueAt, MembersAt, SkipBlank;
      AtContainer(content, offset, depth);
      if depth >= NESTING_LIMIT {
        return None;
      }
      AtBrace(content, offset, depth);
      depth := depth + 1;
      offset := offset + 1;
      SkipWhitespace();
      var members: seq<Member> := [];
      if content[offset] != CLOSE_BRACE {
        offset := offset - 1;
        var all := ParseMembers();
        if all.None? {
          return None;
        }
        members := all.value;
      }
      depth := depth - 1;
      offset := offset + 1;
      return Some(Object(members));
    }

    /** `cJSON_Parse`: the tree, or nothing; the buffer stops right behind what was read. */
    method Parse() returns (r: Option<Json>)
      requires Valid() && offset == 0 && depth == 0
      modifies this
      ensures var p := ParseText(content);
              if p.Fail? then r.None? else r == Some(p.value) && offset == p.next
    {
      hide ValueAt;
      SkipByteOrderMark();
      SkipWhitespace();
      r := ParseValue();
    }
  }

  /** Elements already read, in front of what the rest of the loop yields. */
  function Appended<T>(done: seq<T>, rest: Parsed<seq<T>>): Parsed<seq<T>> {
    if rest.Fail? then Fail else Ok(done + rest.value, rest.next)
  }

  lemma AppendedNothing<T>(rest: Parsed<seq<T>>)
    ensures Appended([], rest) == rest
  {
    if rest.Ok? { assert [] + rest.value == rest.value; }
  }

  lemma AppendedStep<T>(done: seq<T>, x: T, rest: Parsed<seq<T>>)
    ensures Appended(done, if rest.Fail? then Fail else Ok([x] + rest.value, rest.next)) == Appended(done + [x], rest)
  {
    if rest.Ok? { assert done + ([x] + rest.value) == (done + [x]) + rest.value; }
  }

  /** One turn of the element loop, seen from the whole list. */
  lemma ElementsLoop(c: Text, off: nat, depth: nat, done: seq<Json>)
    requires Terminated(c) && off + 1 < |c|
    ensures var whole := Appended(done, ElementsAt(c, off, depth));
            var v := ValueAt(c, SkipBlank(c, off + 1), depth);
            if v.Fail? then whole == Fail
            else
              && v.next < |c|
              && var sep := SkipBlank(c, v.next);
                 if c[sep] == COMMA then
                   sep + 1 < |c| && whole == Appended(done + [v.value], ElementsAt(c, sep, depth))
                 else whole == if c[sep] == CLOSE_BRACKET then Ok(done + [v.value], sep + 1) else Fail
  {
    hide ValueAt, SkipBlank, ElementsAt;
    var v := ValueAt(c, SkipBlank(c, off + 1), depth);
    AfterElement(c, off, depth, v);
    if v.Ok? && c[SkipBlank(c, v.next)] == COMMA {
      AppendedStep(done, v.value, ElementsAt(c, SkipBlank(c, v.next), depth));
    }
  }

  /** One turn of the member loop, seen from the whole list. */
  lemma MembersLoop(c: Text, off: nat, depth: nat, done: seq<Member>)
    requires Terminated(c) && off + 1 < |c|
    ensures var whole := Appended(done, MembersAt(c, off, depth));
            var m := MemberAt(c, off, depth);
            if m.Fail? then whole == Fail
            else
              var sep := SkipBlank(c, m.next);
              if c[sep] == COMMA then
                sep + 1 < |c| && whole == Appended(done + [m.value], MembersAt(c, sep, depth))
              else whole == if c[sep] == CLOSE_BRACE then Ok(done + [m.value], sep + 1) else Fail
  {
    hide ValueAt, SkipBlank, StringLiteral, MemberAt;
    var m := MemberAt(c, off, depth);
    if m.Ok? && c[SkipBlank(c, m.next)] == COMMA {
      AppendedStep(done, m.value, MembersAt(c, SkipBlank(c, m.next), depth));
    }
  }

  /** What is decoded so far, followed by the rest if the rest decodes. */
  function Joined(done: Text, rest: Option<Text>): Option<Text> {
    if rest.None? then None else Some(done + rest.value)
  }

  lemma JoinedNothing(t: Option<Text>)
    ensures Joined([], t) == t
    ensures t.Some? ==> Joined(t.value, Some([])) == t
  {
    if t.Some? { assert [] + t.value == t.value == t.value + []; }
  }

  lemma JoinedTurn(c: Text, p: nat, end: nat, done: Text)
    requires p < end < |c|
    ensures var t := DecodeTurn(c, p, end);
            Joined(done, Decode(c, p, end))
            == if t.Stop? then None else Joined(done + t.out, Decode(c, t.next, end))
  {
    hide DecodeTurn;
    var t := DecodeTurn(c, p, end);
    if t.Go? && Decode(c, t.next, end).Some? {
      var rest := Decode(c, t.next, end).value;
      assert done + (t.out + rest) == (done + t.out) + rest;
    }
  }
}

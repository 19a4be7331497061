/** The printer as it runs: a growing byte buffer that each step reserves room in before writing. */
module JsonPrint {
  import opened Bytes
  import opened JsonString
  import opened JsonText
  import opened JsonGrammar

  const SIZE_MAX: nat := 0xFFFF_FFFF_FFFF_FFFF

  const DEFAULT_BUFFER_SIZE: nat := 256

  /** The size `ensure` asks for when `needed` bytes must fit. */
  function NewSize(needed: nat): (n: nat)
    requires needed <= SIZE_MAX
    ensures needed <= n <= SIZE_MAX
  {
    if needed > SIZE_MAX / 2 then SIZE_MAX else 2 * needed
  }

  /** `s` with `t` written over it from `at` on. */
  function Overwrite(s: Text, at: nat, t: Text): (r: Text)
    requires at + |t| <= |s|
    ensures |r| == |s|
  {
    s[..at] + t + s[at + |t|..]
  }

  /** Writing on where the last write ended is one longer write. */
  lemma OverwriteJoin(s: Text, at: nat, t: Text, u: Text)
    requires at + |t| + |u| <= |s|
    ensures Overwrite(Overwrite(s, at, t), at + |t|, u) == Overwrite(s, at, t + u)
  {
  }

  lemma OverwriteNothing(s: Text, at: nat)
    requires at <= |s|
    ensures Overwrite(s, at, []) == s
  {
  }

  lemma OverwritePrefix(s: Text, at: nat, t: Text)
    requires at + |t| <= |s|
    ensures Overwrite(s, at, t)[..at] == s[..at]
    ensures Overwrite(s, at, t)[..at + |t|] == s[..at] + t
  {
  }

  class PrintBuffer {
    var buffer: array?<byte>
    var length: nat
    var offset: nat
    var depth: nat
    const noalloc: bool
    const format: bool
    /** The largest block the allocator still hands out. */
    const available: nat
    /** Does the allocator offer to enlarge a block? The default one does. */
    const reallocates: bool
    /** The end of what the last `Ensure` reserved: nothing is written from here on. */
    ghost var reserved: nat
    /** Has a byte behind the end of a block been read? */
    ghost var overread: bool

    ghost predicate Valid()
      reads this`buffer, this`length, this`offset, this`reserved
    {
      && buffer != null && length == buffer.Length
      && (length == 0 ==> offset == 0) && (length > 0 ==> offset < length)
      && reserved <= length
    }

    ghost function Written(): (t: Text)
      requires Valid()
      reads this`buffer, this`length, this`offset, this`reserved, buffer
      ensures |t| == offset
    {
      buffer[..offset]
    }

    /** A demand for `total` bytes of buffer can be met. */
    ghost predicate Fits(total: nat)
      reads this`length
    {
      total <= length || (!noalloc && total <= SIZE_MAX && NewSize(total) <= available)
    }

    /** The buffer is the old one or a new one that is no smaller; without an allocator it is the old one. A byte behind a
        block has been read exactly if it was before, or an empty block was copied by hand. */
    twostate predicate Kept()
      reads this`buffer, this`length, this`overread
    {
      && length >= old(length) && (buffer == old(buffer) || fresh(buffer))
      && (overread <==> old(overread) || (!reallocates && old(length) == 0 < length))
      && (noalloc ==> buffer == old(buffer) && length == old(length))
    }

    /** `t` has been printed after `before` and is terminated; the offset may still be inside it. */
    ghost predicate Printed(before: Text, t: Text)
      reads this`buffer, this`length, this`offset, this`reserved, buffer
    {
      && Valid()
      && |before| <= offset <= |before| + |t| < length
      && buffer[..|before| + |t|] == before + t
      && buffer[|before| + |t|] == NUL
    }

    constructor (block: array<byte>, noalloc: bool, format: bool, available: nat, reallocates: bool := true)
      ensures Valid() && buffer == block && offset == 0 && depth == 0
      ensures this.noalloc == noalloc && this.format == format && this.available == available
      ensures this.reallocates == reallocates && !overread
    {
      buffer, length, offset, depth := block, block.Length, 0, 0;
      this.noalloc, this.format, this.available, this.reallocates := noalloc, format, available, reallocates;
      reserved, overread := 0, false;
    }

    /** `ensure`: room for `needed` bytes and one more behind the offset, growing the buffer if it may. With an allocator
        that cannot enlarge, one byte more than was written is copied, which is behind the end exactly of an empty
        block. */
    method Ensure(needed: nat) returns (ok: bool)
      requires Valid()
      modifies this`buffer, this`length, this`reserved, this`overread
      ensures ok <==> old(Fits(offset + needed + 1))
      ensures overread <==> old(overread) || (ok && old(length) < offset + needed + 1 && !reallocates && old(length) == 0)
      ensures ok ==>
                && Valid() && offset + needed + 1 <= length && reserved == offset + needed
                && Written() == old(Written()) && Kept()
      ensures !ok ==> buffer == null || buffer == old(buffer)
    {
      var total := needed + offset + 1;
      if total <= length {
        reserved := offset + needed;
        return true;
      }
      if noalloc {
        return false;
      }
      if total > SIZE_MAX {
        return false;
      }
      var newSize := NewSize(total);
      if newSize > available {
        buffer, length := null, 0;
        return false;
      }
      var block := new byte[newSize];
      CopyInto(block);
      buffer, length := block, newSize;
      reserved := offset + needed;
      return true;
    }

    /** The copy into a larger block: all of the old one, or one byte more than was written. */
    method CopyInto(block: array<byte>)
      requires Valid() && block != buffer && length < block.Length
      modifies block, this`overread
      ensures block[..offset] == buffer[..offset] && buffer[..] == old(buffer[..])
      ensures overread <==> old(overread) || (!reallocates && length == 0)
    {
      var i, limit := 0, if reallocates then length else offset + 1;
      while i < limit
        modifies block, this`overread
        invariant 0 <= i <= limit
        invariant forall k :: 0 <= k < i && k < length ==> block[k] == buffer[k]
        invariant overread <==> old(overread) || i > length
      {
        if i < length {
          block[i] := buffer[i];
        } else {
          overread := true;
        }
        i := i + 1;
      }
    }

    /** Writes one byte inside what was reserved. */
    method Put(at: nat, b: byte)
      requires Valid() && offset <= at < reserved
      modifies buffer
      ensures buffer[..] == Overwrite(old(buffer[..]), at, [b])
    {
      buffer[at] := b;
    }

    /** Writes `t` from `at` on, inside what was reserved. */
    method PutText(at: nat, t: Text)
      requires Valid() && offset <= at && at + |t| <= reserved
      modifies buffer
      ensures buffer[..] == Overwrite(old(buffer[..]), at, t)
    {
      hide Overwrite;
      var i := 0;
      OverwriteNothing(buffer[..], at);
      assert t[..0] == [];
      while i < |t|
        invariant 0 <= i <= |t|
        invariant buffer[..] == Overwrite(old(buffer[..]), at, t[..i])
      {
        Put(at + i, t[i]);
        OverwriteJoin(old(buffer[..]), at, t[..i], [t[i]]);
        assert t[..i] + [t[i]] == t[..i + 1];
        i := i + 1;
      }
      assert t[..|t|] == t;
    }

    /** Writes `t` and its terminator. */
    method PutTerminated(at: nat, t: Text)
      requires Valid() && offset <= at && at + |t| < reserved
      modifies buffer
      ensures buffer[..] == Overwrite(old(buffer[..]), at, t + [NUL])
    {
      hide Overwrite;
      PutText(at, t);
      Put(at + |t|, NUL);
      OverwriteJoin(old(buffer[..]), at, t, [NUL]);
    }

    lemma PrintedFrom(before: Text, old_: Text, t: Text)
      requires Valid() && |before| == offset && |before| + |t| < length == |old_| && old_[..offset] == before
      requires buffer[..] == Overwrite(old_, offset, t + [NUL])
      ensures Printed(before, t)
    {
    }

    /** Reserve, write `t`, maybe terminate it, and move the offset behind it. */
    method Emit(t: Text, needed: nat, terminate: bool) returns (ok: bool)
      requires Valid()
      requires |t| <= needed <= |t| + 1 && (terminate ==> needed == |t| + 1)
      modifies this, buffer
      ensures depth == old(depth)
      ensures ok <==> old(Fits(offset + needed + 1))
      ensures ok ==>
                && Valid() && Written() == old(Written()) + t && offset == old(offset) + |t|
                && Kept()
    {
      hide Overwrite, Fits;
      ok := Ensure(needed);
      if !ok {
        return;
      }
      ghost var before, all := Written(), buffer[..];
      if terminate {
        PutTerminated(offset, t);
        OverwritePrefix(all, offset, t + [NUL]);
        assert buffer[..offset + |t|] == buffer[..][..offset + |t| + 1][..offset + |t|] == before + t;
      } else {
        PutText(offset, t);
        OverwritePrefix(all, offset, t);
        assert buffer[..offset + |t|] == buffer[..][..offset + |t|];
      }
      offset := offset + |t|;
    }

    /** Reserve and write `t` with its terminator, leaving the offset in front of it. */
    method EmitPending(t: Text, needed: nat) returns (ok: bool)
      requires Valid() && needed == |t| + 1
      modifies this, buffer
      ensures depth == old(depth) && offset == old(offset)
      ensures ok <==> old(Fits(offset + |t| + 2))
      ensures ok ==>
                && Printed(old(Written()), t) && Kept() && length >= offset + |t| + 2
    {
      hide Overwrite, Fits;
      ok := Ensure(needed);
      if !ok {
        return;
      }
      ghost var before, all := Written(), buffer[..];
      PutTerminated(offset, t);
      PrintedFrom(before, all, t);
    }

    /** `update_offset`: behind the text just printed, found by its terminator. */
    method UpdateOffset(ghost before: Text, ghost t: Text)
      requires Printed(before, t) && NulFree(t)
      modifies this`offset
      ensures Valid() && offset == |before| + |t| && Written() == before + t
    {
      ghost var end := |before| + |t|;
      forall i | |before| <= i < end ensures buffer[i] != NUL {
        assert buffer[i] == buffer[..end][i] == t[i - |before|];
      }
      while buffer[offset] != NUL
        invariant |before| <= offset <= end
        invariant Printed(before, t)
        decreases end - offset
      {
        offset := offset + 1;
      }
    }

    /** `print_number`: the digits come from `sprintf`, for a double as for an integer. */
    method PrintNumber(v: Json) returns (ok: bool)
      requires Valid() && Printable(v) && (v.Number? || v.Decimal?)
      modifies this, buffer
      ensures depth == old(depth)
      ensures ok ==>
                && Printed(old(Written()), Render(v, format, 0)) && Kept()
                && length >= old(offset) + |Render(v, format, 0)| + 2
      ensures ok <==> old(Fits(offset + |Render(v, format, 0)| + 2))
    {
      hide Fits, Render, IntegerText, Printable;
      var text := if v.Number? then IntegerText(v.n) else v.text;
      NumberFits(v);
      if |text| > 25 {
        return false;
      }
      ok := EmitPending(text, |text| + 1);
      if ok {
        offset := offset + |text|;
      }
    }

    lemma NumberFits(v: Json)
      requires Printable(v) && (v.Number? || v.Decimal?)
      ensures Render(v, format, 0) == (if v.Number? then IntegerText(v.n) else v.text) && |Render(v, format, 0)| <= 25
    {
      if v.Number? { IntegerConverts(v.n); }
    }

    /** The bytes escaping adds to `s`, counted as `print_string_ptr` counts them. */
    method CountEscapes(s: Text) returns (extra: nat)
      ensures |s| + extra == |Escaped(s)|
      ensures extra == 0 ==> Escaped(s) == s
    {
      hide Escaped, UnitOf;
      extra := 0;
      var i := 0;
      assert s[0..] == s;
      while i < |s|
        invariant 0 <= i <= |s|
        invariant i + extra + |Escaped(s[i..])| == |Escaped(s)|
        invariant extra == 0 ==> Escaped(s) == s[..i] + Escaped(s[i..])
      {
        EscapedStep(s[i..]);
        UnitSpelling(s[i]);
        assert s[i..][1..] == s[i + 1..];
        if EscapeLetter(s[i]).Some? {
          extra := extra + 1;
        } else if s[i] < 32 {
          extra := extra + 5;
        }
        i := i + 1;
      }
      EscapedNothing(s[i..]);
    }

    /** `print_string_ptr` */
    method PrintString(s: Text) returns (ok: bool)
      requires Valid()
      modifies this, buffer
      ensures depth == old(depth) && offset == old(offset)
      ensures ok ==>
                && Printed(old(Written()), StringText(s)) && Kept()
                && length >= old(offset) + |StringText(s)| + 2
      ensures ok <==> old(Fits(offset + |StringText(s)| + 2))
    {
      hide Overwrite, Fits, Escaped;
      var extra := CountEscapes(s);
      var outputLength := |s| + extra;
      ok := Ensure(outputLength + 3);
      if !ok {
        return;
      }
      ghost var before, all := Written(), buffer[..];
      Put(offset, QUOTE);
      if extra == 0 {
        PutText(offset + 1, s);
      } else {
        PutEscaped(offset + 1, s);
      }
      OverwriteJoin(all, offset, [QUOTE], Escaped(s));
      PutTerminated(offset + outputLength + 1, [QUOTE]);
      OverwriteJoin(all, offset, [QUOTE] + Escaped(s), [QUOTE, NUL]);
      assert [QUOTE] + Escaped(s) + [QUOTE, NUL] == StringText(s) + [NUL];
      assert [QUOTE] + [NUL] == [QUOTE, NUL];
      PrintedFrom(before, all, StringText(s));
    }

    /** The escaping loop of `print_string_ptr`. */
    method PutEscaped(at: nat, s: Text)
      requires Valid() && offset <= at && at + |Escaped(s)| <= reserved
      modifies buffer
      ensures buffer[..] == Overwrite(old(buffer[..]), at, Escaped(s))
    {
      hide UnitOf, Overwrite, Escaped, Spelling;
      ghost var all, done: Text := buffer[..], [];
      var i, out := 0, at;
      OverwriteNothing(all, at);
      assert s[0..] == s && [] + Escaped(s) == Escaped(s);
      while i < |s|
        invariant 0 <= i <= |s| && out == at + |done|
        invariant done + Escaped(s[i..]) == Escaped(s)
        invariant buffer[..] == Overwrite(all, at, done)
      {
        EscapedStep(s[i..]);
        UnitSpelling(s[i]);
        ghost var unit := Spelling(UnitOf(s[i]));
        assert s[i..][1..] == s[i + 1..];
        assert done + (unit + Escaped(s[i + 1..])) == (done + unit) + Escaped(s[i + 1..]);
        OverwriteJoin(all, at, done, unit);
        var b := s[i];
        if b > 31 && b != QUOTE && b != BACKSLASH {
          PutText(out, [b]);
          out := out + 1;
        } else if EscapeLetter(b).Some? {
          PutText(out, [BACKSLASH, EscapeLetter(b).value]);
          out := out + 2;
        } else {
          PutText(out, [BACKSLASH, LOWER_U, DIGIT_0, DIGIT_0, HexDigit(b / 16), HexDigit(b % 16)]);
          out := out + 6;
        }
        i := i + 1;
        done := done + unit;
      }
      EscapedNothing(s[i..]);
      assert done + [] == done;
    }

    /** A demand that could be met before can still be met. */
    twostate lemma FitsKept(m: nat)
      requires Kept()
      ensures old(Fits(m)) ==> Fits(m)
      ensures noalloc && Fits(m) ==> old(Fits(m))
    {
    }

    lemma FitsLess(n: nat, m: nat)
      ensures n <= m && Fits(m) ==> Fits(n)
    {
    }

    /** `print_value`: the rendering of `v` at the current depth, pending behind the offset. It succeeds if a
        buffer of two bytes more than the text can be had; without an allocator, only then. */
    method PrintValue(v: Json) returns (ok: bool)
      requires Valid() && Printable(v)
      modifies this, buffer
      ensures ok ==> Printed(old(Written()), Render(v, format, old(depth))) && depth == old(depth) && Kept()
      ensures old(Fits(offset + |Render(v, format, depth)| + 2)) ==> ok
      ensures noalloc && ok ==> old(Fits(offset + |Render(v, format, depth)| + 2))
      decreases v, 3
    {
      hide Fits, Printed;
      match v
      case Null =>
        ok := EmitPending(NULL_TEXT, 5);
      case Bool(b) =>
        if b {
          ok := EmitPending(TRUE_TEXT, 5);
        } else {
          ok := EmitPending(FALSE_TEXT, 6);
        }
      case Number(_) =>
        ok := PrintNumber(v);
      case Decimal(_) =>
        ok := PrintNumber(v);
      case String(s) =>
        ok := PrintString(s);
      case Array(items) =>
        ok := PrintArray(items);
      case Object(members) =>
        ok := PrintObject(members);
    }

    /** `print_array` */
    method PrintArray(items: seq<Json>) returns (ok: bool)
      requires Valid() && Printable(Array(items))
      modifies this, buffer
      ensures ok ==> Printed(old(Written()), Render(Array(items), format, old(depth))) && depth == old(depth) && Kept()
      ensures old(Fits(offset + |Render(Array(items), format, depth)| + 2)) ==> ok
      ensures noalloc && ok ==> old(Fits(offset + |Render(Array(items), format, depth)| + 2))
      decreases items, 2
    {
      hide Render, RenderItems, Fits, Written, Valid, Printed;
      ghost var whole := Written() + Render(Array(items), format, depth);
      ghost var before := Written();
      ArrayText(items, format, depth);
      assert whole == before + [OPEN_BRACKET] + RenderItems(items, format, depth + 1);
      FitsLess(offset + 2, |whole| + 2);
      ok := Emit([OPEN_BRACKET], 1, false);
      if !ok {
        return;
      }
      FitsKept(|whole| + 2);
      depth := depth + 1;
      ok := PrintItems(items, whole);
      if !ok {
        return;
      }
      FitsKept(|whole| + 2);
      ghost var inner := Written();
      ok := EmitPending([CLOSE_BRACKET], 2);
      depth := depth - 1;
      if ok {
        PendingTail(before, inner, Render(Array(items), format, depth), [CLOSE_BRACKET]);
      }
    }

    /** The loop over the elements; the closing bracket is what is left of `whole`. */
    method PrintItems(items: seq<Json>, ghost whole: Text) returns (ok: bool)
      requires Valid() && Printable(Array(items))
      requires Written() + RenderItems(items, format, depth) == whole
      modifies this, buffer
      ensures depth == old(depth) || !ok
      ensures ok ==> Valid() && Written() + [CLOSE_BRACKET] == whole && Kept() && |old(Written())| <= offset
      ensures old(Fits(|whole| + 2)) ==> ok
      decreases items, 1
    {
      hide Printed, Render, RenderItems, Fits, Written, Valid;
      ghost var roomy := Fits(|whole| + 2);
      assert items[0..] == items;
      var i := 0;
      while i < |items|
        invariant 0 <= i <= |items|
        invariant Valid() && depth == old(depth) && Kept() && old(offset) <= offset
        invariant Written() + RenderItems(items[i..], format, depth) == whole
        invariant roomy ==> Fits(|whole| + 2)
      {
        ok := PrintItem(items, i, whole);
        if !ok {
          return;
        }
        FitsKept(|whole| + 2);
        i := i + 1;
      }
      NoItems(items[i..], format, depth);
      ok := true;
    }

    /** One turn of the element loop: the value, and the separator if another element follows. */
    method PrintItem(items: seq<Json>, i: nat, ghost whole: Text) returns (ok: bool)
      requires Valid() && Printable(Array(items)) && i < |items|
      requires Written() + RenderItems(items[i..], format, depth) == whole
      modifies this, buffer
      ensures depth == old(depth) || !ok
      ensures ok ==> Valid() && Written() + RenderItems(items[i + 1..], format, depth) == whole && Kept()
      ensures ok ==> old(offset) <= offset
      ensures old(Fits(|whole| + 2)) ==> ok
      decreases items, 0
    {
      hide Printed, Render, RenderItems, Fits, Written, Valid;
      ghost var before, text := Written(), Render(items[i], format, depth);
      ItemText(items, i, format, depth);
      FitsLess(offset + |text| + 2, |whole| + 2);
      ok := PrintValue(items[i]);
      if !ok {
        return;
      }
      RenderNulFree(items[i], format, depth);
      UpdateOffset(before, text);
      if i + 1 < |items| {
        var sep := [COMMA] + When(format, SPACE);
        FitsKept(|whole| + 2);
        FitsLess(offset + |sep| + 2, |whole| + 2);
        ok := Emit(sep, |sep| + 1, true);
        assert (before + text + sep) + RenderItems(items[i + 1..], format, depth)
            == before + (text + sep + RenderItems(items[i + 1..], format, depth));
      } else {
        assert (before + text) + RenderItems(items[i + 1..], format, depth)
            == before + (text + RenderItems(items[i + 1..], format, depth));
      }
    }

    /** `print_object` */
    method PrintObject(members: seq<Member>) returns (ok: bool)
      requires Valid() && Printable(Object(members))
      modifies this, buffer
      ensures ok ==> Printed(old(Written()), Render(Object(members), format, old(depth))) && depth == old(depth) && Kept()
      ensures old(Fits(offset + |Render(Object(members), format, depth)| + 2)) ==> ok
      ensures noalloc && ok ==> old(Fits(offset + |Render(Object(members), format, depth)| + 2))
      decreases members, 2
    {
      hide Render, RenderMembers, ObjectEnd, When, Fits, Written, Valid, Printed;
      ghost var whole := Written() + Render(Object(members), format, depth);
      ghost var before := Written();
      ObjectText(members, format, depth);
      var open := [OPEN_BRACE] + When(format, NEWLINE);
      assert whole == before + open + RenderMembers(members, format, depth + 1);
      FitsLess(offset + |open| + 2, |whole| + 2);
      ok := Emit(open, |open| + 1, false);
      if !ok {
        return;
      }
      FitsKept(|whole| + 2);
      depth := depth + 1;
      ok := PrintMembers(members, whole);
      if !ok {
        return;
      }
      FitsKept(|whole| + 2);
      ghost var inner := Written();
      var close := ObjectEnd(format, depth);
      ok := EmitPending(close, if format then depth + 1 else 2);
      depth := depth - 1;
      if ok {
        PendingTail(before, inner, Render(Object(members), format, depth), close);
      }
    }

    /** The loop over the members; the closing bracket is what is left of `whole`. */
    method PrintMembers(members: seq<Member>, ghost whole: Text) returns (ok: bool)
      requires Valid() && depth > 0 && Printable(Object(members))
      requires Written() + RenderMembers(members, format, depth) == whole
      modifies this, buffer
      ensures depth == old(depth) || !ok
      ensures ok ==> Valid() && Written() + ObjectEnd(format, depth) == whole && Kept() && |old(Written())| <= offset
      ensures old(Fits(|whole| + 2)) ==> ok
      decreases members, 1
    {
      hide Printed, Render, RenderMembers, Fits, ObjectEnd;
      ghost var roomy := Fits(|whole| + 2);
      assert members[0..] == members;
      var i := 0;
      while i < |members|
        invariant 0 <= i <= |members|
        invariant Valid() && depth == old(depth) && Kept() && old(offset) <= offset
        invariant Written() + RenderMembers(members[i..], format, depth) == whole
        invariant roomy ==> Fits(|whole| + 2)
      {
        ok := PrintMember(members, i, whole);
        if !ok {
          return;
        }
        FitsKept(|whole| + 2);
        i := i + 1;
      }
      NoMembers(members[i..], format, depth);
      ok := true;
    }

    /** One turn of the member loop: indentation, key, colon, value, and the end of the line. */
    method PrintMember(members: seq<Member>, i: nat, ghost whole: Text) returns (ok: bool)
      requires Valid() && depth > 0 && Printable(Object(members)) && i < |members|
      requires Written() + RenderMembers(members[i..], format, depth) == whole
      modifies this, buffer
      ensures depth == old(depth) || !ok
      ensures ok ==> Valid() && Written() + RenderMembers(members[i + 1..], format, depth) == whole && Kept()
      ensures ok ==> old(offset) <= offset
      ensures old(Fits(|whole| + 2)) ==> ok
      decreases members, 0
    {
      hide Printed, Render, RenderMembers, StringText, MemberHead, MemberTail, Fits, Written, Valid;
      var m, last := members[i], i + 1 == |members|;
      ghost var rest := RenderMembers(members[i + 1..], format, depth);
      MemberText(members, i, format, depth);
      ok := PrintKey(m.key, whole, Render(m.value, format, depth) + MemberTail(format, last) + rest);
      if !ok {
        return;
      }
      FitsKept(|whole| + 2);
      ok := PrintMemberValue(m.value, last, whole, rest);
    }

    /** The value of a member and the end of the line. */
    method PrintMemberValue(v: Json, last: bool, ghost whole: Text, ghost rest: Text) returns (ok: bool)
      requires Valid() && Printable(v) && |rest| > 0
      requires Written() + (Render(v, format, depth) + MemberTail(format, last) + rest) == whole
      modifies this, buffer
      ensures depth == old(depth) || !ok
      ensures ok ==> Valid() && Written() + rest == whole && Kept() && old(offset) <= offset
      ensures old(Fits(|whole| + 2)) ==> ok
      decreases v, 4
    {
      hide Printed, Render, MemberTail, Fits, Written, Valid;
      ghost var before, text := Written(), Render(v, format, depth);
      FitsLess(offset + |text| + 2, |whole| + 2);
      ok := PrintValue(v);
      if !ok {
        return;
      }
      RenderNulFree(v, format, old(depth));
      UpdateOffset(before, text);
      var tail := MemberTail(format, last);
      FitsKept(|whole| + 2);
      FitsLess(offset + |tail| + 2, |whole| + 2);
      ok := Emit(tail, |tail| + 1, true);
      assert (before + text + tail) + rest == before + (text + tail + rest);
    }

    /** Indentation, key and colon of a member; `rest` is what is still to come. */
    method PrintKey(key: Text, ghost whole: Text, ghost rest: Text) returns (ok: bool)
      requires Valid() && NulFree(key) && |rest| > 0
      requires Written() + MemberHead(key, format, depth) + rest == whole
      modifies this, buffer
      ensures depth == old(depth)
      ensures ok ==> Valid() && Written() + rest == whole && Kept() && old(offset) <= offset
      ensures old(Fits(|whole| + 2)) ==> ok
    {
      hide Printed, StringText, Tabs, Fits, Written, Valid;
      ghost var start := Written();
      var indent, colon := Indent(format, depth), [COLON] + When(format, TAB);
      FitsLess(offset + depth + 1, |whole| + 2);
      if format {
        ok := Emit(indent, depth, false);
        if !ok {
          return;
        }
      }
      assert Written() == start + indent;
      ghost var before := Written();
      FitsKept(|whole| + 2);
      FitsLess(offset + |StringText(key)| + 2, |whole| + 2);
      ok := PrintString(key);
      if !ok {
        return;
      }
      StringNulFree(key);
      UpdateOffset(before, StringText(key));
      FitsKept(|whole| + 2);
      FitsLess(offset + |colon| + 1, |whole| + 2);
      ok := Emit(colon, |colon|, false);
      assert start + MemberHead(key, format, depth) == start + indent + StringText(key) + colon;
    }

    lemma PendingTail(before: Text, inner: Text, text: Text, tail: Text)
      requires Printed(inner, tail) && inner + tail == before + text && |before| <= |inner|
      ensures Printed(before, text)
    {
    }
  }

  lemma NoItems(items: seq<Json>, format: bool, depth: nat)
    requires items == []
    ensures RenderItems(items, format, depth) == [CLOSE_BRACKET]
  {
  }

  lemma NoMembers(members: seq<Member>, format: bool, depth: nat)
    requires members == [] && depth > 0
    ensures RenderMembers(members, format, depth) == ObjectEnd(format, depth)
  {
  }

  lemma ItemText(items: seq<Json>, i: nat, format: bool, depth: nat)
    requires i < |items| && Printable(Array(items))
    ensures RenderItems(items[i..], format, depth)
         == Render(items[i], format, depth)
            + (if i + 1 < |items| then [COMMA] + When(format, SPACE) else [])
            + RenderItems(items[i + 1..], format, depth)
  {
  }

  lemma MemberText(members: seq<Member>, i: nat, format: bool, depth: nat)
    requires i < |members| && depth > 0 && Printable(Object(members))
    ensures RenderMembers(members[i..], format, depth)
         == MemberHead(members[i].key, format, depth)
            + (Render(members[i].value, format, depth) + MemberTail(format, i + 1 == |members|)
               + RenderMembers(members[i + 1..], format, depth))
  {
    hide Render, MemberHead, MemberTail;
    assert members[i..][1..] == members[i + 1..];
  }

  lemma EscapedNothing(s: Text)
    requires s == []
    ensures Escaped(s) == []
  {
  }

  lemma EscapedStep(s: Text)
    requires s != []
    ensures Escaped(s) == Spelling(UnitOf(s[0])) + Escaped(s[1..])
    ensures |Spelling(UnitOf(s[0]))|
         == if EscapeLetter(s[0]).Some? then 2 else if s[0] < 32 then 6 else 1
    ensures |Spelling(UnitOf(s[0]))| == 1 ==> Spelling(UnitOf(s[0])) == [s[0]]
  {
    assert UnitsOf(s)[1..] == UnitsOf(s[1..]);
  }

  lemma UnitSpelling(b: byte)
    ensures Spelling(UnitOf(b))
         == if b > 31 && b != QUOTE && b != BACKSLASH then [b]
            else if EscapeLetter(b).Some? then [BACKSLASH, EscapeLetter(b).value]
            else [BACKSLASH, LOWER_U, DIGIT_0, DIGIT_0, HexDigit(b / 16), HexDigit(b % 16)]
  {
  }

  /** `print` behind `cJSON_Print` and `cJSON_PrintUnformatted`: the rendering, whenever memory can be had for
      twice the text and its reserve. */
  method PrintTree(v: Json, format: bool, available: nat) returns (r: Option<Text>)
    requires Printable(v)
    ensures r.Some? ==> r.value == Render(v, format, 0)
    ensures DEFAULT_BUFFER_SIZE <= available && 2 * (|Render(v, format, 0)| + 2) <= available <= SIZE_MAX ==> r.Some?
  {
    if DEFAULT_BUFFER_SIZE > available {
      return None;
    }
    ghost var overread;
    r, overread := PrintBuffered(v, DEFAULT_BUFFER_SIZE, format, available, true);
  }

  /** `cJSON_PrintBuffered`: the rendering, from a first buffer of any size. A byte behind a block was read exactly if that
      buffer was empty and the allocator cannot enlarge a block. */
  method PrintBuffered(v: Json, prebuffer: nat, format: bool, available: nat, reallocates: bool)
    returns (r: Option<Text>, ghost overread: bool)
    requires Printable(v)
    ensures r.Some? ==> r.value == Render(v, format, 0) && (overread <==> !reallocates && prebuffer == 0)
    ensures prebuffer <= available && 2 * (|Render(v, format, 0)| + 2) <= available <= SIZE_MAX ==> r.Some?
  {
    if prebuffer > available {
      return None, false;
    }
    var block := new byte[prebuffer];
    var p := new PrintBuffer(block, false, format, available, reallocates);
    ghost var text := Render(v, format, 0);
    assert p.Written() == [];
    var ok := p.PrintValue(v);
    if !ok {
      return None, false;
    }
    RenderNulFree(v, format, 0);
    p.UpdateOffset([], text);
    return Some(p.buffer[..p.offset]), p.overread;
  }

  /** It happens: printing anything at all from an empty first buffer with such an allocator. */
  method OverreadHappens(v: Json, format: bool, available: nat) returns (r: Option<Text>, ghost overread: bool)
    requires Printable(v) && 2 * (|Render(v, format, 0)| + 2) <= available <= SIZE_MAX
    ensures r == Some(Render(v, format, 0)) && overread
  {
    r, overread := PrintBuffered(v, 0, format, available, false);
  }

  /** `cJSON_PrintPreallocated`: it succeeds exactly when the block is two bytes longer than the text, so five
      bytes more than the terminated text needs are always enough. */
  method PrintPreallocated(v: Json, block: array<byte>, format: bool) returns (ok: bool)
    requires Printable(v)
    modifies block
    ensures ok <==> |Render(v, format, 0)| + 2 <= block.Length
    ensures ok ==> block[..|Render(v, format, 0)| + 1] == Render(v, format, 0) + [NUL]
  {
    var p := new PrintBuffer(block, true, format, 0);
    ghost var text := Render(v, format, 0);
    assert p.Written() == [];
    ok := p.PrintValue(v);
    if ok {
      assert block[..|text| + 1] == block[..|text|] + [block[|text|]];
    }
  }
}

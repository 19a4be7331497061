/** Byte strings, the ASCII codes the JSON text uses, and the "text `t` stands at offset `off`" relation. */
module Bytes {

  type byte = b: int | 0 <= b < 256

  type Text = seq<byte>

  /** The bytes of an ASCII string. */
  function Ascii(s: string): (t: Text)
    ensures |t| == |s| && forall i :: 0 <= i < |s| ==> t[i] == s[i] as int % 256
  {
    seq(|s|, i requires 0 <= i < |s| => s[i] as int % 256)
  }

  const NUL: byte := 0
  const BACKSPACE: byte := 8
  const TAB: byte := 9
  const NEWLINE: byte := 10
  const FORM_FEED: byte := 12
  const RETURN: byte := 13
  const SPACE: byte := 32
  const QUOTE: byte := 34
  const PLUS: byte := 43
  const COMMA: byte := 44
  const MINUS: byte := 45
  const DOT: byte := 46
  const SLASH: byte := 47
  const DIGIT_0: byte := 48
  const DIGIT_9: byte := 57
  const COLON: byte := 58
  const UPPER_E: byte := 69
  const OPEN_BRACKET: byte := 91
  const BACKSLASH: byte := 92
  const CLOSE_BRACKET: byte := 93
  const LOWER_B: byte := 98
  const LOWER_E: byte := 101
  const LOWER_F: byte := 102
  const LOWER_N: byte := 110
  const LOWER_R: byte := 114
  const LOWER_T: byte := 116
  const LOWER_U: byte := 117
  const OPEN_BRACE: byte := 123
  const CLOSE_BRACE: byte := 125

  const NULL_TEXT: Text := [110, 117, 108, 108]
  const TRUE_TEXT: Text := [116, 114, 117, 101]
  const FALSE_TEXT: Text := [102, 97, 108, 115, 101]
  const BYTE_ORDER_MARK: Text := [0xEF, 0xBB, 0xBF]

  /** The text `t` stands in `c` at offset `off`. */
  predicate At(c: Text, off: nat, t: Text) {
    off + |t| <= |c| && c[off..off + |t|] == t
  }

  lemma AtSplit(c: Text, off: nat, a: Text, b: Text)
    ensures At(c, off, a + b) <==> At(c, off, a) && At(c, off + |a|, b)
  {
    if At(c, off, a + b) {
      assert a == (a + b)[..|a|] && b == (a + b)[|a|..];
      assert c[off..off + |a|] == c[off..off + |a + b|][..|a|];
      assert c[off + |a|..off + |a| + |b|] == c[off..off + |a + b|][|a|..];
    }
    if At(c, off, a) && At(c, off + |a|, b) {
      assert c[off..off + |a + b|] == c[off..off + |a|] + c[off + |a|..off + |a| + |b|];
    }
  }

  lemma AtByte(c: Text, off: nat, t: Text, k: nat)
    requires At(c, off, t) && k < |t|
    ensures c[off + k] == t[k]
  {
    assert c[off + k] == c[off..off + |t|][k];
  }

  /** A C string: a NUL at the end and nowhere else. */
  predicate Terminated(c: Text) {
    |c| > 0 && c[|c| - 1] == NUL && forall i :: 0 <= i < |c| - 1 ==> c[i] != NUL
  }

  predicate NulFree(t: Text) {
    forall i :: 0 <= i < |t| ==> t[i] != NUL
  }

  datatype Option<+T> = None | Some(value: T)
}

/** Unsigned numbers in network byte order. */
module ByteOrder {
  import opened Arithmetic
  import opened Bytes

  /** The `k` low-order bytes of `n`, most significant first. */
  function BigEndian(n: nat, k: nat): (t: Text)
    ensures |t| == k
  {
    if k == 0 then [] else BigEndian(n / 256, k - 1) + [n % 256]
  }

  function Value(t: Text): nat {
    if t == [] then 0 else 256 * Value(t[..|t| - 1]) + t[|t| - 1]
  }

  function Power256(k: nat): (p: nat)
    ensures p > 0
  {
    if k == 0 then 1 else 256 * Power256(k - 1)
  }

  /** What was written in `k` bytes reads back modulo 256 to the `k`. */
  lemma {:induction false} BigEndianRoundTrip(n: nat, k: nat)
    ensures Value(BigEndian(n, k)) == n % Power256(k)
  {
    if k > 0 {
      var t := BigEndian(n, k);
      assert t[..|t| - 1] == BigEndian(n / 256, k - 1);
      BigEndianRoundTrip(n / 256, k - 1);
      ModStep(n, Power256(k - 1));
    }
  }

  lemma ModStep(n: nat, m: nat)
    requires m > 0
    ensures 256 * (n / 256 % m) + n % 256 == n % (256 * m)
  {
    var q, r := n / 256 / m, n / 256 % m;
    assert n / 256 == q * m + r;
    assert n == 256 * (q * m + r) + n % 256;
    assert 256 * (q * m) == q * (256 * m);
    var low := 256 * r + n % 256;
    assert r <= m - 1;
    assert low < 256 * m;
    assert n == q * (256 * m) + low;
    RemainderIs(n, q, 256 * m, low);
  }

  /** Four bytes, the most significant first. */
  lemma FourBytes(n: nat)
    requires n < 0x1_0000_0000
    ensures BigEndian(n, 4) == [n / 0x100_0000, n / 0x1_0000 % 0x100, n / 0x100 % 0x100, n % 0x100]
  {
    var a, b, c := n / 256, n / 256 / 256, n / 256 / 256 / 256;
    assert b == n / 0x1_0000 && c == n / 0x100_0000 < 256;
    assert BigEndian(c, 1) == BigEndian(c / 256, 0) + [c] == [c];
    assert BigEndian(b, 2) == [c, b % 256];
    assert BigEndian(a, 3) == [c, b % 256, a % 256];
  }

  /** In eight bytes a number of 32 bits has four zero bytes in front. */
  lemma EightBytes(n: nat)
    requires n < 0x1_0000_0000
    ensures BigEndian(n, 8) == [0, 0, 0, 0] + BigEndian(n, 4)
  {
    var a, b, c, d := n / 256, n / 256 / 256, n / 256 / 256 / 256, n / 256 / 256 / 256 / 256;
    assert d == 0;
    assert BigEndian(0, 0) == [] && BigEndian(0, 1) == [0] && BigEndian(0, 2) == [0, 0] && BigEndian(0, 3) == [0, 0, 0];
    assert BigEndian(0, 4) == [0, 0, 0, 0] && BigEndian(d, 0) == [];
    assert BigEndian(c, 5) == [0, 0, 0, 0] + BigEndian(c, 1);
    assert BigEndian(b, 6) == [0, 0, 0, 0] + BigEndian(b, 2);
    assert BigEndian(a, 7) == [0, 0, 0, 0] + BigEndian(a, 3);
  }

  lemma SmallIsExact(n: nat, k: nat)
    requires n < Power256(k)
    ensures Value(BigEndian(n, k)) == n
  {
    BigEndianRoundTrip(n, k);
  }
}

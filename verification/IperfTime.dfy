/** Timestamps of 32-bit seconds and microseconds, and their order. */
module IperfTime {

  const MILLION: nat := 1_000_000
  const UINT32: nat := 0x1_0000_0000

  /** One past the last representable microsecond. */
  const WRAP: nat := UINT32 * MILLION

  datatype Time = Time(secs: nat, usecs: nat)

  predicate Normal(t: Time) {
    t.secs < UINT32 && t.usecs < MILLION
  }

  /** `iperf_time_in_usecs` */
  function InUsecs(t: Time): (u: nat) {
    t.secs * MILLION + t.usecs
  }

  /** `iperf_time_add_usecs`: the 32-bit seconds wrap around, so the sum is taken modulo `WRAP`. */
  method AddUsecs(t: Time, usecs: nat) returns (r: Time)
    requires Normal(t)
    ensures Normal(r) && InUsecs(r) == (InUsecs(t) + usecs) % WRAP
  {
    PlusInUsecs(t, usecs);
    var total := t.usecs + usecs;
    r := Time((t.secs + total / MILLION) % UINT32, total % MILLION);
  }

  function Plus(t: Time, usecs: nat): (r: Time)
    ensures Normal(r)
  {
    var total := t.usecs + usecs;
    Time((t.secs + total / MILLION) % UINT32, total % MILLION)
  }

  /** A normal time is the one with its microseconds. */
  lemma TimeIsPlus(r: Time, t: Time, usecs: nat)
    requires Normal(r) && InUsecs(r) == (InUsecs(t) + usecs) % WRAP
    ensures r == Plus(t, usecs)
  {
    PlusInUsecs(t, usecs);
  }

  /** Adding is addition of microseconds modulo the range of the clock. */
  lemma PlusInUsecs(t: Time, usecs: nat)
    ensures InUsecs(Plus(t, usecs)) == (InUsecs(t) + usecs) % WRAP
  {
    var total := t.usecs + usecs;
    var seconds := t.secs + total / MILLION;
    assert InUsecs(t) + usecs == seconds * MILLION + total % MILLION;
    var high := seconds / UINT32;
    assert seconds * MILLION == high * WRAP + (seconds % UINT32) * MILLION;
    var rest := (seconds % UINT32) * MILLION + total % MILLION;
    assert InUsecs(Plus(t, usecs)) == rest < WRAP;
    ModIs(InUsecs(t) + usecs, high, rest);
  }

  /** Microseconds become seconds by the million, and whole seconds leave them alone. */
  lemma SecondsCarry(t: Time, n: nat)
    requires Normal(t)
    ensures Plus(t, n * 1_000_000) == Time((t.secs + n) % 0x1_0000_0000, t.usecs)
    ensures Plus(t, 1) == if t.usecs == 999_999 then Time((t.secs + 1) % 0x1_0000_0000, 0)
                          else Time(t.secs, t.usecs + 1)
  {
    assert (t.usecs + n * MILLION) / MILLION == n && (t.usecs + n * MILLION) % MILLION == t.usecs;
  }

  lemma ModIs(x: nat, high: nat, rest: nat)
    requires x == high * WRAP + rest && rest < WRAP
    ensures x % WRAP == rest
  {
  }

  /** `iperf_time_compare` */
  function Compare(a: Time, b: Time): (c: int) {
    if a.secs < b.secs then -1
    else if a.secs > b.secs then 1
    else if a.usecs < b.usecs then -1
    else if a.usecs > b.usecs then 1
    else 0
  }

  /** Comparing timestamps is comparing microseconds. */
  lemma CompareIsOrder(a: Time, b: Time)
    requires Normal(a) && Normal(b)
    ensures Compare(a, b) < 0 <==> InUsecs(a) < InUsecs(b)
    ensures Compare(a, b) > 0 <==> InUsecs(a) > InUsecs(b)
    ensures Compare(a, b) == 0 <==> a == b
  {
  }

  /** `iperf_time_diff`: the distance, and whether `a` is not later than `b`. */
  method Diff(a: Time, b: Time) returns (past: bool, diff: Time)
    requires Normal(a) && Normal(b)
    ensures past <==> InUsecs(a) <= InUsecs(b)
    ensures InUsecs(diff) == if past then InUsecs(b) - InUsecs(a) else InUsecs(a) - InUsecs(b)
    ensures Normal(diff)
  {
    var order := Compare(a, b);
    CompareIsOrder(a, b);
    if order == 0 {
      return true, Time(0, 0);
    } else if order == 1 {
      var secs, usecs := a.secs - b.secs, a.usecs;
      if usecs < b.usecs {
        secs, usecs := secs - 1, usecs + MILLION;
      }
      return false, Time(secs, usecs - b.usecs);
    } else {
      var secs, usecs := b.secs - a.secs, b.usecs;
      if usecs < a.usecs {
        secs, usecs := secs - 1, usecs + MILLION;
      }
      return true, Time(secs, usecs - a.usecs);
    }
  }
}

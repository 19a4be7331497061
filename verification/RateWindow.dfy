/** The server's limit on the total rate: a cyclic array over the last `n` statistics periods. */
module RateWindow {
  import opened Arithmetic

  function Sum(s: seq<nat>): nat {
    if s == [] then 0 else Sum(s[..|s| - 1]) + s[|s| - 1]
  }

  lemma NothingSummed(s: seq<nat>)
    requires s == []
    ensures Sum(s) == 0
  {
  }

  lemma SumStep(s: seq<nat>, k: nat)
    requires k < |s|
    ensures Sum(s[..k + 1]) == Sum(s[..k]) + s[k]
  {
    assert s[..k + 1][..k] == s[..k];
  }

  /** Where the `k`-th sample is stored in a cycle of `n`. */
  function Slot(k: nat, n: nat): (i: nat)
    requires n > 0
    ensures i < n
  {
    (k + 1) % n
  }

  /** A rotation of a sequence has the same sum. */
  lemma {:induction false} SumSplit(a: seq<nat>, b: seq<nat>)
    ensures Sum(a + b) == Sum(a) + Sum(b) && (|b| == 1 ==> Sum(b) == b[0])
  {
    if b == [] {
      assert a + b == a;
    } else {
      assert (a + b)[..|a + b| - 1] == a + b[..|b| - 1];
      SumSplit(a, b[..|b| - 1]);
    }
  }

  /** The last `n` samples. */
  function LastOf(samples: seq<nat>, n: nat): (w: seq<nat>)
    requires n <= |samples|
    ensures |w| == n
  {
    samples[|samples| - n..]
  }

  /** Does the cyclic array hold the last samples, the newest at `Slot(|samples| - 1, n)`? */
  ghost predicate Holds(cells: seq<nat>, samples: seq<nat>, n: nat)
    requires 0 < n <= |cells|
  {
    forall k :: 0 <= k < |samples| && |samples| - n <= k ==> cells[Slot(k, n)] == samples[k]
  }

  lemma NoMultiple(d: int, c: int, n: nat)
    requires 0 < d < n
    ensures d != c * n
  {
    if c >= 1 {
      assert c * n >= n;
    } else {
      assert c * n <= 0;
    }
  }

  lemma DivMod(x: nat, n: nat)
    requires n > 0
    ensures x == x / n * n + x % n
  {
  }

  lemma SlotsDiffer(j: nat, k: nat, n: nat)
    requires n > 0 && j < k < j + n
    ensures Slot(j, n) != Slot(k, n)
  {
    var a, b := (j + 1) / n, (k + 1) / n;
    DivMod(j + 1, n);
    DivMod(k + 1, n);
    assert (b - a) * n == b * n - a * n;
    NoMultiple(k - j, b - a, n);
  }

  lemma HoldsStep(cells: seq<nat>, samples: seq<nat>, n: nat, x: nat)
    requires 0 < n <= |cells| && Holds(cells, samples, n)
    ensures Holds(cells[Slot(|samples|, n) := x], samples + [x], n)
  {
    var more, now := samples + [x], cells[Slot(|samples|, n) := x];
    forall k | 0 <= k < |more| && |more| - n <= k ensures now[Slot(k, n)] == more[k] {
      if k < |samples| {
        SlotsDiffer(k, |samples|, n);
      }
    }
  }

  /** In a full cycle, the array read from its start is the last `n` samples, rotated. */
  lemma FullCycle(cells: seq<nat>, samples: seq<nat>, n: nat)
    requires 0 < n <= |cells| && n <= |samples| && Holds(cells, samples, n)
    ensures Sum(cells[..n]) == Sum(LastOf(samples, n))
  {
    var w := LastOf(samples, n);
    var newest := Slot(|samples| - 1, n);
    var cut := n - 1 - newest;
    assert cells[..newest + 1] == w[cut..] by {
      forall i | 0 <= i <= newest ensures cells[i] == w[cut + i] {
        CellOf(samples, n, i);
      }
    }
    assert cells[newest + 1..n] == w[..cut] by {
      forall i | newest < i < n ensures cells[i] == w[i - newest - 1] {
        CellOf(samples, n, i);
      }
    }
    assert cells[..n] == cells[..newest + 1] + cells[newest + 1..n];
    assert w == w[..cut] + w[cut..];
    SumSplit(cells[..newest + 1], cells[newest + 1..n]);
    SumSplit(w[..cut], w[cut..]);
  }

  /** Which of the last `n` samples cell `i` holds. */
  lemma CellOf(samples: seq<nat>, n: nat, i: nat)
    requires 0 < n <= |samples| && i < n
    ensures var newest := Slot(|samples| - 1, n);
            var k := if i <= newest then |samples| - 1 - (newest - i) else |samples| - 1 - (newest + n - i);
            && |samples| - n <= k < |samples| && Slot(k, n) == i
  {
    var total := |samples|;
    var q, newest := total / n, total % n;
    assert Slot(total - 1, n) == newest;
    if i <= newest {
      assert total - (newest - i) == q * n + i;
      RemainderIs(total - (newest - i), q, n, i);
    } else {
      assert total - (newest + n - i) == (q - 1) * n + i;
      RemainderIs(total - (newest + n - i), q - 1, n, i);
    }
  }

  /** The rate test as the code makes it: whole bits per second, rounded down, above the limit. */
  ghost predicate Exceeds(bytes: nat, seconds: real, limit: nat)
    requires seconds > 0.0
  {
    ((bytes * 8) as real / seconds).Floor > limit
  }

  /** The rounding costs one bit per second: the limit is exceeded exactly from one above it on. */
  lemma ExceedsMeans(bytes: nat, seconds: real, limit: nat)
    requires seconds > 0.0
    ensures Exceeds(bytes, seconds, limit) <==> (bytes * 8) as real >= (limit + 1) as real * seconds
  {
    var x := (bytes * 8) as real / seconds;
    assert x * seconds == (bytes * 8) as real;
    Scaled(x, (limit + 1) as real, seconds);
    assert x.Floor > limit <==> x >= (limit + 1) as real;
  }

  /** The documented test, average above the limit, and the code's agree exactly outside that last bit. */
  lemma AgreesWithAverage(bytes: nat, seconds: real, limit: nat)
    requires seconds > 0.0
    ensures (Exceeds(bytes, seconds, limit) <==> (bytes * 8) as real > limit as real * seconds) <==>
            !(limit as real * seconds < (bytes * 8) as real < (limit + 1) as real * seconds)
  {
    ExceedsMeans(bytes, seconds, limit);
    Scaled(limit as real, (limit + 1) as real, seconds);
  }

  /** So an average strictly above the limit can go unnoticed: 8 bits in 5 seconds against 1 bit per second. */
  lemma AboveLimitUnnoticed()
    ensures (1 * 8) as real > 1.0 * 5.0 && !Exceeds(1, 5.0, 1)
  {
    ExceedsMeans(1, 5.0, 1);
  }

  /** The `n` samples before the `k`-th average one bit per second or more above the limit. */
  ghost predicate WindowExceeds(samples: seq<nat>, k: nat, n: nat, seconds: real, limit: nat)
    requires seconds > 0.0
  {
    n <= k <= |samples| && Exceeds(Sum(samples[k - n..k]), seconds, limit)
  }

  ghost predicate SomeWindowExceeds(samples: seq<nat>, n: nat, seconds: real, limit: nat)
    requires seconds > 0.0
  {
    exists k: nat :: WindowExceeds(samples, k, n, seconds, limit)
  }

  /** A new sample opens one new window at most; the old windows are what they were. */
  lemma WindowsGrow(before: seq<nat>, x: nat, n: nat, seconds: real, limit: nat)
    requires seconds > 0.0 && n > 0
    ensures SomeWindowExceeds(before + [x], n, seconds, limit) <==>
            (SomeWindowExceeds(before, n, seconds, limit)
             || WindowExceeds(before + [x], |before| + 1, n, seconds, limit))
  {
    hide Exceeds, Sum;
    var samples := before + [x];
    forall k: nat | k <= |before|
      ensures WindowExceeds(samples, k, n, seconds, limit) <==> WindowExceeds(before, k, n, seconds, limit)
    {
      if n <= k {
        assert samples[k - n..k] == before[k - n..k];
      }
    }
  }

  lemma NewestWindow(cells: seq<nat>, samples: seq<nat>, n: nat, seconds: real, limit: nat)
    requires 0 < n <= |cells| && n <= |samples| && Holds(cells, samples, n) && seconds > 0.0
    ensures WindowExceeds(samples, |samples|, n, seconds, limit) <==> Exceeds(Sum(cells[..n]), seconds, limit)
  {
    hide Exceeds, Sum;
    FullCycle(cells, samples, n);
    assert samples[|samples| - n..|samples|] == LastOf(samples, n);
  }

  class RateLimiter {
    const n: nat
    const statsInterval: real
    const limit: nat
    const cells: array<nat>
    var lastIndex: nat
    var statsCount: nat
    var exceeded: bool
    ghost var samples: seq<nat>

    ghost predicate Configured() {
      0 < n <= cells.Length && statsInterval > 0.0 && statsInterval * n as real > 0.0
    }

    /** From the `n`-th sample on the array holds the last `n` samples, and the flag is up exactly if some `n`
        consecutive samples so far were over the limit. */
    ghost predicate Valid()
      reads this, cells
    {
      && Configured() && Stored()
      && (exceeded <==> SomeWindowExceeds(samples, n, statsInterval * n as real, limit))
    }

    ghost predicate Stored()
      requires Configured()
      reads this, cells
    {
      && statsCount == |samples| && lastIndex == |samples| % n
      && Holds(cells[..], samples, n)
    }

    constructor (n: nat, statsInterval: real, limit: nat, capacity: nat)
      requires 0 < n <= capacity && statsInterval > 0.0
      ensures Valid() && samples == [] && !exceeded && fresh(cells)
    {
      this.n, this.statsInterval, this.limit := n, statsInterval, limit;
      cells := new nat[capacity](_ => 0);
      lastIndex, statsCount, exceeded, samples := 0, 0, false, [];
      new;
      Scaled(0.0, statsInterval, n as real);
    }

    /** The new sample goes over the oldest one. */
    method Store(sample: nat)
      requires Configured() && Stored()
      modifies this`lastIndex, this`statsCount, this`samples, cells
      ensures Stored() && samples == old(samples) + [sample]
    {
      hide Holds;
      IndexStep(|samples|, n);
      lastIndex := lastIndex + 1;
      if lastIndex >= n {
        lastIndex := 0;
      }
      cells[lastIndex] := sample;
      HoldsStep(old(cells[..]), samples, n, sample);
      assert cells[..] == old(cells[..])[Slot(|samples|, n) := sample];
      samples := samples + [sample];
      statsCount := statsCount + 1;
    }

    method Total() returns (total: nat)
      requires n <= cells.Length
      ensures total == Sum(cells[..n])
    {
      total := 0;
      var i := 0;
      assert cells[..0] == [];
      while i < n
        invariant 0 <= i <= n && total == Sum(cells[..i])
      {
        assert cells[..i + 1][..i] == cells[..i];
        total := total + cells[i];
        i := i + 1;
      }
    }

    /** `iperf_check_total_rate`: a finished test and a limit of zero are not checked. */
    method CheckTotalRate(sample: nat, done: bool)
      requires Valid()
      modifies this, cells
      ensures Valid()
      ensures samples == if done || limit == 0 then old(samples) else old(samples) + [sample]
    {
      hide Holds, Sum, Exceeds, SomeWindowExceeds;
      if done || limit == 0 {
        return;
      }
      ghost var before := samples;
      Store(sample);
      ghost var span := statsInterval * n as real;
      WindowsGrow(before, sample, n, span, limit);
      if statsCount < n {
        return;
      }
      var total := Total();
      NewestWindow(cells[..], samples, n, span, limit);
      assert cells[..][..n] == cells[..n];
      var seconds := statsInterval * n as real;
      var over := ((total * 8) as real / seconds).Floor > limit;
      WhenExceeds(total, seconds, limit);
      if over {
        exceeded := true;
      }
    }
  }

  lemma WhenExceeds(bytes: nat, seconds: real, limit: nat)
    requires seconds > 0.0
    ensures Exceeds(bytes, seconds, limit) <==> ((bytes * 8) as real / seconds).Floor > limit
  {
  }

  lemma IndexStep(k: nat, n: nat)
    requires n > 0
    ensures (k + 1) % n == if k % n + 1 >= n then 0 else k % n + 1
  {
    var q, r := k / n, k % n;
    if r + 1 >= n {
      assert k + 1 == (q + 1) * n + 0;
      RemainderIs(k + 1, q + 1, n, 0);
    } else {
      RemainderIs(k + 1, q, n, r + 1);
    }
  }
}

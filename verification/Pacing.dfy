/** The sender's throttle: how far the bits sent may run ahead of the configured rate. */
module Pacing {
  import opened Arithmetic
  import opened Sequences

  const MILLION := 1_000_000

  // ------------------------------------------------------------------- the verdict

  /** `iperf_check_throttle`'s test: whole bits per second, rounded down, below the rate. At zero elapsed time
      the quotient is not a number the conversion defines; `undefined` is whatever it yields there. */
  function Green(bits: nat, micros: nat, rate: nat, undefined: int): bool {
    if micros == 0 then rate - undefined > 0
    else rate - (bits as real / (micros as real / MILLION as real)).Floor > 0
  }

  lemma QuotientBelow(bits: nat, micros: nat, rate: nat)
    requires micros > 0
    ensures var q := bits as real / (micros as real / MILLION as real);
            q < rate as real <==> bits * MILLION < rate * micros
  {
    Quotient(bits, micros);
    Scaled(bits as real / (micros as real / MILLION as real), rate as real, micros as real);
    assert rate as real * micros as real == (rate * micros) as real;
  }

  /** The rounding down is harmless here: the light is green exactly while the bits sent are below the rate
      times the time. */
  lemma GreenMeans(bits: nat, micros: nat, rate: nat, undefined: int)
    requires micros > 0
    ensures Green(bits, micros, rate, undefined) <==> bits * MILLION < rate * micros
  {
    QuotientBelow(bits, micros, rate);
  }

  /** With a quotient that is off by a factor between `low` and `high`, as that of two doubles is, the light is off by as
      much: green means below the rate but for `low`, and red means at the rate but for `high`. */
  lemma RoundedGreen(bits: nat, micros: nat, rate: nat, q: real, low: real, high: real)
    requires micros > 0
    requires var x := bits as real / (micros as real / MILLION as real); low * x <= q <= high * x
    ensures rate - q.Floor > 0 ==> low * (bits * MILLION) as real < rate as real * micros as real
    ensures rate - q.Floor <= 0 ==> rate as real * micros as real <= high * (bits * MILLION) as real
  {
    var x, m, n := bits as real / (micros as real / MILLION as real), micros as real, (bits * MILLION) as real;
    Quotient(bits, micros);
    if q.Floor < rate {
      BelowRate(low, x, m, n, q, rate);
    } else {
      AtRate(high, x, m, n, q, rate);
    }
  }

  lemma BelowRate(low: real, x: real, m: real, n: real, q: real, rate: nat)
    requires m > 0.0 && x * m == n && low * x <= q && q.Floor < rate
    ensures low * n < rate as real * m
  {
    var y := low * x;
    Regroup(low, x, m, n);
    assert y < rate as real;
    Scaled(y, rate as real, m);
  }

  lemma AtRate(high: real, x: real, m: real, n: real, q: real, rate: nat)
    requires m > 0.0 && x * m == n && high * x >= q && q.Floor >= rate
    ensures high * n >= rate as real * m
  {
    var y := high * x;
    Regroup(high, x, m, n);
    assert y >= rate as real;
    Scaled(y, rate as real, m);
  }

  lemma Regroup(a: real, x: real, m: real, n: real)
    requires x * m == n
    ensures (a * x) * m == a * n
  {
  }

  lemma Quotient(bits: nat, micros: nat)
    requires micros > 0
    ensures var x := bits as real / (micros as real / MILLION as real); x * micros as real == (bits * MILLION) as real
  {
    var seconds := micros as real / MILLION as real;
    var x := bits as real / seconds;
    assert x * seconds == bits as real;
    assert seconds * MILLION as real == micros as real;
    assert x * (seconds * MILLION as real) == (x * seconds) * MILLION as real;
  }

  /** Green means "not ahead of the rate" exactly if time has passed, nothing was sent yet, or the undefined
      quotient reads as a rate that is not below the limit. */
  lemma GreenIsSafe(bits: nat, micros: nat, rate: nat, undefined: int)
    ensures (Green(bits, micros, rate, undefined) ==> bits * MILLION <= rate * micros)
       <==> (micros > 0 || bits == 0 || undefined >= rate)
  {
    if micros > 0 {
      GreenMeans(bits, micros, rate, undefined);
    }
  }

  // -------------------------------------------------------------------- the sender

  /** What one call of the protocol's send function did: its result, the microseconds since the start at which
      it returned, and whether the byte or block goal had been met before it. */
  datatype Outcome = Outcome(r: int, at: nat, goalMet: bool)

  /** What had been sent at some moment. */
  datatype Moment = Moment(bytes: nat, micros: nat)

  const SOFT_ERROR := -1

  ghost predicate InTime(outcomes: seq<Outcome>, from: nat, until: nat) {
    && from <= until
    && (forall k :: 0 <= k < |outcomes| ==> from <= outcomes[k].at <= until)
    && forall j, k :: 0 <= j < k < |outcomes| ==> outcomes[j].at <= outcomes[k].at
  }

  /** Does the round end at turn `k`? At an error, or before its last turn when the goal is met. */
  predicate EndsAt(outcomes: seq<Outcome>, k: nat, n: nat)
    requires k <= n <= |outcomes|
  {
    k == n || (n - k > 1 && outcomes[k].goalMet) || outcomes[k].r < 0
  }

  /** The moments at which turns `k` to `n` of a round have sent, from `bytes` on. */
  function RoundMoments(bytes: nat, outcomes: seq<Outcome>, k: nat, n: nat): seq<Moment>
    requires k <= n <= |outcomes|
    decreases n - k
  {
    if EndsAt(outcomes, k, n) then []
    else
      var sent := bytes + outcomes[k].r;
      [Moment(sent, outcomes[k].at)] + RoundMoments(sent, outcomes, k + 1, n)
  }

  /** What the round returns: zero, or its hard error. */
  function RoundResult(outcomes: seq<Outcome>, k: nat, n: nat): int
    requires k <= n <= |outcomes|
    decreases n - k
  {
    if !EndsAt(outcomes, k, n) then RoundResult(outcomes, k + 1, n)
    else if k == n || (n - k > 1 && outcomes[k].goalMet) || outcomes[k].r == SOFT_ERROR then 0
    else outcomes[k].r
  }

  /** The bytes sent after some moments, from `bytes` on. */
  function BytesAfter(bytes: nat, moments: seq<Moment>): nat {
    if moments == [] then bytes else moments[|moments| - 1].bytes
  }

  /** A round under way: it has been through the moments `so`, and its end gives them all. */
  ghost predicate UnderWay(start: nat, bytes: nat, so: seq<Moment>, outcomes: seq<Outcome>, k: nat, n: nat)
    requires k <= n <= |outcomes|
  {
    && so + RoundMoments(bytes, outcomes, k, n) == RoundMoments(start, outcomes, 0, n)
    && bytes == BytesAfter(start, so) && RoundResult(outcomes, k, n) == RoundResult(outcomes, 0, n)
  }

  lemma RoundStarts(start: nat, outcomes: seq<Outcome>, n: nat)
    requires n <= |outcomes|
    ensures UnderWay(start, start, [], outcomes, 0, n)
  {
    assert [] + RoundMoments(start, outcomes, 0, n) == RoundMoments(start, outcomes, 0, n);
  }

  lemma RoundEnds(start: nat, bytes: nat, so: seq<Moment>, outcomes: seq<Outcome>, k: nat, n: nat)
    requires k <= n <= |outcomes| && UnderWay(start, bytes, so, outcomes, k, n) && EndsAt(outcomes, k, n)
    ensures so == RoundMoments(start, outcomes, 0, n) && bytes == BytesAfter(start, so)
    ensures RoundResult(outcomes, 0, n)
         == if k == n || (n - k > 1 && outcomes[k].goalMet) || outcomes[k].r == SOFT_ERROR then 0 else outcomes[k].r
  {
    assert so + [] == so;
  }

  lemma RoundGoesOn(start: nat, bytes: nat, so: seq<Moment>, outcomes: seq<Outcome>, k: nat, n: nat)
    requires k <= n <= |outcomes| && UnderWay(start, bytes, so, outcomes, k, n) && !EndsAt(outcomes, k, n)
    ensures var sent := bytes + outcomes[k].r;
            UnderWay(start, sent, so + [Moment(sent, outcomes[k].at)], outcomes, k + 1, n)
  {
    var sent := bytes + outcomes[k].r;
    Associates(so, [Moment(sent, outcomes[k].at)], RoundMoments(sent, outcomes, k + 1, n));
  }

  /** The bytes of some turns. */
  function SumOf(outcomes: seq<Outcome>): int {
    if outcomes == [] then 0 else outcomes[0].r + SumOf(outcomes[1..])
  }

  /** The turns `k` to `n` of a round told one by one: the first `|so|` of them sent, from `start` bytes before the round
      on, and the next one, if there is one, did not. No message is sent once the goal is met, but for the last one of a
      round, which is tried all the same; none is sent after an error, and an error other than a transient one is what
      the round returns. */
  ghost predicate RoundTold(start: nat, outcomes: seq<Outcome>, k: nat, n: nat, so: seq<Moment>, r: int) {
    && k + |so| <= n <= |outcomes|
    && (forall i :: k <= i < k + |so| ==>
          && outcomes[i].r >= 0 && (i < n - 1 ==> !outcomes[i].goalMet)
          && so[i - k].bytes == start + SumOf(outcomes[..i + 1]) && so[i - k].micros == outcomes[i].at)
    && (k + |so| == n ==> r == 0)
    && (k + |so| < n ==>
          var next := outcomes[k + |so|];
          if k + |so| < n - 1 && next.goalMet then r == 0 else next.r < 0 && r == if next.r == -1 then 0 else next.r)
  }

  /** The specification of a round tells it so. */
  lemma {:induction false} RoundMeaning(start: nat, bytes: nat, outcomes: seq<Outcome>, k: nat, n: nat)
    requires k <= n <= |outcomes| && bytes == start + SumOf(outcomes[..k])
    ensures RoundTold(start, outcomes, k, n, RoundMoments(bytes, outcomes, k, n), RoundResult(outcomes, k, n))
    decreases n - k
  {
    hide SumOf;
    if !EndsAt(outcomes, k, n) {
      SumStep(outcomes, k);
      var sent := bytes + outcomes[k].r;
      RoundMeaning(start, sent, outcomes, k + 1, n);
      var so, later := RoundMoments(bytes, outcomes, k, n), RoundMoments(sent, outcomes, k + 1, n);
      assert so == [Moment(sent, outcomes[k].at)] + later;
      forall i | k <= i < k + |so|
        ensures outcomes[i].r >= 0 && (i < n - 1 ==> !outcomes[i].goalMet)
        ensures so[i - k].bytes == start + SumOf(outcomes[..i + 1]) && so[i - k].micros == outcomes[i].at
      {
        if i > k {
          assert so[i - k] == later[i - (k + 1)];
        }
      }
    }
  }

  lemma {:induction false} SumStep(outcomes: seq<Outcome>, k: nat)
    requires k < |outcomes|
    ensures SumOf(outcomes[..k + 1]) == SumOf(outcomes[..k]) + outcomes[k].r
    decreases k
  {
    if k > 0 {
      SumStep(outcomes[1..], k - 1);
      assert outcomes[..k + 1][1..] == outcomes[1..][..k] && outcomes[..k][1..] == outcomes[1..][..k - 1];
    }
  }

  class Pacer {
    const rate: nat
    const burst: nat
    const multisend: nat
    const blksize: nat
    const undefined: int
    var bytesSent: nat
    var greenLight: bool
    var done: bool
    var failed: bool
    ghost var now: nat
    ghost var history: seq<Moment>
    ghost var safe: bool   // no check fell at time zero with bytes sent and an undefined quotient below the rate

    /** Messages per round. */
    function Messages(): nat {
      if burst != 0 then burst else if rate == 0 then multisend else 1
    }

    /** The bound: the rate times the time, and one round of messages on top. */
    ghost predicate Within(m: Moment) {
      8 * m.bytes * MILLION <= rate * m.micros + 8 * Messages() * blksize * MILLION
    }

    /** At every moment so far the bound held; and the sender goes on only from where it is not ahead at all. */
    ghost predicate Valid()
      reads this
    {
      rate > 0 && safe ==>
        && (forall k :: 0 <= k < |history| ==> Within(history[k]))
        && Within(Moment(bytesSent, now))
        && (greenLight && !done && !failed ==> 8 * bytesSent * MILLION <= rate * now)
    }

    constructor (rate: nat, burst: nat, multisend: nat, blksize: nat, undefined: int)
      ensures Valid() && bytesSent == 0 && greenLight && !done && !failed && history == [] && now == 0 && safe
      ensures this.rate == rate && this.burst == burst && this.multisend == multisend
      ensures this.blksize == blksize && this.undefined == undefined
    {
      this.rate, this.burst, this.multisend, this.blksize := rate, burst, multisend, blksize;
      this.undefined := undefined;
      bytesSent, greenLight, done, failed := 0, true, false, false;
      now, history, safe := 0, [], true;
      new;
      NoneSent();
    }

    lemma NoneSent()
      requires bytesSent == 0
      ensures Within(Moment(bytesSent, now))
    {
    }

    /** `iperf_check_throttle` without its sleeping branches. */
    method CheckThrottle(micros: nat)
      modifies this`greenLight
      ensures done || rate == 0 ==> greenLight == old(greenLight)
      ensures !done && rate != 0 ==> greenLight == Green(8 * bytesSent, micros, rate, undefined)
    {
      if done || rate == 0 {
        return;
      }
      if micros == 0 {
        greenLight := rate - undefined > 0;
        return;
      }
      var seconds := micros as real / MILLION as real;
      var bits := bytesSent * 8;
      var bitsPerSecond := (bits as real / seconds).Floor;
      greenLight := rate - bitsPerSecond > 0;
    }

    /** Is the throttle checked after every message? */
    function PerMessage(): bool { rate != 0 && burst == 0 }

    /** `iperf_send_mt`: a round of sends between `now` and the check at `checkedAt`. Time never runs back. After a
        hard error or the end of the test the thread does not come back. The bound holds as long as every check was
        safe in the sense of `GreenIsSafe`. */
    method SendMt(outcomes: seq<Outcome>, checkedAt: nat, ended: bool) returns (r: int)
      requires Valid() && !done && !failed
      requires |outcomes| >= Messages() && InTime(outcomes, now, checkedAt)
      requires forall k :: 0 <= k < |outcomes| ==> outcomes[k].r <= blksize
      modifies this
      ensures Valid() && now == checkedAt && done == ended
      ensures var moments := if old(greenLight) then RoundMoments(old(bytesSent), outcomes, 0, Messages()) else [];
              history == old(history) + moments && bytesSent == BytesAfter(old(bytesSent), moments)
      ensures r == (if old(greenLight) then RoundResult(outcomes, 0, Messages()) else 0) && (failed <==> r < 0)
      ensures var n := if burst != 0 then burst else if rate == 0 then multisend else 1;
              |history| >= |old(history)|
              && if old(greenLight) then RoundTold(old(bytesSent), outcomes, 0, n, history[|old(history)|..], r)
                 else history == old(history) && r == 0
      ensures !failed && rate > 0 && !done ==> greenLight == Green(8 * bytesSent, checkedAt, rate, undefined)
      ensures safe <==> old(safe) && (failed || checkedAt > 0 || bytesSent == 0 || undefined >= rate)
    {
      hide Green, Within, RoundMoments, RoundResult, BytesAfter, RoundTold;
      r := 0;
      var messageSent := false;
      RoundMeaning(bytesSent, bytesSent, outcomes, 0, Messages());
      if greenLight {
        r, messageSent := SendRound(outcomes, checkedAt, ended);
        assert history[|old(history)|..] == RoundMoments(old(bytesSent), outcomes, 0, Messages());
      } else {
        Settle(checkedAt);
        NothingSent(bytesSent, history);
      }
      if r < 0 {
        failed, done := true, ended;
        return;
      }
      if !PerMessage() || !messageSent {
        done := ended;
        CheckThrottle(checkedAt);
      }
      GreenIsSafe(8 * bytesSent, checkedAt, rate, undefined);
      safe := safe && (checkedAt > 0 || bytesSent == 0 || undefined >= rate);
    }

    lemma NothingSent(bytes: nat, moments: seq<Moment>)
      ensures BytesAfter(bytes, []) == bytes && moments + [] == moments
    {
    }

    /** The loop of `iperf_send_mt`: a negative result is a hard error. */
    method SendRound(outcomes: seq<Outcome>, checkedAt: nat, ended: bool) returns (r: int, messageSent: bool)
      requires Valid() && greenLight && !done && !failed
      requires |outcomes| >= Messages() && InTime(outcomes, now, checkedAt)
      requires forall k :: 0 <= k < |outcomes| ==> outcomes[k].r <= blksize
      modifies this`bytesSent, this`greenLight, this`done, this`now, this`history
      ensures Bounded() && now == checkedAt && r == RoundResult(outcomes, 0, Messages()) && r <= 0
      ensures history == old(history) + RoundMoments(old(bytesSent), outcomes, 0, Messages())
      ensures bytesSent == BytesAfter(old(bytesSent), RoundMoments(old(bytesSent), outcomes, 0, Messages()))
      ensures if PerMessage() && messageSent
              then done == ended && (rate > 0 && !done ==> greenLight == Green(8 * bytesSent, checkedAt, rate, undefined))
              else !done && greenLight
    {
      hide Green, SoFar, Within, UnderWay, RoundMoments, RoundResult, BytesAfter;
      var left, k := Messages(), 0;
      messageSent, r := false, 0;
      ghost var start, before, so := bytesSent, history, [];
      NoneYet();
      RoundStarts(start, outcomes, Messages());
      while greenLight && left > 0
        invariant 0 <= k && 0 <= left && k + left == Messages() && SoFar(start, k)
        invariant UnderWay(start, bytesSent, so, outcomes, k, Messages()) && history == before + so
        invariant k > 0 ==> messageSent && (if PerMessage() then left == 0 && done == ended else greenLight && !done)
        invariant k == 0 ==> !messageSent && !done && greenLight
        invariant k > 0 && PerMessage() && !done ==>
                    greenLight == Green(8 * bytesSent, checkedAt, rate, undefined)
        invariant now == if k == 0 then old(now) else outcomes[k - 1].at
        decreases left
      {
        var o := outcomes[k];
        if left > 1 && o.goalMet {
          break;
        }
        if o.r < 0 {
          r := if o.r == SOFT_ERROR then 0 else o.r;
          break;
        }
        RoundGoesOn(start, bytesSent, so, outcomes, k, Messages());
        Take(o, k, start, old(now));
        so := so + [Moment(bytesSent, now)];
        if PerMessage() {
          done := ended;
          CheckThrottle(checkedAt);
        }
        messageSent := true;
        k, left := k + 1, left - 1;
      }
      RoundEnds(start, bytesSent, so, outcomes, k, Messages());
      ToBounded(start, k);
      Settle(checkedAt);
    }

    /** The bound has held so far. */
    ghost predicate Bounded()
      reads this`bytesSent, this`now, this`history, this`safe
    {
      rate > 0 && safe ==>
        (forall j :: 0 <= j < |history| ==> Within(history[j])) && Within(Moment(bytesSent, now))
    }

    lemma ToBounded(before: nat, k: nat)
      requires SoFar(before, k)
      ensures Bounded()
    {
    }

    /** After `k` messages of a round that began with `before` bytes sent. */
    ghost predicate SoFar(before: nat, k: nat)
      reads this`bytesSent, this`now, this`history, this`safe
    {
      bytesSent <= before + k * blksize && Bounded()
    }

    lemma NoneYet()
      requires Valid()
      ensures SoFar(bytesSent, 0)
    {
    }

    /** One message went out. */
    method Take(o: Outcome, k: nat, ghost before: nat, ghost from: nat)
      requires SoFar(before, k) && k + 1 <= Messages() && from <= o.at && 0 <= o.r <= blksize
      requires rate > 0 && safe ==> 8 * before * MILLION <= rate * from
      modifies this`bytesSent, this`now, this`history
      ensures SoFar(before, k + 1) && bytesSent == old(bytesSent) + o.r && now == o.at
      ensures history == old(history) + [Moment(bytesSent, now)]
    {
      hide Within;
      assert bytesSent + o.r <= before + (k + 1) * blksize by { assert (k + 1) * blksize == k * blksize + blksize; }
      RoundBound(before, bytesSent + o.r, from, o.at, k);
      bytesSent := bytesSent + o.r;
      now := o.at;
      history := history + [Moment(bytesSent, now)];
    }

    /** Time passes until the check. */
    ghost method Settle(at: nat)
      requires Bounded() && now <= at
      modifies this`now
      ensures Bounded() && now == at
    {
      hide Within;
      Later(bytesSent, now, at);
      now := at;
    }

    /** After at most `k + 1` messages of a round that began at or below the rate. */
    lemma RoundBound(before: nat, after: nat, from: nat, at: nat, k: nat)
      requires rate > 0 && safe ==> 8 * before * MILLION <= rate * from
      requires from <= at && k + 1 <= Messages() && after <= before + (k + 1) * blksize
      ensures rate > 0 && safe ==> Within(Moment(after, at))
    {
      assert rate * from <= rate * at;
      assert (k + 1) * blksize <= Messages() * blksize;
      assert 8 * after * MILLION <= 8 * before * MILLION + 8 * (Messages() * blksize) * MILLION;
      assert 8 * (Messages() * blksize) * MILLION == 8 * Messages() * blksize * MILLION;
    }

    lemma Later(bytes: nat, from: nat, at: nat)
      requires from <= at
      ensures Within(Moment(bytes, from)) ==> Within(Moment(bytes, at))
    {
      assert rate * from <= rate * at;
    }
  }

  /** A run that breaks the bound, whenever the quotient at time zero reads below the rate: two rounds of one block, both
      checked at time zero, leave the sender a block ahead of what the bound allows. */
  method RunsAhead(rate: nat, blksize: nat, undefined: int) returns (p: Pacer)
    requires blksize > 0 && rate > 0 && undefined < rate
    ensures p.rate == rate && p.blksize == blksize && p.now == 0
    ensures p.history == [Moment(blksize, 0), Moment(2 * blksize, 0)]
    ensures p.Within(p.history[0]) && !p.Within(p.history[1])
  {
    hide Pacer.Valid, Green;
    p := new Pacer(rate, 0, 0, blksize, undefined);
    var outcomes := [Outcome(blksize, 0, false)];
    assert RoundMoments(0, outcomes, 0, 1) == [Moment(blksize, 0)] && RoundResult(outcomes, 0, 1) == 0;
    assert RoundMoments(blksize, outcomes, 0, 1) == [Moment(2 * blksize, 0)];
    StaysGreen(8 * blksize, rate, undefined);
    var r := p.SendMt(outcomes, 0, false);
    assert p.history == [Moment(blksize, 0)] && p.bytesSent == blksize;
    r := p.SendMt(outcomes, 0, false);
    assert p.history == [Moment(blksize, 0)] + [Moment(2 * blksize, 0)];
  }

  lemma StaysGreen(bits: nat, rate: nat, undefined: int)
    requires undefined < rate
    ensures Green(bits, 0, rate, undefined)
  {
  }
}

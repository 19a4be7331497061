/** The numbers a UDP sender puts on its datagrams when one send carries several: a send that fails gives only one of its
    numbers back. */
module UdpNumbers {
  import opened Sequences
  import opened UdpLoss

  /** The sender's counter after some sends of `k` datagrams each, accepted or not. */
  function Counter(attempts: seq<bool>, k: nat): nat
    requires k > 0
  {
    if attempts == [] then 0
    else Counter(attempts[..|attempts| - 1], k) + if attempts[|attempts| - 1] then k else k - 1
  }

  /** `k` numbers from the one after `from` on. */
  function NextNumbers(from: nat, k: nat): (ps: seq<nat>)
    ensures |ps| == k && forall i :: 0 <= i < k ==> ps[i] == from + 1 + i
  {
    seq(k, i requires 0 <= i < k => from + 1 + i)
  }

  /** The numbers on the datagrams that were accepted. */
  function SentNumbers(attempts: seq<bool>, k: nat): seq<nat>
    requires k > 0
  {
    if attempts == [] then []
    else
      var before := attempts[..|attempts| - 1];
      SentNumbers(before, k) + if attempts[|attempts| - 1] then NextNumbers(Counter(before, k), k) else []
  }

  function Failures(attempts: seq<bool>): nat {
    if attempts == [] then 0
    else Failures(attempts[..|attempts| - 1]) + if attempts[|attempts| - 1] then 0 else 1
  }

  /** The numbers that `n` failed sends do not give back. */
  function Skipped(k: nat, n: nat): nat
    requires k > 0
  {
    (k - 1) * n
  }

  lemma SkippedMore(k: nat, n: nat)
    requires k > 0
    ensures Skipped(k, n + 1) == Skipped(k, n) + (k - 1)
  {
  }

  lemma NoneSkipped(k: nat)
    requires k > 0
    ensures Skipped(k, 0) == 0
    ensures forall n: nat :: Skipped(k, n) == 0 <==> k == 1 || n == 0
  {
  }

  /** The attempts up to the last accepted one. */
  function ToLastAccepted(attempts: seq<bool>): seq<bool> {
    if attempts == [] || attempts[|attempts| - 1] then attempts else ToLastAccepted(attempts[..|attempts| - 1])
  }

  /** The numbers go up, none comes twice, and the counter is ahead of the datagrams accepted by all but one of the numbers
      of each send that failed. */
  lemma {:induction false} NumbersGoUp(attempts: seq<bool>, k: nat)
    requires k > 0
    ensures var ps := SentNumbers(attempts, k);
            && (forall i, j :: 0 <= i < j < |ps| ==> ps[i] < ps[j])
            && (forall i :: 0 <= i < |ps| ==> 1 <= ps[i] <= Counter(attempts, k))
            && Counter(attempts, k) == |ps| + Skipped(k, Failures(attempts))
  {
    hide Skipped;
    if attempts == [] {
      NoneSkipped(k);
    } else {
      var before := attempts[..|attempts| - 1];
      NumbersGoUp(before, k);
      SkippedMore(k, Failures(before));
    }
  }

  /** With one datagram in each send they are 1, 2, 3 and so on. */
  lemma {:induction false} OneByOne(attempts: seq<bool>)
    ensures |SentNumbers(attempts, 1)| == Counter(attempts, 1)
    ensures forall i :: 0 <= i < |SentNumbers(attempts, 1)| ==> SentNumbers(attempts, 1)[i] == i + 1
  {
    if attempts != [] {
      OneByOne(attempts[..|attempts| - 1]);
    }
  }

  // ------------------------------------------------------------ what the receiver makes of them

  lemma {:induction false} ArriveBoth(c: Counters, a: seq<nat>, b: seq<nat>)
    ensures ArriveAll(c, a + b) == ArriveAll(ArriveAll(c, a), b)
    decreases |b|
  {
    if b == [] {
      assert a + b == a;
    } else {
      ArriveBoth(c, a, b[..|b| - 1]);
      assert (a + b)[..|a + b| - 1] == a + b[..|b| - 1];
    }
  }

  /** A run of numbers above all before it adds the gap in front of it to the losses. */
  lemma {:induction false} ArriveRun(c: Counters, from: nat, k: nat)
    requires c.packetCount <= from && k > 0
    ensures ArriveAll(c, NextNumbers(from, k))
         == Counters(from + k, c.cntError + (from - c.packetCount), c.outOfOrder)
    decreases k
  {
    var ps := NextNumbers(from, k);
    if k == 1 {
      assert ps[..0] == [] && ArriveAll(c, []) == c;
    } else {
      assert ps[..k - 1] == NextNumbers(from, k - 1);
      ArriveRun(c, from, k - 1);
    }
  }

  /** Phantom losses: when every accepted datagram is delivered, in order, the receiver still counts as lost all but one of
      the numbers of every failed send in front of an accepted one. */
  lemma {:induction false} PhantomLosses(attempts: seq<bool>, k: nat)
    requires k > 0
    ensures ArriveAll(START, SentNumbers(attempts, k))
         == Counters(Counter(ToLastAccepted(attempts), k), Skipped(k, Failures(ToLastAccepted(attempts))), 0)
  {
    hide Skipped;
    if attempts == [] {
      NoneSkipped(k);
    } else {
      var before, last := attempts[..|attempts| - 1], attempts[|attempts| - 1];
      PhantomLosses(before, k);
      if last {
        var c := ArriveAll(START, SentNumbers(before, k));
        Trailing(before, k);
        ArriveBoth(START, SentNumbers(before, k), NextNumbers(Counter(before, k), k));
        ArriveRun(c, Counter(before, k), k);
      } else {
        assert SentNumbers(before, k) + [] == SentNumbers(before, k);
      }
    }
  }

  /** The sends behind the last accepted one all failed. */
  lemma {:induction false} Trailing(attempts: seq<bool>, k: nat)
    requires k > 0
    ensures var done := ToLastAccepted(attempts);
            Counter(attempts, k) - Counter(done, k) == Skipped(k, Failures(attempts)) - Skipped(k, Failures(done)) >= 0
  {
    hide Skipped;
    if attempts != [] && !attempts[|attempts| - 1] {
      var before := attempts[..|attempts| - 1];
      Trailing(before, k);
      SkippedMore(k, Failures(before));
    }
  }

  /** So the receiver reports no loss where there was none if and only if each send carries one datagram, or none failed
      in front of an accepted one. */
  lemma NoPhantomIff(attempts: seq<bool>, k: nat)
    requires k > 0
    ensures ArriveAll(START, SentNumbers(attempts, k)).cntError == 0
       <==> k == 1 || forall i, j :: 0 <= i < j < |attempts| && attempts[j] ==> attempts[i]
  {
    PhantomLosses(attempts, k);
    NoFailureIff(attempts);
    NoneSkipped(k);
  }

  lemma {:induction false} NoFailureIff(attempts: seq<bool>)
    ensures Failures(ToLastAccepted(attempts)) == 0 <==> forall i, j :: 0 <= i < j < |attempts| && attempts[j] ==> attempts[i]
  {
    if attempts != [] {
      var before := attempts[..|attempts| - 1];
      if attempts[|attempts| - 1] {
        AllAccepted(attempts);
      } else {
        NoFailureIff(before);
        assert forall i :: 0 <= i < |before| ==> before[i] == attempts[i];
      }
    }
  }

  lemma {:induction false} AllAccepted(attempts: seq<bool>)
    ensures Failures(attempts) == 0 <==> forall i :: 0 <= i < |attempts| ==> attempts[i]
  {
    if attempts != [] {
      var before := attempts[..|attempts| - 1];
      AllAccepted(before);
      assert forall i :: 0 <= i < |before| ==> before[i] == attempts[i];
    }
  }
}

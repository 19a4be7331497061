/** UDP loss accounting in constant storage, against the full set of sequence numbers received. */
module UdpLoss {

  /** The receiver's counters: highest number seen, losses, arrivals out of order. */
  datatype Counters = Counters(packetCount: nat, cntError: nat, outOfOrder: nat)

  const START := Counters(0, 0, 0)

  /** One arrival. */
  function Arrive(c: Counters, p: nat): Counters {
    if p >= c.packetCount + 1 then
      Counters(p, c.cntError + (p - 1 - c.packetCount), c.outOfOrder)
    else
      Counters(c.packetCount, if c.cntError > 0 then c.cntError - 1 else 0, c.outOfOrder + 1)
  }

  function ArriveAll(c: Counters, ps: seq<nat>): Counters {
    if ps == [] then c else Arrive(ArriveAll(c, ps[..|ps| - 1]), ps[|ps| - 1])
  }

  // ------------------------------------------- what the counters are meant to be

  predicate InRange(x: nat, n: nat) { 1 <= x <= n }

  ghost function UpTo(n: nat): set<nat> {
    set x: nat | x <= n && InRange(x, n)
  }

  lemma {:induction false} UpToSize(n: nat)
    ensures |UpTo(n)| == n
  {
    if n == 0 {
      assert UpTo(0) == {};
    } else {
      UpToSize(n - 1);
      assert UpTo(n) == UpTo(n - 1) + {n};
    }
  }

  ghost function Received(ps: seq<nat>): set<nat> {
    set x | x in ps
  }

  /** The numbers up to the highest received that have not arrived. */
  ghost function Missing(ps: seq<nat>): set<nat> {
    Lacking(Highest(ps), Received(ps))
  }

  function Highest(ps: seq<nat>): (h: nat)
    ensures forall x :: x in ps ==> x <= h
    ensures h == 0 || h in ps
  {
    if ps == [] then 0
    else
      var last, before := ps[|ps| - 1], Highest(ps[..|ps| - 1]);
      assert ps == ps[..|ps| - 1] + [last];
      if last > before then last else before
  }

  /** Arrivals that were not above everything before them. */
  function LateArrivals(ps: seq<nat>): nat {
    if ps == [] then 0
    else LateArrivals(ps[..|ps| - 1]) + if ps[|ps| - 1] <= Highest(ps[..|ps| - 1]) then 1 else 0
  }

  /** Arrivals of a number that had arrived before. */
  function Duplicates(ps: seq<nat>): nat {
    if ps == [] then 0
    else Duplicates(ps[..|ps| - 1]) + if ps[|ps| - 1] in ps[..|ps| - 1] then 1 else 0
  }

  ghost predicate FromOne(ps: seq<nat>) { forall i :: 0 <= i < |ps| ==> ps[i] >= 1 }

  // -------------------------------------------------------------------- theorems

  lemma HighestStep(ps: seq<nat>, p: nat)
    ensures Highest(ps + [p]) == if p > Highest(ps) then p else Highest(ps)
    ensures Received(ps + [p]) == Received(ps) + {p}
  {
    assert (ps + [p])[..|ps + [p]| - 1] == ps;
  }

  /** The numbers strictly between `h` and `p`. */
  lemma GapSize(h: nat, p: nat)
    requires h < p
    ensures |UpTo(p - 1) - UpTo(h)| == p - 1 - h
  {
    UpToSize(h);
    UpToSize(p - 1);
    SubsetSize(UpTo(p - 1), UpTo(h));
  }

  lemma SubsetSize(a: set<nat>, b: set<nat>)
    requires b <= a
    ensures |a - b| == |a| - |b|
  {
    assert a == (a - b) + b;
  }

  /** What is missing below `h` when `got` has arrived. */
  ghost function Lacking(h: nat, got: set<nat>): set<nat> {
    UpTo(h) - got
  }

  lemma LackingAhead(h: nat, got: set<nat>, p: nat)
    requires h < p && forall x :: x in got ==> x <= h
    ensures |Lacking(p, got + {p})| == |Lacking(h, got)| + (p - 1 - h)
  {
    GapSize(h, p);
    var gap := UpTo(p - 1) - UpTo(h);
    assert Lacking(p, got + {p}) == Lacking(h, got) + gap;
    assert Lacking(h, got) !! gap;
  }

  lemma LackingBehind(h: nat, got: set<nat>, p: nat)
    requires 1 <= p <= h
    ensures |Lacking(h, got + {p})| == if p in got then |Lacking(h, got)| else |Lacking(h, got)| - 1
  {
    assert Lacking(h, got + {p}) == Lacking(h, got) - {p};
    assert p in Lacking(h, got) <==> p !in got;
  }

  /** One arrival as the set of missing numbers sees it. */
  lemma MissingStep(ps: seq<nat>, p: nat)
    requires p >= 1
    ensures var h := Highest(ps);
            |Missing(ps + [p])|
            == if p > h then |Missing(ps)| + (p - 1 - h) else if p in ps then |Missing(ps)| else |Missing(ps)| - 1
  {
    hide UpTo;
    HighestStep(ps, p);
    if p > Highest(ps) {
      LackingAhead(Highest(ps), Received(ps), p);
    } else {
      LackingBehind(Highest(ps), Received(ps), p);
    }
  }

  lemma MissingNothing()
    ensures Missing([]) == {}
  {
    assert UpTo(0) == {};
  }

  /** The loss counter over every sequence of arrivals: the numbers missing, up to one for each duplicate. The
      other two counters are exact. */
  lemma {:induction false} CountersBound(ps: seq<nat>)
    requires FromOne(ps)
    ensures var c := ArriveAll(START, ps);
            && c.packetCount == Highest(ps)
            && c.outOfOrder == LateArrivals(ps)
            && |Missing(ps)| - Duplicates(ps) <= c.cntError <= |Missing(ps)|
  {
    hide Missing, Received;
    if ps == [] {
      MissingNothing();
    } else {
      var before, p := ps[..|ps| - 1], ps[|ps| - 1];
      assert ps == before + [p];
      CountersBound(before);
      HighestStep(before, p);
      MissingStep(before, p);
    }
  }

  ghost predicate NoDuplicates(ps: seq<nat>) {
    forall i, j :: 0 <= i < j < |ps| ==> ps[i] != ps[j]
  }

  lemma {:induction false} NoneTwice(ps: seq<nat>)
    requires NoDuplicates(ps)
    ensures Duplicates(ps) == 0 && |Received(ps)| == |ps|
  {
    if ps != [] {
      var before := ps[..|ps| - 1];
      NoneTwice(before);
      assert Received(ps) == Received(before) + {ps[|ps| - 1]};
    }
  }

  /** No duplicate has come since the last moment when nothing was missing. */
  ghost predicate CleanTail(ps: seq<nat>) {
    ps == [] || Missing(ps) == {} || (CleanTail(ps[..|ps| - 1]) && ps[|ps| - 1] !in ps[..|ps| - 1])
  }

  /** The loss counter is the number of missing numbers exactly then. */
  lemma {:induction false} ExactIff(ps: seq<nat>)
    requires FromOne(ps)
    ensures ArriveAll(START, ps).cntError == |Missing(ps)| <==> CleanTail(ps)
  {
    hide Missing, Received;
    if ps == [] {
      MissingNothing();
    } else {
      var before, p := ps[..|ps| - 1], ps[|ps| - 1];
      assert ps == before + [p];
      CountersBound(before);
      CountersBound(ps);
      MissingStep(before, p);
      ExactIff(before);
    }
  }

  lemma {:induction false} NoDuplicatesClean(ps: seq<nat>)
    requires NoDuplicates(ps)
    ensures CleanTail(ps)
  {
    if ps != [] {
      NoDuplicatesClean(ps[..|ps| - 1]);
    }
  }

  /** So without duplicates the loss counter is exact, and arrivals and losses add up to the highest number seen. */
  lemma CountersExact(ps: seq<nat>)
    requires FromOne(ps) && NoDuplicates(ps)
    ensures var c := ArriveAll(START, ps);
            c.cntError == |Missing(ps)| && |ps| + c.cntError == c.packetCount
  {
    hide CleanTail;
    NoDuplicatesClean(ps);
    ExactIff(ps);
    CountersBound(ps);
    NoneTwice(ps);
    UpToSize(Highest(ps));
    assert Received(ps) <= UpTo(Highest(ps));
    SubsetSize(UpTo(Highest(ps)), Received(ps));
  }

  lemma NothingArrived()
    ensures ArriveAll(START, []) == START
  {
  }

  lemma ArriveStep(ps: seq<nat>, p: nat)
    ensures ArriveAll(START, ps + [p]) == Arrive(ArriveAll(START, ps), p)
  {
    assert (ps + [p])[..|ps + [p]| - 1] == ps;
  }

  /** A duplicate can hide a loss: 2 is missing here, yet none is counted. */
  lemma DuplicateHidesLoss()
    ensures ArriveAll(START, [1, 3, 3]).cntError == 0 && 2 in Missing([1, 3, 3])
  {
    hide ArriveAll;
    var ps := [1, 3, 3];
    NothingArrived();
    ArriveStep([], 1);
    ArriveStep([1], 3);
    ArriveStep([1, 3], 3);
    assert [] + [1] == [1] && [1] + [3] == [1, 3] && [1, 3] + [3] == ps;
    assert 3 in ps && Highest(ps) >= 3;
  }
}

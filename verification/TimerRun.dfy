/** What one pass over the timer list does, as a function of the list, and what that pass guarantees. */
module TimerRun {
  import opened Sequences

  /** An active timer: who it is, when it expires, and its interval, all in microseconds. */
  datatype Entry<T> = Entry(id: T, time: nat, period: nat, periodic: bool)

  type Entries<T> = seq<Entry<T>>

  ghost predicate Sorted<T>(s: Entries<T>) {
    forall i, j :: 0 <= i < j < |s| ==> s[i].time <= s[j].time
  }

  ghost predicate DistinctIds<T>(s: Entries<T>) {
    forall i, j :: 0 <= i < j < |s| ==> s[i].id != s[j].id
  }

  /** Where `list_add` puts a timer: in front of the first one that expires later, so behind its equals. */
  function Position<T>(s: Entries<T>, time: nat): (p: nat)
    ensures p <= |s|
    ensures forall i :: 0 <= i < p ==> s[i].time <= time
    ensures p < |s| ==> time < s[p].time
  {
    if s == [] || time < s[0].time then 0 else 1 + Position(s[1..], time)
  }

  function Add<T>(s: Entries<T>, e: Entry<T>): (r: Entries<T>)
    ensures |r| == |s| + 1
  {
    Inserted(s, Position(s, e.time), e)
  }

  /** Adding keeps the list sorted, and equals stay in the order they came. */
  lemma AddSorted<T>(s: Entries<T>, e: Entry<T>)
    requires Sorted(s)
    ensures Sorted(Add(s, e))
    ensures forall i :: 0 <= i < |s| && s[i].time <= e.time ==> Add(s, e)[i] == s[i]
  {
  }

  lemma AddDistinct<T>(s: Entries<T>, e: Entry<T>)
    requires DistinctIds(s) && forall i :: 0 <= i < |s| ==> s[i].id != e.id
    ensures DistinctIds(Add(s, e))
  {
  }

  lemma WithoutKeeps<T>(s: Entries<T>, k: nat)
    requires k < |s|
    ensures Sorted(s) ==> Sorted(Without(s, k))
    ensures DistinctIds(s) ==>
              DistinctIds(Without(s, k)) && forall i :: 0 <= i < |s| - 1 ==> Without(s, k)[i].id != s[k].id
  {
  }

  // ------------------------------------------------------------------- the pass

  function Lateness<T>(e: Entry<T>, now: nat): nat {
    if e.time <= now then now - e.time + 1 else 0
  }

  /** How late the whole list is; every firing makes it less. */
  function TotalLateness<T>(s: Entries<T>, now: nat): nat {
    if s == [] then 0 else Lateness(s[0], now) + TotalLateness(s[1..], now)
  }

  lemma {:induction false} LatenessSplit<T>(a: Entries<T>, b: Entries<T>, now: nat)
    ensures TotalLateness(a + b, now) == TotalLateness(a, now) + TotalLateness(b, now)
  {
    if a == [] {
      assert a + b == b;
    } else {
      assert (a + b)[1..] == a[1..] + b;
      LatenessSplit(a[1..], b, now);
    }
  }

  lemma LatenessInserted<T>(s: Entries<T>, k: nat, e: Entry<T>, now: nat)
    requires k <= |s|
    ensures TotalLateness(Inserted(s, k, e), now) == TotalLateness(s, now) + Lateness(e, now)
  {
    assert s == s[..k] + s[k..];
    LatenessSplit(s[..k], s[k..], now);
    LatenessSplit(s[..k] + [e], s[k..], now);
    LatenessSplit(s[..k], [e], now);
    assert [e][1..] == [];
    assert TotalLateness([e], now) == Lateness(e, now) + TotalLateness<T>([], now);
  }

  lemma LatenessWithout<T>(s: Entries<T>, k: nat, now: nat)
    requires k < |s|
    ensures TotalLateness(s, now) == TotalLateness(Without(s, k), now) + Lateness(s[k], now)
  {
    assert Inserted(Without(s, k), k, s[k]) == s;
    LatenessInserted(Without(s, k), k, s[k], now);
  }

  ghost predicate Ticking<T>(s: Entries<T>) {
    forall i :: 0 <= i < |s| && s[i].periodic ==> s[i].period > 0
  }

  function Rescheduled<T>(e: Entry<T>): Entry<T> {
    e.(time := e.time + e.period)
  }

  /** The list after the timer at `i` fired: a one-shot is gone, a periodic one is added again. */
  function AfterFiring<T>(s: Entries<T>, i: nat): Entries<T>
    requires i < |s|
  {
    if s[i].periodic then Add(Without(s, i), Rescheduled(s[i])) else Without(s, i)
  }

  /** Where the successor saved before the firing stands afterwards; past the end if there was none. */
  function NextIndex<T>(s: Entries<T>, i: nat): nat
    requires i < |s|
  {
    if i + 1 == |s| then |AfterFiring(s, i)|
    else if s[i].periodic && Position(Without(s, i), Rescheduled(s[i]).time) <= i then i + 1
    else i
  }

  lemma FiringIsProgress<T>(s: Entries<T>, i: nat, now: nat)
    requires Ticking(s) && i < |s| && s[i].time <= now
    ensures Ticking(AfterFiring(s, i)) && TotalLateness(AfterFiring(s, i), now) < TotalLateness(s, now)
  {
    assert TotalLateness(AfterFiring(s, i), now) < TotalLateness(s, now) by {
      hide TotalLateness, Ticking;
      LatenessWithout(s, i, now);
      if s[i].periodic {
        assert s[i].period > 0 by { TickingAt(s, i); }
        var m, e := Without(s, i), Rescheduled(s[i]);
        LatenessInserted(m, Position(m, e.time), e, now);
      }
    }
    TickingKept(s, i);
  }

  lemma TickingAt<T>(s: Entries<T>, i: nat)
    requires Ticking(s) && i < |s| && s[i].periodic
    ensures s[i].period > 0
  {
  }

  lemma TickingKept<T>(s: Entries<T>, i: nat)
    requires Ticking(s) && i < |s|
    ensures Ticking(AfterFiring(s, i))
  {
  }

  datatype Pass<T> = Pass(list: Entries<T>, fired: Entries<T>)

  /** `tmr_run` from the timer at `i` on: the list it leaves and the timers it fired, as they were when fired. */
  function Run<T>(s: Entries<T>, i: nat, now: nat): Pass<T>
    requires Ticking(s)
    decreases TotalLateness(s, now)
  {
    if i >= |s| || s[i].time > now then Pass(s, [])
    else
      FiringIsProgress(s, i, now);
      var rest := Run(AfterFiring(s, i), NextIndex(s, i), now);
      Pass(rest.list, [s[i]] + rest.fired)
  }

  lemma OneTurn<T>(s: Entries<T>, i: nat, now: nat)
    requires Ticking(s) && i < |s| && s[i].time <= now
    ensures Ticking(AfterFiring(s, i))
    ensures var rest := Run(AfterFiring(s, i), NextIndex(s, i), now);
            Run(s, i, now) == Pass(rest.list, [s[i]] + rest.fired)
  {
    FiringIsProgress(s, i, now);
  }

  lemma MembersOfInserted<T>(s: seq<T>, k: nat, x: T, y: T)
    requires k <= |s|
    ensures y in Inserted(s, k, x) <==> y == x || y in s
  {
  }

  lemma MembersOfWithout<T>(s: Entries<T>, k: nat, y: Entry<T>)
    requires k < |s| && DistinctIds(s)
    ensures y in Without(s, k) <==> y in s && y != s[k]
  {
  }

  /** One firing seen from the list: order and identity survive, and nothing else changes. */
  lemma FiringKeeps<T>(s: Entries<T>, i: nat)
    requires Sorted(s) && DistinctIds(s) && i < |s|
    ensures Sorted(AfterFiring(s, i)) && DistinctIds(AfterFiring(s, i))
    ensures forall x :: x in AfterFiring(s, i)
                   <==> (x in s && x != s[i]) || (s[i].periodic && x == Rescheduled(s[i]))
  {
    var m, e := Without(s, i), Rescheduled(s[i]);
    WithoutKeeps(s, i);
    if s[i].periodic {
      AddSorted(m, e);
      AddDistinct(m, e);
    }
    forall x ensures x in AfterFiring(s, i)
                <==> (x in s && x != s[i]) || (s[i].periodic && x == Rescheduled(s[i]))
    {
      MembersOfWithout(s, i, x);
      if s[i].periodic { MembersOfInserted(m, Position(m, e.time), e, x); }
    }
  }

  /** The timer stands at `j` or behind. */
  ghost predicate AheadOf<T>(r: Entries<T>, j: nat, x: Entry<T>) {
    exists m :: j <= m < |r| && r[m] == x
  }

  /** One firing seen from the walk: everything behind the one that fired is still in front of the walk, the
      saved successor first, and the walk leaves nothing behind but what it had left and the rescheduled timer. */
  lemma FiringWalks<T>(s: Entries<T>, i: nat)
    requires Sorted(s) && Ticking(s) && i < |s|
    ensures var r, j := AfterFiring(s, i), NextIndex(s, i);
            && (j < |r| ==> i + 1 < |s| && r[j] == s[i + 1])
            && (forall k :: 0 <= k < j && k < |r| ==>
                  (k < i && r[k] == s[k]) || (s[i].periodic && r[k] == Rescheduled(s[i])))
            && (forall k :: i < k < |s| ==> AheadOf(r, j, s[k]))
  {
    hide AfterFiring, NextIndex, Sorted;
    SuccessorNext(s, i);
    forall k | 0 <= k < NextIndex(s, i) && k < |AfterFiring(s, i)|
      ensures (k < i && AfterFiring(s, i)[k] == s[k])
           || (s[i].periodic && AfterFiring(s, i)[k] == Rescheduled(s[i]))
    {
      LeftBehind(s, i, k);
    }
    forall k | i < k < |s| ensures AheadOf(AfterFiring(s, i), NextIndex(s, i), s[k]) {
      var m := StillAhead(s, i, k);
    }
  }

  /** The walk goes on at the saved successor. */
  lemma SuccessorNext<T>(s: Entries<T>, i: nat)
    requires Sorted(s) && Ticking(s) && i < |s|
    ensures NextIndex(s, i) < |AfterFiring(s, i)| ==>
              i + 1 < |s| && AfterFiring(s, i)[NextIndex(s, i)] == s[i + 1]
  {
    if i + 1 < |s| {
      var m := StillAhead(s, i, i + 1);
      assert Without(s, i)[i] == s[i + 1];
    }
  }

  /** What the walk leaves behind was behind it already, or has just been rescheduled. */
  lemma LeftBehind<T>(s: Entries<T>, i: nat, k: nat)
    requires Sorted(s) && Ticking(s) && i < |s| && k < NextIndex(s, i) && k < |AfterFiring(s, i)|
    ensures (k < i && AfterFiring(s, i)[k] == s[k]) || (s[i].periodic && AfterFiring(s, i)[k] == Rescheduled(s[i]))
  {
    var m, time := Without(s, i), s[i].time + s[i].period;
    assert forall x :: 0 <= x < i ==> m[x] == s[x] && s[x].time <= s[i].time;
  }

  /** A timer behind the one that fired is still ahead of the walk. */
  lemma StillAhead<T>(s: Entries<T>, i: nat, k: nat) returns (x: nat)
    requires Sorted(s) && Ticking(s) && i < k < |s|
    ensures NextIndex(s, i) <= x < |AfterFiring(s, i)| && AfterFiring(s, i)[x] == s[k]
  {
    var m := Without(s, i);
    assert m[k - 1] == s[k];
    x := if s[i].periodic && Position(m, Rescheduled(s[i]).time) <= k - 1 then k else k - 1;
  }

  // ----------------------------------------------------- what a pass guarantees

  ghost predicate AllWithin<T>(s: Entries<T>, low: nat, high: nat) {
    forall k :: 0 <= k < |s| ==> low <= s[k].time <= high
  }

  lemma OneMoreInFront<T>(e: Entry<T>, s: Entries<T>, low: nat, high: nat)
    requires Sorted(s) && AllWithin(s, low, high) && e.time <= low && e.time <= high
    ensures Sorted([e] + s) && AllWithin([e] + s, e.time, high)
  {
  }

  /** Timers fire in nondecreasing order of expiry, none before it is due. */
  lemma {:induction false} RunFiresInOrder<T>(s: Entries<T>, i: nat, now: nat)
    requires Sorted(s) && DistinctIds(s) && Ticking(s)
    ensures Sorted(Run(s, i, now).fired)
    ensures if i < |s| then AllWithin(Run(s, i, now).fired, s[i].time, now) else Run(s, i, now).fired == []
    decreases TotalLateness(s, now)
  {
    if i < |s| && s[i].time <= now {
      FiringIsProgress(s, i, now);
      FiringKeeps(s, i);
      FiringWalks(s, i);
      var r, j := AfterFiring(s, i), NextIndex(s, i);
      RunFiresInOrder(r, j, now);
      hide Sorted, AllWithin, AfterFiring, NextIndex, DistinctIds, Ticking;
      if j < |r| {
        SortedAt(s, i);
        OneMoreInFront(s[i], Run(r, j, now).fired, r[j].time, now);
      } else {
        NothingFired<T>(now);
        OneMoreInFront(s[i], [], now, now);
      }
    }
  }

  lemma SortedAt<T>(s: Entries<T>, i: nat)
    requires Sorted(s)
    ensures i + 1 < |s| ==> s[i].time <= s[i + 1].time
  {
  }

  lemma NothingFired<T>(now: nat)
    ensures Sorted<T>([]) && AllWithin<T>([], now, now)
  {
  }

  /** Every timer that was due when the pass came to it fires at least once, with the expiry it had. */
  lemma {:induction false} RunFiresAllDue<T>(s: Entries<T>, i: nat, now: nat)
    requires Sorted(s) && DistinctIds(s) && Ticking(s)
    ensures forall k :: i <= k < |s| && s[k].time <= now ==> s[k] in Run(s, i, now).fired
    decreases TotalLateness(s, now)
  {
    if i < |s| && s[i].time <= now {
      FiringIsProgress(s, i, now);
      FiringKeeps(s, i);
      FiringWalks(s, i);
      var r, j := AfterFiring(s, i), NextIndex(s, i);
      RunFiresAllDue(r, j, now);
      var rest := Run(r, j, now).fired;
      assert Run(s, i, now).fired == [s[i]] + rest;
      forall k | i < k < |s| && s[k].time <= now ensures s[k] in Run(s, i, now).fired {
        var m :| j <= m < |r| && r[m] == s[k];
        assert r[m] in rest;
      }
    }
  }

  /** No one-shot timer that is due stays in the list, provided the pass had left none behind. */
  lemma {:induction false} RunClearsOneShots<T>(s: Entries<T>, i: nat, now: nat)
    requires Sorted(s) && DistinctIds(s) && Ticking(s)
    requires forall k :: 0 <= k < i && k < |s| ==> s[k].periodic || s[k].time > now
    ensures Sorted(Run(s, i, now).list) && DistinctIds(Run(s, i, now).list)
    ensures forall x :: x in Run(s, i, now).list ==> x.periodic || x.time > now
    decreases TotalLateness(s, now)
  {
    if i < |s| && s[i].time <= now {
      FiringIsProgress(s, i, now);
      FiringKeeps(s, i);
      FiringWalks(s, i);
      RunClearsOneShots(AfterFiring(s, i), NextIndex(s, i), now);
    }
  }

  function Firings<T(==)>(fired: Entries<T>, id: T): nat {
    if fired == [] then 0 else (if fired[0].id == id then 1 else 0) + Firings(fired[1..], id)
  }

  ghost predicate HasId<T>(s: Entries<T>, id: T) {
    exists x :: x in s && x.id == id
  }

  /** A pass invents no timer. */
  lemma {:induction false} RunKeepsStrangersOut<T>(s: Entries<T>, i: nat, now: nat, id: T)
    requires Sorted(s) && DistinctIds(s) && Ticking(s) && !HasId(s, id)
    ensures !HasId(Run(s, i, now).list, id) && Firings(Run(s, i, now).fired, id) == 0
    decreases TotalLateness(s, now)
  {
    hide Sorted, DistinctIds, Ticking, AfterFiring, NextIndex, TotalLateness;
    if i < |s| && s[i].time <= now {
      FiringIsProgress(s, i, now);
      FiringKeeps(s, i);
      assert s[i] in s;
      var r, j := AfterFiring(s, i), NextIndex(s, i);
      RunKeepsStrangersOut(r, j, now, id);
      FiringsStep(s[i], Run(r, j, now).fired, id);
    }
  }

  function Later<T>(e: Entry<T>, times: nat): Entry<T> {
    e.(time := e.time + times * e.period)
  }

  /** What a pass does to the timer that was `o`: a periodic one stays and moves by its period once for each
      firing; a one-shot fires at most once, and stays exactly if it did not fire. */
  ghost predicate Moved<T>(o: Entry<T>, p: Pass<T>) {
    var times := Firings(p.fired, o.id);
    if o.periodic then Later(o, times) in p.list
    else times <= 1 && (if times == 0 then o in p.list else !HasId(p.list, o.id))
  }

  lemma {:induction false} RunMovesByPeriods<T>(s: Entries<T>, i: nat, now: nat, o: Entry<T>)
    requires Sorted(s) && DistinctIds(s) && Ticking(s) && o in s
    ensures Moved(o, Run(s, i, now))
    decreases TotalLateness(s, now)
  {
    hide Moved, Sorted, DistinctIds, Ticking, AfterFiring, NextIndex, HasId, Firings, TotalLateness;
    if i < |s| && s[i].time <= now {
      FiringIsProgress(s, i, now);
      FiringKeeps(s, i);
      var r, j := AfterFiring(s, i), NextIndex(s, i);
      var rest := Run(r, j, now);
      if o != s[i] {
        IdsDiffer(s, o, s[i]);
        RunMovesByPeriods(r, j, now, o);
      } else if o.periodic {
        RunMovesByPeriods(r, j, now, Rescheduled(o));
      } else {
        OneShotGone(s, i);
        RunKeepsStrangersOut(r, j, now, o.id);
      }
      MovedStep(s[i], rest, o);
    } else {
      MovedNothing(s, o);
    }
  }

  lemma OneShotGone<T>(s: Entries<T>, i: nat)
    requires Sorted(s) && DistinctIds(s) && i < |s| && !s[i].periodic
    ensures !HasId(AfterFiring(s, i), s[i].id)
  {
  }

  lemma MovedNothing<T>(s: Entries<T>, o: Entry<T>)
    requires o in s
    ensures Moved(o, Pass(s, []))
  {
    LaterNever(o);
  }

  lemma MovedStep<T>(e: Entry<T>, rest: Pass<T>, o: Entry<T>)
    requires if o.id != e.id then Moved(o, rest)
             else if o.periodic then o == e && Moved(Rescheduled(o), rest)
             else !HasId(rest.list, o.id) && Firings(rest.fired, o.id) == 0
    ensures Moved(o, Pass(rest.list, [e] + rest.fired))
  {
    FiringsStep(e, rest.fired, o.id);
    if o.id == e.id && o.periodic { LaterTwice(o, Firings(rest.fired, o.id)); }
  }

  lemma FiringsStep<T>(e: Entry<T>, fired: Entries<T>, id: T)
    ensures Firings([e] + fired, id) == (if e.id == id then 1 else 0) + Firings(fired, id)
  {
    assert ([e] + fired)[1..] == fired;
  }

  lemma IdsDiffer<T>(s: Entries<T>, a: Entry<T>, b: Entry<T>)
    requires DistinctIds(s) && a in s && b in s && a != b
    ensures a.id != b.id
  {
  }

  lemma LaterTwice<T>(e: Entry<T>, times: nat)
    ensures Later(Rescheduled(e), times) == Later(e, times + 1)
  {
  }

  lemma LaterNever<T>(e: Entry<T>)
    ensures Later(e, 0) == e
  {
  }

  /** A whole pass over a sorted list: it fires in order, fires everything due at entry, leaves no due one-shot,
      moves every timer by a whole number of periods, and leaves a sorted list. */
  lemma PassGuarantees<T>(s: Entries<T>, now: nat)
    requires Sorted(s) && DistinctIds(s) && Ticking(s)
    ensures var p := Run(s, 0, now);
            && Sorted(p.fired) && (forall x :: x in p.fired ==> x.time <= now)
            && (forall x :: x in s && x.time <= now ==> x in p.fired)
            && (forall x :: x in p.list ==> x.periodic || x.time > now)
            && (forall x :: x in s ==> Moved(x, p))
            && Sorted(p.list) && DistinctIds(p.list)
  {
    RunFiresInOrder(s, 0, now);
    RunFiresAllDue(s, 0, now);
    RunClearsOneShots(s, 0, now);
    forall x | x in s ensures Moved(x, Run(s, 0, now)) {
      RunMovesByPeriods(s, 0, now, x);
    }
  }
}

/** When a pass over the timers catches up with timers that are late by more than a period. */
module TimerCatchUp {
  import opened Sequences
  import opened TimerRun

  /** Does a timer stand in front of the walk again after it fired at `i`? The successor must not be due after it. */
  predicate Revisited<T>(s: Entries<T>, i: nat)
    requires i < |s|
  {
    i + 1 < |s| && s[i + 1].time <= s[i].time + s[i].period
  }

  /** The place of a timer that fired at `i` is not before `i`, and right there exactly if it is not visited again. */
  lemma PlaceAfter<T>(s: Entries<T>, i: nat)
    requires Sorted(s) && i < |s|
    ensures var p := Position(Without(s, i), s[i].time + s[i].period); i <= p && (i < p <==> Revisited(s, i))
  {
    var m, time := Without(s, i), s[i].time + s[i].period;
    var p := Position(m, time);
    assert forall k :: 0 <= k < i ==> m[k] == s[k] && s[k].time <= s[i].time;
    if i + 1 < |s| {
      assert m[i] == s[i + 1];
    }
  }

  /** Where the timer stands after it fired at `i`: ahead of the walk exactly if it is visited again; and what the walk
      had left behind is where it was. */
  lemma AheadIff<T>(s: Entries<T>, i: nat)
    requires Sorted(s) && i < |s|
    ensures s[i].periodic ==>
              var p := Position(Without(s, i), s[i].time + s[i].period);
              && i <= p < |AfterFiring(s, i)| && AfterFiring(s, i)[p] == Rescheduled(s[i])
              && (NextIndex(s, i) <= p <==> Revisited(s, i))
    ensures i <= NextIndex(s, i) && i <= |AfterFiring(s, i)|
    ensures forall k :: 0 <= k < i ==> AfterFiring(s, i)[k] == s[k]
  {
    hide Sorted;
    PlaceAfter(s, i);
  }

  /** What the walk has left behind it neither fires nor moves. */
  lemma {:induction false} BehindStays<T>(s: Entries<T>, i: nat, now: nat, k: nat)
    requires Sorted(s) && DistinctIds(s) && Ticking(s) && k < i && k < |s|
    ensures s[k] in Run(s, i, now).list && Firings(Run(s, i, now).fired, s[k].id) == 0
    decreases TotalLateness(s, now)
  {
    hide TotalLateness, AfterFiring, NextIndex, Sorted, Ticking;
    if i < |s| && s[i].time <= now {
      FiringIsProgress(s, i, now);
      FiringKeeps(s, i);
      AheadIff(s, i);
      var r, j := AfterFiring(s, i), NextIndex(s, i);
      BehindStays(r, j, now, k);
      FiringsStep(s[i], Run(r, j, now).fired, s[k].id);
    }
  }

  /** Neither does a timer that is not due. */
  lemma {:induction false} NotDueStays<T>(s: Entries<T>, i: nat, now: nat, x: Entry<T>)
    requires Sorted(s) && DistinctIds(s) && Ticking(s) && x in s && x.time > now
    ensures x in Run(s, i, now).list && Firings(Run(s, i, now).fired, x.id) == 0
    decreases TotalLateness(s, now)
  {
    hide TotalLateness, AfterFiring, NextIndex, Sorted, Ticking, DistinctIds;
    if i < |s| && s[i].time <= now {
      FiringIsProgress(s, i, now);
      FiringKeeps(s, i);
      IdsDiffer(s, x, s[i]);
      var r, j := AfterFiring(s, i), NextIndex(s, i);
      NotDueStays(r, j, now, x);
      FiringsStep(s[i], Run(r, j, now).fired, x.id);
    }
  }

  lemma {:induction false} FiredOften<T>(fired: Entries<T>, x: Entry<T>)
    requires x in fired
    ensures Firings(fired, x.id) > 0
  {
    if fired[0] != x {
      FiredOften(fired[1..], x);
    }
  }

  /** A due periodic timer fires again later in the same pass exactly if it is visited again and still due then. */
  lemma FiresAgainIff<T>(s: Entries<T>, i: nat, now: nat)
    requires Sorted(s) && DistinctIds(s) && Ticking(s) && i < |s| && s[i].time <= now && s[i].periodic
    ensures Ticking(AfterFiring(s, i))
    ensures Firings(Run(AfterFiring(s, i), NextIndex(s, i), now).fired, s[i].id) > 0
       <==> Revisited(s, i) && s[i].time + s[i].period <= now
  {
    hide TotalLateness, AfterFiring, NextIndex, Sorted, Ticking, DistinctIds, Run;
    FiringIsProgress(s, i, now);
    FiringKeeps(s, i);
    AheadIff(s, i);
    var r, j := AfterFiring(s, i), NextIndex(s, i);
    var p := Position(Without(s, i), s[i].time + s[i].period);
    if r[p].time > now {
      NotDueStays(r, j, now, r[p]);
    } else if p < j {
      BehindStays(r, j, now, p);
    } else {
      RunFiresAllDue(r, j, now);
      FiredOften(Run(r, j, now).fired, r[p]);
    }
  }

  // ------------------------------------------------------------- leaving nothing due

  ghost predicate NoneDue<T>(s: Entries<T>, now: nat) {
    forall k :: 0 <= k < |s| ==> s[k].time > now
  }

  ghost predicate NoneDueBehind<T>(s: Entries<T>, i: nat, now: nat) {
    forall k :: 0 <= k < i && k < |s| ==> s[k].time > now
  }

  /** Every timer that is still due after it fired is visited again, all the way through the pass. */
  ghost predicate CatchesUp<T>(s: Entries<T>, i: nat, now: nat)
    requires Ticking(s)
    decreases TotalLateness(s, now)
  {
    if i >= |s| || s[i].time > now then true
    else
      FiringIsProgress(s, i, now);
      && (s[i].periodic && s[i].time + s[i].period <= now ==> Revisited(s, i))
      && CatchesUp(AfterFiring(s, i), NextIndex(s, i), now)
  }

  lemma BehindAfter<T>(s: Entries<T>, i: nat, now: nat)
    requires Sorted(s) && DistinctIds(s) && Ticking(s) && i < |s| && NoneDueBehind(s, i, now)
    requires s[i].periodic && s[i].time + s[i].period <= now ==> Revisited(s, i)
    ensures NoneDueBehind(AfterFiring(s, i), NextIndex(s, i), now)
  {
    hide AfterFiring, NextIndex;
    AheadIff(s, i);
    FiringWalks(s, i);
    FiringKeeps(s, i);
    var r, j := AfterFiring(s, i), NextIndex(s, i);
    var p := Position(Without(s, i), s[i].time + s[i].period);
    forall k | 0 <= k < j && k < |r| ensures r[k].time > now {
      if k >= i || r[k] != s[k] {
        assert r[k] == r[p] == Rescheduled(s[i]);
        assert k == p;
      }
    }
  }

  /** A pass leaves nothing due exactly if it catches up. */
  lemma {:induction false} NothingDueIff<T>(s: Entries<T>, i: nat, now: nat)
    requires Sorted(s) && DistinctIds(s) && Ticking(s) && NoneDueBehind(s, i, now)
    ensures NoneDue(Run(s, i, now).list, now) <==> CatchesUp(s, i, now)
    decreases TotalLateness(s, now)
  {
    hide TotalLateness, AfterFiring, NextIndex, DistinctIds, Ticking;
    if i < |s| && s[i].time <= now {
      FiringIsProgress(s, i, now);
      FiringKeeps(s, i);
      var r, j := AfterFiring(s, i), NextIndex(s, i);
      if s[i].periodic && s[i].time + s[i].period <= now && !Revisited(s, i) {
        AheadIff(s, i);
        BehindStays(r, j, now, Position(Without(s, i), s[i].time + s[i].period));
      } else {
        BehindAfter(s, i, now);
        NothingDueIff(r, j, now);
      }
    }
  }

  // ----------------------------------------------- the same, seen from the list before

  /** Does the timer expire at `y`, now or after some of its periods? */
  ghost predicate Ticks<T>(e: Entry<T>, y: nat) {
    exists m: nat :: TickIs(e, m, y)
  }

  ghost predicate TickIs<T>(e: Entry<T>, m: nat, y: nat) {
    y == e.time + m * e.period && (m > 0 ==> e.periodic)
  }

  /** Another timer expires after `x` and not after `y`. */
  ghost predicate OtherWithin<T>(s: Entries<T>, e: Entry<T>, x: nat, y: nat) {
    exists f: Entry<T>, t: nat :: f in s && f.id != e.id && Ticks(f, t) && x < t <= y
  }

  /** Another timer expires from `x` on and not after `y`. */
  ghost predicate OtherFrom<T>(s: Entries<T>, e: Entry<T>, x: nat, y: nat) {
    exists f: Entry<T>, t: nat :: f in s && f.id != e.id && Ticks(f, t) && x <= t <= y
  }

  /** Between any two consecutive expiries of a periodic timer that are both due another timer expires, the later of the
      two included. */
  ghost predicate Covered<T>(s: Entries<T>, now: nat) {
    forall e: Entry<T>, x: nat :: e in s && e.periodic && Ticks(e, x) && x + e.period <= now ==>
      OtherWithin(s, e, x, x + e.period)
  }

  /** The same with the earlier of the two included as well. */
  ghost predicate Met<T>(s: Entries<T>, now: nat) {
    forall e: Entry<T>, x: nat :: e in s && e.periodic && Ticks(e, x) && x + e.period <= now ==>
      OtherFrom(s, e, x, x + e.period)
  }

  /** No two timers expire at the same time up to `now`. */
  ghost predicate NoTies<T>(s: Entries<T>, now: nat) {
    forall e: Entry<T>, f: Entry<T>, x: nat :: e in s && f in s && e.id != f.id && Ticks(e, x) && x <= now ==>
      !Ticks(f, x)
  }

  lemma TicksFrom<T>(e: Entry<T>, y: nat)
    ensures Ticks(e, y) ==> y >= e.time
    ensures Ticks(e, e.time)
  {
    assert TickIs(e, 0, e.time);
  }

  /** A periodic timer's expiries are the next one and those of the rescheduled timer. */
  lemma TicksOn<T>(e: Entry<T>, y: nat)
    requires e.periodic
    ensures Ticks(e, y) <==> y == e.time || Ticks(Rescheduled(e), y)
  {
    var r := Rescheduled(e);
    if m: nat :| TickIs(e, m, y) {
      if m > 0 {
        assert m * e.period == (m - 1) * e.period + e.period;
        assert TickIs(r, m - 1, y);
      }
    }
    if m: nat :| TickIs(r, m, y) {
      assert (m + 1) * e.period == m * e.period + e.period;
      assert TickIs(e, m + 1, y);
    }
    TicksFrom(e, y);
  }

  /** A one-shot expires once. */
  lemma TicksOnce<T>(e: Entry<T>, y: nat)
    requires !e.periodic
    ensures Ticks(e, y) <==> y == e.time
  {
    TicksFrom(e, y);
    if m: nat :| TickIs(e, m, y) {
      assert m == 0;
    }
  }

  /** The members of the list after a firing. */
  lemma AfterIs<T>(s: Entries<T>, i: nat, x: Entry<T>)
    requires DistinctIds(s) && i < |s|
    ensures x in AfterFiring(s, i) <==> (x in s && x != s[i]) || (s[i].periodic && x == Rescheduled(s[i]))
  {
    var m, e := Without(s, i), Rescheduled(s[i]);
    MembersOfWithout(s, i, x);
    if s[i].periodic {
      MembersOfInserted(m, Position(m, e.time), e, x);
    }
  }

  /** An expiry after `x` of a timer of the list is one of the list after the timer at `i` fired at `x` or before. */
  lemma TickSurvives<T>(s: Entries<T>, i: nat, f: Entry<T>, t: nat) returns (g: Entry<T>)
    requires DistinctIds(s) && i < |s| && f in s && Ticks(f, t) && t > s[i].time
    ensures g in AfterFiring(s, i) && g.id == f.id && Ticks(g, t)
  {
    hide AfterFiring, Ticks;
    if f != s[i] {
      g := f;
    } else if f.periodic {
      TicksOn(f, t);
      g := Rescheduled(f);
    } else {
      TicksOnce(f, t);
      g := f;
    }
    AfterIs(s, i, g);
  }

  /** And the other way round. */
  lemma TickBefore<T>(s: Entries<T>, i: nat, g: Entry<T>, t: nat) returns (f: Entry<T>)
    requires DistinctIds(s) && i < |s| && g in AfterFiring(s, i) && Ticks(g, t)
    ensures f in s && f.id == g.id && Ticks(f, t) && f.periodic == g.periodic && f.period == g.period
  {
    hide AfterFiring, Ticks;
    AfterIs(s, i, g);
    if g in s && g != s[i] {
      f := g;
    } else {
      f := s[i];
      TicksOn(f, t);
    }
  }

  /** Covering is kept by a firing, as long as what is still due is not behind the walk. */
  lemma CoveredKept<T>(s: Entries<T>, i: nat, now: nat)
    requires Sorted(s) && DistinctIds(s) && Ticking(s) && i < |s| && s[i].time <= now
    requires NoneDueBehind(s, i, now) && Covered(s, now)
    ensures Covered(AfterFiring(s, i), now)
  {
    hide AfterFiring, Ticks;
    var r := AfterFiring(s, i);
    forall g: Entry<T>, x: nat | g in r && g.periodic && Ticks(g, x) && x + g.period <= now
      ensures OtherWithin(r, g, x, x + g.period)
    {
      var e := TickBefore(s, i, g, x);
      assert OtherWithin(s, e, x, x + e.period);
      var f, t: nat :| f in s && f.id != e.id && Ticks(f, t) && x < t <= x + e.period;
      NotBefore(s, i, now, e, x);
      var h := TickSurvives(s, i, f, t);
    }
  }

  /** What is still to come of the timers is not before the one the walk stands at, if it is due. */
  lemma NotBefore<T>(s: Entries<T>, i: nat, now: nat, e: Entry<T>, x: nat)
    requires Sorted(s) && i < |s| && NoneDueBehind(s, i, now) && e in s && Ticks(e, x) && x <= now
    ensures x >= s[i].time
  {
    TicksFrom(e, x);
    var k :| 0 <= k < |s| && s[k] == e;
  }

  /** A covered list is caught up with. */
  lemma {:induction false} CoveredCatchesUp<T>(s: Entries<T>, i: nat, now: nat)
    requires Sorted(s) && DistinctIds(s) && Ticking(s) && NoneDueBehind(s, i, now) && Covered(s, now)
    ensures CatchesUp(s, i, now)
    decreases TotalLateness(s, now)
  {
    hide TotalLateness, AfterFiring, NextIndex, Covered, Ticks;
    if i < |s| && s[i].time <= now {
      FiringIsProgress(s, i, now);
      FiringKeeps(s, i);
      CoveredHere(s, i, now);
      CoveredKept(s, i, now);
      BehindAfter(s, i, now);
      CoveredCatchesUp(AfterFiring(s, i), NextIndex(s, i), now);
    }
  }

  lemma CoveredHere<T>(s: Entries<T>, i: nat, now: nat)
    requires Sorted(s) && DistinctIds(s) && i < |s| && s[i].time <= now
    requires NoneDueBehind(s, i, now) && Covered(s, now)
    ensures s[i].periodic && s[i].time + s[i].period <= now ==> Revisited(s, i)
  {
    hide Ticks;
    var e := s[i];
    if e.periodic && e.time + e.period <= now {
      TicksFrom(e, e.time);
      assert OtherWithin(s, e, e.time, e.time + e.period);
      var f, t: nat :| f in s && f.id != e.id && Ticks(f, t) && e.time < t <= e.time + e.period;
      TicksFrom(f, t);
      var k :| 0 <= k < |s| && s[k] == f;
      assert k > i;
    }
  }

  /** A list that is caught up with is met. */
  lemma {:induction false} CatchesUpMet<T>(s: Entries<T>, i: nat, now: nat)
    requires Sorted(s) && DistinctIds(s) && Ticking(s) && NoneDueBehind(s, i, now) && CatchesUp(s, i, now)
    ensures Met(s, now)
    decreases TotalLateness(s, now)
  {
    hide TotalLateness, AfterFiring, NextIndex, Met, Ticks;
    if i < |s| && s[i].time <= now {
      FiringIsProgress(s, i, now);
      FiringKeeps(s, i);
      BehindAfter(s, i, now);
      CatchesUpMet(AfterFiring(s, i), NextIndex(s, i), now);
      MetBefore(s, i, now);
    } else {
      NothingToMeet(s, i, now);
    }
  }

  lemma NothingToMeet<T>(s: Entries<T>, i: nat, now: nat)
    requires Sorted(s) && NoneDueBehind(s, i, now) && (i >= |s| || s[i].time > now)
    ensures Met(s, now)
  {
    hide Ticks;
    forall e: Entry<T>, x: nat | e in s && Ticks(e, x) ensures x > now {
      TicksFrom(e, x);
      var k :| 0 <= k < |s| && s[k] == e;
    }
  }

  lemma MetBefore<T>(s: Entries<T>, i: nat, now: nat)
    requires Sorted(s) && DistinctIds(s) && i < |s| && s[i].time <= now && Met(AfterFiring(s, i), now)
    requires s[i].periodic && s[i].time + s[i].period <= now ==> Revisited(s, i)
    ensures Met(s, now)
  {
    hide AfterFiring, Ticks;
    var r := AfterFiring(s, i);
    forall e: Entry<T>, x: nat | e in s && e.periodic && Ticks(e, x) && x + e.period <= now
      ensures OtherFrom(s, e, x, x + e.period)
    {
      if e == s[i] && x == e.time {
        TicksFrom(s[i + 1], s[i + 1].time);
        assert s[i + 1] in s && s[i + 1].id != e.id && s[i].time <= s[i + 1].time;
      } else {
        var g := if e == s[i] then Rescheduled(e) else e;
        AfterIs(s, i, g);
        if e == s[i] { TicksOn(e, x); }
        assert OtherFrom(r, g, x, x + g.period);
        var h, t: nat :| h in r && h.id != g.id && Ticks(h, t) && x <= t <= x + g.period;
        var f := TickBefore(s, i, h, t);
      }
    }
  }

  /** A condition on the list before the pass: it is enough for leaving nothing due that between any two consecutive due
      expiries of a periodic timer another timer expires; and it is necessary, the earlier expiry included. Where no two
      timers expire together the two are one. */
  lemma NothingDueBefore<T>(s: Entries<T>, now: nat)
    requires Sorted(s) && DistinctIds(s) && Ticking(s)
    ensures Covered(s, now) ==> NoneDue(Run(s, 0, now).list, now)
    ensures NoneDue(Run(s, 0, now).list, now) ==> Met(s, now)
    ensures NoTies(s, now) ==> (NoneDue(Run(s, 0, now).list, now) <==> Covered(s, now))
  {
    hide CatchesUp, Run, Covered, Met, NoTies;
    NothingDueIff(s, 0, now);
    if Covered(s, now) {
      CoveredCatchesUp(s, 0, now);
    }
    if CatchesUp(s, 0, now) {
      CatchesUpMet(s, 0, now);
      if NoTies(s, now) {
        MetWithoutTies(s, now);
      }
    }
  }

  lemma MetWithoutTies<T>(s: Entries<T>, now: nat)
    requires Met(s, now) && NoTies(s, now)
    ensures Covered(s, now)
  {
    hide Ticks;
    forall e: Entry<T>, x: nat | e in s && e.periodic && Ticks(e, x) && x + e.period <= now
      ensures OtherWithin(s, e, x, x + e.period)
    {
      assert OtherFrom(s, e, x, x + e.period);
      var f, t: nat :| f in s && f.id != e.id && Ticks(f, t) && x <= t <= x + e.period;
    }
  }

  // ------------------------------------------------------------------- firing once

  /** Every due periodic timer is late by less than its period. */
  ghost predicate Prompt<T>(s: Entries<T>, now: nat) {
    forall k :: 0 <= k < |s| && s[k].time <= now && s[k].periodic ==> s[k].time + s[k].period > now
  }

  ghost predicate FiresOnce<T>(fired: Entries<T>, x: Entry<T>) { Firings(fired, x.id) == 1 }

  lemma PromptKept<T>(s: Entries<T>, i: nat, now: nat)
    requires Sorted(s) && DistinctIds(s) && Prompt(s, now) && i < |s| && s[i].time <= now
    ensures Prompt(AfterFiring(s, i), now)
  {
    hide AfterFiring;
    var r := AfterFiring(s, i);
    forall k | 0 <= k < |r| && r[k].time <= now && r[k].periodic ensures r[k].time + r[k].period > now {
      var x := r[k];
      AfterIs(s, i, x);
      if x in s {
        var m :| 0 <= m < |s| && s[m] == x;
        assert s[m].time <= now && s[m].periodic;
      }
    }
  }

  /** The timer that fired does not fire again in the rest of the pass. */
  lemma NotAgain<T>(s: Entries<T>, i: nat, now: nat)
    requires Sorted(s) && DistinctIds(s) && Ticking(s) && Prompt(s, now) && i < |s| && s[i].time <= now
    ensures Ticking(AfterFiring(s, i))
    ensures Firings(Run(AfterFiring(s, i), NextIndex(s, i), now).fired, s[i].id) == 0
  {
    hide AfterFiring, NextIndex, Run, TotalLateness;
    FiringIsProgress(s, i, now);
    FiringKeeps(s, i);
    var r, j := AfterFiring(s, i), NextIndex(s, i);
    if s[i].periodic {
      NotDueStays(r, j, now, Rescheduled(s[i]));
    } else {
      OneShotGone(s, i);
      RunKeepsStrangersOut(r, j, now, s[i].id);
    }
  }

  lemma {:induction false} PromptFiresOnce<T>(s: Entries<T>, i: nat, now: nat)
    requires Sorted(s) && DistinctIds(s) && Ticking(s) && Prompt(s, now)
    ensures CatchesUp(s, i, now)
    ensures forall k :: i <= k < |s| && s[k].time <= now ==> FiresOnce(Run(s, i, now).fired, s[k])
    decreases TotalLateness(s, now)
  {
    hide TotalLateness, AfterFiring, NextIndex, Ticking;
    if i < |s| && s[i].time <= now {
      FiringIsProgress(s, i, now);
      FiringKeeps(s, i);
      FiringWalks(s, i);
      PromptKept(s, i, now);
      NotAgain(s, i, now);
      var r, j := AfterFiring(s, i), NextIndex(s, i);
      PromptFiresOnce(r, j, now);
      var rest := Run(r, j, now).fired;
      assert Run(s, i, now).fired == [s[i]] + rest;
      forall k | i <= k < |s| && s[k].time <= now ensures FiresOnce(Run(s, i, now).fired, s[k]) {
        FiringsStep(s[i], rest, s[k].id);
        if k > i {
          var m :| j <= m < |r| && r[m] == s[k];
          assert FiresOnce(rest, r[m]);
        }
      }
    }
  }

  /** Exactly when every due periodic timer is late by less than its period, each due timer fires once and nothing due
      is left. */
  lemma OnceEachIff<T>(s: Entries<T>, now: nat)
    requires Sorted(s) && DistinctIds(s) && Ticking(s)
    ensures (NoneDue(Run(s, 0, now).list, now)
             && forall k :: 0 <= k < |s| && s[k].time <= now ==> FiresOnce(Run(s, 0, now).fired, s[k]))
       <==> Prompt(s, now)
  {
    hide CatchesUp, Run;
    var p := Run(s, 0, now);
    NothingDueIff(s, 0, now);
    if Prompt(s, now) {
      PromptFiresOnce(s, 0, now);
    } else {
      var k :| 0 <= k < |s| && s[k].time <= now && s[k].periodic && s[k].time + s[k].period <= now;
      RunMovesByPeriods(s, 0, now, s[k]);
      if FiresOnce(p.fired, s[k]) {
        assert Later(s[k], 1) in p.list;
        var m :| 0 <= m < |p.list| && p.list[m] == Later(s[k], 1);
      }
    }
  }

  /** A timer of period 10 that is 30 late fires twice in one pass if another is due in between, and is still late. */
  lemma LateTimerFiresTwice()
    ensures var a, b := Entry(1, 0, 10, true), Entry(2, 5, 0, false);
            Run([a, b], 0, 30) == Pass([Later(a, 2)], [a, b, Later(a, 1)])
  {
    hide Run, TotalLateness, AfterFiring, NextIndex;
    var a, b := Entry(1, 0, 10, true), Entry(2, 5, 0, false);
    var c, d := Later(a, 1), Later(a, 2);
    PassesOne(a, b);
    DropsFirst(b, c);
    FiresLast(c);
    OneTurn([a, b], 0, 30);
    OneTurn([b, c], 0, 30);
    OneTurn([c], 0, 30);
    LastTurn([d], 1, 30);
  }

  lemma PassesOne<T>(a: Entry<T>, b: Entry<T>)
    requires a.periodic && b.time <= a.time + a.period
    ensures AfterFiring([a, b], 0) == [b, Rescheduled(a)] && NextIndex([a, b], 0) == 0
  {
    assert Without([a, b], 0) == [b];
    assert Position([b], a.time + a.period) == 1;
  }

  lemma DropsFirst<T>(a: Entry<T>, b: Entry<T>)
    requires !a.periodic
    ensures AfterFiring([a, b], 0) == [b] && NextIndex([a, b], 0) == 0
  {
  }

  lemma FiresLast<T>(a: Entry<T>)
    requires a.periodic
    ensures AfterFiring([a], 0) == [Rescheduled(a)] && NextIndex([a], 0) == 1
  {
    assert Without([a], 0) == [];
  }

  lemma LastTurn<T>(s: Entries<T>, i: nat, now: nat)
    requires Ticking(s) && i >= |s|
    ensures Run(s, i, now) == Pass(s, [])
  {
  }
}

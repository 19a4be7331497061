/** A pass whose callbacks reset other timers, as the end of the omit period does: the successor that the walk has saved
    may be somewhere else when it is used. */
module TimerResets {
  import opened Sequences
  import opened TimerRun

  /** The place of the timer `id`, or the length. */
  function Place<T(==)>(s: Entries<T>, id: T): (k: nat)
    ensures k <= |s| && (k < |s| ==> s[k].id == id) && forall j :: 0 <= j < k ==> s[j].id != id
  {
    if s == [] || s[0].id == id then 0 else 1 + Place(s[1..], id)
  }

  function Renewed<T>(e: Entry<T>, now: nat): Entry<T> {
    e.(time := now + e.period)
  }

  function AfterReset<T(==)>(e: Entry<T>, ids: seq<T>, now: nat): Entry<T> {
    if e.id in ids then Renewed(e, now) else e
  }

  /** `tmr_reset`. */
  function ResetOne<T(==)>(s: Entries<T>, id: T, now: nat): Entries<T> {
    var k := Place(s, id);
    if k == |s| then s else Add(Without(s, k), Renewed(s[k], now))
  }

  function ResetAll<T(==)>(s: Entries<T>, ids: seq<T>, now: nat): Entries<T> {
    if ids == [] then s else ResetOne(ResetAll(s, ids[..|ids| - 1], now), ids[|ids| - 1], now)
  }

  /** A list as the package keeps it. */
  ghost predicate Proper<T>(s: Entries<T>) {
    Sorted(s) && DistinctIds(s) && Ticking(s)
  }

  /** No callback resets its own timer, or one without an interval. */
  ghost predicate ResetsOk<T>(s: Entries<T>, resets: T -> seq<T>) {
    forall x, y :: x in s && y in s && y.id in resets(x.id) ==> y.period > 0 && y.id != x.id
  }

  /** The timers of `r` are timers of `s`, at other times perhaps. */
  ghost predicate Stems<T>(r: Entries<T>, s: Entries<T>) {
    forall y :: y in r ==> exists x :: x in s && x.id == y.id && x.period == y.period && x.periodic == y.periodic
  }

  lemma StemsOk<T>(r: Entries<T>, s: Entries<T>, resets: T -> seq<T>)
    requires Stems(r, s) && ResetsOk(s, resets)
    ensures ResetsOk(r, resets)
  {
  }

  lemma StemsTwice<T>(r: Entries<T>, s: Entries<T>, t: Entries<T>)
    requires Stems(r, s) && Stems(s, t)
    ensures Stems(r, t)
  {
  }

  /** Exactly the timers named have their interval before them, and all others are as they were. */
  ghost predicate IsReset<T>(r: Entries<T>, s: Entries<T>, ids: seq<T>, now: nat) {
    Covers(r, s, ids, now) && CameFrom(r, s, ids, now)
  }

  ghost predicate Covers<T>(r: Entries<T>, s: Entries<T>, ids: seq<T>, now: nat) {
    forall x :: x in s ==> AfterReset(x, ids, now) in r
  }

  ghost predicate CameFrom<T>(r: Entries<T>, s: Entries<T>, ids: seq<T>, now: nat) {
    forall y :: y in r ==> exists x :: x in s && y == AfterReset(x, ids, now)
  }

  lemma ResetOneMembers<T>(s: Entries<T>, id: T, now: nat)
    requires Proper(s)
    ensures IsReset(ResetOne(s, id, now), s, [id], now)
  {
    hide Sorted, Ticking;
    var k, r := Place(s, id), ResetOne(s, id, now);
    if k < |s| {
      var m, e := Without(s, k), Renewed(s[k], now);
      assert forall x :: x in s ==> (x.id == id <==> x == s[k]);
      assert s[k] in s;
      MembersOfInserted(m, Position(m, e.time), e, e);
      forall x | x in s && x != s[k] ensures x in r {
        MembersOfWithout(s, k, x);
        MembersOfInserted(m, Position(m, e.time), e, x);
      }
      forall y | y in r && y != e ensures y in s && y.id != id {
        MembersOfWithout(s, k, y);
        MembersOfInserted(m, Position(m, e.time), e, y);
      }
    }
  }

  /** One reset keeps the list in order and makes it no later than it was. */
  lemma ResetOneKeeps<T>(s: Entries<T>, id: T, now: nat)
    requires Proper(s) && forall x :: x in s && x.id == id ==> x.period > 0
    ensures Proper(ResetOne(s, id, now)) && |ResetOne(s, id, now)| == |s|
    ensures TotalLateness(ResetOne(s, id, now), now) <= TotalLateness(s, now)
  {
    hide TotalLateness, Sorted, DistinctIds, Ticking;
    var k := Place(s, id);
    if k < |s| {
      var m, e := Without(s, k), Renewed(s[k], now);
      assert s[k] in s;
      WithoutKeeps(s, k);
      AddSorted(m, e);
      AddDistinct(m, e);
      TicksAgain(s, k, e);
      LatenessWithout(s, k, now);
      LatenessInserted(m, Position(m, e.time), e, now);
    }
  }

  lemma TicksAgain<T>(s: Entries<T>, k: nat, e: Entry<T>)
    requires Ticking(s) && k < |s| && e.period > 0
    ensures Ticking(Add(Without(s, k), e))
  {
  }

  /** Any number of resets. */
  lemma {:induction false} ResetAllKeeps<T>(s: Entries<T>, ids: seq<T>, now: nat)
    requires Proper(s) && forall x :: x in s && x.id in ids ==> x.period > 0
    ensures Proper(ResetAll(s, ids, now)) && |ResetAll(s, ids, now)| == |s|
    ensures IsReset(ResetAll(s, ids, now), s, ids, now)
    ensures TotalLateness(ResetAll(s, ids, now), now) <= TotalLateness(s, now)
  {
    hide Proper, ResetOne, TotalLateness, IsReset;
    if ids != [] {
      var before, id := ids[..|ids| - 1], ids[|ids| - 1];
      assert ids == before + [id];
      ResetAllKeeps(s, before, now);
      var r := ResetAll(s, before, now);
      RenewedHaveIntervals(r, s, before, now, id);
      ResetOneKeeps(r, id, now);
      ResetOneMembers(r, id, now);
      ResetMore(ResetAll(s, ids, now), r, s, before, id, now);
    } else {
      NoneReset(s, ids, now);
    }
  }

  lemma NoneReset<T>(s: Entries<T>, ids: seq<T>, now: nat)
    requires ids == []
    ensures IsReset(s, s, ids, now)
  {
  }

  lemma ResetMore<T>(t: Entries<T>, r: Entries<T>, s: Entries<T>, ids: seq<T>, id: T, now: nat)
    requires IsReset(r, s, ids, now) && IsReset(t, r, [id], now)
    ensures IsReset(t, s, ids + [id], now)
  {
    hide Covers, CameFrom;
    CoversMore(t, r, s, ids, id, now);
    CameFromMore(t, r, s, ids, id, now);
  }

  lemma CoversMore<T>(t: Entries<T>, r: Entries<T>, s: Entries<T>, ids: seq<T>, id: T, now: nat)
    requires Covers(r, s, ids, now) && Covers(t, r, [id], now)
    ensures Covers(t, s, ids + [id], now)
  {
    hide AfterReset;
    forall x | x in s ensures AfterReset(x, ids + [id], now) in t {
      ResetTwice(x, ids, id, now);
    }
  }

  lemma CameFromMore<T>(t: Entries<T>, r: Entries<T>, s: Entries<T>, ids: seq<T>, id: T, now: nat)
    requires CameFrom(r, s, ids, now) && CameFrom(t, r, [id], now)
    ensures CameFrom(t, s, ids + [id], now)
  {
    hide AfterReset;
    forall z | z in t ensures exists x :: x in s && z == AfterReset(x, ids + [id], now) {
      var y :| y in r && z == AfterReset(y, [id], now);
      var x :| x in s && y == AfterReset(x, ids, now);
      ResetTwice(x, ids, id, now);
    }
  }

  lemma ResetTwice<T>(x: Entry<T>, ids: seq<T>, id: T, now: nat)
    ensures AfterReset(x, ids + [id], now) == AfterReset(AfterReset(x, ids, now), [id], now)
  {
  }

  lemma RenewedHaveIntervals<T>(r: Entries<T>, s: Entries<T>, ids: seq<T>, now: nat, id: T)
    requires IsReset(r, s, ids, now) && forall x :: x in s && x.id == id ==> x.period > 0
    ensures forall y :: y in r && y.id == id ==> y.period > 0
  {
  }

  lemma ResetStems<T>(r: Entries<T>, s: Entries<T>, ids: seq<T>, now: nat)
    requires IsReset(r, s, ids, now)
    ensures Stems(r, s)
  {
  }

  lemma PlaceIs<T>(s: Entries<T>, y: Entry<T>)
    requires DistinctIds(s) && y in s
    ensures Place(s, y.id) < |s| && s[Place(s, y.id)] == y
  {
  }

  /** The timer `id` is still in the list. */
  lemma ResetStays<T>(r: Entries<T>, s: Entries<T>, ids: seq<T>, now: nat, x: Entry<T>)
    requires IsReset(r, s, ids, now) && x in s && DistinctIds(r)
    ensures Place(r, x.id) < |r| && r[Place(r, x.id)] == AfterReset(x, ids, now)
  {
    hide CameFrom, DistinctIds;
    assert AfterReset(x, ids, now) in r;
    PlaceIs(r, AfterReset(x, ids, now));
  }

  lemma FiringMember<T>(s: Entries<T>, k: nat, y: Entry<T>)
    requires Sorted(s) && DistinctIds(s) && k < |s|
    ensures y in AfterFiring(s, k) <==> (y in s && y != s[k]) || (s[k].periodic && y == Rescheduled(s[k]))
  {
    FiringKeeps(s, k);
  }

  lemma FiringStems<T>(s: Entries<T>, k: nat)
    requires Proper(s) && k < |s|
    ensures Proper(AfterFiring(s, k)) && Stems(AfterFiring(s, k), s)
  {
    assert s[k] in s;
    FiringKeeps(s, k);
    TickingKept(s, k);
    forall y | y in AfterFiring(s, k)
      ensures exists x :: x in s && x.id == y.id && x.period == y.period && x.periodic == y.periodic
    {
      FiringMember(s, k, y);
    }
  }

  /** The timer whose turn it is next. */
  datatype Saved<+T> = Nothing | Saved(id: T)

  function SavedAt<T>(s: Entries<T>, k: nat): Saved<T> {
    if k < |s| then Saved(s[k].id) else Nothing
  }

  /** One turn at the timer at `k`: the callback's resets, and then the timer is settled where it is by now. */
  ghost function Turn<T>(s: Entries<T>, k: nat, now: nat, resets: T -> seq<T>): Entries<T>
    requires k < |s|
  {
    var r := ResetAll(s, resets(s[k].id), now);
    var j := Place(r, s[k].id);
    if j < |r| then AfterFiring(r, j) else r
  }

  lemma AllProper<T>(s: Entries<T>)
    requires Proper(s)
    ensures Sorted(s) && DistinctIds(s) && Ticking(s)
  {
  }

  lemma OthersHaveIntervals<T>(s: Entries<T>, k: nat, resets: T -> seq<T>)
    requires ResetsOk(s, resets) && k < |s|
    ensures s[k] in s && s[k].id !in resets(s[k].id) && forall x :: x in s && x.id in resets(s[k].id) ==> x.period > 0
  {
    assert s[k] in s;
  }

  lemma TurnKeeps<T>(s: Entries<T>, k: nat, now: nat, resets: T -> seq<T>)
    requires Proper(s) && ResetsOk(s, resets) && k < |s| && s[k].time <= now
    ensures Proper(Turn(s, k, now, resets)) && ResetsOk(Turn(s, k, now, resets), resets)
    ensures Stems(Turn(s, k, now, resets), s) && TotalLateness(Turn(s, k, now, resets), now) < TotalLateness(s, now)
    ensures var r, j := ResetAll(s, resets(s[k].id), now), Place(ResetAll(s, resets(s[k].id), now), s[k].id);
            Proper(r) && j < |r| && r[j] == s[k] && Turn(s, k, now, resets) == AfterFiring(r, j)
  {
    hide Proper, TotalLateness, AfterFiring, IsReset, Stems, ResetAll, ResetsOk;
    var ids := resets(s[k].id);
    var r := ResetAll(s, ids, now);
    OthersHaveIntervals(s, k, resets);
    AllProper(s);
    ResetAllKeeps(s, ids, now);
    ResetStems(r, s, ids, now);
    AllProper(r);
    ResetStays(r, s, ids, now, s[k]);
    var j := Place(r, s[k].id);
    FiringStems(r, j);
    FiringIsProgress(r, j, now);
    StemsTwice(AfterFiring(r, j), r, s);
    StemsOk(AfterFiring(r, j), s, resets);
  }

  /** `tmr_run` from the saved timer on, with callbacks that reset timers. */
  ghost function RunFrom<T>(s: Entries<T>, at: Saved<T>, now: nat, resets: T -> seq<T>): Pass<T>
    requires Proper(s) && ResetsOk(s, resets)
    decreases TotalLateness(s, now)
  {
    if at.Nothing? || Place(s, at.id) == |s| then Pass(s, [])
    else
      var k := Place(s, at.id);
      if s[k].time > now then Pass(s, [])
      else
        TurnKeeps(s, k, now, resets);
        var rest := RunFrom(Turn(s, k, now, resets), SavedAt(s, k + 1), now, resets);
        Pass(rest.list, [s[k]] + rest.fired)
  }

  lemma PlaceOf<T>(s: Entries<T>, k: nat)
    requires DistinctIds(s) && k < |s|
    ensures Place(s, s[k].id) == k
  {
  }

  /** A turn of the pass, at the timer at `k`. */
  lemma OneTurnFrom<T>(s: Entries<T>, k: nat, now: nat, resets: T -> seq<T>)
    requires Proper(s) && ResetsOk(s, resets) && k < |s| && s[k].time <= now
    ensures Proper(Turn(s, k, now, resets)) && ResetsOk(Turn(s, k, now, resets), resets)
    ensures var rest := RunFrom(Turn(s, k, now, resets), SavedAt(s, k + 1), now, resets);
            RunFrom(s, Saved(s[k].id), now, resets) == Pass(rest.list, [s[k]] + rest.fired)
  {
    hide Turn, ResetsOk, TotalLateness;
    PlaceOf(s, k);
    TurnKeeps(s, k, now, resets);
  }

  lemma NoTurnFrom<T>(s: Entries<T>, k: nat, now: nat, resets: T -> seq<T>)
    requires Proper(s) && ResetsOk(s, resets) && (k < |s| ==> s[k].time > now)
    ensures RunFrom(s, SavedAt(s, k), now, resets) == Pass(s, [])
  {
    hide Turn, ResetsOk, TotalLateness;
    if k < |s| {
      PlaceOf(s, k);
    }
  }

  // ------------------------------------------------------------- what such a pass guarantees

  /** Without resets it is the pass of `TimerRun`. */
  lemma {:induction false} NoResetsIsRun<T>(s: Entries<T>, k: nat, now: nat, resets: T -> seq<T>)
    requires Proper(s) && ResetsOk(s, resets) && forall id :: resets(id) == []
    ensures RunFrom(s, SavedAt(s, k), now, resets) == Run(s, k, now)
    decreases TotalLateness(s, now)
  {
    hide Sorted, ResetsOk, TotalLateness, AfterFiring, NextIndex, DistinctIds, Ticking, RunFrom;
    if k < |s| && s[k].time <= now {
      TurnKeeps(s, k, now, resets);
      OneTurnFrom(s, k, now, resets);
      OneTurn(s, k, now);
      PlaceOf(s, k);
      FiringWalks(s, k);
      NextOrEnd(s, k);
      assert Turn(s, k, now, resets) == AfterFiring(s, k);
      assert SavedAt(AfterFiring(s, k), NextIndex(s, k)) == SavedAt(s, k + 1);
      NoResetsIsRun(AfterFiring(s, k), NextIndex(s, k), now, resets);
    } else {
      NoTurnFrom(s, k, now, resets);
    }
  }

  lemma NextOrEnd<T>(s: Entries<T>, k: nat)
    requires k < |s|
    ensures NextIndex(s, k) < |AfterFiring(s, k)| <==> k + 1 < |s|
  {
  }

  /** No timer fires before it is due, and only timers of the list fire. */
  lemma {:induction false} FiresOnTime<T>(s: Entries<T>, at: Saved<T>, now: nat, resets: T -> seq<T>)
    requires Proper(s) && ResetsOk(s, resets)
    ensures var p := RunFrom(s, at, now, resets);
            Proper(p.list) && Stems(p.list, s) && Stems(p.fired, s) && forall x :: x in p.fired ==> x.time <= now
    decreases TotalLateness(s, now)
  {
    hide Proper, ResetsOk, TotalLateness, Turn;
    if at.Saved? && Place(s, at.id) < |s| && s[Place(s, at.id)].time <= now {
      var k := Place(s, at.id);
      TurnKeeps(s, k, now, resets);
      assert s[k] in s;
      var r, next := Turn(s, k, now, resets), SavedAt(s, k + 1);
      FiresOnTime(r, next, now, resets);
      StemsTwice(RunFrom(r, next, now, resets).list, r, s);
      StemsTwice(RunFrom(r, next, now, resets).fired, r, s);
    }
  }

  // -------------------------------------------------- which due timers such a pass can miss

  /** The due timers, which are in front, are the same in both. */
  ghost predicate SameDue<T>(r: Entries<T>, s: Entries<T>, now: nat) {
    && (forall k :: 0 <= k < |s| && s[k].time <= now ==> k < |r| && r[k] == s[k])
    && (forall k :: 0 <= k < |r| && r[k].time <= now ==> k < |s| && r[k] == s[k])
  }

  lemma ResetOneSameDue<T>(s: Entries<T>, id: T, now: nat)
    requires Proper(s) && forall x :: x in s && x.id == id ==> x.period > 0 && x.time > now
    ensures SameDue(ResetOne(s, id, now), s, now)
  {
    hide Sorted, DistinctIds, Ticking, Add;
    var p := Place(s, id);
    if p < |s| {
      assert s[p] in s;
      var m, e := Without(s, p), Renewed(s[p], now);
      WithoutKeeps(s, p);
      WithoutSameDue(s, p, now);
      AddSameDue(m, e, now);
    }
  }

  lemma WithoutSameDue<T>(s: Entries<T>, p: nat, now: nat)
    requires Sorted(s) && p < |s| && s[p].time > now
    ensures SameDue(Without(s, p), s, now)
  {
  }

  lemma AddSameDue<T>(m: Entries<T>, e: Entry<T>, now: nat)
    requires Sorted(m) && e.time > now
    ensures SameDue(Add(m, e), m, now)
  {
    var p := Position(m, e.time);
    assert forall k :: 0 <= k < |m| && m[k].time <= now ==> k < p;
  }

  /** Resets of timers that are not due leave the due ones alone. */
  lemma {:induction false} ResetAllSameDue<T>(s: Entries<T>, ids: seq<T>, now: nat)
    requires Proper(s) && forall x :: x in s && x.id in ids ==> x.period > 0 && x.time > now
    ensures SameDue(ResetAll(s, ids, now), s, now)
  {
    hide Proper, ResetOne, IsReset;
    if ids != [] {
      var before, id := ids[..|ids| - 1], ids[|ids| - 1];
      assert ids == before + [id];
      ResetAllSameDue(s, before, now);
      ResetAllKeeps(s, before, now);
      var r := ResetAll(s, before, now);
      StillNotDue(r, s, before, now, id);
      ResetOneSameDue(r, id, now);
    }
  }

  lemma StillNotDue<T>(r: Entries<T>, s: Entries<T>, ids: seq<T>, now: nat, id: T)
    requires IsReset(r, s, ids, now) && forall x :: x in s && x.id == id ==> x.period > 0 && x.time > now
    ensures forall y :: y in r && y.id == id ==> y.period > 0 && y.time > now
  {
  }

  /** No callback of a due timer resets a due timer. */
  ghost predicate NoDueReset<T>(s: Entries<T>, now: nat, resets: T -> seq<T>) {
    forall x, y :: x in s && y in s && x.time <= now && y.time <= now ==> y.id !in resets(x.id)
  }

  /** If the callback of the timer at `i` resets no due timer, those behind it stay ahead of the walk. */
  lemma TurnAhead<T>(s: Entries<T>, i: nat, k: nat, now: nat, resets: T -> seq<T>) returns (j: nat, m: nat)
    requires Proper(s) && ResetsOk(s, resets) && i < k < |s| && s[i].time <= now && s[k].time <= now
    requires forall x :: x in s && x.id in resets(s[i].id) ==> x.time > now
    ensures var t := Turn(s, i, now, resets); SavedAt(t, j) == SavedAt(s, i + 1) && j <= m < |t| && t[m] == s[k]
  {
    hide ResetsOk, TotalLateness, Turn, Stems, AfterFiring, NextIndex;
    var r, t := ResetAll(s, resets(s[i].id), now), Turn(s, i, now, resets);
    TurnKeeps(s, i, now, resets);
    OthersHaveIntervals(s, i, resets);
    ResetAllSameDue(s, resets(s[i].id), now);
    PlaceOf(r, i);
    FiringWalks(r, i);
    j := NextIndex(r, i);
    assert r[k] == s[k];
    m :| j <= m < |t| && t[m] == r[k];
    assert s[i + 1].time <= s[k].time;
  }

  /** As long as only timers that are not due are reset, every timer due at entry fires. */
  lemma {:induction false} DueAllFire<T>(s: Entries<T>, i: nat, now: nat, resets: T -> seq<T>)
    requires Proper(s) && ResetsOk(s, resets) && NoDueReset(s, now, resets)
    ensures forall k :: i <= k < |s| && s[k].time <= now ==> s[k] in RunFrom(s, SavedAt(s, i), now, resets).fired
    decreases TotalLateness(s, now)
  {
    hide Proper, ResetsOk, TotalLateness, Turn, RunFrom, NoDueReset, Stems;
    if i < |s| && s[i].time <= now {
      var t := Turn(s, i, now, resets);
      TurnKeeps(s, i, now, resets);
      OneTurnFrom(s, i, now, resets);
      OnlyLaterReset(s, i, now, resets);
      TurnNoDueReset(s, i, now, resets);
      forall k | i < k < |s| && s[k].time <= now ensures s[k] in RunFrom(t, SavedAt(s, i + 1), now, resets).fired {
        var j, m := TurnAhead(s, i, k, now, resets);
        DueAllFire(t, j, now, resets);
        assert t[m] in RunFrom(t, SavedAt(t, j), now, resets).fired;
      }
    } else {
      NothingDueBehind(s, i, now);
    }
  }

  lemma NothingDueBehind<T>(s: Entries<T>, i: nat, now: nat)
    requires Proper(s) && (i < |s| ==> s[i].time > now)
    ensures forall k :: i <= k < |s| ==> s[k].time > now
  {
  }

  /** The timer fired in the pass, or a timer that fired has reset it. */
  ghost predicate Attended<T>(x: Entry<T>, fired: Entries<T>, resets: T -> seq<T>) {
    x in fired || exists y :: y in fired && x.id in resets(y.id)
  }

  /** A callback that resets a timer resets every other one. */
  ghost predicate AllOrNone<T(!new)>(resets: T -> seq<T>) {
    forall t, u, v :: t != u && t != v && u in resets(t) ==> v in resets(t)
  }

  /** Then no due timer is passed over. */
  lemma {:induction false} DueAttended<T(!new)>(s: Entries<T>, i: nat, now: nat, resets: T -> seq<T>)
    requires Proper(s) && ResetsOk(s, resets) && AllOrNone(resets)
    ensures forall k :: i <= k < |s| && s[k].time <= now ==>
              Attended(s[k], RunFrom(s, SavedAt(s, i), now, resets).fired, resets)
    decreases TotalLateness(s, now)
  {
    hide Proper, ResetsOk, TotalLateness, Turn, RunFrom, Stems, AllOrNone, Attended;
    if i < |s| && s[i].time <= now {
      var t := Turn(s, i, now, resets);
      TurnKeeps(s, i, now, resets);
      OneTurnFrom(s, i, now, resets);
      var later := RunFrom(t, SavedAt(s, i + 1), now, resets).fired;
      FirstAttended(s[i], later, resets);
      forall k | i < k < |s| && s[k].time <= now ensures Attended(s[k], [s[i]] + later, resets) {
        if u :| u in s && u.id in resets(s[i].id) {
          AllAttended(s, i, k, u, later, resets);
        } else {
          var j, m := TurnAhead(s, i, k, now, resets);
          DueAttended(t, j, now, resets);
          assert Attended(t[m], later, resets);
          LaterAttended(s[i], s[k], later, resets);
        }
      }
    } else {
      NothingDueBehind(s, i, now);
    }
  }

  lemma FirstAttended<T>(x: Entry<T>, later: Entries<T>, resets: T -> seq<T>)
    ensures Attended(x, [x] + later, resets)
  {
  }

  lemma LaterAttended<T>(x: Entry<T>, y: Entry<T>, later: Entries<T>, resets: T -> seq<T>)
    requires Attended(y, later, resets)
    ensures Attended(y, [x] + later, resets)
  {
    if z :| z in later && y.id in resets(z.id) {
      assert z in [x] + later;
    }
  }

  lemma AllAttended<T(!new)>(s: Entries<T>, i: nat, k: nat, u: Entry<T>, later: Entries<T>, resets: T -> seq<T>)
    requires Proper(s) && ResetsOk(s, resets) && AllOrNone(resets) && i < k < |s|
    requires u in s && u.id in resets(s[i].id)
    ensures Attended(s[k], [s[i]] + later, resets)
  {
    assert s[i] in s && s[i] in [s[i]] + later;
  }

  function AtZero<T>(id: T): Entry<T> { Entry(id, 0, 1, true) }

  /** Otherwise one can be: of three that are due the first resets the second, on which the walk then ends. The third has
      neither fired nor been reset. */
  lemma PassedOver<T(!new)>(t: T, u: T, v: T, resets: T -> seq<T>)
    requires t != u && u != v && v != t && u in resets(t) && v !in resets(t) && forall a :: a !in resets(a)
    ensures var s := [AtZero(t), AtZero(u), AtZero(v)];
            && Proper(s) && ResetsOk(s, resets)
            && RunFrom(s, SavedAt(s, 0), 0, resets).fired == [AtZero(t)]
            && !Attended(s[2], RunFrom(s, SavedAt(s, 0), 0, resets).fired, resets)
  {
    hide Turn, TotalLateness, Proper, ResetsOk, RunFrom, Attended, Stems, ResetAll;
    var s := [AtZero(t), AtZero(u), AtZero(v)];
    ThreeTimers(t, u, v, resets);
    TurnKeeps(s, 0, 0, resets);
    OneTurnFrom(s, 0, 0, resets);
    AfterTurn(s, 0, 1, 0, resets);
    EndsThere(Turn(s, 0, 0, resets), u, 0, resets);
    NotAttended(s[2], s[0], resets);
  }

  lemma NotAttended<T>(x: Entry<T>, y: Entry<T>, resets: T -> seq<T>)
    requires x != y && x.id !in resets(y.id)
    ensures !Attended(x, [y], resets)
  {
  }

  lemma ThreeTimers<T(!new)>(t: T, u: T, v: T, resets: T -> seq<T>)
    requires t != u && u != v && v != t && forall a :: a !in resets(a)
    ensures var s := [AtZero(t), AtZero(u), AtZero(v)]; Proper(s) && ResetsOk(s, resets)
  {
  }

  lemma EndsThere<T>(s: Entries<T>, id: T, now: nat, resets: T -> seq<T>)
    requires Proper(s) && ResetsOk(s, resets) && Place(s, id) < |s| && s[Place(s, id)].time > now
    ensures RunFrom(s, Saved(id), now, resets) == Pass(s, [])
  {
  }

  /** A timer other than the one that fired is still there, reset or as it was. */
  lemma AfterTurn<T>(s: Entries<T>, i: nat, k: nat, now: nat, resets: T -> seq<T>)
    requires Proper(s) && ResetsOk(s, resets) && i < |s| && s[i].time <= now && k < |s| && k != i
    ensures var t := Turn(s, i, now, resets);
            Place(t, s[k].id) < |t| && t[Place(t, s[k].id)] == AfterReset(s[k], resets(s[i].id), now)
  {
    hide TotalLateness, IsReset, ResetAll, Turn, Stems, AfterFiring, Proper, Sorted, DistinctIds;
    var ids := resets(s[i].id);
    var r := ResetAll(s, ids, now);
    TurnKeeps(s, i, now, resets);
    OthersHaveIntervals(s, i, resets);
    ResetAllKeeps(s, ids, now);
    AllProper(r);
    AllProper(s);
    AllProper(Turn(s, i, now, resets));
    assert s[k] in s;
    ResetStays(r, s, ids, now, s[k]);
    var y := AfterReset(s[k], ids, now);
    PlacesDiffer(s, i, k);
    var j := Place(r, s[i].id);
    FiringLeaves(r, j, y);
    PlaceIs(Turn(s, i, now, resets), y);
  }

  lemma PlacesDiffer<T>(s: Entries<T>, i: nat, k: nat)
    requires Proper(s) && i < |s| && k < |s| && i != k
    ensures s[i].id != s[k].id
  {
  }

  lemma FiringLeaves<T>(s: Entries<T>, j: nat, y: Entry<T>)
    requires Proper(s) && j < |s| && y in s && y.id != s[j].id
    ensures y in AfterFiring(s, j)
  {
    FiringKeeps(s, j);
  }

  /** So exactly if a callback that resets a timer resets all others, a pass never leaves a due timer behind that has
      neither fired nor been reset. */
  lemma NonePassedOverIff<T(!new)>(resets: T -> seq<T>)
    requires forall a :: a !in resets(a)
    ensures (forall s: Entries<T>, now: nat, k: nat ::
               Proper(s) && ResetsOk(s, resets) && k < |s| && s[k].time <= now ==>
                 Attended(s[k], RunFrom(s, SavedAt(s, 0), now, resets).fired, resets))
       <==> AllOrNone(resets)
  {
    hide Proper, ResetsOk, RunFrom, Attended;
    if AllOrNone(resets) {
      forall s: Entries<T>, now: nat, k: nat | Proper(s) && ResetsOk(s, resets) && k < |s| && s[k].time <= now
        ensures Attended(s[k], RunFrom(s, SavedAt(s, 0), now, resets).fired, resets)
      {
        DueAttended(s, 0, now, resets);
      }
    } else {
      var t, u, v :| t != u && t != v && u in resets(t) && v !in resets(t);
      PassedOver(t, u, v, resets);
    }
  }

  lemma OnlyLaterReset<T>(s: Entries<T>, i: nat, now: nat, resets: T -> seq<T>)
    requires ResetsOk(s, resets) && NoDueReset(s, now, resets) && i < |s| && s[i].time <= now
    ensures forall x :: x in s && x.id in resets(s[i].id) ==> x.period > 0 && x.time > now
  {
    assert s[i] in s;
  }

  lemma TurnNoDueReset<T>(s: Entries<T>, i: nat, now: nat, resets: T -> seq<T>)
    requires Proper(s) && ResetsOk(s, resets) && NoDueReset(s, now, resets) && i < |s| && s[i].time <= now
    ensures NoDueReset(Turn(s, i, now, resets), now, resets)
  {
    hide ResetsOk, TotalLateness, Stems, IsReset, AfterFiring, NoDueReset, ResetAll;
    var r := ResetAll(s, resets(s[i].id), now);
    TurnKeeps(s, i, now, resets);
    OnlyLaterReset(s, i, now, resets);
    ResetAllSameDue(s, resets(s[i].id), now);
    PlaceOf(r, i);
    FiringStemsDue(r, i, now);
    SameDueStems(r, s, now);
    DueStemsTwice(AfterFiring(r, i), r, s, now);
    NoDueResetStems(AfterFiring(r, i), s, now, resets);
  }

  /** The due timers of `r` are due timers of `s`. */
  ghost predicate DueStems<T>(r: Entries<T>, s: Entries<T>, now: nat) {
    forall y :: y in r && y.time <= now ==> exists x :: x in s && x.id == y.id && x.time <= now
  }

  lemma SameDueStems<T>(r: Entries<T>, s: Entries<T>, now: nat)
    requires SameDue(r, s, now)
    ensures DueStems(r, s, now)
  {
    forall y | y in r && y.time <= now ensures y in s {
      var k :| 0 <= k < |r| && r[k] == y;
      assert s[k] == y;
    }
  }

  lemma FiringStemsDue<T>(r: Entries<T>, i: nat, now: nat)
    requires Proper(r) && i < |r|
    ensures DueStems(AfterFiring(r, i), r, now)
  {
    hide Sorted, DistinctIds, Ticking, AfterFiring;
    assert r[i] in r;
    forall y | y in AfterFiring(r, i) && y.time <= now ensures exists x :: x in r && x.id == y.id && x.time <= now {
      FiringMember(r, i, y);
      var x := if y in r then y else r[i];
      assert x in r && x.id == y.id && x.time <= now;
    }
  }

  lemma DueStemsTwice<T>(t: Entries<T>, r: Entries<T>, s: Entries<T>, now: nat)
    requires DueStems(t, r, now) && DueStems(r, s, now)
    ensures DueStems(t, s, now)
  {
  }

  lemma NoDueResetStems<T>(t: Entries<T>, s: Entries<T>, now: nat, resets: T -> seq<T>)
    requires DueStems(t, s, now) && NoDueReset(s, now, resets)
    ensures NoDueReset(t, now, resets)
  {
  }
}

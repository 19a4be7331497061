/** The timer package: a sorted, doubly linked list of active timers and a list of free ones. */
module TimerPackage {
  import opened IperfTime
  import opened Sequences
  import TimerRun
  import TimerResets

  class Timer {
    var time: Time
    var usecs: nat
    var periodic: bool
    var prev: Timer?
    var next: Timer?

    constructor ()
      ensures prev == null && next == null && Normal(time)
    {
      time, usecs, periodic := Time(0, 0), 0, false;
      prev, next := null, null;
    }
  }

  ghost predicate Distinct(s: seq<Timer>) {
    forall i, j :: 0 <= i < j < |s| ==> s[i] != s[j]
  }

  /** `head` leads through exactly `s`, forwards and backwards. */
  ghost predicate Chain(head: Timer?, s: seq<Timer>)
    reads s`next, s`prev
  {
    && Distinct(s)
    && (s == [] ==> head == null)
    && (s != [] ==>
          && head == s[0] && s[0].prev == null && s[|s| - 1].next == null
          && (forall i {:trigger s[i].next} :: 0 <= i < |s| - 1 ==> s[i].next == s[i + 1])
          && (forall i {:trigger s[i].prev} :: 1 <= i < |s| ==> s[i].prev == s[i - 1]))
  }

  /** `head` leads through exactly `s`, forwards. */
  ghost predicate FreeChain(head: Timer?, s: seq<Timer>)
    reads s`next
  {
    && Distinct(s)
    && (s == [] ==> head == null)
    && (s != [] ==>
          && head == s[0] && s[|s| - 1].next == null
          && (forall i {:trigger s[i].next} :: 0 <= i < |s| - 1 ==> s[i].next == s[i + 1]))
  }

  ghost function EntryOf(t: Timer): TimerRun.Entry<Timer>
    reads t
  {
    TimerRun.Entry(t, InUsecs(t.time), t.usecs, t.periodic)
  }

  /** The timers of a list as values. */
  ghost function Snapshot(s: seq<Timer>): (r: TimerRun.Entries<Timer>)
    reads s
    ensures |r| == |s| && forall i :: 0 <= i < |s| ==> r[i] == EntryOf(s[i])
  {
    seq(|s|, i requires 0 <= i < |s| reads s => EntryOf(s[i]))
  }

  /** The microseconds from `now` until `t` expires, 0 if that is past. */
  function Until(now: Time, t: Timer): nat
    reads t
  {
    if InUsecs(t.time) <= InUsecs(now) then 0 else InUsecs(t.time) - InUsecs(now)
  }

  /** Putting `t` between its neighbours makes a chain again. */
  lemma ChainInserted(head: Timer?, was: seq<Timer>, k: nat, t: Timer)
    requires Distinct(was) && t !in was && k <= |was|
    requires head == if k == 0 then t else was[0]
    requires t.prev == (if k == 0 then null else was[k - 1]) && t.next == (if k == |was| then null else was[k])
    requires k > 0 ==> was[k - 1].next == t && was[0].prev == null
    requires k < |was| ==> was[k].prev == t && was[|was| - 1].next == null
    requires forall i {:trigger was[i].next} :: 0 <= i < |was| - 1 && i + 1 != k ==> was[i].next == was[i + 1]
    requires forall i {:trigger was[i].prev} :: 1 <= i < |was| && i != k ==> was[i].prev == was[i - 1]
    ensures Chain(head, Inserted(was, k, t))
  {
  }

  /** Joining the neighbours of the `k`-th timer makes a chain again. */
  lemma ChainWithout(head: Timer?, was: seq<Timer>, k: nat)
    requires Distinct(was) && k < |was|
    requires head == if k > 0 then was[0] else if |was| > 1 then was[1] else null
    requires k > 0 ==> was[k - 1].next == (if k + 1 < |was| then was[k + 1] else null) && was[0].prev == null
    requires k + 1 < |was| ==>
               was[k + 1].prev == (if k > 0 then was[k - 1] else null) && was[|was| - 1].next == null
    requires forall i {:trigger was[i].next} ::
               0 <= i < |was| - 1 && i != k && i + 1 != k ==> was[i].next == was[i + 1]
    requires forall i {:trigger was[i].prev} ::
               1 <= i < |was| && i != k && i != k + 1 ==> was[i].prev == was[i - 1]
    ensures Chain(head, Without(was, k))
  {
  }

  class TimerList {
    var timers: Timer?
    var freeTimers: Timer?
    ghost var active: seq<Timer>
    ghost var free: seq<Timer>

    ghost predicate Linked()
      reads this, active, free
    {
      && Chain(timers, active) && FreeChain(freeTimers, free)
      && (forall t :: t in active ==> Normal(t.time))
      && (forall i :: 0 <= i < |free| ==> free[i] !in active)
    }

    /** Every timer the package has, in use or not. */
    ghost function Owned(): set<Timer>
      reads this
    {
      (set t | t in active) + (set t | t in free)
    }

    /** The package invariant: the active list is sorted by expiry and shares no timer with the free list. */
    ghost predicate Valid()
      reads this, active, free
    {
      Linked() && TimerRun.Sorted(Snapshot(active))
    }

    constructor ()
      ensures Valid() && active == [] && free == []
    {
      timers, freeTimers := null, null;
      active, free := [], [];
    }

    /** The walk of `list_add` to its insertion point. */
    method FindPlace(t: Timer) returns (before: Timer?, after: Timer?, ghost k: nat)
      requires Valid() && Normal(t.time)
      ensures k == TimerRun.Position(Snapshot(active), InUsecs(t.time))
      ensures before == (if k == 0 then null else active[k - 1]) && after == (if k < |active| then active[k] else null)
    {
      before, after, k := null, timers, 0;
      if timers == null {
        return;
      }
      CompareIsOrder(t.time, timers.time);
      if Compare(t.time, timers.time) < 0 {
        return;
      }
      before, after, k := timers, timers.next, 1;
      while after != null
        invariant 0 < k <= |active|
        invariant before == active[k - 1] && after == if k < |active| then active[k] else null
        invariant InUsecs(active[k - 1].time) <= InUsecs(t.time)
        decreases |active| - k
      {
        CompareIsOrder(t.time, after.time);
        if Compare(t.time, after.time) < 0 {
          PlaceIs(Snapshot(active), InUsecs(t.time), k);
          return;
        }
        before, after := after, after.next;
        k := k + 1;
      }
      PlaceIs(Snapshot(active), InUsecs(t.time), k);
    }

    /** The relinking of `list_add`; the free list is not touched. */
    method Link(before: Timer?, t: Timer, after: Timer?, ghost k: nat)
      requires Linked() && t !in active && t !in free && Normal(t.time) && k <= |active|
      requires before == (if k == 0 then null else active[k - 1]) && after == (if k < |active| then active[k] else null)
      modifies this`timers, this`active, active`next, active`prev, t`next, t`prev
      ensures Linked() && active == Inserted(old(active), k, t)
    {
      hide Chain;
      LinkBetween(before, t, after, k);
    }

    /** The assignments of `list_add`. */
    method LinkBetween(before: Timer?, t: Timer, after: Timer?, ghost k: nat)
      requires Chain(timers, active) && t !in active && k <= |active|
      requires before == (if k == 0 then null else active[k - 1]) && after == (if k < |active| then active[k] else null)
      modifies this`timers, this`active, active`next, active`prev, t`next, t`prev
      ensures Chain(timers, active) && active == Inserted(old(active), k, t)
    {
      t.prev := before;
      t.next := after;
      if before == null {
        timers := t;
      } else {
        before.next := t;
      }
      if after != null {
        after.prev := t;
      }
      ghost var was := active;
      active := Inserted(was, k, t);
      ChainInserted(timers, was, k, t);
    }

    /** `list_add`: in front of the first timer that expires later, so behind those that expire together. */
    method ListAdd(t: Timer)
      requires Valid() && t !in active && t !in free && Normal(t.time)
      modifies this`timers, this`active, active`next, active`prev, t`next, t`prev
      ensures Valid()
      ensures exists k :: 0 <= k <= |old(active)| && active == Inserted(old(active), k, t)
      ensures Snapshot(active) == TimerRun.Add(old(Snapshot(active)), EntryOf(t))
    {
      hide Linked, TimerRun.Sorted;
      ghost var list, e, was := Snapshot(active), EntryOf(t), active;
      var before, after, k := FindPlace(t);
      Link(before, t, after, k);
      assert Snapshot(was) == list;
      SnapshotInserted(was, k, t);
      TimerRun.AddSorted(list, e);
    }

    /** `list_remove`; the free list is not touched. */
    method ListRemove(t: Timer, ghost k: nat)
      requires Linked() && k < |active| && active[k] == t
      modifies this`timers, this`active, active`next, active`prev
      ensures Linked() && active == Without(old(active), k)
    {
      hide Chain;
      Unlink(t, k);
    }

    /** The assignments of `list_remove`. */
    method Unlink(t: Timer, ghost k: nat)
      requires Chain(timers, active) && k < |active| && active[k] == t
      modifies this`timers, this`active, active`next, active`prev
      ensures Chain(timers, active) && active == Without(old(active), k)
    {
      if t.prev == null {
        timers := t.next;
      } else {
        t.prev.next := t.next;
      }
      if t.next != null {
        t.next.prev := t.prev;
      }
      ghost var was := active;
      active := Without(was, k);
      ChainWithout(timers, was, k);
    }

    /** `list_resort`, for a timer whose time may have changed. */
    method ListResort(t: Timer, ghost k: nat)
      requires Linked() && k < |active| && active[k] == t
      requires TimerRun.Sorted(Without(Snapshot(active), k))
      modifies this`timers, this`active, active`next, active`prev
      ensures Valid()
      ensures Snapshot(active) == TimerRun.Add(Without(old(Snapshot(active)), k), EntryOf(t))
      ensures forall u :: u in active <==> u in old(active)
    {
      hide Linked, TimerRun.Sorted, TimerRun.Add;
      ghost var list, was := Snapshot(active), active;
      ActiveFacts(k);
      SnapshotWithout(active, k);
      ListRemove(t, k);
      assert Snapshot(active) == Without(list, k);
      ListAdd(t);
      ResortKeeps(was, k, active);
    }

    lemma ActiveFacts(k: nat)
      requires Linked() && k < |active|
      ensures Distinct(active) && active[k] !in Without(active, k) && active[k] !in free
      ensures Normal(active[k].time)
    {
    }

    /** `tmr_cancel`: off the active list, onto the free list. */
    method Cancel(t: Timer, ghost k: nat)
      requires Valid() && k < |active| && active[k] == t
      modifies this`timers, this`active, this`free, this`freeTimers, active`next, active`prev
      ensures Valid() && active == Without(old(active), k) && free == [t] + old(free)
      ensures Owned() == old(Owned())
      ensures Snapshot(active) == Without(old(Snapshot(active)), k)
    {
      hide Linked, TimerRun.Sorted;
      ghost var list := Snapshot(active);
      ActiveFacts(k);
      SnapshotWithout(active, k);
      TimerRun.WithoutKeeps(list, k);
      ListRemove(t, k);
      PutFree(t);
      assert Snapshot(active) == Without(list, k);
    }

    /** Pushes a timer that is on no list onto the free list. */
    method PutFree(t: Timer)
      requires Linked() && t !in active && t !in free
      modifies this`freeTimers, this`free, t`next, t`prev
      ensures Linked() && free == [t] + old(free)
    {
      hide Chain;
      t.next := freeTimers;
      freeTimers := t;
      t.prev := null;
      free := [t] + free;
    }

    /** `tmr_create`: takes a timer from the free list, or from memory if there is some. */
    method Create(now: Time, usecs: nat, periodic: bool, memory: bool) returns (t: Timer?)
      requires Valid() && Normal(now)
      modifies this, free, active`next, active`prev
      ensures Valid()
      ensures t == null <==> old(free) == [] && !memory
      ensures t == null ==> active == old(active)
      ensures if old(free) == [] then free == [] else t != null && [t] + free == old(free)
      ensures t != null ==>
                && t !in old(active) && (fresh(t) || t in old(free))
                && t.time == Plus(now, usecs) && t.usecs == usecs && t.periodic == periodic
                && Snapshot(active) == TimerRun.Add(old(Snapshot(active)), EntryOf(t))
    {
      hide Chain, TimerRun.Sorted, TimerRun.Add;
      if freeTimers != null {
        t := freeTimers;
        TakeFree(t);
      } else if memory {
        t := new Timer();
      } else {
        return null;
      }
      var time := AddUsecs(now, usecs);
      TimeIsPlus(time, now, usecs);
      Set(t, time, usecs, periodic);
      ListAdd(t);
    }

    /** The fields of a timer that is on no list. */
    method Set(t: Timer, time: Time, usecs: nat, periodic: bool)
      requires Valid() && t !in active && t !in free
      modifies t`time, t`usecs, t`periodic
      ensures Valid() && t.time == time && t.usecs == usecs && t.periodic == periodic
      ensures Snapshot(active) == old(Snapshot(active))
    {
      hide Chain, FreeChain, TimerRun.Sorted;
      ghost var list := Snapshot(active);
      t.usecs := usecs;
      t.periodic := periodic;
      t.time := time;
      assert Snapshot(active) == list;
    }

    /** Pops the free list. */
    method TakeFree(t: Timer)
      requires Valid() && freeTimers == t
      modifies this`freeTimers, this`free
      ensures Valid() && [t] + free == old(free) && t !in active && t !in free
    {
      hide Chain, TimerRun.Sorted, Snapshot;
      freeTimers := t.next;
      free := free[1..];
    }

    /** `tmr_timeout`: nothing exactly when no timer is active; otherwise the microseconds until the earliest
        expiry of all active timers, 0 if that is past. */
    method Timeout(now: Time) returns (some: bool, secs: nat, usecs: nat)
      requires Valid() && Normal(now)
      ensures some <==> active != []
      ensures some ==> usecs < MILLION
      ensures some ==> forall t :: t in active ==> secs * MILLION + usecs <= Until(now, t)
      ensures some ==> exists t :: t in active && secs * MILLION + usecs == Until(now, t)
      ensures some ==> exists t :: t in active && InUsecs(t.time) <= InUsecs(now) + (secs * MILLION + usecs)
      ensures some && secs + usecs > 0 ==>
                forall t :: t in active ==> InUsecs(now) + (secs * MILLION + usecs) <= InUsecs(t.time)
    {
      if timers == null {
        return false, 0, 0;
      }
      var past, diff := Diff(timers.time, now);
      var total := if past then 0 else InUsecs(diff);
      some, secs, usecs := true, total / MILLION, total % MILLION;
      assert active[0] in active && active[0] == timers;
      forall t | t in active ensures InUsecs(timers.time) <= InUsecs(t.time) {
        var i :| 0 <= i < |active| && active[i] == t;
        assert Snapshot(active)[0].time <= Snapshot(active)[i].time;
      }
    }

    /** `tmr_reset`: expires its interval from now. */
    method Reset(now: Time, t: Timer, ghost k: nat)
      requires Valid() && Normal(now) && k < |active| && active[k] == t
      modifies this`timers, this`active, active`next, active`prev, t`time
      ensures Valid() && t.time == Plus(now, t.usecs)
      ensures Snapshot(active) == TimerRun.Add(Without(old(Snapshot(active)), k), EntryOf(t))
      ensures forall u :: u in active <==> u in old(active)
    {
      hide Linked, TimerRun.Sorted, TimerRun.Add, Snapshot;
      var time := AddUsecs(now, t.usecs);
      TimeIsPlus(time, now, t.usecs);
      Move(t, time, k);
    }

    /** A new expiry time alone: the links stay, and so do all other timers. */
    method SetTime(t: Timer, time: Time, ghost k: nat)
      requires Linked() && k < |active| && active[k] == t && Normal(time)
      modifies t`time
      ensures Linked() && t.time == time
      ensures Without(Snapshot(active), k) == Without(old(Snapshot(active)), k)
    {
      hide Chain, FreeChain;
      ActiveFacts(k);
      t.time := time;
    }

    /** A new expiry time, and the place that goes with it. */
    method Move(t: Timer, time: Time, ghost k: nat)
      requires Valid() && k < |active| && active[k] == t && Normal(time)
      modifies this`timers, this`active, active`next, active`prev, t`time
      ensures Valid() && t.time == time && forall u :: u in active <==> u in old(active)
      ensures Snapshot(active) == TimerRun.Add(Without(old(Snapshot(active)), k), EntryOf(t))
    {
      hide Linked, TimerRun.Sorted, TimerRun.Add;
      TimerRun.WithoutKeeps(Snapshot(active), k);
      SetTime(t, time, k);
      ListResort(t, k);
    }

    /** Periods are positive, and no expiry can be moved past the range of the clock by a pass at `now`. */
    ghost predicate Armed(now: Time)
      reads this, active
    {
      forall t :: t in active ==> (t.periodic ==> t.usecs > 0) && InUsecs(now) + t.usecs < WRAP
    }

    lemma ArmedTicks(now: Time)
      requires Armed(now)
      ensures TimerRun.Ticking(Snapshot(active))
    {
    }

    /** The rescheduling of a periodic timer in `tmr_run`. */
    method Reschedule(t: Timer, ghost i: nat)
      requires Valid() && i < |active| && active[i] == t && t.periodic && InUsecs(t.time) + t.usecs < WRAP
      modifies this`timers, this`active, active`next, active`prev, t`time
      ensures Valid() && forall u :: u in active <==> u in old(active)
      ensures Snapshot(active) == TimerRun.AfterFiring(old(Snapshot(active)), i)
    {
      hide Linked, TimerRun.Sorted, TimerRun.Add, TimerRun.AfterFiring, Snapshot;
      ghost var list, e := Snapshot(active), EntryOf(t);
      SnapshotAt(i);
      PeriodicFiring(list, i);
      ActiveFacts(i);
      var time := AddUsecs(t.time, t.usecs);
      Move(t, time, i);
      assert EntryOf(t) == TimerRun.Rescheduled(e);
    }

    lemma SnapshotAt(i: nat)
      requires i < |active|
      ensures |Snapshot(active)| == |active| && Snapshot(active)[i] == EntryOf(active[i])
    {
    }

    /** What `tmr_run` does with a timer after its callback: reschedule it, or cancel it. */
    method Settle(t: Timer, now: Time, ghost i: nat)
      requires Valid() && i < |active| && active[i] == t && Armed(now) && InUsecs(t.time) <= InUsecs(now)
      modifies this, active`next, active`prev, t`time
      ensures Valid() && Armed(now)
      ensures Snapshot(active) == TimerRun.AfterFiring(old(Snapshot(active)), i)
      ensures Owned() == old(Owned())
      ensures forall u :: u in active <==> u in old(active) && (u != t || t.periodic)
      ensures forall k :: 0 <= k < |active| ==> active[k] in old(active)
    {
      hide Linked, TimerRun.Sorted, TimerRun.Add, Snapshot;
      assert t in active;
      if t.periodic {
        Reschedule(t, i);
      } else {
        ghost var was, list := active, Snapshot(active);
        NotRescheduled(i);
        ActiveFacts(i);
        Cancel(t, i);
        OthersStay(was, i);
      }
    }

    lemma NotRescheduled(i: nat)
      requires i < |active| && !active[i].periodic
      ensures TimerRun.AfterFiring(Snapshot(active), i) == Without(Snapshot(active), i)
    {
    }

    /** One turn of the loop of `tmr_run`: the successor is saved, the callback runs, the timer is settled. */
    method FireAt(t: Timer, now: Time, ghost i: nat) returns (next: Timer?)
      requires Valid() && i < |active| && active[i] == t && Armed(now) && InUsecs(t.time) <= InUsecs(now)
      requires TimerRun.Ticking(Snapshot(active))
      modifies this, active`next, active`prev, t`time
      ensures Valid() && Armed(now)
      ensures Snapshot(active) == TimerRun.AfterFiring(old(Snapshot(active)), i)
      ensures var j := TimerRun.NextIndex(old(Snapshot(active)), i); next == if j < |active| then active[j] else null
      ensures Owned() == old(Owned())
      ensures forall k :: 0 <= k < |active| ==> active[k] in old(active)
    {
      hide Linked, TimerRun.Sorted, TimerRun.AfterFiring, TimerRun.NextIndex, Armed;
      ghost var s := Snapshot(active);
      NextIs(i);
      TimerRun.FiringWalks(s, i);
      NextBeyond(s, i);
      next := t.next;
      // the callback runs here
      Settle(t, now, i);
    }

    /** `tmr_run`, with callbacks that leave the list alone: the pass that `TimerRun.Run` describes. The timers
        fired are returned as they were when their callback was called. */
    method Run(now: Time) returns (ghost fired: TimerRun.Entries<Timer>)
      requires Valid() && Normal(now) && Armed(now)
      modifies this, active
      ensures Valid() && TimerRun.Ticking(old(Snapshot(active)))
      ensures Owned() == old(Owned())
      ensures TimerRun.Pass(Snapshot(active), fired) == TimerRun.Run(old(Snapshot(active)), 0, InUsecs(now))
    {
      hide Linked, TimerRun.Sorted, TimerRun.AfterFiring, TimerRun.NextIndex, TimerRun.TotalLateness, Armed;
      ghost var list, u := Snapshot(active), InUsecs(now);
      var t := timers;
      ghost var i: nat := 0;
      fired := [];
      FirstIs();
      ArmedTicks(now);
      FiredNothing(TimerRun.Run(list, 0, u));
      while t != null
        invariant Valid() && Armed(now) && TimerRun.Ticking(Snapshot(active))
        invariant t == if i < |active| then active[i] else null
        invariant forall k :: 0 <= k < |active| ==> active[k] in old(active)
        invariant Owned() == old(Owned())
        invariant TimerRun.Run(list, 0, u) == Before(fired, TimerRun.Run(Snapshot(active), i, u))
        decreases TimerRun.TotalLateness(Snapshot(active), u)
      {
        ghost var s := Snapshot(active);
        assert s[i].time == InUsecs(t.time);
        ActiveFacts(i);
        CompareIsOrder(t.time, now);
        if Compare(t.time, now) > 0 {
          break;
        }
        FiredOne(fired, s, i, u);
        fired := fired + [EntryOf(t)];
        TimerRun.FiringIsProgress(s, i, u);
        t := FireAt(t, now, i);
        i := TimerRun.NextIndex(s, i);
      }
    }

    /** One `tmr_reset` in a callback. */
    method ResetActive(u: Timer, now: Time)
      requires Valid() && Normal(now) && Armed(now) && u in active && u.periodic
      modifies this`timers, this`active, active`next, active`prev, u`time
      ensures Valid() && forall x :: x in active <==> x in old(active)
      ensures Snapshot(active) == TimerResets.ResetOne(old(Snapshot(active)), u, InUsecs(now))
    {
      hide Linked, TimerRun.Sorted, TimerRun.DistinctIds, TimerRun.Add, TimerResets.ResetOne, TimerResets.Place, Snapshot;
      ghost var k :| 0 <= k < |active| && active[k] == u;
      ghost var s := Snapshot(active);
      SnapshotAt(k);
      PlaceIsIndex(k);
      PlusInUsecs(now, u.usecs);
      Reset(now, u, k);
      ResetOneIs(s, k, EntryOf(u), InUsecs(now));
    }

    lemma PlaceIsIndex(k: nat)
      requires Linked() && k < |active|
      ensures TimerRun.DistinctIds(Snapshot(active)) && TimerResets.Place(Snapshot(active), active[k]) == k
    {
      TimerResets.PlaceOf(Snapshot(active), k);
    }

    /** What the omit callbacks do: reset active timers other than the one that fired. */
    method ResetAll(us: seq<Timer>, now: Time)
      requires Valid() && Normal(now) && Armed(now)
      requires forall u :: u in us ==> u in active && u.periodic
      modifies this`timers, this`active, active`next, active`prev, active`time
      ensures Valid() && Armed(now) && forall u :: u in active <==> u in old(active)
      ensures forall u :: u in active && u !in us ==> u.time == old(u.time)
      ensures Snapshot(active) == TimerResets.ResetAll(old(Snapshot(active)), us, InUsecs(now))
    {
      hide Valid, TimerResets.ResetOne, TimerResets.ResetAll, Snapshot;
      var n := 0;
      NoneReset(Snapshot(active), us[..0], InUsecs(now));
      while n < |us|
        invariant 0 <= n <= |us|
        invariant Valid() && forall u :: u in active <==> u in old(active)
        invariant forall k :: 0 <= k < |active| ==> active[k] in old(active)
        invariant forall u :: u in active && u !in us ==> u.time == old(u.time)
        invariant Snapshot(active) == TimerResets.ResetAll(old(Snapshot(active)), us[..n], InUsecs(now))
      {
        assert us[n] in us;
        OneMoreReset(old(Snapshot(active)), us, n, InUsecs(now));
        ResetActive(us[n], now);
        n := n + 1;
      }
      assert us[..|us|] == us;
    }

    /** The successor saved before the callback, and where the timer stands. */
    method NextOf(t: Timer) returns (next: Timer?, ghost k: nat)
      requires Valid() && t in active
      ensures Normal(t.time) && next != t && (next != null ==> next in active)
      ensures k < |active| && active[k] == t && Snapshot(active)[k] == EntryOf(t)
      ensures SavedOf(next) == TimerResets.SavedAt(Snapshot(active), k + 1)
    {
      k :| 0 <= k < |active| && active[k] == t;
      ActiveFacts(k);
      NextIs(k);
      assert k + 1 < |active| ==> active[k + 1] in active;
      next := t.next;
    }

    /** One turn of the loop of `tmr_run`, when the callback resets `us`: the timer is settled where it is by then. */
    method FireResetting(t: Timer, now: Time, us: seq<Timer>)
      requires Valid() && Armed(now) && Normal(now) && t in active && InUsecs(t.time) <= InUsecs(now) && t !in us
      requires forall u :: u in us ==> u in active && u.periodic
      modifies this, active`next, active`prev, active`time
      ensures Valid() && Armed(now)
      ensures Owned() == old(Owned())
      ensures forall u :: u in active <==> u in old(active) && (u != t || t.periodic)
      ensures forall k :: 0 <= k < |active| ==> active[k] in old(active)
      ensures var r := TimerResets.ResetAll(old(Snapshot(active)), us, InUsecs(now));
              var j := TimerResets.Place(r, t);
              j < |r| && Snapshot(active) == TimerRun.AfterFiring(r, j)
    {
      hide Linked, TimerRun.Sorted, TimerRun.AfterFiring, TimerResets.ResetAll, Armed, Snapshot;
      ResetAll(us, now);
      assert forall k :: 0 <= k < |active| ==> active[k] in old(active);
      ghost var k :| 0 <= k < |active| && active[k] == t;
      PlaceIsIndex(k);
      Settle(t, now, k);
    }

    /** One turn of that pass. */
    method TurnResetting(t: Timer, ghost next: Timer?, now: Time, resets: Timer -> seq<Timer>,
                         ghost fired: TimerRun.Entries<Timer>, ghost k: nat)
      requires Valid() && Armed(now) && Normal(now) && k < |active| && active[k] == t && InUsecs(t.time) <= InUsecs(now)
      requires forall u :: u in resets(t) ==> u in active && u.periodic && u != t
      requires TimerResets.Proper(Snapshot(active)) && TimerResets.ResetsOk(Snapshot(active), resets)
      requires SavedOf(next) == TimerResets.SavedAt(Snapshot(active), k + 1)
      modifies this, active`next, active`prev, active`time
      ensures Valid() && Armed(now)
      ensures Owned() == old(Owned())
      ensures forall u :: u in active <==> u in old(active) && (u != t || t.periodic)
      ensures forall k :: 0 <= k < |active| ==> active[k] in old(active)
      ensures TimerResets.Proper(Snapshot(active)) && TimerResets.ResetsOk(Snapshot(active), resets)
      ensures TimerRun.TotalLateness(Snapshot(active), InUsecs(now))
            < TimerRun.TotalLateness(old(Snapshot(active)), InUsecs(now))
      ensures Before(fired, TimerResets.RunFrom(old(Snapshot(active)), SavedOf(t), InUsecs(now), resets))
           == Before(fired + [old(EntryOf(t))], TimerResets.RunFrom(Snapshot(active), SavedOf(next), InUsecs(now), resets))
    {
      hide Linked, TimerRun.Sorted, TimerRun.AfterFiring, TimerRun.TotalLateness, TimerResets.RunFrom;
      hide TimerResets.ResetsOk, TimerResets.Proper, TimerResets.ResetAll, Armed, Snapshot, Before;
      SnapshotAt(k);
      FiredFrom(fired, Snapshot(active), k, InUsecs(now), resets);
      FireResetting(t, now, resets(t));
    }

    /** `tmr_run` with callbacks that reset other timers, so that the saved successor may have moved: exactly the pass that
        `TimerResets.RunFrom` describes. */
    method RunResetting(now: Time, resets: Timer -> seq<Timer>) returns (ghost fired: TimerRun.Entries<Timer>)
      requires Valid() && Normal(now) && Armed(now)
      requires forall t, u :: t in active && u in resets(t) ==> u in active && u.periodic && u != t
      modifies this, active
      ensures Valid()
      ensures Owned() == old(Owned())
      ensures forall u :: u in active ==> u in old(active)
      ensures forall u :: u in old(active) && old(u.periodic) ==> u in active
      ensures var list := old(Snapshot(active));
              && TimerResets.Proper(list) && TimerResets.ResetsOk(list, resets)
              && TimerRun.Pass(Snapshot(active), fired)
              == TimerResets.RunFrom(list, TimerResets.SavedAt(list, 0), InUsecs(now), resets)
    {
      hide Linked, TimerRun.Sorted, TimerRun.DistinctIds, TimerRun.Ticking, TimerRun.AfterFiring, TimerRun.TotalLateness;
      hide TimerResets.RunFrom, TimerResets.Turn, TimerResets.ResetsOk, TimerResets.Proper, Armed, Snapshot, Before, Compare;
      hide Valid;
      ghost var list, u := Snapshot(active), InUsecs(now);
      ProperNow(now, resets);
      fired := [];
      var t := timers;
      FirstSaved(t);
      FiredNothing(TimerResets.RunFrom(list, SavedOf(t), u, resets));
      while t != null
        invariant Valid() && Armed(now)
        invariant t != null ==> t in active
        invariant forall k :: 0 <= k < |active| ==> active[k] in old(active)
        invariant forall u :: u in active ==> u in old(active) && u.periodic == old(u.periodic)
        invariant forall u :: u in old(active) && old(u.periodic) ==> u in active
        invariant Owned() == old(Owned())
        invariant TimerResets.Proper(Snapshot(active)) && TimerResets.ResetsOk(Snapshot(active), resets)
        invariant TimerResets.RunFrom(list, TimerResets.SavedAt(list, 0), u, resets)
               == Before(fired, TimerResets.RunFrom(Snapshot(active), SavedOf(t), u, resets))
        decreases TimerRun.TotalLateness(Snapshot(active), InUsecs(now))
      {
        ghost var s := Snapshot(active);
        var next, k := NextOf(t);
        CompareIsOrder(t.time, now);
        if Compare(t.time, now) > 0 {
          TimerResets.NoTurnFrom(s, k, u, resets);
          assert SavedOf(t) == TimerResets.SavedAt(s, k);
          break;
        }
        assert t in old(active);
        forall u | u in resets(t) ensures u in active && u.periodic && u != t {
          assert u in old(active) && old(u.periodic);
        }
        fired := fired + [EntryOf(t)];
        TurnResetting(t, next, now, resets, fired[..|fired| - 1], k);
        t := next;
      }
      ghost var s := Snapshot(active);
      if t == null {
        TimerResets.NoTurnFrom(s, |s|, u, resets);
      }
      NoneAfter(fired, s);
    }

    lemma ProperNow(now: Time, resets: Timer -> seq<Timer>)
      requires Valid() && Armed(now)
      requires forall t, u :: t in active && u in resets(t) ==> u in active && u.periodic && u != t
      ensures TimerResets.Proper(Snapshot(active)) && TimerResets.ResetsOk(Snapshot(active), resets)
    {
    }

    lemma FirstSaved(t: Timer?)
      requires Valid() && t == timers
      ensures SavedOf(t) == TimerResets.SavedAt(Snapshot(active), 0) && (t != null ==> t in active)
    {
    }

    /** `tmr_destroy`: every timer leaves the active list, then the free list is given back. */
    method Destroy()
      requires Valid()
      modifies this, active, free
      ensures Valid() && active == [] && free == []
    {
      hide Linked, TimerRun.Sorted, Snapshot;
      FirstIs();
      while timers != null
        invariant Valid() && timers == (if 0 < |active| then active[0] else null)
        invariant forall k :: 0 <= k < |active| ==> active[k] in old(active)
        decreases |active|
      {
        Cancel(timers, 0);
        FirstIs();
      }
      FirstFree();
      while freeTimers != null
        invariant Valid() && active == [] && (freeTimers == null <==> free == [])
        decreases |free|
      {
        TakeFree(freeTimers);
        FirstFree();
      }
    }

    lemma FirstFree()
      requires Linked()
      ensures freeTimers == null <==> free == []
    {
      hide Chain;
    }

    lemma FirstIs()
      requires Linked()
      ensures timers == if 0 < |active| then active[0] else null
    {
    }

    lemma NextIs(i: nat)
      requires Linked() && i < |active|
      ensures active[i].next == if i + 1 < |active| then active[i + 1] else null
    {
    }
  }

  /** Firings that came before a pass. */
  ghost function Before(fired: TimerRun.Entries<Timer>, p: TimerRun.Pass<Timer>): TimerRun.Pass<Timer> {
    TimerRun.Pass(p.list, fired + p.fired)
  }

  lemma NoneReset(s: TimerRun.Entries<Timer>, ids: seq<Timer>, now: nat)
    requires ids == []
    ensures TimerResets.ResetAll(s, ids, now) == s
  {
  }

  lemma ResetOneIs(s: TimerRun.Entries<Timer>, k: nat, e: TimerRun.Entry<Timer>, now: nat)
    requires k < |s| && TimerResets.Place(s, s[k].id) == k && e == s[k].(time := now + s[k].period)
    ensures TimerResets.ResetOne(s, s[k].id, now) == TimerRun.Add(Without(s, k), e)
  {
    hide TimerRun.Add, TimerResets.Place;
  }

  lemma OneMoreReset(s: TimerRun.Entries<Timer>, ids: seq<Timer>, n: nat, now: nat)
    requires n < |ids|
    ensures TimerResets.ResetAll(s, ids[..n + 1], now)
         == TimerResets.ResetOne(TimerResets.ResetAll(s, ids[..n], now), ids[n], now)
  {
    assert ids[..n + 1][..n] == ids[..n];
  }

  ghost function SavedOf(t: Timer?): TimerResets.Saved<Timer> {
    if t == null then TimerResets.Nothing else TimerResets.Saved(t)
  }

  lemma FiredFrom(fired: TimerRun.Entries<Timer>, s: TimerRun.Entries<Timer>, k: nat, now: nat,
                  resets: Timer -> seq<Timer>)
    requires TimerResets.Proper(s) && TimerResets.ResetsOk(s, resets) && k < |s| && s[k].time <= now
    ensures var r := TimerResets.ResetAll(s, resets(s[k].id), now);
            var j := TimerResets.Place(r, s[k].id);
            j < |r|
            && var t := TimerRun.AfterFiring(r, j);
               && TimerResets.Proper(t) && TimerResets.ResetsOk(t, resets)
               && TimerRun.TotalLateness(t, now) < TimerRun.TotalLateness(s, now)
               && Before(fired, TimerResets.RunFrom(s, TimerResets.Saved(s[k].id), now, resets))
               == Before(fired + [s[k]], TimerResets.RunFrom(t, TimerResets.SavedAt(s, k + 1), now, resets))
  {
    hide TimerResets.RunFrom, TimerRun.AfterFiring, TimerResets.ResetsOk, TimerResets.Proper, TimerRun.TotalLateness;
    hide TimerResets.ResetAll;
    TimerResets.TurnKeeps(s, k, now, resets);
    TimerResets.OneTurnFrom(s, k, now, resets);
    var rest := TimerResets.RunFrom(TimerResets.Turn(s, k, now, resets), TimerResets.SavedAt(s, k + 1), now, resets);
    assert fired + ([s[k]] + rest.fired) == (fired + [s[k]]) + rest.fired;
  }

  lemma PeriodicFiring(s: TimerRun.Entries<Timer>, i: nat)
    requires i < |s| && s[i].periodic
    ensures TimerRun.AfterFiring(s, i) == TimerRun.Add(Without(s, i), TimerRun.Rescheduled(s[i]))
  {
  }

  lemma NoneAfter(fired: TimerRun.Entries<Timer>, s: TimerRun.Entries<Timer>)
    ensures Before(fired, TimerRun.Pass(s, [])) == TimerRun.Pass(s, fired)
  {
    assert fired + [] == fired;
  }

  lemma FiredNothing(p: TimerRun.Pass<Timer>)
    ensures Before([], p) == p
  {
    assert [] + p.fired == p.fired;
  }

  lemma FiredOne(fired: TimerRun.Entries<Timer>, s: TimerRun.Entries<Timer>, i: nat, now: nat)
    requires TimerRun.Ticking(s) && i < |s| && s[i].time <= now
    ensures TimerRun.Ticking(TimerRun.AfterFiring(s, i))
    ensures Before(fired, TimerRun.Run(s, i, now))
         == Before(fired + [s[i]], TimerRun.Run(TimerRun.AfterFiring(s, i), TimerRun.NextIndex(s, i), now))
  {
    hide TimerRun.Run, TimerRun.AfterFiring, TimerRun.NextIndex, TimerRun.Ticking;
    TimerRun.OneTurn(s, i, now);
    var rest := TimerRun.Run(TimerRun.AfterFiring(s, i), TimerRun.NextIndex(s, i), now);
    assert fired + ([s[i]] + rest.fired) == (fired + [s[i]]) + rest.fired;
  }

  lemma NextBeyond(s: TimerRun.Entries<Timer>, i: nat)
    requires i < |s|
    ensures TimerRun.NextIndex(s, i) < |TimerRun.AfterFiring(s, i)| <==> i + 1 < |s|
  {
  }

  lemma OthersStay(s: seq<Timer>, k: nat)
    requires k < |s|
    ensures forall u :: u in s && u != s[k] ==> u in Without(s, k)
  {
  }

  lemma ResortKeeps(was: seq<Timer>, k: nat, s: seq<Timer>)
    requires k < |was| && Distinct(was)
    requires exists j :: 0 <= j < |was| && s == Inserted(Without(was, k), j, was[k])
    ensures forall u :: u in s <==> u in was
  {
    var m := Without(was, k);
    var j :| 0 <= j < |was| && s == Inserted(m, j, was[k]);
    forall u ensures u in s <==> u in was {
      TimerRun.MembersOfInserted(m, j, was[k], u);
      if u in was && u != was[k] {
        var i :| 0 <= i < |was| && was[i] == u;
        assert m[if i < k then i else i - 1] == u;
      }
    }
  }

  lemma SnapshotInserted(s: seq<Timer>, k: nat, t: Timer)
    requires k <= |s|
    ensures Snapshot(Inserted(s, k, t)) == Inserted(Snapshot(s), k, EntryOf(t))
  {
  }

  lemma SnapshotWithout(s: seq<Timer>, k: nat)
    requires k < |s|
    ensures Snapshot(Without(s, k)) == Without(Snapshot(s), k)
  {
  }

  /** In a sorted list the insertion point is between what expires no later and what expires later. */
  lemma PlaceIs(s: TimerRun.Entries<Timer>, time: nat, i: nat)
    requires TimerRun.Sorted(s) && 0 < i <= |s| && s[i - 1].time <= time && (i < |s| ==> time < s[i].time)
    ensures TimerRun.Position(s, time) == i
  {
    assert TimerRun.Position(s, time) <= |s|;
  }
}

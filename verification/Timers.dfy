/** The timer scheduler: one first-in first-out list for every timeout value, and a list of timers to fire
    at once. */
module Timers {
  import opened TimerLinks
  import opened TimerLists
  import opened TimerChecks

  class TimerUnit {
    const pending: TimerList
    var next: TimerList?
    var fired: seq<Link>
    ghost var chain: seq<TimerList>
    ghost var timers: set<Link>
    ghost var rings: map<Link, seq<Link>>
    var clock: int

    ghost function All(): set<Link>
      reads this
    {
      timers + rings.Keys
    }

    ghost predicate Valid()
      reads this, chain, All()
    {
      && Linked(next, chain) && DistinctLists(pending, chain) && ListsOk(pending, chain, timers, rings)
      && RingsOk(ShapeOf(All()), rings) && InOrder(chain, rings, ExpiriesOf(timers), clock)
    }

    constructor (now: int)
      ensures Valid() && timers == {} && chain == [] && clock == now && fired == []
      ensures fresh(pending) && fresh(All())
    {
      pending := new TimerList(0);
      next, fired, chain, timers, clock := null, [], [], {}, now;
      rings := map[];
      new;
      rings := map[pending.tlist := []];
      LoneHead(pending.tlist, All());
    }

    method SetExpiry(t: Link, l: TimerList, now: int)
      requires t in timers
      modifies t`objexp
      ensures t.objexp == if l.timeout > 0 then now + l.timeout * TIMESTAMP_PRECISION else old(t.objexp)
      ensures ExpiriesOf(timers) == old(ExpiriesOf(timers))[t := t.objexp]
    {
      if l.timeout > 0 {
        t.objexp := now + l.timeout * TIMESTAMP_PRECISION;
      }
    }

    // CTimerObject::AttachTimer; now is the time it reads, which never goes back.
    method AttachTimer(t: Link, l: TimerList, now: int)
      requires Valid() && t in timers && l in chain && clock <= now
      modifies this`rings, this`clock, All()`next, All()`prev, t`objexp
      ensures Valid() && clock == now
      ensures rings == Appended(Removed(old(rings), t), t, l.tlist)
      ensures t.objexp == if l.timeout > 0 then now + l.timeout * TIMESTAMP_PRECISION else old(t.objexp)
      ensures ExpiriesOf(timers) == old(ExpiriesOf(timers))[t := t.objexp]
    {
      hide RingsOk, Removed, Appended, ShapeOf, Linked, InOrder, LeadsOn, ExpiriesOf;
      ghost var mid, all, exp := Removed(rings, t), All(), ExpiriesOf(timers);
      RemovedSeparateFrom(ShapeOf(all), rings, t);
      RemovedWithin(rings, t, timers);
      RemovedInOrder(chain, rings, exp, clock, t);
      AppendedWithin(mid, t, l.tlist, timers);
      ExpiryOf(timers, t);
      AttachedInOrder(chain, mid, exp, clock, t, l, now);
      SetExpiry(t, l, now);
      MoveToTail(t, l.tlist, all, rings);
      rings := Appended(mid, t, l.tlist);
      clock := now;
    }

    method DisableTimer(t: Link)
      requires Valid() && t in timers
      modifies this`rings, All()`next, All()`prev
      ensures Valid() && rings == Removed(old(rings), t)
    {
      hide RingsOk, Removed, ShapeOf, Linked, InOrder;
      RemovedWithin(rings, t, timers);
      RemovedInOrder(chain, rings, ExpiriesOf(timers), clock, t);
      TakeOff(t, All(), rings);
      rings := Removed(rings, t);
    }

    method AttachZeroTimer(t: Link)
      requires Valid() && t in timers
      modifies this`rings, All()`next, All()`prev
      ensures Valid() && rings == Appended(Removed(old(rings), t), t, pending.tlist)
    {
      hide RingsOk, Removed, Appended, ShapeOf, Linked, InOrder;
      ghost var mid := Removed(rings, t);
      RemovedWithin(rings, t, timers);
      RemovedInOrder(chain, rings, ExpiriesOf(timers), clock, t);
      AppendedWithin(mid, t, pending.tlist, timers);
      AppendedElsewhere(chain, mid, ExpiriesOf(timers), clock, t, pending.tlist);
      MoveToTail(t, pending.tlist, All(), rings);
      rings := Appended(mid, t, pending.tlist);
    }

    // A timer object comes into being, on no list.
    method NewTimer() returns (t: Link)
      requires Valid()
      modifies this`timers
      ensures Valid() && fresh(t) && timers == old(timers) + {t}
    {
      hide RingsOk, Linked, LeadsOn, InOrder, ShapeOf, ExpiriesOf, ListsOk, DistinctLists;
      t := new Link();
      ghost var all := All();
      ShapeExtended(all, t);
      ExtendedOk(ShapeOf(all), ShapeOf(all + {t}), rings, t);
      MoreExpiries(chain, rings, timers, t, clock);
      MoreTimers(pending, chain, timers, rings, t);
      assert timers + {t} + rings.Keys == all + {t};
      timers := timers + {t};
    }

    // CTimerUnit::GetTimerList
    method GetTimerList(to: int) returns (l: TimerList)
      requires Valid()
      modifies this`next, this`chain, this`rings
      ensures Valid() && l in chain && l.timeout == to
      ensures if exists i :: 0 <= i < |old(chain)| && old(chain)[i].timeout == to
              then chain == old(chain) && rings == old(rings)
              else fresh(l) && chain == [l] + old(chain) && rings == old(rings)[l.tlist := []]
    {
      hide RingsOk, InOrder, ListsOk, ShapeOf;
      var tl := next;
      ghost var i := 0;
      while tl != null
        invariant 0 <= i <= |chain| && tl == (if i < |chain| then chain[i] else null)
        invariant forall j :: 0 <= j < i ==> chain[j].timeout != to
        decreases |chain| - i
      {
        assert LeadsOn(chain, i);
        if tl.timeout == to {
          return tl;
        }
        tl := tl.next;
        i := i + 1;
      }
      l := NewTimerList(to);
    }

    method NewTimerList(to: int) returns (l: TimerList)
      requires Valid() && forall i :: 0 <= i < |chain| ==> chain[i].timeout != to
      modifies this`next, this`chain, this`rings
      ensures Valid() && l in chain && l.timeout == to && fresh(l)
      ensures chain == [l] + old(chain) && rings == old(rings)[l.tlist := []]
    {
      hide RingsOk, SortedUpTo, ShapeOf, InOrder, Linked, DistinctLists, ListsOk;
      l := new TimerList(to);
      l.next := next;
      ghost var all, h := All(), l.tlist;
      ShapeExtended(all, h);
      ExtendedOk(ShapeOf(all), ShapeOf(all + {h}), rings, h);
      EmptyInOrder(chain, rings, ExpiriesOf(timers), clock, l);
      LinkedBefore(l, next, chain);
      ListsBefore(l, pending, chain, timers, rings);
      assert timers + rings[h := []].Keys == all + {h};
      chain := [l] + chain;
      rings := rings[h := []];
      next := l;
    }

    // ---- firing ----

    ghost function State(): Sched
      reads this, timers`objexp
    {
      Sched(rings, ExpiriesOf(timers), clock, fired)
    }

    // Callbacks attach to lists of this unit.
    ghost predicate Knows(react: Callbacks)
      reads this`chain, this`timers
    {
      forall t, i: nat :: t in timers && react(t, i).Again? ==> react(t, i).list in chain
    }

    ghost function CheckOf(l: TimerList, due: Due, react: Callbacks): Check {
      Check(l.tlist, due, react, pending.tlist)
    }

    lemma Parts()
      requires Valid()
      ensures Linked(next, chain) && DistinctLists(pending, chain) && ListsOk(pending, chain, timers, rings)
      ensures OnceEach(rings) && AllExpire(rings, ExpiriesOf(timers))
      ensures InOrder(chain, rings, ExpiriesOf(timers), clock)
    {
      OnceOnRings(ShapeOf(All()), rings);
    }

    lemma KnowsLists(react: Callbacks)
      requires Valid() && Knows(react)
      ensures KnownLists(react, ExpiriesOf(timers), rings)
      ensures pending.tlist in rings && forall j :: 0 <= j < |chain| ==> chain[j].tlist in rings
    {
    }

    // The clock has shown the time of the check.
    method Wake(now: int)
      requires Valid()
      modifies this`clock
      ensures Valid() && State() == Woken(old(State()), now)
    {
      hide RingsOk, Linked, ListsOk, DistinctLists, ShapeOf, InOrder, ExpiriesOf;
      LaterInOrder(chain, rings, ExpiriesOf(timers), clock, now);
      if clock < now {
        clock := now;
      }
    }

    // The first timer of a list is taken off.
    method TakeFirst(l: TimerList) returns (t: Link)
      requires Valid() && l.tlist in rings && rings[l.tlist] != []
      modifies this`rings, All()`next, All()`prev
      ensures Valid() && t == old(rings)[l.tlist][0] && t in timers
      ensures rings == old(rings)[l.tlist := old(rings)[l.tlist][1..]] && Removed(rings, t) == rings
    {
      hide RingsOk, Removed, ShapeOf, Linked, InOrder;
      ghost var all := All();
      FirstOf(rings, l.tlist, all);
      t := l.tlist.next;
      RemovedWithin(rings, t, timers);
      RemovedInOrder(chain, rings, ExpiriesOf(timers), clock, t);
      RemovedTwice(rings, t);
      TakeOff(t, all, rings);
      rings := Removed(rings, t);
    }

    // It is notified, and may attach itself to a list.
    method Fire(l: TimerList, ghost due: Due, react: Callbacks)
      requires Valid() && Knows(react) && l.tlist in rings && rings[l.tlist] != []
      modifies this`rings, this`fired, this`clock, All()`next, All()`prev, timers`objexp
      ensures Valid() && All() == old(All()) && State() == Notified(old(State()), CheckOf(l, due, react))
    {
      hide Valid, Removed, ExpiriesOf;
      ghost var s := State();
      HeadsKnown();
      var t := TakeFirst(l);
      var r := react(t, |fired|);
      Log(t);
      ExpiryOf(timers, t);
      match r {
        case Leave =>
        case Again(al, delay) =>
          AttachTimer(t, al, clock + delay);
          assert !Renews(r) ==> ExpiriesOf(timers) == s.exp;
        case AtOnce =>
          AttachZeroTimer(t);
      }
    }

    method Log(t: Link)
      requires Valid()
      modifies this`fired
      ensures Valid() && fired == old(fired) + [t]
    {
      hide RingsOk, Linked, ListsOk, DistinctLists, ShapeOf, InOrder, ExpiriesOf;
      fired := fired + [t];
    }

    lemma HeadsKnown()
      requires Valid()
      ensures pending.tlist in rings && forall i :: 0 <= i < |chain| ==> chain[i].tlist in rings
      ensures forall h, x :: h in rings && x in rings[h] ==> x in timers
    {
    }

    // CTimerList::CheckExpired
    method CheckExpiredList(l: TimerList, time: int, clockNow: int, react: Callbacks) returns (n: nat)
      requires Valid() && Knows(react) && l in chain
      requires var now := if time == 0 then clockNow else time;
               Returns(Woken(State(), now), CheckOf(l, By(now), react))
      modifies this`rings, this`fired, this`clock, All()`next, All()`prev, timers`objexp
      ensures Valid() && All() == old(All())
      ensures var now := if time == 0 then clockNow else time;
              var s, c := Woken(old(State()), now), CheckOf(l, By(now), react);
              && ReturnsAfter(s, c, n) && State() == Rounds(s, c, n)
              && (ComesBackLater(s, c) ==> n == Front(On(s.rings, l.tlist), s.exp, c.due) && ListDone(s, State(), c))
    {
      hide Valid, ExpiriesOf, Stops, Notified, Knows, ListDone, ComesBackLater, Front;
      Due(l, time, clockNow, react);
      var now := if time == 0 then clockNow else time;
      ghost var s, c := Woken(State(), now), CheckOf(l, By(now), react);
      ghost var bound: nat :| Stops(Rounds(s, c, bound), c);
      ghost var all := All();
      Wake(now);
      n := 0;
      while true
        invariant Valid() && Knows(react) && All() == all
        invariant n <= bound && State() == Rounds(s, c, n) && forall i: nat :: i < n ==> !Stops(Rounds(s, c, i), c)
        decreases bound - n
      {
        AtFront(l, By(now), react);
        if l.tlist.next == l.tlist {
          break;
        }
        if l.tlist.next.objexp > now {
          break;
        }
        Fire(l, By(now), react);
        n := n + 1;
      }
    }

    // If no timer comes back to a list where it would keep its expiry, the due front is fired.
    lemma Due(l: TimerList, time: int, clockNow: int, react: Callbacks)
      requires Valid() && Knows(react) && l in chain
      ensures var now := if time == 0 then clockNow else time;
              var s, c := Woken(State(), now), CheckOf(l, By(now), react);
              ComesBackLater(s, c) ==>
                (var k := Front(On(s.rings, l.tlist), s.exp, c.due);
                 && ReturnsAfter(s, c, k) && ListDone(s, Rounds(s, c, k), c)
                 && forall n: nat :: ReturnsAfter(s, c, n) ==> n == k)
    {
      hide Valid, RingsOk, InOrder, ListsOk, ExpiriesOf, ReturnsAfter, Rounds, ListDone, ComesBackLater, Front,
           OnceEach, AllExpire, KnownLists, Knows;
      Parts();
      KnowsLists(react);
      HeadsKnown();
      var now := if time == 0 then clockNow else time;
      var s, c := Woken(State(), now), CheckOf(l, By(now), react);
      if ComesBackLater(s, c) {
        ListChecked(s, c);
      }
    }

    // A check of a timed list returns exactly if its timeout is positive, a timer on it is not due, or none of its
    // timers attaches itself to it again, where each timer always does the same.
    lemma ListReturnsExactly(l: TimerList, now: int, react: Callbacks)
      requires Valid() && Knows(react) && l in chain && l.tlist in rings
      requires forall t, i: nat, j: nat :: t in timers ==> react(t, i) == react(t, j)
      ensures Returns(Woken(State(), now), CheckOf(l, By(now), react)) <==>
              || l.timeout > 0 || (exists t :: t in rings[l.tlist] && t.objexp > now)
              || forall t :: t in rings[l.tlist] ==> !(react(t, 0).Again? && react(t, 0).list == l)
    {
      hide Valid, RingsOk, InOrder, Linked, Returns, AllExpire;
      Parts();
      TimersOn(l.tlist, pending, chain, timers, rings);
      TimedReturnsExactly(Woken(State(), now), CheckOf(l, By(now), react), l);
    }

    // A check of the pending list returns exactly if none of its timers attaches itself to it again.
    lemma PendingListReturnsExactly(react: Callbacks)
      requires Valid() && Knows(react) && pending.tlist in rings
      requires forall t, i: nat, j: nat :: t in timers ==> react(t, i) == react(t, j)
      ensures Returns(State(), CheckOf(pending, Any, react)) <==>
              forall t :: t in rings[pending.tlist] ==> !react(t, 0).AtOnce?
    {
      hide Valid, RingsOk, InOrder, Linked, Returns, AllExpire;
      Parts();
      TimersOn(pending.tlist, pending, chain, timers, rings);
      PendingReturnsExactly(State(), CheckOf(pending, Any, react));
    }

    // What the loop finds at the front of a list.
    lemma AtFront(l: TimerList, due: Due, react: Callbacks)
      requires Valid() && (l in chain || l == pending)
      ensures l.tlist in All() && l.tlist in rings && (rings[l.tlist] == [] <==> l.tlist.next == l.tlist)
      ensures rings[l.tlist] != [] ==> l.tlist.next == rings[l.tlist][0] && l.tlist.next in timers
      ensures Stops(State(), CheckOf(l, due, react))
              <==> l.tlist.next == l.tlist || (due.By? && l.tlist.next.objexp > due.now)
    {
      hide RingsOk, Linked, InOrder, ListsOk, DistinctLists, ShapeOf, Removed;
      HeadIn(l, pending, chain, timers, rings);
      FirstOf(rings, l.tlist, All());
      TimersOn(l.tlist, pending, chain, timers, rings);
    }

    // CTimerUnit::CheckPending
    method CheckPending(react: Callbacks) returns (n: nat)
      requires Valid() && Knows(react) && Returns(State(), CheckOf(pending, Any, react))
      modifies this`rings, this`fired, this`clock, All()`next, All()`prev, timers`objexp
      ensures Valid() && All() == old(All())
      ensures var s, c := old(State()), CheckOf(pending, Any, react);
              ReturnsAfter(s, c, n) && State() == Rounds(s, c, n)
    {
      hide Valid, ExpiriesOf, Stops, Notified, Knows;
      ghost var s, c := State(), CheckOf(pending, Any, react);
      ghost var bound: nat :| Stops(Rounds(s, c, bound), c);
      ghost var all := All();
      n := 0;
      while true
        invariant Valid() && Knows(react) && All() == all
        invariant n <= bound && State() == Rounds(s, c, n) && forall i: nat :: i < n ==> !Stops(Rounds(s, c, i), c)
        decreases bound - n
      {
        AtFront(pending, Any, react);
        if pending.tlist.next == pending.tlist {
          break;
        }
        Fire(pending, Any, react);
        n := n + 1;
      }
    }

    // One turn of the loop over the timed lists.
    method CheckNext(tl: TimerList, now: int, clockNow: int, react: Callbacks, ghost i: nat, ghost s0: Sched)
      returns (n: nat)
      requires Valid() && Knows(react) && i < |chain| && tl == chain[i] && (now == 0 ==> clockNow == 0)
      requires StartOk(s0, pending, chain, react, now) && CheckedTo(s0, State(), pending, chain, i, react, now)
      modifies this`rings, this`fired, this`clock, All()`next, All()`prev, timers`objexp
      ensures Valid() && Knows(react) && All() == old(All()) && n == |fired| - |old(fired)|
      ensures CheckedTo(s0, State(), pending, chain, i + 1, react, now)
    {
      hide Valid, ExpiriesOf, Rounds, StartOk, CheckedTo, Returns, ReturnsAfter;
      CheckedNext(s0, State(), pending, chain, i, react, now);
      n := CheckExpiredList(tl, now, clockNow, react);
    }

    // The loop over the timed lists.
    method CheckLists(now: int, clockNow: int, react: Callbacks, ghost s0: Sched) returns (n: nat)
      requires Valid() && Knows(react) && (now == 0 ==> clockNow == 0)
      requires StartOk(s0, pending, chain, react, now) && CheckedTo(s0, State(), pending, chain, 0, react, now)
      modifies this`rings, this`fired, this`clock, All()`next, All()`prev, timers`objexp
      ensures Valid() && All() == old(All()) && n == |fired| - |old(fired)|
      ensures CheckedTo(s0, State(), pending, chain, |chain|, react, now)
    {
      hide Valid, RingsOk, Linked, InOrder, ListsOk, DistinctLists, ExpiriesOf, StartOk, CheckedTo, LeadsOn, OnceEach,
           AllExpire, Knows;
      ghost var all := All();
      n := 0;
      var tl := next;
      ghost var i := 0;
      Parts();
      FirstInChain(next, chain);
      while tl != null
        invariant Valid() && Knows(react) && All() == all && n == |fired| - |old(fired)|
        invariant 0 <= i <= |chain| && tl == if i < |chain| then chain[i] else null
        invariant CheckedTo(s0, State(), pending, chain, i, react, now)
        decreases |chain| - i
      {
        var k := CheckNext(tl, now, clockNow, react, i, s0);
        n := n + k;
        Parts();
        NextInChain(next, chain, i);
        tl := tl.next;
        i := i + 1;
      }
    }

    // CTimerUnit::CheckExpired
    method CheckExpired(time: int, clockNow: int, react: Callbacks) returns (n: nat)
      requires Valid() && Knows(react) && PositiveLists(react, ExpiriesOf(timers)) && pending.tlist in rings
      requires forall i :: 0 <= i < |rings[pending.tlist]| ==>
                 !react(rings[pending.tlist][i], |fired| + i).AtOnce?
      modifies this`rings, this`fired, this`clock, All()`next, All()`prev, timers`objexp
      ensures Valid() && All() == old(All()) && n == |fired| - |old(fired)|
      ensures var now := if time == 0 then clockNow else time;
              AllChecked(Woken(old(State()), now), State(), pending, chain, react, now)
    {
      hide Valid, ExpiriesOf, StartOk, CheckedTo, AllChecked, Knows, PositiveLists;
      var now := if time == 0 then clockNow else time;
      Wake(now);
      ghost var s0 := State();
      Started(react, now);
      PendingFirst(s0, pending, chain, react, now);
      n := CheckPending(react);
      var k := CheckLists(now, clockNow, react, s0);
      n := n + k;
      AllCheckedAtEnd(s0, State(), pending, chain, react, now);
    }

    lemma Started(react: Callbacks, now: int)
      requires Valid() && Knows(react) && PositiveLists(react, ExpiriesOf(timers)) && now <= clock
      ensures StartOk(State(), pending, chain, react, now)
    {
      Parts();
      KnowsLists(react);
    }

    // CTimerUnit::ExpireMicroSeconds: how many milliseconds to sleep, msec at most.
    method ExpireMicroSeconds(msec: int, now: int) returns (r: int)
      requires Valid()
      ensures forall i :: 0 <= i < |chain| ==> chain[i].tlist in rings
      ensures var exp, per := ExpiriesOf(timers), TIMESTAMP_PRECISION / 1000;
              && r == (if Wait(chain, |chain|, rings, exp, now + msec * per) <= now then 0
                       else (Wait(chain, |chain|, rings, exp, now + msec * per) - now) / per)
    {
      hide RingsOk, Linked, InOrder, ListsOk, DistinctLists, ShapeOf, LeadsOn, Wait;
      ghost var exps, all := ExpiriesOf(timers), All();
      HeadsIn(pending, chain, timers, rings);
      var exp := now + msec * (TIMESTAMP_PRECISION / 1000);
      var tl := next;
      ghost var i, limit := 0, exp;
      FirstInChain(next, chain);
      WaitNone(chain, rings, exps, limit);
      while tl != null
        invariant 0 <= i <= |chain| && tl == if i < |chain| then chain[i] else null
        invariant exp == Wait(chain, i, rings, exps, limit)
        decreases |chain| - i
      {
        FirstOf(rings, tl.tlist, all);
        TimersOn(tl.tlist, pending, chain, timers, rings);
        WaitStep(chain, i, rings, exps, limit);
        NextInChain(next, chain, i);
        if tl.tlist.next != tl.tlist {
          if tl.tlist.next.objexp < exp {
            exp := tl.tlist.next.objexp;
          }
        }
        tl := tl.next;
        i := i + 1;
      }
      exp := exp - now;
      if exp <= 0 {
        return 0;
      }
      r := exp / (TIMESTAMP_PRECISION / 1000);
    }
  }

  // The earliest of the limit and the expiries of the first timers of the first i lists.
  ghost function Wait(chain: seq<TimerList>, i: nat, rings: map<Link, seq<Link>>, exp: Expiries, limit: int): int
    requires i <= |chain|
  {
    if i == 0 then limit else
    var w, h := Wait(chain, i - 1, rings, exp, limit), chain[i - 1].tlist;
    if h in rings && rings[h] != [] && rings[h][0] in exp && exp[rings[h][0]] < w then exp[rings[h][0]] else w
  }

  lemma WaitNone(chain: seq<TimerList>, rings: map<Link, seq<Link>>, exp: Expiries, limit: int)
    ensures Wait(chain, 0, rings, exp, limit) == limit
  {
  }

  lemma WaitStep(chain: seq<TimerList>, i: nat, rings: map<Link, seq<Link>>, exp: Expiries, limit: int)
    requires i < |chain|
    ensures var w, h := Wait(chain, i, rings, exp, limit), chain[i].tlist;
            Wait(chain, i + 1, rings, exp, limit)
            == (if h in rings && rings[h] != [] && rings[h][0] in exp && exp[rings[h][0]] < w
                then exp[rings[h][0]] else w)
  {
  }

  lemma HeadsIn(pending: TimerList, chain: seq<TimerList>, timers: set<Link>, rings: map<Link, seq<Link>>)
    requires ListsOk(pending, chain, timers, rings)
    ensures forall i :: 0 <= i < |chain| ==> chain[i].tlist in rings
  {
  }

  // On ordered lists that is the earliest of all timers there, or the limit if that is earlier.
  lemma {:induction false} WaitIsEarliest(chain: seq<TimerList>, i: nat, rings: map<Link, seq<Link>>, exp: Expiries,
                                          clock: int, limit: int)
    requires i <= |chain| && InOrder(chain, rings, exp, clock)
    requires forall j :: 0 <= j < |chain| ==> chain[j].timeout > 0 && chain[j].tlist in rings
    ensures var w := Wait(chain, i, rings, exp, limit);
            && w <= limit
            && (forall j, x :: 0 <= j < i && x in rings[chain[j].tlist] ==> x in exp && w <= exp[x])
            && (w == limit
                || exists j ::
                     0 <= j < i && rings[chain[j].tlist] != [] && rings[chain[j].tlist][0] in exp
                     && w == exp[rings[chain[j].tlist][0]])
  {
    if 0 < i {
      WaitIsEarliest(chain, i - 1, rings, exp, clock, limit);
      var m := rings[chain[i - 1].tlist];
      assert SortedUpTo(m, exp, clock + chain[i - 1].timeout * TIMESTAMP_PRECISION);
      forall x | x in m ensures x in exp && exp[m[0]] <= exp[x] {
        var k :| 0 <= k < |m| && m[k] == x;
      }
    }
  }

  // So the sleep never outlasts msec nor the time to any attached timer, and falls short of the shorter of
  // the two by less than one millisecond.
  lemma SleepIsTight(chain: seq<TimerList>, rings: map<Link, seq<Link>>, exp: Expiries, clock: int, msec: int, now: int)
    requires InOrder(chain, rings, exp, clock) && 0 <= msec
    requires forall j :: 0 <= j < |chain| ==> chain[j].timeout > 0 && chain[j].tlist in rings
    ensures var per := TIMESTAMP_PRECISION / 1000;
            var w := Wait(chain, |chain|, rings, exp, now + msec * per);
            var r := if w <= now then 0 else (w - now) / per;
            && 0 <= r <= msec
            && (forall j, x :: 0 <= j < |chain| && x in rings[chain[j].tlist] ==>
                x in exp && (r * per <= exp[x] - now || (r == 0 && exp[x] <= now)))
            && (r == msec
                || exists j ::
                     0 <= j < |chain| && rings[chain[j].tlist] != [] && rings[chain[j].tlist][0] in exp
                     && exp[rings[chain[j].tlist][0]] - now < (r + 1) * per)
  {
    hide InOrder, Wait;
    WaitIsEarliest(chain, |chain|, rings, exp, clock, now + msec * (TIMESTAMP_PRECISION / 1000));
  }
}

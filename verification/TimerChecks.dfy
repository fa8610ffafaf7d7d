/** What a check of timer lists does, on values: the front timer is taken off and notified again and again, while
    notified timers may attach themselves to lists, the one under check included. */
module TimerChecks {
  import opened TimerLinks
  import opened TimerLists

  // What a notified timer does with itself: it stays off, calls AttachTimer some time later, or AttachZeroTimer.
  datatype Reaction = Leave | Again(list: TimerList, delay: nat) | AtOnce

  // What a timer does that is notified after n notifications.
  type Callbacks = (Link, nat) -> Reaction

  // Timed lists are checked for what has expired by now; pending timers do not wait.
  datatype Due = By(now: int) | Any

  // The list with this head is checked.
  datatype Check = Check(head: Link, due: Due, react: Callbacks, pending: Link)

  datatype Sched = Sched(rings: map<Link, seq<Link>>, exp: Expiries, clock: int, fired: seq<Link>)

  ghost function On(rings: map<Link, seq<Link>>, h: Link): seq<Link> {
    if h in rings then rings[h] else []
  }

  // The list that a reaction attaches to, if any.
  ghost predicate GoesTo(r: Reaction, h: Link, pending: Link) {
    match r
    case Leave => false
    case Again(l, _) => l.tlist == h
    case AtOnce => pending == h
  }

  // AttachTimer sets a new expiry for lists with a positive timeout only.
  ghost predicate Renews(r: Reaction) {
    r.Again? && r.list.timeout > 0
  }

  ghost predicate IsDue(exp: Expiries, x: Link, due: Due) {
    due.Any? || (x in exp && exp[x] <= due.now)
  }

  // The loop ends at an empty list, or at a front timer that is not due.
  ghost predicate Stops(s: Sched, c: Check) {
    On(s.rings, c.head) == [] || !IsDue(s.exp, On(s.rings, c.head)[0], c.due)
  }

  ghost function Moved(rings: map<Link, seq<Link>>, t: Link, r: Reaction, pending: Link): map<Link, seq<Link>> {
    match r
    case Leave => rings
    case Again(l, _) => rings[l.tlist := On(rings, l.tlist) + [t]]
    case AtOnce => rings[pending := On(rings, pending) + [t]]
  }

  ghost function Later(r: Reaction, clock: int): int {
    if r.Again? then clock + r.delay else clock
  }

  // When a check for a time begins, the clock has shown that time.
  ghost function Woken(s: Sched, now: int): Sched {
    if s.clock < now then s.(clock := now) else s
  }

  // One round of the loop.
  ghost function Notified(s: Sched, c: Check): Sched
    requires On(s.rings, c.head) != []
  {
    var t := On(s.rings, c.head)[0];
    var r := c.react(t, |s.fired|);
    var clock := Later(r, s.clock);
    Sched(Moved(s.rings[c.head := On(s.rings, c.head)[1..]], t, r, c.pending),
          if Renews(r) then s.exp[t := clock + r.list.timeout * TIMESTAMP_PRECISION] else s.exp,
          clock, s.fired + [t])
  }

  // The loop after n rounds, or where it ended before.
  ghost function Rounds(s: Sched, c: Check, n: nat): Sched {
    if n == 0 then s else
    var u := Rounds(s, c, n - 1);
    if Stops(u, c) then u else Notified(u, c)
  }

  ghost predicate Returns(s: Sched, c: Check) {
    exists n: nat :: Stops(Rounds(s, c, n), c)
  }

  // The loop returns after just n rounds.
  ghost predicate ReturnsAfter(s: Sched, c: Check, n: nat) {
    Stops(Rounds(s, c, n), c) && forall i: nat :: i < n ==> !Stops(Rounds(s, c, i), c)
  }

  // ---- when the loop returns ----

  ghost predicate Rejoins(c: Check, x: Link, i: nat) {
    GoesTo(c.react(x, i), c.head, c.pending)
  }

  ghost predicate NoRepeats(m: seq<Link>) {
    forall i, j :: 0 <= i < j < |m| ==> m[i] != m[j]
  }

  lemma {:induction false} RoundsShift(s: Sched, c: Check, n: nat)
    requires !Stops(s, c)
    ensures Rounds(s, c, n + 1) == Rounds(Notified(s, c), c, n)
  {
    hide Stops, Notified;
    if n > 0 {
      RoundsShift(s, c, n - 1);
    } else {
      assert Rounds(s, c, 0) == s;
    }
  }

  lemma ReturnsLater(s: Sched, c: Check)
    requires !Stops(s, c) && Returns(Notified(s, c), c)
    ensures Returns(s, c)
  {
    hide Notified, Rounds;
    var n: nat :| Stops(Rounds(Notified(s, c), c, n), c);
    RoundsShift(s, c, n);
  }

  lemma ReturnsNow(s: Sched, c: Check)
    requires Stops(s, c)
    ensures Returns(s, c)
  {
    assert Rounds(s, c, 0) == s;
  }

  // The list under check after one round, and the expiries of its timers.
  lemma ListAfter(s: Sched, c: Check)
    requires On(s.rings, c.head) != []
    ensures var m, u := On(s.rings, c.head), Notified(s, c);
            && On(u.rings, c.head) == m[1..] + (if Rejoins(c, m[0], |s.fired|) then [m[0]] else [])
            && s.clock <= u.clock
            && (forall x :: x != m[0] || !Renews(c.react(m[0], |s.fired|)) ==>
                (x in u.exp <==> x in s.exp) && (x in s.exp ==> u.exp[x] == s.exp[x]))
            && (Renews(c.react(m[0], |s.fired|)) ==> m[0] in u.exp && u.exp[m[0]] > s.clock)
  {
  }

  // A timer that is not due stops the loop when it comes to the front.
  lemma {:induction false} StoppedByWaiting(s: Sched, c: Check, p: nat)
    requires var m := On(s.rings, c.head);
             p < |m| && !IsDue(s.exp, m[p], c.due) && forall i :: 0 <= i < p ==> m[i] != m[p]
    ensures Returns(s, c)
    decreases p
  {
    hide Notified, Returns;
    if Stops(s, c) {
      ReturnsNow(s, c);
    } else {
      ListAfter(s, c);
      StoppedByWaiting(Notified(s, c), c, p - 1);
      ReturnsLater(s, c);
    }
  }

  // With a new expiry behind the time of the check for whoever comes back, the loop returns.
  lemma {:induction false} RenewedReturns(s: Sched, c: Check)
    requires NoRepeats(On(s.rings, c.head))
    requires forall x, i: nat :: x in On(s.rings, c.head) && Rejoins(c, x, i) ==>
               Renews(c.react(x, i)) && c.due.By? && c.due.now <= s.clock
    ensures Returns(s, c)
    decreases |On(s.rings, c.head)|
  {
    hide Notified, Returns, Rejoins, Renews;
    var m := On(s.rings, c.head);
    if Stops(s, c) {
      ReturnsNow(s, c);
    } else {
      ListAfter(s, c);
      assert m[0] in m;
      if Rejoins(c, m[0], |s.fired|) {
        StoppedByWaiting(Notified(s, c), c, |m| - 1);
      } else {
        RenewedReturns(Notified(s, c), c);
      }
      ReturnsLater(s, c);
    }
  }

  // Every timer on the list is due, one of them always comes back, and who comes back keeps its expiry.
  ghost predicate Treadmill(s: Sched, c: Check, x: Link) {
    var m := On(s.rings, c.head);
    && NoRepeats(m) && x in m && (forall i: nat :: Rejoins(c, x, i)) && (forall y :: y in m ==> IsDue(s.exp, y, c.due))
    && forall y, i: nat :: y in m && Rejoins(c, y, i) ==> !Renews(c.react(y, i))
  }

  lemma TreadmillTurns(s: Sched, c: Check, x: Link)
    requires Treadmill(s, c, x)
    ensures !Stops(s, c) && Treadmill(Notified(s, c), c, x)
  {
    hide Notified, Rejoins, Renews;
    ListAfter(s, c);
    var m, u := On(s.rings, c.head), Notified(s, c);
    forall y | y in On(u.rings, c.head) ensures y in m && IsDue(u.exp, y, c.due) {
      assert y in m && IsDue(s.exp, y, c.due);
      assert y != m[0] || !Renews(c.react(m[0], |s.fired|));
    }
  }

  lemma {:induction false} NeverStops(s: Sched, c: Check, x: Link, n: nat)
    requires Treadmill(s, c, x)
    ensures Treadmill(Rounds(s, c, n), c, x) && !Stops(Rounds(s, c, n), c)
  {
    hide Notified, Treadmill, Stops;
    if n > 0 {
      NeverStops(s, c, x, n - 1);
      TreadmillTurns(Rounds(s, c, n - 1), c, x);
    }
    TreadmillTurns(Rounds(s, c, n), c, x);
  }

  // Where timers keep their expiry and each always does the same, the loop returns exactly if a timer on the list
  // is not due or none of them comes back to it.
  lemma KeptReturnsExactly(s: Sched, c: Check)
    requires NoRepeats(On(s.rings, c.head))
    requires forall x, i: nat, j: nat :: x in On(s.rings, c.head) ==> c.react(x, i) == c.react(x, j)
    requires forall x, i: nat :: x in On(s.rings, c.head) && Rejoins(c, x, i) ==> !Renews(c.react(x, i))
    ensures var m := On(s.rings, c.head);
            Returns(s, c) <==>
            (exists x :: x in m && !IsDue(s.exp, x, c.due)) || forall x :: x in m ==> !Rejoins(c, x, 0)
  {
    hide Stops, Renews, Rounds;
    var m := On(s.rings, c.head);
    if x :| x in m && !IsDue(s.exp, x, c.due) {
      var p :| 0 <= p < |m| && m[p] == x;
      StoppedByWaiting(s, c, p);
    } else if x :| x in m && Rejoins(c, x, 0) {
      forall n: nat ensures !Stops(Rounds(s, c, n), c) {
        NeverStops(s, c, x, n);
      }
    } else {
      RenewedReturns(s, c);
    }
  }

  // On a timed list the guard is its timeout: it returns exactly if the timeout is positive, a timer on it is not
  // due, or none of its timers attaches itself to it again.
  lemma TimedReturnsExactly(s: Sched, c: Check, l: TimerList)
    requires c.head == l.tlist && c.head != c.pending && c.due.By? && c.due.now <= s.clock
    requires NoRepeats(On(s.rings, c.head))
    requires forall x, i: nat :: x in On(s.rings, c.head) && Rejoins(c, x, i) ==> c.react(x, i).list == l
    requires forall x, i: nat, j: nat :: x in On(s.rings, c.head) ==> c.react(x, i) == c.react(x, j)
    ensures var m := On(s.rings, c.head);
            Returns(s, c) <==>
            || l.timeout > 0 || (exists x :: x in m && !IsDue(s.exp, x, c.due))
            || forall x :: x in m ==> !(c.react(x, 0).Again? && c.react(x, 0).list == l)
  {
    hide Returns, NoRepeats, IsDue;
    if l.timeout > 0 {
      RenewedReturns(s, c);
    } else {
      KeptReturnsExactly(s, c);
    }
  }

  // The pending list has no such guard: its check returns exactly if none of its timers attaches itself to it again.
  lemma PendingReturnsExactly(s: Sched, c: Check)
    requires c.head == c.pending && c.due.Any? && NoRepeats(On(s.rings, c.head))
    requires forall x, i: nat :: x in On(s.rings, c.head) && c.react(x, i).Again? ==> c.react(x, i).list.tlist != c.head
    requires forall x, i: nat, j: nat :: x in On(s.rings, c.head) ==> c.react(x, i) == c.react(x, j)
    ensures Returns(s, c) <==> forall x :: x in On(s.rings, c.head) ==> !c.react(x, 0).AtOnce?
  {
    hide Returns, NoRepeats;
    KeptReturnsExactly(s, c);
  }

  // A single due timer on a list with timeout 0 that attaches itself to it again is notified without end.
  lemma FiresForEver(t: Link, l: TimerList, pending: Link, n: nat)
    requires l.timeout == 0 && l.tlist != pending && t != l.tlist && t != pending
    ensures var s := Sched(map[pending := [], l.tlist := [t]], map[t := 0], 5, []);
            var c := Check(l.tlist, By(5), (x, i) => Again(l, 0), pending);
            !Stops(Rounds(s, c, n), c) && !Returns(s, c)
  {
    var s := Sched(map[pending := [], l.tlist := [t]], map[t := 0], 5, []);
    var c := Check(l.tlist, By(5), (x, i) => Again(l, 0), pending);
    assert Treadmill(s, c, t);
    forall k: nat ensures !Stops(Rounds(s, c, k), c) {
      NeverStops(s, c, t, k);
    }
  }

  // ---- what a check does to all the lists ----

  // The notified timers, from number `from` on, that attached themselves to h.
  ghost function Joining(react: Callbacks, f: seq<Link>, from: nat, h: Link, pending: Link): seq<Link> {
    if |f| <= from then [] else
    var n := |f| - 1;
    Joining(react, f[..n], from, h, pending) + if GoesTo(react(f[n], n), h, pending) then [f[n]] else []
  }

  lemma JoiningMore(react: Callbacks, f: seq<Link>, from: nat, t: Link, h: Link, pending: Link)
    requires from <= |f|
    ensures Joining(react, f + [t], from, h, pending)
            == Joining(react, f, from, h, pending) + (if GoesTo(react(t, |f|), h, pending) then [t] else [])
  {
    assert (f + [t])[..|f|] == f;
  }

  lemma {:induction false} JoinedOne(react: Callbacks, f: seq<Link>, from: nat, h: Link, pending: Link, x: Link)
    requires x in Joining(react, f, from, h, pending)
    ensures exists i :: from <= i < |f| && f[i] == x && GoesTo(react(f[i], i), h, pending)
  {
    hide GoesTo;
    if from < |f| {
      var n := |f| - 1;
      if !(GoesTo(react(f[n], n), h, pending) && f[n] == x) {
        JoinedOne(react, f[..n], from, h, pending, x);
      }
    }
  }

  // Each timer is on one list at most, and there once.
  ghost predicate OnceEach(rings: map<Link, seq<Link>>) {
    && (forall h :: h in rings ==> NoRepeats(rings[h]))
    && forall h, k, x :: h in rings && k in rings && h != k && x in rings[h] ==> x !in rings[k]
  }

  lemma OnceOnRings(s: Shape, rings: map<Link, seq<Link>>)
    requires RingsOk(s, rings)
    ensures OnceEach(rings)
  {
    forall h | h in rings ensures NoRepeats(rings[h]) {
      assert Ring(s, h, rings[h]);
    }
  }

  // Every timer on a list has an expiry.
  ghost predicate AllExpire(rings: map<Link, seq<Link>>, exp: Expiries) {
    forall h, x :: h in rings && x in rings[h] ==> x in exp
  }

  // From s0 to s each list has lost so many timers at its front, just those that were notified, and has got behind
  // the rest those that attached themselves to it, in the order of notification.
  ghost predicate Progress(s0: Sched, s: Sched, taken: map<Link, nat>, react: Callbacks, pending: Link) {
    && s.rings.Keys == s0.rings.Keys == taken.Keys && s0.fired <= s.fired && s0.clock <= s.clock
    && (forall h :: h in s0.rings ==>
          && taken[h] <= |s0.rings[h]|
          && s.rings[h] == s0.rings[h][taken[h]..] + Joining(react, s.fired, |s0.fired|, h, pending))
    && RestWaits(s0, s.fired, taken) && Renewed(s0, s, react)
  }

  // Nobody in the rest of a list has been notified.
  ghost predicate RestWaits(s0: Sched, fired: seq<Link>, taken: map<Link, nat>)
    requires |s0.fired| <= |fired| && s0.rings.Keys == taken.Keys
    requires forall h :: h in s0.rings ==> taken[h] <= |s0.rings[h]|
  {
    forall h, x :: h in s0.rings && x in s0.rings[h][taken[h]..] ==> x !in fired[|s0.fired|..]
  }

  // Only notified timers have a new expiry, and it is their timeout behind the time of attaching.
  ghost predicate Renewed(s0: Sched, s: Sched, react: Callbacks)
    requires |s0.fired| <= |s.fired|
  {
    && s.exp.Keys == s0.exp.Keys && (forall x :: x in s.fired[|s0.fired|..] ==> x in s0.exp)
    && (forall x :: x in s0.exp && x !in s.fired[|s0.fired|..] ==> s.exp[x] == s0.exp[x])
    && forall i :: |s0.fired| <= i < |s.fired| && Renews(react(s.fired[i], i)) ==>
         && s.fired[i] in s.exp
         && s0.clock <= s.exp[s.fired[i]] - react(s.fired[i], i).list.timeout * TIMESTAMP_PRECISION <= s.clock
  }

  ghost function NoneTaken(rings: map<Link, seq<Link>>): map<Link, nat> {
    map h | h in rings :: 0
  }

  lemma ProgressStart(s: Sched, react: Callbacks, pending: Link)
    ensures Progress(s, s, NoneTaken(s.rings), react, pending)
  {
  }

  lemma FrontWaits(s0: Sched, s: Sched, taken: map<Link, nat>, react: Callbacks, pending: Link, h: Link)
    requires Progress(s0, s, taken, react, pending) && h in s0.rings && taken[h] < |s0.rings[h]|
    requires AllExpire(s0.rings, s0.exp)
    ensures var t := s0.rings[h][taken[h]];
            && t !in s.fired[|s0.fired|..] && t in s0.exp && t in s.exp && s.exp[t] == s0.exp[t]
  {
    hide Joining;
    var t := s0.rings[h][taken[h]];
    assert s0.rings[h][taken[h]..][0] == t;
    assert t in s0.rings[h] && t in s0.exp;
  }

  // The first timer of a list that still has some of its own.
  lemma NextTaken(s0: Sched, s: Sched, taken: map<Link, nat>, c: Check)
    requires Progress(s0, s, taken, c.react, c.pending) && c.head in s0.rings && taken[c.head] < |s0.rings[c.head]|
    requires AllExpire(s0.rings, s0.exp)
    ensures var m, n := s0.rings[c.head], taken[c.head];
            && On(s.rings, c.head) != [] && On(s.rings, c.head)[0] == m[n] && m[n] !in s.fired[|s0.fired|..]
            && m[n] in s0.exp && m[n] in s.exp && s.exp[m[n]] == s0.exp[m[n]]
            && On(s.rings, c.head)[1..] == m[n + 1..] + Joining(c.react, s.fired, |s0.fired|, c.head, c.pending)
  {
    hide Renewed, RestWaits, Joining, AllExpire, On;
    FrontWaits(s0, s, taken, c.react, c.pending, c.head);
    HeldBy(s0, s, taken, c, c.head);
    var m, n := s0.rings[c.head], taken[c.head];
    assert m[n..] == [m[n]] + m[n + 1..];
  }

  lemma OthersNotYet(s0: Sched, s: Sched, taken: map<Link, nat>, c: Check)
    requires Progress(s0, s, taken, c.react, c.pending) && c.head in s0.rings && taken[c.head] < |s0.rings[c.head]|
    requires OnceEach(s0.rings)
    ensures var t := s0.rings[c.head][taken[c.head]]; var after := taken[c.head := taken[c.head] + 1];
            RestWaits(s0, s.fired + [t], after)
  {
    hide Renewed;
    var m, n := s0.rings[c.head], taken[c.head];
    var t, after := m[n], taken[c.head := n + 1];
    assert (s.fired + [t])[|s0.fired|..] == s.fired[|s0.fired|..] + [t];
    forall h, x | h in s0.rings && x in s0.rings[h][after[h]..] ensures x != t && x in s0.rings[h][taken[h]..] {
      var j :| 0 <= j < |s0.rings[h]| - after[h] && s0.rings[h][after[h]..][j] == x;
      assert x == s0.rings[h][after[h] + j] == s0.rings[h][taken[h]..][after[h] - taken[h] + j];
      assert NoRepeats(m) && t in m;
    }
  }

  lemma RenewedMore(s0: Sched, s: Sched, c: Check)
    requires s0.fired <= s.fired && s0.clock <= s.clock && Renewed(s0, s, c.react) && On(s.rings, c.head) != []
    requires var t := On(s.rings, c.head)[0]; t in s.exp && t !in s.fired[|s0.fired|..]
    ensures Renewed(s0, Notified(s, c), c.react)
  {
    hide On, Moved, Renews;
    var u, t, f0 := Notified(s, c), On(s.rings, c.head)[0], |s0.fired|;
    assert u.fired[f0..] == s.fired[f0..] + [t];
    forall i | f0 <= i < |s.fired| ensures u.fired[i] == s.fired[i] && s.fired[i] != t {
      assert s.fired[i] == s.fired[f0..][i - f0];
    }
    ListAfter(s, c);
    LastRenewed(s, c);
  }

  lemma LastRenewed(s: Sched, c: Check)
    requires On(s.rings, c.head) != []
    ensures var u, t, r := Notified(s, c), On(s.rings, c.head)[0], c.react(On(s.rings, c.head)[0], |s.fired|);
            Renews(r) ==>
              t in u.exp && s.clock <= u.exp[t] - r.list.timeout * TIMESTAMP_PRECISION <= u.clock
  {
  }

  lemma RingsMore(s0: Sched, s: Sched, taken: map<Link, nat>, c: Check, h: Link)
    requires Progress(s0, s, taken, c.react, c.pending) && c.head in s0.rings && taken[c.head] < |s0.rings[c.head]|
    requires AllExpire(s0.rings, s0.exp) && h in s0.rings
    ensures On(s.rings, c.head) != []
    ensures var u, after := Notified(s, c), taken[c.head := taken[c.head] + 1];
            On(u.rings, h) == s0.rings[h][after[h]..] + Joining(c.react, u.fired, |s0.fired|, h, c.pending)
  {
    hide Renewed, AllExpire, Renews, Joining, Progress, RestWaits;
    NextTaken(s0, s, taken, c);
    HeldBy(s0, s, taken, c, h);
    var t := s0.rings[c.head][taken[c.head]];
    JoiningMore(c.react, s.fired, |s0.fired|, t, h, c.pending);
  }

  lemma HeldBy(s0: Sched, s: Sched, taken: map<Link, nat>, c: Check, h: Link)
    requires Progress(s0, s, taken, c.react, c.pending) && h in s0.rings
    ensures taken.Keys == s0.rings.Keys && taken[h] <= |s0.rings[h]| && s0.fired <= s.fired
    ensures On(s.rings, h) == s0.rings[h][taken[h]..] + Joining(c.react, s.fired, |s0.fired|, h, c.pending)
  {
  }

  lemma KeysMore(s: Sched, c: Check)
    requires c.head in s.rings && On(s.rings, c.head) != [] && c.pending in s.rings
    requires var r := c.react(On(s.rings, c.head)[0], |s.fired|); r.Again? ==> r.list.tlist in s.rings
    ensures Notified(s, c).rings.Keys == s.rings.Keys && s.clock <= Notified(s, c).clock
    ensures Notified(s, c).fired == s.fired + [On(s.rings, c.head)[0]]
  {
  }

  lemma ProgressStep(s0: Sched, s: Sched, taken: map<Link, nat>, c: Check)
    requires Progress(s0, s, taken, c.react, c.pending) && c.head in s0.rings && taken[c.head] < |s0.rings[c.head]|
    requires OnceEach(s0.rings) && AllExpire(s0.rings, s0.exp) && c.pending in s0.rings
    requires var r := c.react(s0.rings[c.head][taken[c.head]], |s.fired|); r.Again? ==> r.list.tlist in s0.rings
    ensures On(s.rings, c.head) != []
    ensures Progress(s0, Notified(s, c), taken[c.head := taken[c.head] + 1], c.react, c.pending)
  {
    hide Renewed, OnceEach, AllExpire, Renews, Joining, Notified, RestWaits;
    NextTaken(s0, s, taken, c);
    OthersNotYet(s0, s, taken, c);
    RenewedMore(s0, s, c);
    KeysMore(s, c);
    forall h | h in s0.rings
      ensures var u, after := Notified(s, c), taken[c.head := taken[c.head] + 1];
              On(u.rings, h) == s0.rings[h][after[h]..] + Joining(c.react, u.fired, |s0.fired|, h, c.pending)
    {
      RingsMore(s0, s, taken, c, h);
    }
  }

  // How many timers at the front of a list are due.
  ghost function Front(m: seq<Link>, exp: Expiries, due: Due): (k: nat)
    ensures k <= |m|
  {
    if due.Any? then |m| else Expired(m, exp, due.now)
  }

  lemma {:induction false} FrontDue(m: seq<Link>, exp: Expiries, due: Due)
    ensures var k := Front(m, exp, due);
            && (forall i :: 0 <= i < k ==> IsDue(exp, m[i], due)) && (k < |m| ==> !IsDue(exp, m[k], due))
  {
    if due.By? && m != [] && m[0] in exp && exp[m[0]] <= due.now {
      FrontDue(m[1..], exp, due);
    }
  }

  // Whoever attaches itself to the list under check has a new expiry then, behind the time of the check.
  ghost predicate ComesBackLater(s0: Sched, c: Check) {
    forall x, i: nat :: x in s0.exp && Rejoins(c, x, i) ==> Renews(c.react(x, i)) && c.due.By? && c.due.now <= s0.clock
  }

  // Callbacks attach to known lists.
  ghost predicate KnownLists(react: Callbacks, exp: Expiries, rings: map<Link, seq<Link>>) {
    forall x, i: nat :: x in exp && react(x, i).Again? ==> react(x, i).list.tlist in rings
  }

  // The due front of a list is notified, round by round.
  lemma {:induction false} FrontRounds(s0: Sched, s: Sched, taken: map<Link, nat>, c: Check, n: nat)
    requires Progress(s0, s, taken, c.react, c.pending) && c.head in s0.rings && c.head in taken && taken[c.head] == 0
    requires OnceEach(s0.rings) && AllExpire(s0.rings, s0.exp) && c.pending in s0.rings
    requires KnownLists(c.react, s0.exp, s0.rings)
    requires n <= Front(s0.rings[c.head], s0.exp, c.due)
    ensures var u := Rounds(s, c, n);
            && Progress(s0, u, taken[c.head := n], c.react, c.pending) && u.fired == s.fired + s0.rings[c.head][..n]
    ensures forall i: nat :: i < n ==> !Stops(Rounds(s, c, i), c)
  {
    hide Progress, OnceEach, Notified;
    var m := s0.rings[c.head];
    if n == 0 {
      assert taken[c.head := 0] == taken;
    } else {
      FrontRounds(s0, s, taken, c, n - 1);
      var u, before := Rounds(s, c, n - 1), taken[c.head := n - 1];
      RoundOf(s0, u, before, c);
      FrontDue(m, s0.exp, c.due);
      ProgressStep(s0, u, before, c);
      assert before[c.head := n] == taken[c.head := n] && m[..n - 1] + [m[n - 1]] == m[..n];
    }
  }

  lemma RoundOf(s0: Sched, s: Sched, taken: map<Link, nat>, c: Check)
    requires Progress(s0, s, taken, c.react, c.pending) && c.head in s0.rings && taken[c.head] < |s0.rings[c.head]|
    requires AllExpire(s0.rings, s0.exp)
    ensures var t := s0.rings[c.head][taken[c.head]];
            && t in s0.exp && (Stops(s, c) <==> !IsDue(s0.exp, t, c.due))
            && On(s.rings, c.head) != [] && Notified(s, c).fired == s.fired + [t]
  {
    NextTaken(s0, s, taken, c);
  }

  // Behind the due front the loop stops: whoever came back is not due.
  lemma StopsBehindFront(s0: Sched, s: Sched, taken: map<Link, nat>, c: Check)
    requires Progress(s0, s, taken, c.react, c.pending) && c.head in s0.rings
    requires AllExpire(s0.rings, s0.exp) && taken[c.head] == Front(s0.rings[c.head], s0.exp, c.due)
    requires forall i :: |s0.fired| <= i < |s.fired| && Rejoins(c, s.fired[i], i) ==>
               Renews(c.react(s.fired[i], i)) && c.due.By? && c.due.now <= s0.clock
    ensures Stops(s, c)
  {
    var m, n := s0.rings[c.head], taken[c.head];
    var j := Joining(c.react, s.fired, |s0.fired|, c.head, c.pending);
    FrontDue(m, s0.exp, c.due);
    if n < |m| {
      RoundOf(s0, s, taken, c);
    } else if j != [] {
      JoinedOne(c.react, s.fired, |s0.fired|, c.head, c.pending, j[0]);
      assert s.rings[c.head] == j;
    }
  }

  // So a check notifies just the due front and then returns, whatever the callbacks attach to other lists.
  lemma DueFrontFires(s0: Sched, s: Sched, taken: map<Link, nat>, c: Check)
    requires Progress(s0, s, taken, c.react, c.pending) && c.head in s0.rings && c.head in taken && taken[c.head] == 0
    requires OnceEach(s0.rings) && AllExpire(s0.rings, s0.exp) && c.pending in s0.rings
    requires KnownLists(c.react, s0.exp, s0.rings) && ComesBackLater(s0, c)
    ensures var m, k := s0.rings[c.head], Front(s0.rings[c.head], s0.exp, c.due);
            && ReturnsAfter(s, c, k) && Rounds(s, c, k).fired == s.fired + m[..k]
            && Progress(s0, Rounds(s, c, k), taken[c.head := k], c.react, c.pending)
  {
    hide OnceEach, AllExpire, KnownLists, Stops, Rounds, Renews, Rejoins, Front, RestWaits, Joining, IsDue;
    var k := Front(s0.rings[c.head], s0.exp, c.due);
    FrontRounds(s0, s, taken, c, k);
    var u := Rounds(s, c, k);
    forall i | |s0.fired| <= i < |u.fired| && Rejoins(c, u.fired[i], i)
      ensures Renews(c.react(u.fired[i], i)) && c.due.By? && c.due.now <= s0.clock
    {
      assert u.fired[i] == u.fired[|s0.fired|..][i - |s0.fired|];
    }
    StopsBehindFront(s0, u, taken[c.head := k], c);
  }

  // What is left of the list and of all others.
  ghost predicate ListDone(s: Sched, u: Sched, c: Check)
  {
    var m, k := On(s.rings, c.head), Front(On(s.rings, c.head), s.exp, c.due);
    && u.fired == s.fired + m[..k] && u.rings.Keys == s.rings.Keys && Renewed(s, u, c.react)
    && forall h :: h in s.rings ==>
         u.rings[h] == (if h == c.head then m[k..] else s.rings[h]) + Joining(c.react, u.fired, |s.fired|, h, c.pending)
  }

  lemma ListChecked(s: Sched, c: Check)
    requires OnceEach(s.rings) && AllExpire(s.rings, s.exp) && c.pending in s.rings && c.head in s.rings
    requires KnownLists(c.react, s.exp, s.rings) && ComesBackLater(s, c)
    ensures var k := Front(On(s.rings, c.head), s.exp, c.due);
            ReturnsAfter(s, c, k) && ListDone(s, Rounds(s, c, k), c)
    ensures forall n: nat :: ReturnsAfter(s, c, n) ==> n == Front(On(s.rings, c.head), s.exp, c.due)
  {
    hide OnceEach, AllExpire, KnownLists, Rounds, Renewed, Joining, Front, Stops, ComesBackLater, RestWaits;
    var k := Front(s.rings[c.head], s.exp, c.due);
    ProgressStart(s, c.react, c.pending);
    DueFrontFires(s, s, NoneTaken(s.rings), c);
    forall h | h in s.rings ensures s.rings[h][0..] == s.rings[h] {
    }
    forall n: nat | ReturnsAfter(s, c, n) ensures n == k {
      ReturnsOnce(s, c, n, k);
    }
  }

  // The pending list is emptied if none of its timers attaches itself to it again.
  lemma PendingFires(s: Sched, c: Check)
    requires c.due.Any? && c.head == c.pending && c.pending in s.rings
    requires OnceEach(s.rings) && AllExpire(s.rings, s.exp) && KnownLists(c.react, s.exp, s.rings)
    requires forall i :: 0 <= i < |s.rings[c.pending]| ==> !Rejoins(c, s.rings[c.pending][i], |s.fired| + i)
    ensures var m := s.rings[c.pending];
            && ReturnsAfter(s, c, |m|) && Rounds(s, c, |m|).fired == s.fired + m
            && Progress(s, Rounds(s, c, |m|), NoneTaken(s.rings)[c.pending := |m|], c.react, c.pending)
  {
    hide Progress, OnceEach, AllExpire, KnownLists, Stops, Rounds, Renews, Rejoins;
    var m := s.rings[c.pending];
    ProgressStart(s, c.react, c.pending);
    FrontRounds(s, s, NoneTaken(s.rings), c, |m|);
    assert m[..|m|] == m;
    StopsBehindFront(s, Rounds(s, c, |m|), NoneTaken(s.rings)[c.pending := |m|], c);
  }

  lemma ReturnsOnce(s: Sched, c: Check, n: nat, k: nat)
    requires ReturnsAfter(s, c, n) && ReturnsAfter(s, c, k)
    ensures n == k
  {
  }

  // ---- a check of all lists ----

  // How many timers each list loses when the pending list and the first i timed lists are checked.
  ghost function Taken(pending: Link, chain: seq<TimerList>, i: nat, s: Sched, now: int): map<Link, nat>
    requires i <= |chain|
  {
    if i == 0 then NoneTaken(s.rings)[pending := |On(s.rings, pending)|] else
    var h := chain[i - 1].tlist;
    Taken(pending, chain, i - 1, s, now)[h := Expired(On(s.rings, h), s.exp, now)]
  }

  lemma {:induction false} TakenOf(pending: TimerList, chain: seq<TimerList>, i: nat, s: Sched, now: int)
    requires i <= |chain| && DistinctLists(pending, chain)
    requires pending.tlist in s.rings && forall j :: 0 <= j < |chain| ==> chain[j].tlist in s.rings
    ensures var taken := Taken(pending.tlist, chain, i, s, now);
            && taken.Keys == s.rings.Keys && taken[pending.tlist] == |s.rings[pending.tlist]|
            && forall j :: 0 <= j < |chain| ==>
                 taken[chain[j].tlist] == if j < i then Expired(s.rings[chain[j].tlist], s.exp, now) else 0
  {
    hide Expired;
    if i > 0 {
      TakenOf(pending, chain, i - 1, s, now);
    }
  }

  // When all lists are checked: each holds what was not due and, behind it, who attached itself to it.
  ghost predicate AllChecked(s0: Sched, s: Sched, pending: TimerList, chain: seq<TimerList>, react: Callbacks, now: int)
  {
    && s.rings.Keys == s0.rings.Keys && |s0.fired| <= |s.fired| && Renewed(s0, s, react) && pending.tlist in s.rings
    && s.rings[pending.tlist] == Joining(react, s.fired, |s0.fired|, pending.tlist, pending.tlist)
    && s.fired == s0.fired + s0.rings[pending.tlist] + FiredFrom(chain, |chain|, s0.rings, s0.exp, now)
    && forall j :: 0 <= j < |chain| ==>
         var h := chain[j].tlist;
         && h in s.rings
         && s.rings[h] == s0.rings[h][Expired(s0.rings[h], s0.exp, now)..]
                          + Joining(react, s.fired, |s0.fired|, h, pending.tlist)
         && forall x :: x in s0.rings[h][Expired(s0.rings[h], s0.exp, now)..] && x in s0.exp ==>
              x in s.exp && s.exp[x] == s0.exp[x]
  }

  // Callbacks attach to lists with a positive timeout.
  ghost predicate PositiveLists(react: Callbacks, exp: Expiries) {
    forall x, i: nat :: x in exp && react(x, i).Again? ==> react(x, i).list.timeout > 0
  }

  // What holds when a check of all lists begins.
  ghost predicate StartOk(s0: Sched, pending: TimerList, chain: seq<TimerList>, react: Callbacks, now: int) {
    && OnceEach(s0.rings) && AllExpire(s0.rings, s0.exp) && KnownLists(react, s0.exp, s0.rings)
    && PositiveLists(react, s0.exp) && DistinctLists(pending, chain) && now <= s0.clock
    && pending.tlist in s0.rings && (forall j :: 0 <= j < |chain| ==> chain[j].tlist in s0.rings)
    && forall x, i: nat :: x in s0.exp && react(x, i).Again? ==> react(x, i).list in chain
  }

  // The pending list and the first i timed lists are checked.
  ghost predicate CheckedTo(s0: Sched, s: Sched, pending: TimerList, chain: seq<TimerList>, i: nat, react: Callbacks,
                            now: int)
    requires i <= |chain|
  {
    && Progress(s0, s, Taken(pending.tlist, chain, i, s0, now), react, pending.tlist)
    && s.fired == s0.fired + On(s0.rings, pending.tlist) + FiredFrom(chain, i, s0.rings, s0.exp, now)
  }

  // Nobody calls AttachTimer for the pending list.
  lemma NotPending(s0: Sched, pending: TimerList, chain: seq<TimerList>, react: Callbacks, now: int, x: Link, i: nat)
    requires StartOk(s0, pending, chain, react, now) && x in s0.rings[pending.tlist]
    ensures x in s0.exp && (react(x, i).Again? ==> react(x, i).list.tlist != pending.tlist)
  {
  }

  lemma PendingFirst(s0: Sched, pending: TimerList, chain: seq<TimerList>, react: Callbacks, now: int)
    requires StartOk(s0, pending, chain, react, now)
    requires var m := On(s0.rings, pending.tlist);
             forall i :: 0 <= i < |m| ==> !react(m[i], |s0.fired| + i).AtOnce?
    ensures var c := Check(pending.tlist, Any, react, pending.tlist);
            && Returns(s0, c)
            && forall n: nat :: ReturnsAfter(s0, c, n) ==>
                 && CheckedTo(s0, Rounds(s0, c, n), pending, chain, 0, react, now)
                 && |Rounds(s0, c, n).fired| == |s0.fired| + n
  {
    hide OnceEach, Rounds, Progress, Stops, Renews;
    var c, m := Check(pending.tlist, Any, react, pending.tlist), s0.rings[pending.tlist];
    forall i | 0 <= i < |m| ensures !Rejoins(c, m[i], |s0.fired| + i) {
      assert On(s0.rings, pending.tlist) == m && !react(m[i], |s0.fired| + i).AtOnce?;
      assert m[i] in m;
      NotPending(s0, pending, chain, react, now, m[i], |s0.fired| + i);
    }
    PendingFires(s0, c);
    forall n: nat | ReturnsAfter(s0, c, n) ensures n == |m| {
      ReturnsOnce(s0, c, n, |m|);
    }
    FiredNone(chain, s0.rings, s0.exp, now);
    assert s0.fired + m + [] == s0.fired + m;
  }

  lemma CheckedNext(s0: Sched, s: Sched, pending: TimerList, chain: seq<TimerList>, i: nat, react: Callbacks, now: int)
    requires StartOk(s0, pending, chain, react, now)
    requires i < |chain| && CheckedTo(s0, s, pending, chain, i, react, now)
    ensures var c := Check(chain[i].tlist, By(now), react, pending.tlist);
            && Woken(s, now) == s && Returns(s, c)
            && forall n: nat :: ReturnsAfter(s, c, n) ==>
                 && CheckedTo(s0, Rounds(s, c, n), pending, chain, i + 1, react, now)
                 && |Rounds(s, c, n).fired| == |s.fired| + n
  {
    hide OnceEach, Rounds, AllExpire, Stops, Expired, FiredFrom;
    var c, m := Check(chain[i].tlist, By(now), react, pending.tlist), s0.rings[chain[i].tlist];
    var taken, k := Taken(pending.tlist, chain, i, s0, now), Expired(m, s0.exp, now);
    TakenOf(pending, chain, i, s0, now);
    assert s0.clock <= s.clock;
    forall x, i: nat | x in s0.exp && Rejoins(c, x, i) ensures Renews(react(x, i)) {
    }
    DueFrontFires(s0, s, taken, c);
    forall n: nat | ReturnsAfter(s, c, n) ensures n == k {
      ReturnsOnce(s, c, n, k);
    }
    FiredStep(chain, i, s0.rings, s0.exp, now, s0.fired + s0.rings[pending.tlist]);
  }

  lemma AllCheckedAtEnd(s0: Sched, s: Sched, pending: TimerList, chain: seq<TimerList>, react: Callbacks, now: int)
    requires StartOk(s0, pending, chain, react, now) && CheckedTo(s0, s, pending, chain, |chain|, react, now)
    ensures AllChecked(s0, s, pending, chain, react, now)
  {
    hide Expired, Renewed, Joining, OnceEach, AllExpire, KnownLists, PositiveLists, FiredFrom;
    TakenOf(pending, chain, |chain|, s0, now);
    RestKeeps(s0, s, Taken(pending.tlist, chain, |chain|, s0, now), react, pending.tlist);
    assert forall j :: 0 <= j < |chain| ==> chain[j].tlist in s.rings;
  }

  lemma RestKeeps(s0: Sched, s: Sched, taken: map<Link, nat>, react: Callbacks, pending: Link)
    requires Progress(s0, s, taken, react, pending)
    ensures forall h, x :: h in s0.rings && x in s0.rings[h][taken[h]..] && x in s0.exp ==>
              x in s.exp && s.exp[x] == s0.exp[x]
  {
  }

  // Then no timer on a list with a positive timeout is due any more.
  lemma NoneDueAfter(s0: Sched, s: Sched, pending: TimerList, chain: seq<TimerList>, react: Callbacks, now: int,
                     clock: int, j: nat, x: Link)
    requires AllChecked(s0, s, pending, chain, react, now) && now <= s0.clock && DistinctLists(pending, chain)
    requires InOrder(chain, s0.rings, s0.exp, clock) && PositiveLists(react, s0.exp)
    requires j < |chain| && chain[j].timeout > 0 && x in s.rings[chain[j].tlist] && chain[j].tlist in s0.rings
    ensures x in s.exp && s.exp[x] > now
  {
    hide Expired, InOrder, Joining;
    var h := chain[j].tlist;
    if x in s0.rings[h][Expired(s0.rings[h], s0.exp, now)..] {
      OneListFires(chain, j, s0.rings, s0.exp, clock, now);
    } else {
      JoinedOne(react, s.fired, |s0.fired|, h, pending.tlist, x);
      var i :| |s0.fired| <= i < |s.fired| && s.fired[i] == x && GoesTo(react(s.fired[i], i), h, pending.tlist);
      assert x == s.fired[|s0.fired|..][i - |s0.fired|];
    }
  }

  // ---- nobody is notified twice ----

  lemma NoRepeatsJoin(a: seq<Link>, b: seq<Link>)
    requires NoRepeats(a) && NoRepeats(b) && forall x :: x in a ==> x !in b
    ensures NoRepeats(a + b)
  {
    forall i, j | 0 <= i < j < |a + b| ensures (a + b)[i] != (a + b)[j] {
      assert i < |a| <= j ==> a[i] in a && b[j - |a|] in b;
    }
  }

  lemma {:induction false} CountOnce(m: seq<Link>, x: Link)
    requires NoRepeats(m)
    ensures multiset(m)[x] == if x in m then 1 else 0
  {
    if m != [] {
      CountOnce(m[1..], x);
      assert m == [m[0]] + m[1..];
      assert forall i :: 0 <= i < |m[1..]| ==> m[1..][i] != m[0];
    }
  }

  lemma {:induction false} FiredOnLists(pending: TimerList, chain: seq<TimerList>, i: nat, rings: map<Link, seq<Link>>,
                                        exp: Expiries, now: int)
    requires i <= |chain| && OnceEach(rings) && DistinctLists(pending, chain) && pending.tlist in rings
    ensures NoRepeats(rings[pending.tlist] + FiredFrom(chain, i, rings, exp, now))
    ensures forall x :: x in FiredFrom(chain, i, rings, exp, now) ==>
              exists j :: 0 <= j < i && chain[j].tlist in rings && x in rings[chain[j].tlist]
  {
    var front, all := rings[pending.tlist] + FiredFrom(chain, if i == 0 then 0 else i - 1, rings, exp, now),
        rings[pending.tlist] + FiredFrom(chain, i, rings, exp, now);
    if i == 0 {
      assert all == rings[pending.tlist];
    } else {
      FiredOnLists(pending, chain, i - 1, rings, exp, now);
      var h := chain[i - 1].tlist;
      var due := if h in rings then rings[h][..Expired(rings[h], exp, now)] else [];
      assert all == front + due && forall x :: x in due ==> h in rings && x in rings[h];
      NoRepeatsJoin(front, due);
    }
  }

  // One check of all lists notifies the timers that were pending or due when it began, each of them once, and
  // nobody else.
  lemma DueFiresOnce(s0: Sched, s: Sched, pending: TimerList, chain: seq<TimerList>, react: Callbacks, now: int,
                     clock: int, x: Link)
    requires AllChecked(s0, s, pending, chain, react, now) && OnceEach(s0.rings) && DistinctLists(pending, chain)
    requires InOrder(chain, s0.rings, s0.exp, clock) && pending.tlist in s0.rings
    requires forall j :: 0 <= j < |chain| ==> chain[j].timeout > 0 && chain[j].tlist in s0.rings
    ensures s0.fired <= s.fired
    ensures multiset(s.fired[|s0.fired|..])[x]
            == (if x in s0.rings[pending.tlist]
                   || exists j :: 0 <= j < |chain| && DueOn(chain, j, s0.rings, s0.exp, now, x) then 1 else 0)
  {
    hide OnceEach, Renewed, Joining, Expired, DueOn, NoRepeats, InOrder;
    var all := s0.rings[pending.tlist] + FiredFrom(chain, |chain|, s0.rings, s0.exp, now);
    FiredOnLists(pending, chain, |chain|, s0.rings, s0.exp, now);
    FiredExactly(chain, |chain|, s0.rings, s0.exp, clock, now, x);
    CountOnce(all, x);
    assert s.fired == s0.fired + all;
    assert s.fired[|s0.fired|..] == all;
  }

  // x is on the j-th list and its time has come.
  ghost predicate DueOn(chain: seq<TimerList>, j: nat, rings: map<Link, seq<Link>>, exp: Expiries, now: int, x: Link)
    requires j < |chain|
  {
    chain[j].tlist in rings && x in rings[chain[j].tlist] && x in exp && exp[x] <= now
  }

  lemma InJoined(a: seq<Link>, b: seq<Link>, x: Link)
    ensures x in a + b <==> x in a || x in b
    ensures [] + a + b == a + b && [] + b == b
  {
  }

  // With positive timeouts throughout, exactly the attached timers whose time has come fire.
  lemma {:induction false} FiredExactly(chain: seq<TimerList>, i: nat, rings: map<Link, seq<Link>>, exp: Expiries,
                                        clock: int, now: int, x: Link)
    requires i <= |chain| && InOrder(chain, rings, exp, clock)
    requires forall j :: 0 <= j < |chain| ==> chain[j].timeout > 0 && chain[j].tlist in rings
    ensures x in FiredFrom(chain, i, rings, exp, now) <==> exists j :: 0 <= j < i && DueOn(chain, j, rings, exp, now, x)
  {
    hide InOrder, Expired, FiredFrom;
    FiredNone(chain, rings, exp, now);
    if 0 < i {
      FiredExactly(chain, i - 1, rings, exp, clock, now, x);
      OneListFires(chain, i - 1, rings, exp, clock, now);
      var m := rings[chain[i - 1].tlist];
      assert x in m[..Expired(m, exp, now)] <==> DueOn(chain, i - 1, rings, exp, now, x);
      FiredStep(chain, i - 1, rings, exp, now, []);
      InJoined(FiredFrom(chain, i - 1, rings, exp, now), m[..Expired(m, exp, now)], x);
      InJoined([], FiredFrom(chain, i, rings, exp, now), x);
    }
  }

  lemma OneListFires(chain: seq<TimerList>, j: nat, rings: map<Link, seq<Link>>, exp: Expiries, clock: int, now: int)
    requires j < |chain| && InOrder(chain, rings, exp, clock) && chain[j].timeout > 0 && chain[j].tlist in rings
    ensures var m := rings[chain[j].tlist]; var k := Expired(m, exp, now);
            && (forall x :: x in m[..k] <==> x in m && x in exp && exp[x] <= now)
            && (forall x :: x in m[k..] ==> x in exp && exp[x] > now)
  {
    var m := rings[chain[j].tlist];
    var limit := clock + chain[j].timeout * TIMESTAMP_PRECISION;
    assert SortedUpTo(m, exp, limit);
    ExpiredSplits(m, exp, limit, now);
    var k := Expired(m, exp, now);
    forall x | x in m && x in exp && exp[x] <= now ensures x in m[..k] {
      var i :| 0 <= i < |m| && m[i] == x;
      assert i < k && m[..k][i] == x;
    }
    forall x | x in m[..k] ensures x in m && x in exp && exp[x] <= now {
      var i :| 0 <= i < k && m[..k][i] == x;
      assert m[i] == x;
    }
    forall x | x in m[k..] ensures x in exp && exp[x] > now {
      var i :| 0 <= i < |m| - k && m[k..][i] == x;
      assert m[k + i] == x;
    }
  }

  // What the lists fire, one after the other.
  ghost function FiredFrom(chain: seq<TimerList>, i: nat, rings: map<Link, seq<Link>>, exp: Expiries,
                           now: int): seq<Link>
    requires i <= |chain|
  {
    if i == 0 then [] else
    var h := chain[i - 1].tlist;
    FiredFrom(chain, i - 1, rings, exp, now) + if h in rings then rings[h][..Expired(rings[h], exp, now)] else []
  }

  lemma FiredStep(chain: seq<TimerList>, i: nat, rings: map<Link, seq<Link>>, exp: Expiries, now: int, front: seq<Link>)
    requires i < |chain| && chain[i].tlist in rings
    ensures FiredFrom(chain, 0, rings, exp, now) == []
    ensures var m := rings[chain[i].tlist];
            front + FiredFrom(chain, i + 1, rings, exp, now)
                == front + FiredFrom(chain, i, rings, exp, now) + m[..Expired(m, exp, now)]
  {
  }

  lemma FiredNone(chain: seq<TimerList>, rings: map<Link, seq<Link>>, exp: Expiries, now: int)
    ensures FiredFrom(chain, 0, rings, exp, now) == []
  {
  }
}

/** The lists of a timer unit as values: which timer stands on which list, when it expires, and the order that
    attaching keeps. */
module TimerLists {
  import opened TimerLinks

  const TIMESTAMP_PRECISION := 1_000_000

  class TimerList {
    const tlist: Link
    const timeout: int
    var next: TimerList?

    constructor (t: int)
      ensures timeout == t && next == null && fresh(tlist) && tlist.next == tlist && tlist.prev == tlist
    {
      tlist := new Link();
      timeout := t;
      next := null;
    }
  }

  // When each timer expires.
  type Expiries = map<Link, int>

  ghost function ExpiriesOf(timers: set<Link>): Expiries
    reads timers`objexp
  {
    map t | t in timers :: t.objexp
  }

  // Ordered by expiry, and nothing expires later than `limit`.
  ghost predicate SortedUpTo(m: seq<Link>, exp: Expiries, limit: int) {
    && (forall i :: 0 <= i < |m| ==> m[i] in exp && exp[m[i]] <= limit)
    && (forall i, j :: 0 <= i < j < |m| ==> exp[m[i]] <= exp[m[j]])
  }

  lemma {:induction false} SortedWithout(m: seq<Link>, exp: Expiries, limit: int, e: Link)
    requires SortedUpTo(m, exp, limit)
    ensures SortedUpTo(Without(m, e), exp, limit)
  {
    if m != [] {
      SortedWithout(m[1..], exp, limit, e);
      var r := Without(m[1..], e);
      forall i | 0 <= i < |r| ensures exp[m[0]] <= exp[r[i]] {
        assert r[i] in r;
        WithoutElement(m[1..], e, r[i]);
      }
    }
  }

  // How many at the front of a list have expired.
  ghost function Expired(m: seq<Link>, exp: Expiries, now: int): (k: nat)
    ensures k <= |m|
  {
    if m == [] || m[0] !in exp || exp[m[0]] > now then 0 else 1 + Expired(m[1..], exp, now)
  }

  lemma {:induction false} ExpiredSplits(m: seq<Link>, exp: Expiries, limit: int, now: int)
    requires SortedUpTo(m, exp, limit)
    ensures var k := Expired(m, exp, now);
            (forall i :: 0 <= i < k ==> exp[m[i]] <= now) && (forall i :: k <= i < |m| ==> exp[m[i]] > now)
  {
    if m != [] && exp[m[0]] <= now {
      ExpiredSplits(m[1..], exp, limit, now);
      var k := Expired(m[1..], exp, now);
      forall i | 1 + k <= i < |m| ensures exp[m[i]] > now {
        assert m[i] == m[1..][i - 1];
      }
    }
  }

  lemma LoneHead(h: Link, all: set<Link>)
    requires all == {h} && h.next == h && h.prev == h
    ensures RingsOk(ShapeOf(all), map[h := []])
  {
    var s := ShapeOf(all);
    forall l | l in s.next ensures LinkOk(s, l) {
    }
    forall i | -1 <= i < 0 ensures Step(s, h, [], i) {
    }
  }

  // ---- the lists of one unit ----

  // The timed lists, newest first, one for each timeout value.
  ghost predicate Linked(next: TimerList?, chain: seq<TimerList>)
    reads chain
  {
    && next == (if chain == [] then null else chain[0])
    && forall i :: 0 <= i < |chain| ==> LeadsOn(chain, i)
  }

  ghost predicate LeadsOn(chain: seq<TimerList>, i: nat)
    requires i < |chain|
    reads chain
  {
    chain[i].next == if i + 1 < |chain| then chain[i + 1] else null
  }

  ghost predicate DistinctLists(pending: TimerList, chain: seq<TimerList>) {
    && (forall i :: 0 <= i < |chain| ==> chain[i].tlist != pending.tlist)
    && (forall i, j :: 0 <= i < j < |chain| ==>
        chain[i].timeout != chain[j].timeout && chain[i].tlist != chain[j].tlist)
  }

  // Every list has its ring, and only timers are on the rings.
  ghost predicate ListsOk(pending: TimerList, chain: seq<TimerList>, timers: set<Link>, rings: map<Link, seq<Link>>) {
    && pending.tlist in rings && (forall i :: 0 <= i < |chain| ==> chain[i].tlist in rings)
    && timers !! rings.Keys && (forall h, x :: h in rings && x in rings[h] ==> x in timers)
  }

  // The property that no code checks: each timed list is in order of expiry.
  ghost predicate InOrder(chain: seq<TimerList>, rings: map<Link, seq<Link>>, exp: Expiries, clock: int) {
    forall i :: 0 <= i < |chain| && chain[i].timeout > 0 && chain[i].tlist in rings ==>
      SortedUpTo(rings[chain[i].tlist], exp, clock + chain[i].timeout * TIMESTAMP_PRECISION)
  }

  lemma RemovedInOrder(chain: seq<TimerList>, rings: map<Link, seq<Link>>, exp: Expiries, clock: int, t: Link)
    requires InOrder(chain, rings, exp, clock)
    ensures InOrder(chain, Removed(rings, t), exp, clock)
  {
    hide SortedUpTo;
    RemovedKeys(rings, t);
    forall i | 0 <= i < |chain| && chain[i].timeout > 0 && chain[i].tlist in rings
      ensures SortedUpTo(Removed(rings, t)[chain[i].tlist], exp, clock + chain[i].timeout * TIMESTAMP_PRECISION)
    {
      SortedWithout(rings[chain[i].tlist], exp, clock + chain[i].timeout * TIMESTAMP_PRECISION, t);
    }
  }

  // A timer that is on no list, attached for l's timeout from now on, expires after all others on l.
  lemma AttachedInOrder(chain: seq<TimerList>, rings: map<Link, seq<Link>>, exp: Expiries, clock: int, t: Link,
                        l: TimerList, now: int)
    requires InOrder(chain, rings, exp, clock) && clock <= now && l in chain && l.tlist in rings && t in exp
    requires forall h :: h in rings ==> t !in rings[h]
    requires forall i, j :: 0 <= i < j < |chain| ==> chain[i].tlist != chain[j].tlist
    ensures var e := if l.timeout > 0 then now + l.timeout * TIMESTAMP_PRECISION else exp[t];
            InOrder(chain, Appended(rings, t, l.tlist), exp[t := e], now)
  {
    var e := if l.timeout > 0 then now + l.timeout * TIMESTAMP_PRECISION else exp[t];
    forall i | 0 <= i < |chain| && chain[i].timeout > 0 && chain[i].tlist in rings
      ensures SortedUpTo(Appended(rings, t, l.tlist)[chain[i].tlist], exp[t := e],
                           now + chain[i].timeout * TIMESTAMP_PRECISION)
    {
      var h, limit := chain[i].tlist, clock + chain[i].timeout * TIMESTAMP_PRECISION;
      assert SortedUpTo(rings[h], exp, limit);
      SortedLater(rings[h], exp, limit, now + chain[i].timeout * TIMESTAMP_PRECISION, t, e);
      if h == l.tlist {
        assert chain[i] == l;
      }
    }
  }

  lemma ExpiryOf(timers: set<Link>, t: Link)
    requires t in timers
    ensures ExpiriesOf(timers).Keys == timers && ExpiriesOf(timers)[t] == t.objexp
  {
  }

  lemma SortedLater(m: seq<Link>, exp: Expiries, limit: int, later: int, t: Link, e: int)
    requires SortedUpTo(m, exp, limit) && limit <= later && t !in m
    ensures SortedUpTo(m, exp[t := e], later) && (e == later ==> SortedUpTo(m + [t], exp[t := e], later))
  {
    forall i | 0 <= i < |m| ensures m[i] != t {
      assert m[i] in m;
    }
  }

  lemma AppendedElsewhere(chain: seq<TimerList>, rings: map<Link, seq<Link>>, exp: Expiries, clock: int, t: Link,
                          head: Link)
    requires InOrder(chain, rings, exp, clock) && head in rings && forall i :: 0 <= i < |chain| ==>
               chain[i].tlist != head
    ensures InOrder(chain, Appended(rings, t, head), exp, clock)
  {
  }

  lemma MoreExpiries(chain: seq<TimerList>, rings: map<Link, seq<Link>>, timers: set<Link>, t: Link, clock: int)
    requires InOrder(chain, rings, ExpiriesOf(timers), clock)
    ensures InOrder(chain, rings, ExpiriesOf(timers + {t}), clock)
  {
    var exp, more := ExpiriesOf(timers), ExpiriesOf(timers + {t});
    forall i | 0 <= i < |chain| && chain[i].timeout > 0 && chain[i].tlist in rings
      ensures SortedUpTo(rings[chain[i].tlist], more, clock + chain[i].timeout * TIMESTAMP_PRECISION)
    {
      assert SortedUpTo(rings[chain[i].tlist], exp, clock + chain[i].timeout * TIMESTAMP_PRECISION);
    }
  }

  lemma MoreTimers(pending: TimerList, chain: seq<TimerList>, timers: set<Link>, rings: map<Link, seq<Link>>, t: Link)
    requires ListsOk(pending, chain, timers, rings) && t !in rings
    ensures ListsOk(pending, chain, timers + {t}, rings)
  {
  }

  lemma FirstOf(rings: map<Link, seq<Link>>, h: Link, all: set<Link>)
    requires RingsOk(ShapeOf(all), rings) && h in rings
    ensures h in all && (h.next == h <==> rings[h] == [])
    ensures rings[h] != [] ==>
              h.next == rings[h][0] && rings[h][0] in all && rings[h][0] !in rings && rings[h][0] in rings[h]
    ensures rings[h] != [] ==> Removed(rings, rings[h][0]) == rings[h := rings[h][1..]]
  {
    hide RingsOk, Removed;
    EmptyList(ShapeOf(all), rings, h);
    if rings[h] != [] {
      RemovedFirst(ShapeOf(all), rings, h);
    }
  }

  lemma FirstInChain(next: TimerList?, chain: seq<TimerList>)
    requires Linked(next, chain)
    ensures next == if chain == [] then null else chain[0]
  {
  }

  lemma NextInChain(next: TimerList?, chain: seq<TimerList>, i: nat)
    requires Linked(next, chain) && i < |chain|
    ensures chain[i].next == if i + 1 < |chain| then chain[i + 1] else null
  {
    assert LeadsOn(chain, i);
  }

  lemma HeadIn(l: TimerList, pending: TimerList, chain: seq<TimerList>, timers: set<Link>, rings: map<Link, seq<Link>>)
    requires ListsOk(pending, chain, timers, rings)
    ensures pending.tlist in rings && (l in chain ==> l.tlist in rings)
  {
  }

  lemma TimersOn(h: Link, pending: TimerList, chain: seq<TimerList>, timers: set<Link>, rings: map<Link, seq<Link>>)
    requires ListsOk(pending, chain, timers, rings) && h in rings
    ensures forall x :: x in rings[h] ==> x in timers
  {
  }

  lemma LinkedBefore(l: TimerList, next: TimerList?, chain: seq<TimerList>)
    requires Linked(next, chain) && l.next == next
    ensures Linked(l, [l] + chain)
  {
    var c := [l] + chain;
    forall i | 0 <= i < |c| ensures LeadsOn(c, i) {
      if 0 < i {
        assert LeadsOn(chain, i - 1);
      }
    }
  }

  lemma ListsBefore(l: TimerList, pending: TimerList, chain: seq<TimerList>, timers: set<Link>, rings: map<Link,
                    seq<Link>>)
    requires DistinctLists(pending, chain) && ListsOk(pending, chain, timers, rings)
    requires l.tlist !in rings && l.tlist !in timers && forall i :: 0 <= i < |chain| ==> chain[i].timeout != l.timeout
    ensures DistinctLists(pending, [l] + chain) && ListsOk(pending, [l] + chain, timers, rings[l.tlist := []])
  {
  }

  lemma ShapeExtended(all: set<Link>, h: Link)
    requires h !in all && h.next == h && h.prev == h
    ensures ShapeOf(all).next.Keys == all
    ensures ShapeOf(all + {h}).next == ShapeOf(all).next[h := h] && ShapeOf(all + {h}).prev == ShapeOf(all).prev[h := h]
  {
  }

  lemma EmptyInOrder(chain: seq<TimerList>, rings: map<Link, seq<Link>>, exp: Expiries, clock: int, l: TimerList)
    requires InOrder(chain, rings, exp, clock)
    ensures InOrder([l] + chain, rings[l.tlist := []], exp, clock)
  {
    var c := [l] + chain;
    forall i | 0 <= i < |c| && c[i].timeout > 0 && c[i].tlist in rings[l.tlist := []]
      ensures SortedUpTo(rings[l.tlist := []][c[i].tlist], exp, clock + c[i].timeout * TIMESTAMP_PRECISION)
    {
      if c[i].tlist != l.tlist {
        assert c[i] == chain[i - 1];
        assert SortedUpTo(rings[c[i].tlist], exp, clock + chain[i - 1].timeout * TIMESTAMP_PRECISION);
      }
    }
  }

  lemma LaterInOrder(chain: seq<TimerList>, rings: map<Link, seq<Link>>, exp: Expiries, clock: int, later: int)
    requires InOrder(chain, rings, exp, clock)
    ensures clock <= later ==> InOrder(chain, rings, exp, later)
  {
  }
}

/** The intrusive circular lists: pointers are rewritten in place, and what they mean is the sequence of
    entries that one meets going round from a head. */
module TimerLinks {
  // A list entry; as a timer it also holds its expiry.
  class Link {
    var next: Link
    var prev: Link
    var objexp: int

    // InitList
    constructor ()
      ensures next == this && prev == this && objexp == 0
    {
      next, prev, objexp := this, this, 0;
    }
  }

  // The pointers of a set of entries, as values.
  datatype Shape = Shape(next: map<Link, Link>, prev: map<Link, Link>)

  ghost function ShapeOf(all: set<Link>): Shape
    reads all`next, all`prev
  {
    Shape(map l | l in all :: l.next, map l | l in all :: l.prev)
  }

  // Both pointers stay among the entries and are inverse to one another.
  ghost predicate Closed(s: Shape) {
    s.next.Keys == s.prev.Keys && forall l {:trigger LinkOk(s, l)} :: l in s.next ==> LinkOk(s, l)
  }

  ghost predicate LinkOk(s: Shape, l: Link) {
    && l in s.next && l in s.prev && s.next[l] in s.next && s.prev[l] in s.next && s.next[l] in s.prev
    && s.prev[s.next[l]] == l && s.next[s.prev[l]] == l
  }

  // ---- the sequence behind a head ----

  function At(h: Link, m: seq<Link>, i: int): Link {
    if 0 <= i < |m| then m[i] else h
  }

  ghost predicate Distinct(h: Link, m: seq<Link>) {
    h !in m && forall i, j :: 0 <= i < j < |m| ==> m[i] != m[j]
  }

  // Going round from h one meets the entries m, in order.
  ghost predicate Ring(s: Shape, h: Link, m: seq<Link>) {
    Distinct(h, m) && forall i {:trigger Step(s, h, m, i)} :: -1 <= i < |m| ==> Step(s, h, m, i)
  }

  ghost predicate Step(s: Shape, h: Link, m: seq<Link>, i: int) {
    At(h, m, i) in s.next && s.next[At(h, m, i)] == At(h, m, i + 1)
  }

  function Without(m: seq<Link>, e: Link): seq<Link> {
    if m == [] then [] else if m[0] == e then Without(m[1..], e) else [m[0]] + Without(m[1..], e)
  }

  lemma {:induction false} WithoutAbsent(m: seq<Link>, e: Link)
    requires e !in m
    ensures Without(m, e) == m
  {
    if m != [] {
      WithoutAbsent(m[1..], e);
    }
  }

  lemma {:induction false} WithoutAt(h: Link, m: seq<Link>, i: nat)
    requires Distinct(h, m) && i < |m|
    ensures Without(m, m[i]) == m[..i] + m[i + 1..]
    decreases |m|
  {
    if i == 0 {
      assert m[0] !in m[1..];
      WithoutAbsent(m[1..], m[0]);
    } else {
      WithoutAt(h, m[1..], i - 1);
      assert m[1..][..i - 1] == m[1..i] && m[..i] == [m[0]] + m[1..i];
      assert m[1..][i..] == m[i + 1..];
    }
  }

  lemma {:induction false} WithoutElement(m: seq<Link>, e: Link, x: Link)
    ensures x in Without(m, e) <==> x in m && x != e
  {
    if m != [] {
      WithoutElement(m[1..], e, x);
      assert x in m <==> x == m[0] || x in m[1..];
    }
  }

  // ---- taking out and putting in ----

  // __list_del and the entry made a list of its own
  ghost function TakenOut(s: Shape, e: Link): Shape
    requires Closed(s) && e in s.next
  {
    var p, n := s.prev[e], s.next[e];
    Shape(s.next[p := n][e := e], s.prev[n := p][e := e])
  }

  // __list_add in front of the head
  ghost function PutLast(s: Shape, e: Link, h: Link): Shape
    requires Closed(s) && e in s.next && h in s.next
  {
    var q := s.prev[h];
    Shape(s.next[e := h][q := e], s.prev[h := e][e := q])
  }

  lemma TakenOutClosed(s: Shape, e: Link)
    requires Closed(s) && e in s.next
    ensures Closed(TakenOut(s, e)) && TakenOut(s, e).next.Keys == s.next.Keys
    ensures LinkOk(s, e) && TakenOut(s, e).next[e] == e
  {
    var t := TakenOut(s, e);
    assert LinkOk(s, e) && LinkOk(s, s.prev[e]) && LinkOk(s, s.next[e]);
    forall l | l in t.next ensures LinkOk(t, l) {
      assert LinkOk(s, l);
    }
  }

  lemma PutLastClosed(s: Shape, e: Link, h: Link)
    requires Closed(s) && e in s.next && h in s.next && e != h && s.next[e] == e
    ensures Closed(PutLast(s, e, h)) && PutLast(s, e, h).next.Keys == s.next.Keys
  {
    var t := PutLast(s, e, h);
    assert LinkOk(s, e) && LinkOk(s, h) && LinkOk(s, s.prev[h]);
    forall l | l in t.next ensures LinkOk(t, l) {
      assert LinkOk(s, l);
    }
  }

  // Every ring keeps its other entries.
  lemma RingWithout(s: Shape, h: Link, m: seq<Link>, e: Link)
    requires Closed(s) && e in s.next && Ring(s, h, m) && e != h
    ensures Ring(TakenOut(s, e), h, Without(m, e))
  {
    hide Without;
    var t := TakenOut(s, e);
    assert LinkOk(s, e);
    if e in m {
      var k :| 0 <= k < |m| && m[k] == e;
      WithoutAt(h, m, k);
      var r := m[..k] + m[k + 1..];
      assert Step(s, h, m, k - 1) && Step(s, h, m, k) && LinkOk(s, At(h, m, k - 1));
      forall i | -1 <= i < |r| ensures Step(t, h, r, i) {
        assert Step(s, h, m, if i < k then i else i + 1);
      }
    } else {
      WithoutAbsent(m, e);
      forall i | -1 <= i < |m| ensures Step(t, h, m, i) {
        assert Step(s, h, m, i) && LinkOk(s, At(h, m, i));
      }
    }
  }

  // An entry on no list becomes the last behind h; the other rings stay.
  lemma RingWithLast(s: Shape, h: Link, m: seq<Link>, e: Link, head: Link)
    requires Closed(s) && e in s.next && Ring(s, h, m) && e != h && e !in m && head in s.next && s.next[e] == e
    requires h == head || head !in m
    ensures Ring(PutLast(s, e, head), h, if h == head then m + [e] else m)
  {
    var t, r, n := PutLast(s, e, head), if h == head then m + [e] else m, |m|;
    assert LinkOk(s, head) && LinkOk(s, e);
    assert Step(s, h, m, n - 1) && LinkOk(s, At(h, m, n - 1));
    forall i | -1 <= i < |r| ensures Step(t, h, r, i) {
      if i < n {
        assert Step(s, h, m, i) && LinkOk(s, At(h, m, i));
      }
    }
  }

  // ---- all the lists at once ----

  // Each head with the entries on its list; an entry is on one list at most, heads are on none.
  ghost predicate RingsOk(s: Shape, rings: map<Link, seq<Link>>) {
    Closed(s) && (forall h :: h in rings ==> Ring(s, h, rings[h])) && Separate(rings)
  }

  ghost predicate Separate(rings: map<Link, seq<Link>>) {
    && (forall h, x :: h in rings && x in rings[h] ==> x !in rings)
    && (forall h, k, x :: h in rings && k in rings && h != k && x in rings[h] ==> x !in rings[k])
  }

  // e taken out of whatever list it is on.
  ghost function Removed(rings: map<Link, seq<Link>>, e: Link): map<Link, seq<Link>> {
    map h | h in rings :: Without(rings[h], e)
  }

  ghost function Appended(rings: map<Link, seq<Link>>, e: Link, head: Link): map<Link, seq<Link>>
    requires head in rings
  {
    rings[head := rings[head] + [e]]
  }

  lemma RemovedElement(rings: map<Link, seq<Link>>, e: Link, h: Link, x: Link)
    requires h in rings
    ensures x in Removed(rings, e)[h] <==> x in rings[h] && x != e
  {
    WithoutElement(rings[h], e, x);
  }

  lemma RemovedSeparate(rings: map<Link, seq<Link>>, e: Link)
    requires Separate(rings)
    ensures Separate(Removed(rings, e)) && forall h :: h in rings ==> e !in Removed(rings, e)[h]
  {
    hide Removed;
    RemovedKeys(rings, e);
    var r := Removed(rings, e);
    forall h | h in rings ensures e !in r[h] {
      RemovedElement(rings, e, h, e);
    }
    forall h, x | h in r && x in r[h] ensures x !in r {
      RemovedElement(rings, e, h, x);
    }
    forall h, k, x | h in r && k in r && h != k && x in r[h] ensures x !in r[k] {
      RemovedElement(rings, e, h, x);
      RemovedElement(rings, e, k, x);
    }
  }

  lemma RemovedSeparateFrom(s: Shape, rings: map<Link, seq<Link>>, e: Link)
    requires RingsOk(s, rings)
    ensures forall h :: h in rings ==> e !in Removed(rings, e)[h]
  {
    RemovedSeparate(rings, e);
  }

  lemma RemovedKeys(rings: map<Link, seq<Link>>, e: Link)
    ensures Removed(rings, e).Keys == rings.Keys
  {
  }

  lemma RemovedTwice(rings: map<Link, seq<Link>>, e: Link)
    ensures Removed(Removed(rings, e), e) == Removed(rings, e)
  {
    forall h | h in rings ensures Without(Without(rings[h], e), e) == Without(rings[h], e) {
      WithoutElement(rings[h], e, e);
      WithoutAbsent(Without(rings[h], e), e);
    }
  }

  lemma RemovedOk(s: Shape, rings: map<Link, seq<Link>>, e: Link)
    requires RingsOk(s, rings) && e in s.next && e !in rings
    ensures RingsOk(TakenOut(s, e), Removed(rings, e)) && forall h :: h in rings ==> e !in Removed(rings, e)[h]
    ensures TakenOut(s, e).next[e] == e
  {
    hide Ring, TakenOut;
    TakenOutClosed(s, e);
    RemovedSeparate(rings, e);
    forall h | h in rings ensures Ring(TakenOut(s, e), h, Removed(rings, e)[h]) {
      RingWithout(s, h, rings[h], e);
    }
  }

  lemma AppendedOk(s: Shape, rings: map<Link, seq<Link>>, e: Link, head: Link)
    requires RingsOk(s, rings) && e in s.next && e !in rings && head in rings && s.next[e] == e
    requires forall h :: h in rings ==> e !in rings[h]
    ensures head in s.next && RingsOk(PutLast(s, e, head), Appended(rings, e, head))
  {
    hide PutLast;
    assert Ring(s, head, rings[head]) && Step(s, head, rings[head], -1);
    PutLastClosed(s, e, head);
    forall h | h in rings ensures Ring(PutLast(s, e, head), h, Appended(rings, e, head)[h]) {
      RingWithLast(s, h, rings[h], e, head);
    }
  }

  lemma RemovedWithin(rings: map<Link, seq<Link>>, e: Link, timers: set<Link>)
    requires forall h, x :: h in rings && x in rings[h] ==> x in timers
    ensures Removed(rings, e).Keys == rings.Keys
    ensures forall h, x :: h in rings && x in Removed(rings, e)[h] ==> x in timers
  {
    forall h, x | h in rings && x in Removed(rings, e)[h] ensures x in timers {
      RemovedElement(rings, e, h, x);
    }
  }

  lemma AppendedWithin(rings: map<Link, seq<Link>>, e: Link, head: Link, timers: set<Link>)
    requires head in rings && e in timers && forall h, x :: h in rings && x in rings[h] ==> x in timers
    ensures Appended(rings, e, head).Keys == rings.Keys
    ensures forall h, x :: h in rings && x in Appended(rings, e, head)[h] ==> x in timers
    ensures forall h :: h in rings ==> Appended(rings, e, head)[h] == if h == head then rings[h] + [e] else rings[h]
  {
  }

  // The first entry of a list taken out: the list loses it, the others stay.
  lemma RemovedFirst(s: Shape, rings: map<Link, seq<Link>>, h: Link)
    requires RingsOk(s, rings) && h in rings && rings[h] != []
    ensures Removed(rings, rings[h][0]) == rings[h := rings[h][1..]]
    ensures h in s.next && s.next[h] == rings[h][0] && rings[h][0] in s.next && rings[h][0] !in rings
  {
    var e := rings[h][0];
    assert e in rings[h];
    assert Step(s, h, rings[h], -1) && Step(s, h, rings[h], 0);
    forall k | k in rings ensures Without(rings[k], e) == if k == h then rings[h][1..] else rings[k] {
      if k == h {
        WithoutAt(h, rings[h], 0);
      } else {
        WithoutAbsent(rings[k], e);
      }
    }
  }

  lemma EmptyList(s: Shape, rings: map<Link, seq<Link>>, h: Link)
    requires RingsOk(s, rings) && h in rings
    ensures h in s.next && (s.next[h] == h <==> rings[h] == [])
  {
    assert Ring(s, h, rings[h]) && Step(s, h, rings[h], -1);
    if rings[h] != [] {
      assert rings[h][0] in rings[h];
    }
  }

  // A new entry that is a list of its own.
  lemma ExtendedOk(s: Shape, t: Shape, rings: map<Link, seq<Link>>, e: Link)
    requires RingsOk(s, rings) && e !in s.next && t.next == s.next[e := e] && t.prev == s.prev[e := e]
    ensures RingsOk(t, rings) && e !in rings
    ensures RingsOk(t, rings[e := []])
  {
    hide Ring, Separate;
    ExtendedClosed(s, t, e);
    forall h | h in rings ensures Ring(t, h, rings[h]) && h in s.next {
      RingExtended(s, t, h, rings[h], e);
    }
    NotOnRings(s, rings, e);
    LoneRing(t, e);
    SeparateFrom(rings, e);
  }

  lemma ExtendedClosed(s: Shape, t: Shape, e: Link)
    requires Closed(s) && e !in s.next && t.next == s.next[e := e] && t.prev == s.prev[e := e]
    ensures Closed(t)
  {
    forall l | l in t.next ensures LinkOk(t, l) {
      assert l != e ==> LinkOk(s, l);
    }
  }

  lemma SeparateFrom(rings: map<Link, seq<Link>>, e: Link)
    requires Separate(rings) && e !in rings && forall h :: h in rings ==> e !in rings[h]
    ensures Separate(rings[e := []])
  {
  }

  lemma RingExtended(s: Shape, t: Shape, h: Link, m: seq<Link>, e: Link)
    requires Ring(s, h, m) && e !in s.next && t.next == s.next[e := e]
    ensures Ring(t, h, m) && h in s.next
  {
    assert Step(s, h, m, -1);
    forall i | -1 <= i < |m| ensures Step(t, h, m, i) {
      assert Step(s, h, m, i);
    }
  }

  lemma LoneRing(t: Shape, e: Link)
    requires e in t.next && t.next[e] == e
    ensures Ring(t, e, [])
  {
    assert Step(t, e, [], -1);
  }

  lemma NotOnRings(s: Shape, rings: map<Link, seq<Link>>, e: Link)
    requires RingsOk(s, rings) && e !in s.next
    ensures forall h :: h in rings ==> e !in rings[h]
  {
    forall h, i | h in rings && 0 <= i < |rings[h]| ensures rings[h][i] != e {
      assert Ring(s, h, rings[h]) && Step(s, h, rings[h], i);
    }
  }

  // ---- list.h ----

  // __list_del
  method ListDel(prev: Link, next: Link)
    modifies prev`next, next`prev
    ensures prev.next == next && next.prev == prev
  {
    next.prev := prev;
    prev.next := next;
  }

  // __list_add
  method ListAdd(p: Link, prev: Link, next: Link)
    requires p != prev && p != next
    modifies p`next, p`prev, prev`next, next`prev
    ensures next.prev == p && p.next == next && p.prev == prev && prev.next == p
  {
    next.prev := p;
    p.next := next;
    p.prev := prev;
    prev.next := p;
  }

  // list_del_init
  method ListDelInit(e: Link, ghost all: set<Link>)
    requires e in all && Closed(ShapeOf(all))
    modifies e`next, e`prev, e.prev`next, e.next`prev
    ensures ShapeOf(all) == TakenOut(old(ShapeOf(all)), e)
  {
    ghost var s := ShapeOf(all);
    assert LinkOk(s, e);
    ListDel(e.prev, e.next);
    e.next := e;
    e.prev := e;
    assert ShapeOf(all).next == TakenOut(s, e).next;
    assert ShapeOf(all).prev == TakenOut(s, e).prev;
  }

  // list_move_tail; the entry's own pointers are not reset in between.
  method ListMoveTail(e: Link, head: Link, ghost all: set<Link>)
    requires e in all && head in all && e != head && Closed(ShapeOf(all))
    modifies all`next, all`prev
    ensures Closed(TakenOut(old(ShapeOf(all)), e))
    ensures ShapeOf(all) == PutLast(TakenOut(old(ShapeOf(all)), e), e, head)
  {
    hide Closed, LinkOk, ShapeOf, TakenOut, PutLast, Unlinked;
    ghost var s := ShapeOf(all);
    InShape(all);
    BeforeHead(s, e, head);
    ListUnlink(e, all);
    UnlinkThenAdd(s, e, head);
    InShape(all);
    ghost var u, q := ShapeOf(all), head.prev;
    ListAddTail(e, head, all);
    InShape(all);
    AddedIs(u, ShapeOf(all), e, head, q);
  }

  lemma AddedIs(u: Shape, w: Shape, e: Link, head: Link, q: Link)
    requires u.next.Keys == u.prev.Keys == w.next.Keys == w.prev.Keys && e in u.next && head in u.next && q in u.next
    requires forall l :: l in u.next ==> w.next[l] == if l == q then e else if l == e then head else u.next[l]
    requires forall l :: l in u.next ==> w.prev[l] == if l == e then q else if l == head then e else u.prev[l]
    ensures w == Shape(u.next[e := head][q := e], u.prev[head := e][e := q])
  {
    assert w.next == u.next[e := head][q := e];
    assert w.prev == u.prev[head := e][e := q];
  }

  // __list_del, as it leaves the pointers of the entry itself.
  ghost function Unlinked(s: Shape, e: Link): Shape
    requires Closed(s) && e in s.next
  {
    var p, n := s.prev[e], s.next[e];
    Shape(s.next[p := n], s.prev[n := p])
  }

  lemma InShape(all: set<Link>)
    ensures ShapeOf(all).next.Keys == all == ShapeOf(all).prev.Keys
    ensures forall l :: l in all ==> ShapeOf(all).next[l] == l.next && ShapeOf(all).prev[l] == l.prev
  {
  }

  method ListUnlink(e: Link, ghost all: set<Link>)
    requires e in all && Closed(ShapeOf(all))
    modifies all`next, all`prev
    ensures ShapeOf(all) == Unlinked(old(ShapeOf(all)), e)
  {
    assert LinkOk(ShapeOf(all), e);
    ListDel(e.prev, e.next);
  }

  // list_add_tail
  method ListAddTail(e: Link, head: Link, ghost all: set<Link>)
    requires e in all && head in all && head.prev in all && e != head && e != head.prev
    modifies all`next, all`prev
    ensures forall l :: l in all ==> l.next == if l == old(head.prev) then e else if l == e then head else old(l.next)
    ensures forall l :: l in all ==> l.prev == if l == e then old(head.prev) else if l == head then e else old(l.prev)
  {
    ListAdd(e, head.prev, head);
  }

  lemma UnlinkThenAdd(s: Shape, e: Link, head: Link)
    requires Closed(s) && e in s.next && head in s.next && e != head && Closed(TakenOut(s, e))
    ensures var u := Unlinked(s, e); var t := TakenOut(s, e);
            && head in u.prev && head in t.prev && u.prev[head] == t.prev[head]
            && Shape(u.next[e := head][u.prev[head] := e], u.prev[head := e][e := u.prev[head]]) == PutLast(t, e, head)
  {
    assert LinkOk(s, e) && LinkOk(s, head);
  }

  lemma BeforeHead(s: Shape, e: Link, head: Link)
    requires Closed(s) && e in s.next && head in s.next && e != head
    ensures LinkOk(s, e) && LinkOk(s, head) && Closed(TakenOut(s, e)) && head in TakenOut(s, e).prev
    ensures TakenOut(s, e).prev[head] == (if s.next[e] == head then s.prev[e] else s.prev[head]) != e
    ensures TakenOut(s, e).prev[head] in s.next
  {
    TakenOutClosed(s, e);
    var t := TakenOut(s, e);
    assert LinkOk(s, e) && LinkOk(s, head) && LinkOk(t, head) && LinkOk(t, e);
  }

  // The same two, by what they do to the lists.
  method TakeOff(e: Link, ghost all: set<Link>, ghost rings: map<Link, seq<Link>>)
    requires e in all && e !in rings && RingsOk(ShapeOf(all), rings)
    modifies all`next, all`prev
    ensures RingsOk(ShapeOf(all), Removed(rings, e))
  {
    hide Ring, Removed, TakenOut;
    ghost var s := ShapeOf(all);
    assert LinkOk(s, e);
    RemovedOk(s, rings, e);
    ListDelInit(e, all);
  }

  method MoveToTail(e: Link, head: Link, ghost all: set<Link>, ghost rings: map<Link, seq<Link>>)
    requires e in all && e !in rings && head in all && head in rings && RingsOk(ShapeOf(all), rings)
    modifies all`next, all`prev
    ensures RingsOk(ShapeOf(all), Appended(Removed(rings, e), e, head))
  {
    hide Ring, Removed, TakenOut, PutLast, Separate;
    ghost var s := ShapeOf(all);
    TakenOutClosed(s, e);
    RemovedOk(s, rings, e);
    RemovedKeys(rings, e);
    AppendedOk(TakenOut(s, e), Removed(rings, e), e, head);
    ListMoveTail(e, head, all);
  }
}

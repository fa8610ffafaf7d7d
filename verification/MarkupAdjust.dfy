/** The order in which x_Adjust visits the position array, and what the visits do to an indexed tree. */
module MarkupAdjust {
  import opened MarkupTree
  import opened MarkupIndex

  // One visit: all four offsets of an element move, or only those of its end tag.
  datatype Item = Whole(id: nat) | EndOnly(id: nat)

  function Visit(a: seq<ElemPos>, it: Item, n: int): (b: seq<ElemPos>)
    ensures |b| == |a| && forall i :: 0 <= i < |a| && i != it.id ==> b[i] == a[i]
  {
    if it.id < |a| then
      a[it.id := if it.Whole? then a[it.id].AdjustStart(n).AdjustEnd(n) else a[it.id].AdjustEnd(n)]
    else a
  }

  function VisitAll(a: seq<ElemPos>, plan: seq<Item>, n: int): (b: seq<ElemPos>)
    ensures |b| == |a|
    decreases |plan|
  {
    if plan == [] then a else VisitAll(Visit(a, plan[0], n), plan[1..], n)
  }

  // Every element of f, parents first.
  function Walk(f: Forest): seq<Item> {
    match f
    case Nil => []
    case Chunk(_, next) => Walk(next)
    case Node(id, _, _, _, _, kids, _, next) => [Whole(id)] + (Walk(kids) + Walk(next))
  }

  // What is left to visit when everything in the innermost `inner` of the open elements fs is done but
  // for the siblings behind them: those siblings; then, from the next open element on, its end tag and
  // the siblings behind it, outwards to pseudo-element 0.
  function RestPlan(fs: seq<Forest>, inner: nat): seq<Item>
    requires forall i :: 0 <= i < |fs| ==> fs[i].Node?
  {
    if fs == [] then [EndOnly(0)]
    else if inner > 0 then Walk(fs[0].next) + RestPlan(fs[1..], inner - 1)
    else [EndOnly(fs[0].id)] + (Walk(fs[0].next) + RestPlan(fs[1..], 0))
  }

  // The elements around a place, innermost first.
  function Frames(c: Ctx): (fs: seq<Forest>)
    requires CtxOk(c)
    ensures forall i :: 0 <= i < |fs| ==> fs[i].Node?
  {
    match c
    case Top => []
    case InKids(n, up) => [n] + Frames(up)
    case InNext(_, up) => Frames(up)
  }

  // The visits that x_Adjust makes for the element n at c.
  function Plan(n: Forest, c: Ctx, after: bool): seq<Item>
    requires n.Node? && CtxOk(c)
  {
    (if after then [] else Walk(n.kids)) + Walk(n.next) + RestPlan(Frames(c), 0)
  }

  // ---- visits one after the other ----

  lemma {:induction false} VisitAppend(a: seq<ElemPos>, p: seq<Item>, q: seq<Item>, n: int)
    ensures VisitAll(a, p + q, n) == VisitAll(VisitAll(a, p, n), q, n)
    decreases |p|
  {
    if p == [] {
      assert p + q == q;
    } else {
      assert (p + q)[1..] == p[1..] + q;
      VisitAppend(Visit(a, p[0], n), p[1..], q, n);
    }
  }

  function Visited(p: seq<Item>): set<nat> {
    set i | 0 <= i < |p| :: p[i].id
  }

  lemma {:induction false} VisitFrame(a: seq<ElemPos>, p: seq<Item>, n: int, i: nat)
    requires i < |a| && i !in Visited(p)
    ensures VisitAll(a, p, n)[i] == a[i]
    decreases |p|
  {
    if p != [] {
      assert p[0].id in Visited(p);
      forall j | j in Visited(p[1..]) ensures j in Visited(p) {
        var k :| 0 <= k < |p[1..]| && p[1..][k].id == j;
        assert p[k + 1].id == j;
      }
      VisitFrame(Visit(a, p[0], n), p[1..], n, i);
    }
  }

  lemma VisitedAppend(p: seq<Item>, q: seq<Item>)
    ensures Visited(p + q) == Visited(p) + Visited(q)
  {
    forall j | j in Visited(q) ensures j in Visited(p + q) {
      var k :| 0 <= k < |q| && q[k].id == j;
      assert (p + q)[|p| + k].id == j;
    }
    forall j | j in Visited(p) ensures j in Visited(p + q) {
      var k :| 0 <= k < |p| && p[k].id == j;
      assert (p + q)[k].id == j;
    }
  }

  lemma {:induction false} WalkVisits(f: Forest)
    ensures Visited(Walk(f)) == Ids(f)
  {
    match f
    case Nil =>
    case Chunk(_, next) => WalkVisits(next);
    case Node(id, _, _, _, _, kids, _, next) =>
      WalkVisits(kids);
      WalkVisits(next);
      VisitedAppend(Walk(kids), Walk(next));
      VisitedAppend([Whole(id)], Walk(kids) + Walk(next));
      assert Visited([Whole(id)]) == {id} by { assert [Whole(id)][0].id in Visited([Whole(id)]); }
  }

  lemma {:induction false} RestVisits(c: Ctx)
    requires CtxOk(c)
    ensures Visited(RestPlan(Frames(c), 0)) <= CtxIds(c) + {0}
  {
    match c
    case Top =>
    case InNext(_, up) => RestVisits(up);
    case InKids(n, up) =>
      RestVisits(up);
      WalkVisits(n.next);
      var r := RestPlan(Frames(up), 0);
      VisitedAppend(Walk(n.next), r);
      VisitedAppend([EndOnly(n.id)], Walk(n.next) + r);
      assert Frames(c)[1..] == Frames(up);
  }

  // ---- their effect on what is indexed ----

  lemma {:induction false} PlacedFrame(a: seq<ElemPos>, b: seq<ElemPos>, f: Forest, base: int, parent: nat)
    requires Placed(a, f, base, parent) && |a| <= |b|
    requires forall i :: i in Ids(f) && i < |a| ==> b[i] == a[i]
    ensures Placed(b, f, base, parent)
  {
    hide Render, Pos;
    match f
    case Nil =>
    case Chunk(text, next) => PlacedFrame(a, b, next, base + |text|, parent);
    case Node(id, _, _, _, _, kids, _, next) =>
      PlacedFrame(a, b, kids, StartR(f, base) + 1, id);
      PlacedFrame(a, b, next, EndR(f, base, |Render(kids)|) + 1, parent);
  }

  // Walking over f moves all of it.
  lemma {:induction false} WalkShifts(a: seq<ElemPos>, f: Forest, base: int, parent: nat, n: int)
    requires Placed(a, f, base, parent) && Distinct(f)
    ensures Placed(VisitAll(a, Walk(f), n), f, base + n, parent)
    decreases f
  {
    hide TagBody, Render, VisitAll, Walk, FirstId, Placed;
    match f
    case Nil => PlacedNothing(VisitAll(a, Walk(f), n), base + n, parent);
    case Chunk(text, next) =>
      PlacedChunk(a, f, base, parent);
      WalkShifts(a, next, base + |text|, parent, n);
      WalkOfChunk(f);
      PlacedChunk(VisitAll(a, Walk(f), n), f, base + n, parent);
    case Node(id, _, _, _, _, kids, _, next) =>
      var len := |Render(kids)|;
      PlacedNode(a, f, base, parent);
      var a1 := Visit(a, Whole(id), n);
      var a2 := VisitAll(a1, Walk(kids), n);
      var a3 := VisitAll(a2, Walk(next), n);
      WalkSplit(a, f, n);
      WalkVisits(kids);
      WalkVisits(next);
      assert a1[id] == Pos(f, base + n, len, parent, FirstId(kids), FirstId(next));
      VisitFrame(a1, Walk(kids), n, id);
      VisitFrame(a2, Walk(next), n, id);
      PlacedFrame(a, a1, kids, StartR(f, base) + 1, id);
      WalkShifts(a1, kids, StartR(f, base) + 1, id, n);
      VisitKeepsOther(a2, next, kids, StartR(f, base) + 1 + n, id, n);
      PlacedFrame(a, a1, next, EndR(f, base, len) + 1, parent);
      VisitKeepsOther(a1, kids, next, EndR(f, base, len) + 1, parent, n);
      WalkShifts(a2, next, EndR(f, base, len) + 1, parent, n);
      PlacedNode(a3, f, base + n, parent);
  }

  lemma PlacedNothing(a: seq<ElemPos>, base: int, parent: nat)
    ensures Placed(a, Nil, base, parent)
  {
  }

  lemma PlacedChunk(a: seq<ElemPos>, f: Forest, base: int, parent: nat)
    requires f.Chunk?
    ensures Placed(a, f, base, parent) <==> Placed(a, f.next, base + |f.text|, parent)
  {
  }

  lemma PlacedNode(a: seq<ElemPos>, f: Forest, base: int, parent: nat)
    requires f.Node?
    ensures var len := |Render(f.kids)|;
            Placed(a, f, base, parent) <==>
              && 0 < f.id < |a| && a[f.id] == Pos(f, base, len, parent, FirstId(f.kids), FirstId(f.next))
              && Placed(a, f.kids, StartR(f, base) + 1, f.id) && Placed(a, f.next, EndR(f, base, len) + 1, parent)
  {
    hide Render, Pos, StartR, EndR;
  }

  lemma WalkOfChunk(f: Forest)
    requires f.Chunk?
    ensures Walk(f) == Walk(f.next)
  {
  }

  lemma WalkSplit(a: seq<ElemPos>, f: Forest, n: int)
    requires f.Node?
    ensures VisitAll(a, Walk(f), n)
         == VisitAll(VisitAll(Visit(a, Whole(f.id), n), Walk(f.kids), n), Walk(f.next), n)
  {
    assert Walk(f)[1..] == Walk(f.kids) + Walk(f.next);
    VisitAppend(Visit(a, Whole(f.id), n), Walk(f.kids), Walk(f.next), n);
  }

  // Walking over f leaves g alone.
  lemma VisitKeepsOther(a: seq<ElemPos>, f: Forest, g: Forest, base: int, parent: nat, n: int)
    requires Placed(a, g, base, parent) && Ids(f) !! Ids(g)
    ensures Placed(VisitAll(a, Walk(f), n), g, base, parent)
  {
    WalkVisits(f);
    var b := VisitAll(a, Walk(f), n);
    forall i | i in Ids(g) && i < |a| ensures b[i] == a[i] {
      VisitFrame(a, Walk(f), n, i);
    }
    PlacedFrame(a, b, g, base, parent);
  }

  lemma {:induction false} CtxPlacedFrame(a: seq<ElemPos>, b: seq<ElemPos>, c: Ctx, first: nat, len: int)
    requires CtxOk(c) && CtxPlaced(a, c, first, len) && 0 < |a| <= |b|
    requires forall i :: i in CtxIds(c) && i < |a| ==> b[i] == a[i]
    requires b[0].child == a[0].child
    ensures CtxPlaced(b, c, first, len)
    decreases c
  {
    hide Placed, Pos, Render, Pre, EndR, StartR;
    match c
    case Top =>
    case InKids(n, up) =>
      PlacedFrame(a, b, n.next, EndR(n, |Pre(up)|, len) + 1, ParentOf(up));
      CtxPlacedFrame(a, b, up, n.id, EndR(n, 0, len) + 1 + |Render(n.next)|);
    case InNext(n, up) =>
      if n.Chunk? {
        CtxPlacedFrame(a, b, up, first, |n.text| + len);
      } else {
        PlacedFrame(a, b, n.kids, StartR(n, |Pre(up)|) + 1, n.id);
        CtxPlacedFrame(a, b, up, n.id, |Core(n)| + len);
      }
  }

  lemma {:induction false} PlacedIds(a: seq<ElemPos>, f: Forest, base: int, parent: nat)
    requires Placed(a, f, base, parent)
    ensures forall i :: i in Ids(f) ==> 0 < i < |a|
  {
    hide Pos, Render;
    match f
    case Nil =>
    case Chunk(text, next) => PlacedIds(a, next, base + |text|, parent);
    case Node(id, _, _, _, _, kids, _, next) =>
      PlacedIds(a, kids, StartR(f, base) + 1, id);
      PlacedIds(a, next, EndR(f, base, |Render(kids)|) + 1, parent);
  }

  // Visiting what lies around c leaves g alone.
  lemma RestKeepsOther(a: seq<ElemPos>, c: Ctx, g: Forest, base: int, parent: nat, n: int)
    requires CtxOk(c) && Placed(a, g, base, parent) && CtxIds(c) !! Ids(g)
    ensures Placed(VisitAll(a, RestPlan(Frames(c), 0), n), g, base, parent)
  {
    hide Placed, CtxIds, Ids;
    RestVisits(c);
    PlacedIds(a, g, base, parent);
    var b := VisitAll(a, RestPlan(Frames(c), 0), n);
    forall i | i in Ids(g) && i < |a| ensures b[i] == a[i] {
      VisitFrame(a, RestPlan(Frames(c), 0), n, i);
    }
    PlacedFrame(a, b, g, base, parent);
  }

  lemma {:induction false} VisitKeepsLinks(a: seq<ElemPos>, p: seq<Item>, n: int)
    ensures SameLinks(a, VisitAll(a, p, n))
    decreases |p|
  {
    if p != [] {
      VisitKeepsLinks(Visit(a, p[0], n), p[1..], n);
    }
  }

  ghost predicate SameLinks(a: seq<ElemPos>, b: seq<ElemPos>) {
    |a| == |b| && forall i :: 0 <= i < |a| ==>
        a[i].parent == b[i].parent && a[i].child == b[i].child && a[i].next == b[i].next
  }

  // When the text at c grows by n, these visits bring the surroundings up to date.
  lemma {:induction false} RestShifts(a: seq<ElemPos>, c: Ctx, first: nat, len: int, n: int)
    requires CtxOk(c) && CtxPlaced(a, c, first, len) && CtxDistinct(c)
    ensures CtxPlaced(VisitAll(a, RestPlan(Frames(c), 0), n), c, first, len + n)
    decreases c
  {
    hide Placed, Render, Pre, Walk, VisitAll, Ids, TagBody;
    var b := VisitAll(a, RestPlan(Frames(c), 0), n);
    CtxPlacedIds(a, c, first, len);
    VisitKeepsLinks(a, RestPlan(Frames(c), 0), n);
    match c
    case Top =>
    case InNext(m, up) =>
      RestShifts(a, up, if m.Chunk? then first else m.id, (if m.Chunk? then |m.text| else |Core(m)|) + len, n);
      if m.Node? {
        RestKeepsOther(a, up, m.kids, StartR(m, |Pre(up)|) + 1, m.id, n);
        RestVisits(up);
        VisitFrame(a, RestPlan(Frames(up), 0), n, m.id);
      }
    case InKids(m, up) =>
      var base := |Pre(up)|;
      var outer := EndR(m, 0, len) + 1 + |Render(m.next)|;
      var a1 := Visit(a, EndOnly(m.id), n);
      var a2 := VisitAll(a1, Walk(m.next), n);
      assert b == VisitAll(a2, RestPlan(Frames(up), 0), n) by {
        FramesSplit(a, m, up, n);
      }
      WalkVisits(m.next);
      RestVisits(up);
      assert a1[m.id] == Pos(m, base, len + n, ParentOf(up), first, FirstId(m.next));
      VisitFrame(a1, Walk(m.next), n, m.id);
      VisitFrame(a2, RestPlan(Frames(up), 0), n, m.id);
      PlacedFrame(a, a1, m.next, EndR(m, base, len) + 1, ParentOf(up));
      WalkShifts(a1, m.next, EndR(m, base, len) + 1, ParentOf(up), n);
      RestKeepsOther(a2, up, m.next, EndR(m, base, len) + 1 + n, ParentOf(up), n);
      forall i | i in CtxIds(up) && i < |a| ensures a2[i] == a[i] {
        VisitFrame(a1, Walk(m.next), n, i);
      }
      VisitKeepsLinks(a1, Walk(m.next), n);
      CtxPlacedFrame(a, a2, up, m.id, outer);
      RestShifts(a2, up, m.id, outer, n);
      assert EndR(m, 0, len + n) + 1 + |Render(m.next)| == outer + n;
  }

  lemma FramesSplit(a: seq<ElemPos>, m: Forest, up: Ctx, n: int)
    requires CtxOk(InKids(m, up))
    ensures VisitAll(a, RestPlan(Frames(InKids(m, up)), 0), n)
         == VisitAll(VisitAll(Visit(a, EndOnly(m.id), n), Walk(m.next), n), RestPlan(Frames(up), 0), n)
  {
    var r := RestPlan(Frames(up), 0);
    assert Frames(InKids(m, up))[1..] == Frames(up);
    assert RestPlan(Frames(InKids(m, up)), 0)[1..] == Walk(m.next) + r;
    VisitAppend(Visit(a, EndOnly(m.id), n), Walk(m.next), r, n);
  }

  // ---- the links that the traversal follows ----

  ghost predicate Linked(a: seq<ElemPos>, f: Forest, parent: nat) {
    match f
    case Nil => true
    case Chunk(_, next) => Linked(a, next, parent)
    case Node(id, _, _, _, _, kids, _, next) =>
      && 0 < id < |a| && a[id].parent == parent && a[id].child == FirstId(kids) && a[id].next == FirstId(next)
      && Linked(a, kids, id) && Linked(a, next, parent)
  }

  function FrameId(fs: seq<Forest>): nat
    requires forall i :: 0 <= i < |fs| ==> fs[i].Node?
  {
    if fs == [] then 0 else fs[0].id
  }

  // The links of the open elements; their child links are not followed.
  ghost predicate FramesLinked(a: seq<ElemPos>, fs: seq<Forest>)
    requires forall i :: 0 <= i < |fs| ==> fs[i].Node?
  {
    0 < |a| && (fs != [] ==>
      && 0 < fs[0].id < |a| && a[fs[0].id].parent == FrameId(fs[1..]) && a[fs[0].id].next == FirstId(fs[0].next)
      && Linked(a, fs[0].next, FrameId(fs[1..])) && FramesLinked(a, fs[1..]))
  }

  function FrameIds(fs: seq<Forest>): set<nat>
    requires forall i :: 0 <= i < |fs| ==> fs[i].Node?
  {
    if fs == [] then {} else {fs[0].id} + Ids(fs[0].next) + FrameIds(fs[1..])
  }

  ghost predicate FramesDistinct(fs: seq<Forest>)
    requires forall i :: 0 <= i < |fs| ==> fs[i].Node?
  {
    fs != [] ==>
      && fs[0].id !in Ids(fs[0].next) && fs[0].id !in FrameIds(fs[1..]) && Ids(fs[0].next) !! FrameIds(fs[1..])
      && Distinct(fs[0].next) && FramesDistinct(fs[1..])
  }

  lemma {:induction false} CtxFrames(c: Ctx)
    requires CtxOk(c)
    ensures FrameId(Frames(c)) == ParentOf(c) && FrameIds(Frames(c)) <= CtxIds(c)
    ensures CtxDistinct(c) ==> FramesDistinct(Frames(c))
    decreases c
  {
    match c
    case Top =>
    case InKids(n, up) =>
      CtxFrames(up);
      assert Frames(c)[1..] == Frames(up);
    case InNext(_, up) => CtxFrames(up);
  }

  lemma {:induction false} PlacedLinked(a: seq<ElemPos>, f: Forest, base: int, parent: nat)
    requires Placed(a, f, base, parent)
    ensures Linked(a, f, parent)
  {
    hide Render, StartR, EndR, EndL;
    match f
    case Nil =>
    case Chunk(text, next) => PlacedLinked(a, next, base + |text|, parent);
    case Node(id, _, _, _, _, kids, _, next) =>
      PlacedLinked(a, kids, StartR(f, base) + 1, id);
      PlacedLinked(a, next, EndR(f, base, |Render(kids)|) + 1, parent);
  }

  lemma {:induction false} CtxPlacedLinked(a: seq<ElemPos>, c: Ctx, first: nat, len: int)
    requires CtxOk(c) && CtxPlaced(a, c, first, len)
    ensures FramesLinked(a, Frames(c))
    decreases c
  {
    hide Placed, Render, StartR, EndR, EndL, Pre, Linked;
    CtxFrames(c);
    match c
    case Top =>
    case InKids(n, up) =>
      CtxPlacedLinked(a, up, n.id, EndR(n, 0, len) + 1 + |Render(n.next)|);
      PlacedLinked(a, n.next, EndR(n, |Pre(up)|, len) + 1, ParentOf(up));
      CtxFrames(up);
      assert Frames(c)[1..] == Frames(up);
    case InNext(n, up) =>
      CtxPlacedLinked(a, up, if n.Chunk? then first else n.id, (if n.Chunk? then |n.text| else |Core(n)|) + len);
  }

  lemma {:induction false} LinkedFrame(a: seq<ElemPos>, b: seq<ElemPos>, f: Forest, parent: nat)
    requires Linked(a, f, parent) && SameLinks(a, b)
    ensures Linked(b, f, parent)
  {
    match f
    case Nil =>
    case Chunk(_, next) => LinkedFrame(a, b, next, parent);
    case Node(id, _, _, _, _, kids, _, next) =>
      LinkedFrame(a, b, kids, id);
      LinkedFrame(a, b, next, parent);
  }

  lemma {:induction false} FramesLinkedFrame(a: seq<ElemPos>, b: seq<ElemPos>, fs: seq<Forest>)
    requires forall i :: 0 <= i < |fs| ==> fs[i].Node?
    requires FramesLinked(a, fs) && SameLinks(a, b)
    ensures FramesLinked(b, fs)
    decreases |fs|
  {
    if fs != [] {
      LinkedFrame(a, b, fs[0].next, FrameId(fs[1..]));
      FramesLinkedFrame(a, b, fs[1..]);
    }
  }

  // ---- one step of the traversal ----

  // The first element of a list, past the text before it.
  function FirstNode(f: Forest): Forest {
    if f.Chunk? then FirstNode(f.next) else f
  }

  lemma {:induction false} FirstNodeSame(a: seq<ElemPos>, f: Forest, parent: nat)
    ensures var g := FirstNode(f);
            && !g.Chunk? && Walk(g) == Walk(f) && Ids(g) == Ids(f) && FirstId(g) == FirstId(f)
            && (Distinct(f) ==> Distinct(g)) && (Linked(a, f, parent) ==> Linked(a, g, parent))
  {
    if f.Chunk? {
      FirstNodeSame(a, f.next, parent);
    }
  }

  // Where the traversal stands: at element cur, whose siblings' parent is fs[0]; the innermost `inner`
  // elements of fs have been visited; `skip` when the contents of cur are not to be visited.
  datatype Stand = Stand(cur: Forest, skip: bool, fs: seq<Forest>, inner: nat)

  ghost predicate StandOk(a: seq<ElemPos>, s: Stand): (ok: bool)
    ensures ok ==> s.cur.Node? && forall i :: 0 <= i < |s.fs| ==> s.fs[i].Node?
  {
    && s.cur.Node? && (forall i :: 0 <= i < |s.fs| ==> s.fs[i].Node?) && s.inner <= |s.fs|
    && FramesLinked(a, s.fs) && FramesDistinct(s.fs)
    && if s.skip then StandSkip(a, s.cur, s.fs)
       else Linked(a, s.cur, FrameId(s.fs)) && Distinct(s.cur) && Ids(s.cur) !! FrameIds(s.fs)
  }

  ghost predicate StandSkip(a: seq<ElemPos>, cur: Forest, fs: seq<Forest>)
    requires cur.Node? && forall i :: 0 <= i < |fs| ==> fs[i].Node?
  {
    && 0 < cur.id < |a| && a[cur.id].parent == FrameId(fs) && a[cur.id].next == FirstId(cur.next)
    && Linked(a, cur.next, FrameId(fs)) && Distinct(cur.next)
    && cur.id !in Ids(cur.next) && cur.id !in FrameIds(fs) && Ids(cur.next) !! FrameIds(fs)
  }

  function Left(s: Stand): seq<Item>
    requires s.cur.Node? && forall i :: 0 <= i < |s.fs| ==> s.fs[i].Node?
  {
    (if s.skip then [] else Walk(s.cur.kids)) + (Walk(s.cur.next) + RestPlan(s.fs, s.inner))
  }

  function TopId(fs: seq<Forest>, inner: nat): nat
    requires forall i :: 0 <= i < |fs| ==> fs[i].Node?
  {
    if inner < |fs| then fs[inner].id else 0
  }

  lemma StepIntoKids(a: seq<ElemPos>, s: Stand) returns (t: Stand)
    requires StandOk(a, s) && !s.skip && FirstId(s.cur.kids) != 0
    ensures StandOk(a, t) && !t.skip && t.cur.id == FirstId(s.cur.kids) && TopId(t.fs, t.inner) == TopId(s.fs, s.inner)
    ensures Left(s) == [Whole(t.cur.id)] + Left(t)
  {
    var f := FirstNode(s.cur.kids);
    FirstNodeSame(a, s.cur.kids, s.cur.id);
    t := Stand(f, false, [s.cur] + s.fs, s.inner + 1);
    assert t.fs[1..] == s.fs;
    assert RestPlan(t.fs, t.inner) == Walk(s.cur.next) + RestPlan(s.fs, s.inner);
    Unfold(f, RestPlan(t.fs, t.inner));
  }

  lemma Unfold(f: Forest, rest: seq<Item>)
    requires f.Node?
    ensures Walk(f) + rest == [Whole(f.id)] + (Walk(f.kids) + (Walk(f.next) + rest))
  {
  }

  lemma StepToNext(a: seq<ElemPos>, s: Stand) returns (t: Stand)
    requires StandOk(a, s) && FirstId(s.cur.next) != 0 && (s.skip || FirstId(s.cur.kids) == 0)
    ensures StandOk(a, t) && !t.skip && t.cur.id == FirstId(s.cur.next) && t.fs == s.fs && t.inner == s.inner
    ensures Left(s) == [Whole(t.cur.id)] + Left(t)
  {
    hide RestPlan, FramesLinked, FramesDistinct, FrameIds;
    FirstNodeSame(a, s.cur.next, FrameId(s.fs));
    var f := FirstNode(s.cur.next);
    t := Stand(f, false, s.fs, s.inner);
    Unfold(f, RestPlan(s.fs, s.inner));
    if !s.skip {
      LinkedIds(a, s.cur.kids, s.cur.id);
    }
  }

  lemma StandFacts(a: seq<ElemPos>, s: Stand)
    requires StandOk(a, s)
    ensures var id := s.cur.id;
            && 0 < id < |a| && a[id].parent == FrameId(s.fs) == TopId(s.fs, 0) && a[id].next == FirstId(s.cur.next)
            && (!s.skip ==> a[id].child == FirstId(s.cur.kids))
            && id != TopId(s.fs, s.inner)
            && (FirstId(s.cur.next) == 0 && (s.skip || FirstId(s.cur.kids) == 0) ==> Left(s) == RestPlan(s.fs, s.inner))
  {
    hide RestPlan, FramesLinked, FramesDistinct;
    LinkedIds(a, s.cur.next, FrameId(s.fs));
    if !s.skip {
      LinkedIds(a, s.cur.kids, s.cur.id);
    }
    if s.inner < |s.fs| {
      FrameIdIn(s.fs, s.inner);
    }
  }

  // From the innermost open element, already visited, to its next sibling.
  lemma StepBehindFrame(a: seq<ElemPos>, fs: seq<Forest>, inner: nat) returns (t: Stand)
    requires forall i :: 0 <= i < |fs| ==> fs[i].Node?
    requires fs != [] && 0 < inner <= |fs| && FramesLinked(a, fs) && FramesDistinct(fs) && FirstId(fs[0].next) != 0
    ensures StandOk(a, t) && !t.skip && t.cur.id == FirstId(fs[0].next)
    ensures TopId(t.fs, t.inner) == TopId(fs, inner)
    ensures RestPlan(fs, inner) == [Whole(t.cur.id)] + Left(t)
  {
    FirstNodeSame(a, fs[0].next, FrameId(fs[1..]));
    t := Stand(FirstNode(fs[0].next), false, fs[1..], inner - 1);
    Unfold(t.cur, RestPlan(t.fs, t.inner));
  }

  // Past the innermost open element when nothing follows it.
  lemma FrameFacts(a: seq<ElemPos>, fs: seq<Forest>, inner: nat)
    requires forall i :: 0 <= i < |fs| ==> fs[i].Node?
    requires fs != [] && inner <= |fs| && FramesLinked(a, fs) && FramesDistinct(fs)
    ensures var id := fs[0].id;
            && 0 < id < |a| && a[id].parent == FrameId(fs[1..]) && a[id].next == FirstId(fs[0].next)
            && FrameId(fs) == id && (TopId(fs, inner) == id <==> inner == 0)
    ensures FramesLinked(a, fs[1..]) && FramesDistinct(fs[1..])
    ensures 0 < inner ==> TopId(fs[1..], inner - 1) == TopId(fs, inner)
    ensures 0 < inner && FirstId(fs[0].next) == 0 ==> RestPlan(fs, inner) == RestPlan(fs[1..], inner - 1)
  {
    LinkedIds(a, fs[0].next, FrameId(fs[1..]));
    if 0 < inner < |fs| {
      FrameIdIn(fs[1..], inner - 1);
      assert fs[inner] == fs[1..][inner - 1];
    }
  }

  // At the end tag of the innermost element still to be visited.
  lemma StepToFrame(a: seq<ElemPos>, fs: seq<Forest>) returns (t: Stand)
    requires forall i :: 0 <= i < |fs| ==> fs[i].Node?
    requires fs != [] && FramesLinked(a, fs) && FramesDistinct(fs)
    ensures StandOk(a, t) && t.skip && t.cur.id == fs[0].id && t.inner == 0
    ensures RestPlan(fs, 0) == [EndOnly(t.cur.id)] + Left(t)
  {
    t := Stand(fs[0], true, fs[1..], 0);
    assert Left(t) == Walk(fs[0].next) + RestPlan(fs[1..], 0);
  }

  lemma {:induction false} FrameIdIn(fs: seq<Forest>, i: nat)
    requires (forall k :: 0 <= k < |fs| ==> fs[k].Node?) && i < |fs|
    ensures fs[i].id in FrameIds(fs)
    decreases i
  {
    if 0 < i {
      FrameIdIn(fs[1..], i - 1);
    }
  }

  lemma StandFrame(a: seq<ElemPos>, b: seq<ElemPos>, s: Stand)
    requires StandOk(a, s) && SameLinks(a, b)
    ensures StandOk(b, s)
  {
    if s.skip {
      LinkedFrame(a, b, s.cur.next, FrameId(s.fs));
    } else {
      LinkedFrame(a, b, s.cur, FrameId(s.fs));
    }
    FramesLinkedFrame(a, b, s.fs);
  }

  lemma PlanIsLeft(n: Forest, c: Ctx, after: bool)
    requires n.Node? && CtxOk(c)
    ensures Plan(n, c, after) == Left(Stand(n, after, Frames(c), 0))
  {
    var k := if after then [] else Walk(n.kids);
    assert k + Walk(n.next) + RestPlan(Frames(c), 0) == k + (Walk(n.next) + RestPlan(Frames(c), 0));
  }

  lemma FramesOf(a: seq<ElemPos>, s: Stand)
    requires StandOk(a, s)
    ensures FramesLinked(a, s.fs) && FramesDistinct(s.fs) && (forall i :: 0 <= i < |s.fs| ==> s.fs[i].Node?)
    ensures s.inner <= |s.fs|
  {
  }

  lemma StandRoot(a: seq<ElemPos>, s: Stand)
    requires StandOk(a, s)
    ensures 0 < |a|
  {
  }

  lemma NoFrame(a: seq<ElemPos>, fs: seq<Forest>)
    requires (forall i :: 0 <= i < |fs| ==> fs[i].Node?) && FramesLinked(a, fs)
    ensures 0 < |a| && (FrameId(fs) == 0 <==> fs == [])
  {
  }

  lemma EndOfPlan(fs: seq<Forest>, inner: nat)
    requires fs == []
    ensures RestPlan(fs, inner) == [EndOnly(0)] && TopId(fs, inner) == 0
  {
  }

  lemma VisitNone(a: seq<ElemPos>, n: int)
    ensures VisitAll(a, [], n) == a
  {
  }

  lemma VisitFirst(a: seq<ElemPos>, it: Item, p: seq<Item>, n: int)
    ensures VisitAll(a, [it] + p, n) == VisitAll(Visit(a, it, n), p, n)
  {
    assert ([it] + p)[1..] == p;
  }

  lemma {:induction false} LinkedIds(a: seq<ElemPos>, f: Forest, parent: nat)
    requires Linked(a, f, parent)
    ensures 0 !in Ids(f) && (FirstId(f) == 0 ==> Walk(f) == [])
  {
    match f
    case Nil =>
    case Chunk(_, next) => LinkedIds(a, next, parent);
    case Node(id, _, _, _, _, kids, _, next) =>
      LinkedIds(a, kids, id);
      LinkedIds(a, next, parent);
  }

  lemma PlanParts(a: seq<ElemPos>, n: Forest, c: Ctx, after: bool, d: int)
    requires n.Node? && CtxOk(c)
    ensures VisitAll(a, Plan(n, c, after), d)
         == VisitAll(VisitAll(VisitAll(a, Walk(if after then Nil else n.kids), d), Walk(n.next), d),
                     RestPlan(Frames(c), 0), d)
  {
    var k := Walk(if after then Nil else n.kids);
    VisitAppend(a, k + Walk(n.next), RestPlan(Frames(c), 0), d);
    VisitAppend(a, k, Walk(n.next), d);
  }

  // Only the end offsets of pseudo-element 0 move.
  lemma {:induction false} RootStaysAtZero(a: seq<ElemPos>, c: Ctx, d: int)
    requires CtxOk(c) && 0 < |a| && 0 !in CtxIds(c)
    ensures VisitAll(a, RestPlan(Frames(c), 0), d)[0].startR == a[0].startR
    decreases c
  {
    match c
    case Top => assert RestPlan(Frames(c), 0) == [EndOnly(0)];
    case InNext(_, up) => RootStaysAtZero(a, up, d);
    case InKids(m, up) =>
      FramesSplit(a, m, up, d);
      var a1 := Visit(a, EndOnly(m.id), d);
      WalkVisits(m.next);
      VisitFrame(a1, Walk(m.next), d, 0);
      RootStaysAtZero(VisitAll(a1, Walk(m.next), d), up, d);
  }

  lemma {:induction false} CtxPlacedIds(a: seq<ElemPos>, c: Ctx, first: nat, len: int)
    requires CtxOk(c) && CtxPlaced(a, c, first, len)
    ensures 0 < |a| && forall i :: i in CtxIds(c) ==> 0 < i < |a|
    decreases c
  {
    hide Placed, Pos, Render, Pre, EndR, StartR;
    match c
    case Top =>
    case InKids(n, up) =>
      CtxPlacedIds(a, up, n.id, EndR(n, 0, len) + 1 + |Render(n.next)|);
      PlacedIds(a, n.next, EndR(n, |Pre(up)|, len) + 1, ParentOf(up));
    case InNext(n, up) =>
      CtxPlacedIds(a, up, if n.Chunk? then first else n.id, (if n.Chunk? then |n.text| else |Core(n)|) + len);
      if n.Node? {
        PlacedIds(a, n.kids, StartR(n, |Pre(up)|) + 1, n.id);
      }
  }
}

/** What x_Adjust does to each single element, told by where the elements lie in the document. */
module MarkupEffect {
  import opened MarkupTree
  import opened MarkupIndex
  import opened MarkupAdjust
  import opened MarkupEdit

  function Moved(r: ElemPos, d: int): ElemPos {
    r.AdjustStart(d).AdjustEnd(d)
  }

  // Walking over f moves every element of it once.
  lemma {:induction false} WalkEffect(a: seq<ElemPos>, f: Forest, d: int, i: nat)
    requires Distinct(f) && i < |a|
    ensures VisitAll(a, Walk(f), d)[i] == if i in Ids(f) then Moved(a[i], d) else a[i]
    decreases f
  {
    hide VisitAll;
    if i !in Ids(f) {
      WalkVisits(f);
      VisitFrame(a, Walk(f), d, i);
    } else if f.Chunk? {
      WalkEffect(a, f.next, d, i);
    } else {
      WalkSplit(a, f, d);
      var a1 := Visit(a, Whole(f.id), d);
      WalkEffect(a1, f.kids, d, i);
      WalkEffect(VisitAll(a1, Walk(f.kids), d), f.next, d, i);
    }
  }

  // ---- the elements around a place ----

  function Ancestors(c: Ctx): set<nat>
    requires CtxOk(c)
  {
    match c
    case Top => {}
    case InKids(n, up) => {n.id} + Ancestors(up)
    case InNext(_, up) => Ancestors(up)
  }

  function Later(c: Ctx): set<nat>
    requires CtxOk(c)
  {
    match c
    case Top => {}
    case InKids(n, up) => Ids(n.next) + Later(up)
    case InNext(_, up) => Later(up)
  }

  function Earlier(c: Ctx): set<nat>
    requires CtxOk(c)
  {
    match c
    case Top => {}
    case InKids(_, up) => Earlier(up)
    case InNext(n, up) => (if n.Node? then {n.id} + Ids(n.kids) else {}) + Earlier(up)
  }

  lemma {:induction false} Around(c: Ctx)
    requires CtxOk(c)
    ensures CtxIds(c) == Ancestors(c) + Later(c) + Earlier(c)
    ensures CtxDistinct(c) ==> Ancestors(c) !! Later(c) && Ancestors(c) !! Earlier(c) && Later(c) !! Earlier(c)
    decreases c
  {
    if !c.Top? {
      Around(c.up);
    }
  }

  lemma {:induction false} RestEffect(a: seq<ElemPos>, c: Ctx, d: int, i: nat)
    requires CtxOk(c) && CtxDistinct(c) && 0 !in CtxIds(c) && i < |a|
    ensures VisitAll(a, RestPlan(Frames(c), 0), d)[i] == if i == 0 || i in Ancestors(c) then a[i].AdjustEnd(d)
                                                         else if i in Later(c) then Moved(a[i], d)
                                                         else a[i]
    decreases c
  {
    match c
    case Top =>
      assert RestPlan(Frames(c), 0) == [EndOnly(0)];
    case InNext(_, up) =>
      RestEffect(a, up, d, i);
    case InKids(m, up) =>
      FramesSplit(a, m, up, d);
      Around(up);
      var a1 := Visit(a, EndOnly(m.id), d);
      WalkEffect(a1, m.next, d, i);
      RestEffect(VisitAll(a1, Walk(m.next), d), up, d, i);
  }

  // ---- where they lie ----

  lemma {:induction false} PlacedRange(a: seq<ElemPos>, f: Forest, base: int, parent: nat, i: nat)
    requires WF(f) && Placed(a, f, base, parent) && i in Ids(f)
    ensures i < |a| && base <= a[i].startL <= a[i].endR < base + |Render(f)|
    decreases f
  {
    hide Render, ChunkOk, NameOk, AttrsOk, Blank, TagBody;
    if f.Chunk? {
      RenderChunk(f);
      PlacedRange(a, f.next, base + |f.text|, parent, i);
    } else {
      NodeParts(a, f, base, parent);
      RenderNode(f);
      CoreAround(f);
      AroundLength(f, Render(f.kids));
      if i in Ids(f.kids) {
        PlacedRange(a, f.kids, StartR(f, base) + 1, f.id, i);
      } else if i in Ids(f.next) {
        PlacedRange(a, f.next, base + |Core(f)|, parent, i);
      }
    }
  }

  // Elements in front of a place end before it, those behind it start after it, those around it do neither.
  lemma {:induction false} AroundRange(a: seq<ElemPos>, c: Ctx, first: nat, len: int, i: nat)
    requires CtxOk(c) && CtxWF(c) && CtxDistinct(c) && CtxPlaced(a, c, first, len) && 0 <= len && i in CtxIds(c)
    ensures i < |a|
    ensures i in Ancestors(c) ==> a[i].startL < |Pre(c)| && |Pre(c)| + len <= a[i].endR
    ensures i in Later(c) ==> |Pre(c)| + len <= a[i].startL
    ensures i in Earlier(c) ==> a[i].startL <= a[i].endR < |Pre(c)|
    decreases c
  {
    hide Render, Placed, WF, Ids, TagBody, Core, CtxWF;
    match c
    case Top =>
    case InKids(n, up) =>
      InKidsWF(n, up);
      AroundLength(n, "");
      Around(up);
      if i in CtxIds(up) {
        AroundRange(a, up, n.id, EndR(n, 0, len) + 1 + |Render(n.next)|, i);
      } else if i != n.id {
        PlacedRange(a, n.next, EndR(n, |Pre(up)|, len) + 1, ParentOf(up), i);
      }
    case InNext(n, up) =>
      Around(up);
      if n.Chunk? {
        ChunkWF(n, up);
        AroundRange(a, up, first, |n.text| + len, i);
      } else {
        InNextWF(n, up);
        CoreAround(n);
        AroundLength(n, Render(n.kids));
        OwnTextCore(n);
        if i in CtxIds(up) {
          AroundRange(a, up, n.id, |Core(n)| + len, i);
        } else if i != n.id {
          PlacedRange(a, n.kids, StartR(n, |Pre(up)|) + 1, n.id, i);
          NotEmpty(n, i);
        }
      }
  }

  lemma ChunkWF(n: Forest, up: Ctx)
    requires n.Chunk? && CtxOk(InNext(n, up)) && CtxWF(InNext(n, up))
    ensures CtxWF(up) && OwnText(n) == n.text
  {
  }

  lemma InKidsWF(n: Forest, up: Ctx)
    requires CtxOk(InKids(n, up)) && CtxWF(InKids(n, up))
    ensures WF(n.next) && CtxWF(up)
  {
  }

  lemma InNextWF(n: Forest, up: Ctx)
    requires n.Node? && CtxOk(InNext(n, up)) && CtxWF(InNext(n, up))
    ensures WF(n.kids) && CtxWF(up) && (n.empty ==> n.kids == Nil)
  {
  }

  lemma NotEmpty(n: Forest, i: nat)
    requires n.Node? && i in Ids(n.kids) && (n.empty ==> n.kids == Nil)
    ensures !n.empty
  {
  }

  // ---- x_Adjust ----

  // The effect by the sets of elements around n: all of one kind are treated alike.
  lemma AdjustBySets(n: Forest, c: Ctx, after: bool, a0: seq<ElemPos>, d: int, i: nat)
    requires n.Node? && CtxOk(c) && i < |a0| && Distinct(n.kids) && Distinct(n.next) && CtxDistinct(c)
             && 0 !in CtxIds(c) && i != 0
    requires Ids(n.kids) !! Ids(n.next) && (Ids(n.kids) + Ids(n.next)) !! CtxIds(c)
    ensures VisitAll(a0, Plan(n, c, after), d)[i]
         == if i in Ids(n.kids) then (if after then a0[i] else Moved(a0[i], d))
            else if i in Ids(n.next) || i in Later(c) then Moved(a0[i], d)
            else if i in Ancestors(c) then a0[i].AdjustEnd(d)
            else a0[i]
  {
    hide VisitAll, Plan, RestPlan, Frames, Walk, Moved;
    Around(c);
    var k := if after then Nil else n.kids;
    PlanParts(a0, n, c, after, d);
    WalkEffect(a0, k, d, i);
    WalkEffect(VisitAll(a0, Walk(k), d), n.next, d, i);
    RestEffect(VisitAll(VisitAll(a0, Walk(k), d), Walk(n.next), d), c, d, i);
  }

  // Each record of a0 moves as often as the places of the elements in the array `a` demand, and once at
  // most: inside element n (unless `after`) and behind it as a whole, around it with its end only.
  lemma AdjustEffect(doc: string, a: seq<ElemPos>, free: nat, n: Forest, c: Ctx, after: bool, a0: seq<ElemPos>, d: int,
                     i: nat)
    requires n.Node? && CtxOk(c) && Indexed(doc, a, free, Plug(n, c)) && |a0| == |a| && i in Ids(Plug(n, c))
    ensures i < |a| && n.id < |a|
    ensures var r, was, now := a[n.id], a0[i], VisitAll(a0, Plan(n, c, after), d)[i];
            now == if i == n.id then was
                   else if a[i].startL > r.endR then Moved(was, d)
                   else if a[i].startL > r.startL then (if after then was else Moved(was, d))
                   else if a[i].endR > r.endR then was.AdjustEnd(d)
                   else was
  {
    hide Placed, CtxPlaced, Indexed, Render, Pre, WF, CtxWF, VisitAll, Plan, TagBody, Core, Plug, Later, Ancestors,
         Earlier, Moved;
    NodeReady(doc, a, free, n, c);
    PlugIds(n, c);
    TreeIds(doc, a, free, Plug(n, c));
    PartsWF(n);
    EmptyNode(n);
    CoreAround(n);
    AroundLength(n, Render(n.kids));
    ContextApart(a, c, n.id, |Core(n)| + |Render(n.next)|, n);
    Around(c);
    AdjustBySets(n, c, after, a0, d, i);
    if i in Ids(n.kids) {
      PlacedRange(a, n.kids, StartR(n, |Pre(c)|) + 1, n.id, i);
    } else if i in Ids(n.next) {
      PlacedRange(a, n.next, |Pre(c)| + |Core(n)|, ParentOf(c), i);
    } else if i != n.id {
      AroundRange(a, c, n.id, |Core(n)| + |Render(n.next)|, i);
    }
  }

  lemma TreeIds(doc: string, a: seq<ElemPos>, free: nat, tree: Forest)
    requires Indexed(doc, a, free, tree)
    ensures forall i :: i in Ids(tree) ==> 0 < i < |a|
  {
  }

  // Pseudo-element 0 moves its end.
  lemma AdjustRoot(doc: string, a: seq<ElemPos>, free: nat, n: Forest, c: Ctx, after: bool, a0: seq<ElemPos>, d: int)
    requires n.Node? && CtxOk(c) && Indexed(doc, a, free, Plug(n, c)) && |a0| == |a|
    ensures 0 < |a| && VisitAll(a0, Plan(n, c, after), d)[0] == a0[0].AdjustEnd(d)
  {
    hide Placed, CtxPlaced, Indexed, Render, Pre, WF, CtxWF, VisitAll, Plan, TagBody, Core, Plug, RestPlan, Frames,
         Walk;
    NodeReady(doc, a, free, n, c);
    ContextApart(a, c, n.id, |Core(n)| + |Render(n.next)|, n);
    PlacedIds(a, n.kids, StartR(n, |Pre(c)|) + 1, n.id);
    PlacedIds(a, n.next, |Pre(c)| + |Core(n)|, ParentOf(c));
    var k := if after then Nil else n.kids;
    PlanParts(a0, n, c, after, d);
    WalkEffect(a0, k, d, 0);
    WalkEffect(VisitAll(a0, Walk(k), d), n.next, d, 0);
    RestEffect(VisitAll(VisitAll(a0, Walk(k), d), Walk(n.next), d), c, d, 0);
  }

  lemma EmptyNode(n: Forest)
    requires n.Node? && WF(n)
    ensures n.empty ==> n.kids == Nil && Ids(n.kids) == {}
    ensures Distinct(Nil) && Ids(Nil) == {}
  {
  }

  lemma ContextApart(a: seq<ElemPos>, c: Ctx, first: nat, len: int, n: Forest)
    requires n.Node? && CtxOk(c) && CtxPlaced(a, c, first, len) && Apart(n, c)
    ensures 0 < |a| && 0 !in CtxIds(c) && CtxDistinct(c) && Ids(n) !! CtxIds(c)
    ensures Ids(n) == {n.id} + Ids(n.kids) + Ids(n.next) && n.id !in Ids(n.kids) && n.id !in Ids(n.next)
    ensures Ids(n.kids) !! Ids(n.next) && Distinct(n.kids) && Distinct(n.next)
  {
    CtxPlacedIds(a, c, first, len);
  }
}

/** Where the editor puts a new element, what it records for it, and what can be read afterwards. */
module MarkupAdd {
  import opened MarkupText
  import opened MarkupTree
  import opened MarkupIndex
  import opened MarkupAdjust
  import opened MarkupEdit
  import opened MarkupData
  import opened MarkupAccess
  import opened MarkupStore
  import opened MarkupPlace
  import opened MarkupOps

  // ---- x_LocateNew ----

  // A new element of `parent` belongs in front of f, k characters of plain text further on.
  datatype Place = Place(f: Forest, c: Ctx, k: nat)

  ghost predicate PlaceOk(doc: string, a: seq<ElemPos>, tree: Forest, p: Place, parent: nat, before: nat, offset: int) {
    && CtxOk(p.c) && Plug(p.f, p.c) == tree && p.k <= LeadLen(p.f)
    && ParentOf(p.c) == parent < |a| && PrevId(p.c) == before < |a| && offset == |Pre(p.c)| + p.k
    && FirstId(p.f) == (if before != 0 then a[before].next else a[parent].child)
    && (Frames(p.c) == [] <==> parent == 0)
  }

  // The siblings in front of the place, by their links.
  ghost predicate BehindSiblings(a: seq<ElemPos>, p: Place, parent: nat)
    requires CtxOk(p.c)
  {
    && Chain(a, parent, LeftIds(p.c) + [FirstId(p.f)]) && FirstId(p.f) !in LeftIds(p.c) && 0 !in LeftIds(p.c)
    && PrevId(p.c) == if LeftIds(p.c) == [] then 0 else LeftIds(p.c)[|LeftIds(p.c)| - 1]
  }

  lemma PlaceIsOk(doc: string, a: seq<ElemPos>, free: nat, tree: Forest, f: Forest, c: Ctx) returns (p: Place)
    requires CtxOk(c) && Plug(f, c) == tree && Indexed(doc, a, free, tree)
    ensures |Pre(c)| <= |doc| && PlaceOk(doc, a, tree, p, ParentOf(c), PrevId(c), UpToTag(doc, |Pre(c)|))
    ensures p.f == f && p.c == c && FirstId(p.f) == FirstId(f) && BehindSiblings(a, p, ParentOf(c))
  {
    hide Indexed, Plug, UpToTag, LeadLen, Chain, LeftIds, Pre, WF;
    PlaceFacts(doc, a, free, f, c);
    FramesParent(doc, a, free, f, c);
    p := Place(f, c, UpToTag(doc, |Pre(c)|) - |Pre(c)|);
  }

  lemma FramesParent(doc: string, a: seq<ElemPos>, free: nat, f: Forest, c: Ctx)
    requires CtxOk(c) && Indexed(doc, a, free, Plug(f, c))
    ensures Frames(c) == [] <==> ParentOf(c) == 0
  {
    hide Indexed, Placed, CtxPlaced, Plug, Pre, Render, Frames, WF, CtxWF;
    PlaceReady(doc, a, free, f, c);
    CtxFrames(c);
    OwnersIn(c);
    NoFrames(c);
  }

  lemma {:induction false} NoFrames(c: Ctx)
    requires CtxOk(c) && 0 !in CtxIds(c)
    ensures Frames(c) == [] <==> ParentOf(c) == 0
    decreases c
  {
    if c.InNext? {
      NoFrames(c.up);
    }
  }

  // Where the offsets of an element put the places around it.
  lemma AroundElement(doc: string, a: seq<ElemPos>, free: nat, n: Forest, c: Ctx)
    requires n.Node? && CtxOk(c) && Indexed(doc, a, free, Plug(n, c))
    ensures n.id < |a| && a[n.id].startL == |Pre(c)| && CtxOk(InNext(n, c)) && a[n.id].endR + 1 == |Pre(InNext(n, c))|
    ensures Plug(n.next, InNext(n, c)) == Plug(n, c) && PrevId(InNext(n, c)) == n.id && FirstId(n) == n.id
    ensures a[n.id].parent == ParentOf(c) == ParentOf(InNext(n, c))
  {
    hide Indexed, Plug, Pre, Core, UpToTag, LeadLen;
    RemovePlace(doc, a, free, n, c);
    BehindIs(n, c);
    PreOfNext(n, c);
  }

  lemma InsideElement(doc: string, a: seq<ElemPos>, free: nat, n: Forest, c: Ctx) returns (d: Ctx)
    requires n.Node? && CtxOk(c) && Indexed(doc, a, free, Plug(n, c))
    ensures n.id < |a| && (a[n.id].IsEmptyElement() <==> n.empty)
    ensures !n.empty ==>
              CtxOk(InKids(n, c)) && Plug(n.kids, InKids(n, c)) == Plug(n, c)
              && |Pre(InKids(n, c))| == a[n.id].startR + 1
    ensures !n.empty ==> ParentOf(InKids(n, c)) == n.id && PrevId(InKids(n, c)) == 0 && FirstId(n.kids) == a[n.id].child
    ensures !n.empty ==> CtxOk(d) && Plug(Nil, d) == Plug(n, c) && |Pre(d)| == a[n.id].endL && ParentOf(d) == n.id
  {
    hide Indexed, Placed, CtxPlaced, Pre, Core, Render, TagBody, Apart, CtxWF, WF, Plug, EndTagText;
    NodeReady(doc, a, free, n, c);
    d := c;
    if !n.empty {
      d := InKids(n, c);
      KidsAgain(n, c);
      d := EndOf(n.kids, InKids(n, c));
    }
  }

  lemma KidsAgain(n: Forest, c: Ctx)
    requires n.Node? && !n.empty && CtxOk(c)
    ensures CtxOk(InKids(n, c)) && Plug(n.kids, InKids(n, c)) == Plug(n, c)
    ensures |Pre(InKids(n, c))| == |Pre(c)| + 2 + |TagBody(n)|
  {
    assert SetKids(n, n.kids) == n;
  }

  lemma {:induction false} ParentNotEmpty(a: seq<ElemPos>, c: Ctx, first: nat, len: int)
    requires CtxOk(c) && CtxPlaced(a, c, first, len) && 0 <= len && ParentOf(c) != 0
    ensures ParentOf(c) < |a| && !a[ParentOf(c)].IsEmptyElement()
    decreases c
  {
    hide Placed, Render, Pre, TagBody, Core;
    if c.InNext? {
      var n := c.node;
      ParentNotEmpty(a, c.up, if n.Node? then n.id else first, (if n.Node? then |Core(n)| else |n.text|) + len);
    }
  }

  lemma SiblingParent(doc: string, a: seq<ElemPos>, free: nat, f: Forest, c: Ctx)
    requires CtxOk(c) && Indexed(doc, a, free, Plug(f, c)) && ParentOf(c) != 0
    ensures ParentOf(c) < |a| && !a[ParentOf(c)].IsEmptyElement()
  {
    hide Indexed, Placed, CtxPlaced, Plug, Pre, Render, WF, CtxWF, Apart;
    PlaceReady(doc, a, free, f, c);
    ParentNotEmpty(a, c, FirstId(f), |Render(f)|);
  }

  lemma NoChild(a: seq<ElemPos>, p: Place, parent: nat)
    requires CtxOk(p.c) && BehindSiblings(a, p, parent) && a[parent].child == 0
    ensures PrevId(p.c) == 0 && FirstId(p.f) == 0
  {
    assert (LeftIds(p.c) + [FirstId(p.f)])[0] == 0;
    assert LeftIds(p.c) == [];
  }

  lemma LastPlace(tree: Forest) returns (d: Ctx)
    ensures CtxOk(d) && Plug(Nil, d) == tree && |Pre(d)| == |Render(tree)| && ParentOf(d) == 0
  {
    d := EndOf(tree, Top);
  }

  // InsertElem of a document element starts looking at offset 1, so the text there must be plain.
  lemma RootInsertPlace(doc: string, a: seq<ElemPos>, free: nat, tree: Forest) returns (p: Place)
    requires Indexed(doc, a, free, tree) && Roots(tree) == 0 && doc != "" && doc[0] != '<'
    ensures PlaceOk(doc, a, tree, p, 0, 0, UpToTag(doc, 1)) && FirstId(p.f) == 0
    ensures CtxOk(p.c) && BehindSiblings(a, p, 0) && a[0].child == 0 && PrevId(p.c) == 0
  {
    hide Placed, UpToTag, LeadLen;
    LeadText(tree);
    NoRoots(tree, 0);
    UpToTagLead(tree, Top, 1);
    assert Pre(Top) + Render(tree) + Post(Top) == doc;
    p := Place(tree, Top, UpToTag(doc, 1));
  }

  lemma PlaceIds(doc: string, a: seq<ElemPos>, free: nat, tree: Forest, p: Place, parent: nat, before: nat, offset: int)
    requires Indexed(doc, a, free, tree) && PlaceOk(doc, a, tree, p, parent, before, offset)
    ensures parent < free <= |a| && before < free && 8 <= |a| && 0 <= offset
    ensures parent == 0 || parent in Ids(tree)
    ensures Frames(p.c) == [] ==> parent == 0
    ensures before != 0 ==> before in Ids(tree)
  {
    hide Indexed, Plug, Pre, LeadLen, Frames, Placed, CtxPlaced;
    TreeWF(doc, a, free, tree);
    PlaceReady(doc, a, free, p.f, p.c);
    OwnersIn(p.c);
    PlugIds(p.f, p.c);
  }

  // The place of a document element.
  lemma RootPlace(doc: string, a: seq<ElemPos>, free: nat, tree: Forest, insert: bool) returns (p: Place)
    requires Indexed(doc, a, free, tree) && Roots(tree) == 0 && (insert ==> doc != "" && doc[0] != '<')
    ensures CtxOk(p.c) && PlaceOk(doc, a, tree, p, 0, PrevId(p.c), UpToTag(doc, if insert then 1 else |doc|))
    ensures BehindSiblings(a, p, 0) && FirstId(p.f) == 0 && PrevId(p.c) == 0
  {
    hide Placed, UpToTag, LeadLen, Plug, Pre, PlaceOk, LeftIds, Chain;
    if insert {
      p := RootInsertPlace(doc, a, free, tree);
    } else {
      NoRoots(tree, 0);
      var d := LastPlace(tree);
      p := PlaceIsOk(doc, a, free, tree, Nil, d);
      NoChild(a, p, 0);
    }
  }

  // ---- x_AddElem ----

  lemma NewRecord(id: nat, name: string, value: string, base: int, parent: nat, next: nat)
    requires NameOk(name) && CString(value)
    ensures var n, len := NewElem(id, name, value), |Escape(value, false)|;
            Pos(n, base, |Render(n.kids)|, parent, 0, next)
            == (var r := base + |name|;
                if value == "" then ElemPos(base, r + 2, r + 1, r + 2, parent, 0, next)
                else ElemPos(base, r + 1, r + 1 + len + 1, r + 1 + len + 1 + |name| + 2, parent, 0, next))
  {
    hide Escape, Render, TagBody, Core, NameOk;
    NewElemOk(id, name, value);
  }

  lemma NewElemRead(id: nat, name: string, value: string)
    requires CString(value)
    ensures Data(NewElem(id, name, value)) == value
  {
    hide Escape, DataAt;
    var n := NewElem(id, name, value);
    if value != "" {
      DataTextRead(value, false);
      assert Ids(n.kids) == Ids(Nil) == {};
      assert Render(n.kids) == Escape(value, false) + Render(Nil) == Escape(value, false) == DataText(value, false);
    }
  }

  lemma {:induction false} InsertAtSeen(f: Forest, k: nat, n: Forest)
    requires k <= LeadLen(f) && n.Node? && n.next == Nil && n.id !in Ids(f)
    ensures n.id in Ids(InsertAt(f, k, n)) && ViewOf(InsertAt(f, k, n), n.id) == View(n.name, n.attrs, Data(n))
    decreases f
  {
    hide Data;
    if k == 0 || k < |f.text| {
      var r := if k == 0 then f else Chunk(f.text[k..], f.next);
      var m := SetNext(n, Chunk("\r\n", r));
      SameData(n, m);
      assert ViewOf(m, n.id) == View(n.name, n.attrs, Data(m));
    } else {
      InsertAtSeen(f.next, k - |f.text|, n);
    }
  }

  // What the new element shows, and that the others show the same as before but for the parent's data.
  lemma AddedViews(doc: string, a: seq<ElemPos>, free: nat, p: Place, n: Forest)
    requires CtxOk(p.c) && Indexed(doc, a, free, Plug(p.f, p.c)) && p.k <= LeadLen(p.f)
    requires n.Node? && n.next == Nil && Ids(n.kids) == {} && n.id == free
    ensures var t, u := Plug(InsertAt(p.f, p.k, n), p.c), Plug(p.f, p.c);
            && Ids(t) == Ids(u) + {n.id} && n.id !in Ids(u) && ViewOf(t, n.id) == View(n.name, n.attrs, Data(n))
            && forall j :: j in Ids(u) ==> Outside(ViewOf(u, j), ViewOf(t, j), j == ParentOf(p.c))
  {
    hide Indexed, Placed, CtxPlaced, CtxWF, Render, Data, Pre, InsertAt, LeadLen, ViewOf, WF, Plug;
    var f, c, k := p.f, p.c, p.k;
    PlaceReady(doc, a, free, f, c);
    var g := InsertAt(f, k, n);
    PlugIds(f, c);
    PlugIds(g, c);
    InsertAtViews(f, k, n, n.id + 1);
    InsertAtSeen(f, k, n);
    ViewThrough(g, c, n.id);
    forall j | j in Ids(Plug(f, c)) ensures Outside(ViewOf(Plug(f, c), j), ViewOf(Plug(g, c), j), j == ParentOf(c)) {
      InsertAtViews(f, k, n, j);
      ElsewhereUnchanged(f, g, c, j);
    }
  }

  lemma SplitViews(doc: string, a: seq<ElemPos>, free: nat, p: Forest, c: Ctx, n: Forest)
    requires p.Node? && p.empty && CtxOk(c) && Indexed(doc, a, free, Plug(p, c))
    requires n.Node? && n.next == Nil && Ids(n.kids) == {} && n.id == free
    ensures CtxOk(InKids(Opened(p), c))
    ensures var t, u := Plug(OnlyChild(n), InKids(Opened(p), c)), Plug(p, c);
            && Ids(t) == Ids(u) + {n.id} && n.id !in Ids(u) && ViewOf(t, n.id) == View(n.name, n.attrs, Data(n))
            && forall j :: j in Ids(u) ==> ViewOf(u, j) == ViewOf(t, j)
  {
    hide Indexed, Placed, CtxPlaced, CtxWF, Render, Data, Pre, WF, Plug, ViewOf, Core, TagBody;
    NodeReady(doc, a, free, p, c);
    PlaceReady(doc, a, free, p, c);
    var g := SetKids(Opened(p), OnlyChild(n));
    PlugIds(p, c);
    PlugIds(g, c);
    assert Plug(OnlyChild(n), InKids(Opened(p), c)) == Plug(g, c) by { PlugKids(Opened(p), OnlyChild(n), c); }
    SplitSeen(p, n);
    ViewThrough(g, c, n.id);
    forall j | j in Ids(Plug(p, c)) ensures ViewOf(Plug(p, c), j) == ViewOf(Plug(g, c), j) {
      SplitSeenOther(p, n, j);
      ElsewhereUnchanged(p, g, c, j);
    }
  }

  lemma PlugKids(n: Forest, f: Forest, c: Ctx)
    requires n.Node? && !n.empty && CtxOk(c)
    ensures Plug(f, InKids(n, c)) == Plug(SetKids(n, f), c)
  {
  }

  lemma SplitSeen(p: Forest, n: Forest)
    requires p.Node? && p.empty && WF(p) && n.Node? && n.next == Nil && Ids(n.kids) == {} && n.id !in Ids(p)
    ensures var g := SetKids(Opened(p), OnlyChild(n));
            Ids(g) == Ids(p) + {n.id} && ViewOf(g, n.id) == View(n.name, n.attrs, Data(n))
  {
    hide Data;
    var m := SetNext(n, Chunk("\r\n", Nil));
    SameData(n, m);
    assert Ids(Chunk("\r\n", Nil)) == Ids(Nil) == {};
    assert Ids(OnlyChild(n)) == Ids(m) == {n.id} && Ids(p.kids) == {};
    assert ViewOf(OnlyChild(n), n.id) == ViewOf(m, n.id);
  }

  lemma SplitSeenOther(p: Forest, n: Forest, j: nat)
    requires p.Node? && p.empty && WF(p) && n.Node? && n.next == Nil && Ids(n.kids) == {} && n.id !in Ids(p)
             && j != n.id
    ensures var g := SetKids(Opened(p), OnlyChild(n)); ViewOf(g, j) == ViewOf(p, j) && (j in Ids(g) <==> j in Ids(p))
  {
    hide Data;
    SplitSeen(p, n);
    var g := SetKids(Opened(p), OnlyChild(n));
    DataEmpty(p);
    assert Ids(Chunk("\r\n", Nil)) == Ids(Nil) == {};
    assert Ids(OnlyChild(n)) == Ids(SetNext(n, Chunk("\r\n", Nil))) == {n.id} && Ids(p.kids) == {};
    DataEmpty(g);
  }

  // Linking in and adjusting leave the other links alone.
  lemma LinksAfter(a: seq<ElemPos>, a0: seq<ElemPos>, free: nat, c: Ctx, id: nat, plan: seq<Item>, d: int)
    requires CtxOk(c) && PrevId(c) < |a| && ParentOf(c) < |a| && free <= |a| <= |a0|
    requires a0[..free] == Relink(a, c, id)[..free]
    ensures var b, r := VisitAll(a0, plan, d), Relink(a, c, id);
            && |b| == |a0| && (forall i :: 0 <= i < free ==>
                b[i].parent == a[i].parent && b[i].child == r[i].child && b[i].next == r[i].next)
            && (id < |a0| ==> b[id].parent == a0[id].parent && b[id].child == a0[id].child && b[id].next == a0[id].next)
  {
    VisitKeepsLinks(a0, plan, d);
    forall i | 0 <= i < free ensures a0[i] == Relink(a, c, id)[i] {
      assert a0[..free][i] == Relink(a, c, id)[..free][i];
    }
  }

  // The '/' of an empty element, where it is split.
  lemma SplitPlace(doc: string, a: seq<ElemPos>, free: nat, q: Forest, c: Ctx)
    requires q.Node? && q.empty && CtxOk(c) && Indexed(doc, a, free, Plug(q, c))
    ensures 8 <= |a| && free <= |a| && 0 < q.id < free && a[q.id].startR == |Pre(c)| + |TagBody(q)| + 2
            && a[q.id].child == 0
    ensures CtxOk(InKids(Opened(q), c)) && ParentOf(InKids(Opened(q), c)) == q.id && PrevId(InKids(Opened(q), c)) == 0
  {
    hide Indexed, Plug, Pre, Render, TagBody, Placed, CtxPlaced, Core;
    NodeReady(doc, a, free, q, c);
    PlugIds(q, c);
    TreeWF(doc, a, free, Plug(q, c));
  }

  lemma SplitTextIs(q: Forest, n: Forest)
    requires q.Node? && n.Node?
    ensures SplitText(q, n) == ">\r\n" + (Core(n) + "\r\n") + "</" + q.name
  {
    hide Core;
    assert ">\r\n" + (Core(n) + "\r\n") + ("</" + q.name) == ">\r\n" + (Core(n) + "\r\n") + "</" + q.name;
  }

  lemma SplitRecordedOk(a: seq<ElemPos>, a0: seq<ElemPos>, free: nat, q: Forest, n: Forest, c: Ctx)
    requires q.Node? && n.Node? && CtxOk(c) && CtxOk(InKids(Opened(q), c)) && 0 < q.id < free <= |a| <= |a0|
             && free < |a0|
    requires n.next == Nil && Ids(n.kids) == {} && WF(n) && n.id == free
    requires a0[n.id] == Pos(n, |Pre(c)| + |TagBody(q)| + 4, |Render(n.kids)|, q.id, 0, 0)
    requires var e := InKids(Opened(q), c);
             var r := a0[q.id].(startR := a0[q.id].startR + 1, endL := a0[q.id].endL + (|q.name| + 1));
             a0[q.id := r][..free] == Relink(a, e, free)[..free]
    ensures SplitRecorded(a, a0, free, q, n, c)
  {
    hide Pos, Render, TagBody, WF, Pre;
    var e := InKids(Opened(q), c);
    var r := a0[q.id].(startR := a0[q.id].startR + 1, endL := a0[q.id].endL + (|q.name| + 1));
    var s := a[q.id].(child := n.id, startR := a[q.id].startR - 1, endL := a[q.id].endL - (|q.name| + 1));
    forall j | 0 <= j < free ensures a0[j] == a[q.id := s][j] {
      assert a0[q.id := r][..free][j] == Relink(a, e, free)[..free][j];
    }
    assert a0[..free] == a[q.id := s][..free];
  }

  // The document element is the first and only one, and the end of pseudo-element 0 is free.
  lemma NoDocumentElement(doc: string, a: seq<ElemPos>, free: nat, tree: Forest, endL: int)
    requires Indexed(doc, a, free, tree) && a[0].child == 0
    ensures Roots(tree) == 0 && Ids(tree) == {} && Indexed(doc, a[0 := a[0].(endL := endL)], free, tree)
  {
    NoFirst(a, tree, 0, 0);
    NoElements(a, tree, 0, 0);
    PlacedFrame(a, a[0 := a[0].(endL := endL)], tree, 0, 0);
  }

  // From a and tree to b and t: element id was added below parent, as AddElem is to do it next to rel.
  ghost predicate Added(a: seq<ElemPos>, tree: Forest, b: seq<ElemPos>, t: Forest, parent: nat, rel: nat, insert: bool,
                        id: nat, name: string, value: string) {
    && Ids(t) == Ids(tree) + {id} && id !in Ids(tree) && ViewOf(t, id) == View(name, [], value)
    && (forall j :: j in Ids(tree) ==> Outside(ViewOf(tree, j), ViewOf(t, j), j == parent))
    && id < |b| && |a| <= |b| && parent < |a| && rel < |a|
    && b[id].parent == parent && (forall j :: j in Ids(tree) && j < |a| ==> b[j].parent == a[j].parent)
    && (if rel != 0 then (if insert then b[id].next == rel else b[rel].next == id && b[id].next == a[rel].next)
        else if insert then b[parent].child == id && b[id].next == a[parent].child
        else b[id].next == 0)
  }

  // InsertElem of the document element begins to look at offset 1, which is inside a tag or a comment that begins
  // the text.
  predicate Misplaced(doc: string, parent: nat, insert: bool) {
    parent == 0 && insert && doc != "" && doc[0] == '<'
  }

  // What it then leaves: the element in the middle of other markup, in a text that no well-formed tree has.
  ghost predicate RootMisplaced(doc: string, now: string, a: seq<ElemPos>, id: nat, name: string, value: string) {
    && doc != "" && now == Splice(doc, UpToTag(doc, 1), 0, ElemText(name, value) + "\r\n")
    && id < |a| && a[0].child == id
    && (var len := if value == "" then 0 else |Escape(value, false)|;
        a[id] == Pos(NewElem(id, name, value), UpToTag(doc, 1), len, 0, 0, 0))
    && !exists t: Forest :: WF(t) && Roots(t) == 1 && Render(t) == now
  }

  lemma RootIsMisplaced(doc: string, a0: seq<ElemPos>, free: nat, tree: Forest, now: string, a: seq<ElemPos>, n: Forest,
                        name: string, value: string)
    requires Indexed(doc, a0, free, tree) && Roots(tree) == 0 && NameOk(name) && CString(value)
    requires Misplaced(doc, 0, true)
    requires n == NewElem(free, name, value) && n.Node? && Core(n) == ElemText(name, value)
    requires now == Splice(doc, UpToTag(doc, 1), 0, Core(n) + "\r\n")
    requires free < |a| && a[0].child == free && a[free] == Pos(n, UpToTag(doc, 1), |Render(n.kids)|, 0, 0, 0)
    requires |Render(n.kids)| == if value == "" then 0 else |Escape(value, false)|
    ensures RootMisplaced(doc, now, a, free, name, value)
  {
    hide Core, ElemText, UpToTag, Splice, WF, Render, NewElem, Escape, NameOk, Pos, Indexed;
    RootInsertFits(doc, a0, free, tree, name, value);
    forall t: Forest | WF(t) && Roots(t) == 1 ensures Render(t) != now {
      assert Render(t) != Splice(doc, UpToTag(doc, 1), 0, Core(n) + "\r\n");
    }
  }

  lemma NoRootChild(doc: string, a: seq<ElemPos>, free: nat, tree: Forest)
    requires Indexed(doc, a, free, tree) && Roots(tree) == 0
    ensures 0 < |a| && a[0].child == 0 && a[0].startR == 0 && PlaceStart(doc, a, 0, 0, true) == 1
  {
    NoRoots(tree, 0);
  }

  // x_Adjust behind an element that is alone.
  lemma StandsAlone(a: seq<ElemPos>, n: Forest)
    requires n.Node? && (n.kids.Nil? || (n.kids.Chunk? && n.kids.next.Nil?)) && n.next == Nil && 0 < n.id < |a|
    requires a[n.id].parent == 0 && a[n.id].child == 0 && a[n.id].next == 0
    ensures StandOk(a, Stand(n, false, Frames(Top), 0))
    ensures forall d :: |VisitAll(a, Plan(n, Top, false), d)| == |a|
                        && VisitAll(a, Plan(n, Top, false), d)[n.id] == a[n.id]
                        && VisitAll(a, Plan(n, Top, false), d)[0].child == a[0].child
  {
    var plan := Plan(n, Top, false);
    assert Walk(n.kids) == [] && plan == [EndOnly(0)];
    assert plan[1..] == [];
  }

  lemma AloneReady(a: seq<ElemPos>, a0: seq<ElemPos>, id: nat, name: string, value: string)
    requires 0 < id < |a0| && 0 < |a| && id <= |a| && a0[..id] == Relink(a, Top, id)[..id]
    requires a0[id].parent == 0 && a0[id].child == 0 && a0[id].next == 0
    ensures var n := NewElem(id, name, value);
            && n.Node? && StandOk(a0, Stand(n, false, Frames(Top), 0)) && a0[0].child == id
            && forall d :: |VisitAll(a0, Plan(n, Top, false), d)| == |a0|
                           && VisitAll(a0, Plan(n, Top, false), d)[id] == a0[id]
                           && VisitAll(a0, Plan(n, Top, false), d)[0].child == id
  {
    hide StandOk, VisitAll, Plan, Escape;
    assert a0[..id][0] == Relink(a, Top, id)[..id][0];
    StandsAlone(a0, NewElem(id, name, value));
  }

  lemma Sizes(doc: string, a: seq<ElemPos>, free: nat, tree: Forest)
    requires Indexed(doc, a, free, tree)
    ensures 8 <= |a| && 0 < free <= |a|
  {
  }

  function TagNameOf(v: View): string {
    if v.View? then v.name else ""
  }

  function ElemText(name: string, value: string): string {
    if value == "" then "<" + name + "/>" else "<" + name + ">" + Escape(value, false) + "</" + name + ">"
  }

  // Where the search for the place of a new element begins.
  function PlaceStart(doc: string, a: seq<ElemPos>, parent: nat, rel: nat, insert: bool): int
    requires parent < |a| && rel < |a|
  {
    if rel != 0 then (if insert then a[rel].startL else a[rel].endR + 1)
    else if insert then a[parent].startR + 1
    else if parent == 0 then |doc| else a[parent].endL
  }

  // The text with the new element in its place; a parent <A/> becomes <A>..</A>.
  ghost predicate TextAdded(doc: string, now: string, a: seq<ElemPos>, parent: nat, tag: string, rel: nat, insert: bool,
                            name: string, value: string) {
    && parent < |a| && rel < |a|
    && if parent != 0 && a[parent].IsEmptyElement() then
         var at := a[parent].startR - 1;
         0 <= at < |doc| && now == Splice(doc, at, 1, ">\r\n" + (ElemText(name, value) + "\r\n") + ("</" + tag))
       else
         var start := PlaceStart(doc, a, parent, rel, insert);
         0 <= start <= |doc| && now == Splice(doc, UpToTag(doc, start), 0, ElemText(name, value) + "\r\n")
  }

  lemma AddedInPlace(doc: string, now: string, a: seq<ElemPos>, parent: nat, tag: string, rel: nat, insert: bool,
                     name: string, value: string, offset: int, n: Forest)
    requires parent < |a| && rel < |a| && n.Node? && Core(n) == ElemText(name, value)
             && (parent == 0 || !a[parent].IsEmptyElement())
    requires var start := PlaceStart(doc, a, parent, rel, insert);
             0 <= start <= |doc| && offset == UpToTag(doc, start) && now == Splice(doc, offset, 0, Core(n) + "\r\n")
    ensures TextAdded(doc, now, a, parent, tag, rel, insert, name, value)
  {
    hide Core, ElemText, UpToTag, Splice;
  }

  lemma AddedBySplit(doc: string, now: string, a: seq<ElemPos>, parent: nat, tag: string, rel: nat, insert: bool,
                     name: string, value: string, q: Forest, n: Forest)
    requires 0 < parent < |a| && rel < |a| && n.Node? && Core(n) == ElemText(name, value) && a[parent].IsEmptyElement()
    requires q.Node? && tag == q.name && 0 < a[parent].startR <= |doc|
    requires now == Splice(doc, a[parent].startR - 1, 1, SplitText(q, n))
    ensures TextAdded(doc, now, a, parent, tag, rel, insert, name, value)
  {
    hide Core, ElemText, UpToTag, Splice;
  }

  // The end of the pseudo element 0 does not matter.
  lemma TextAddedFrom(doc: string, now: string, a: seq<ElemPos>, a0: seq<ElemPos>, parent: nat, tag: string, rel: nat,
                      insert: bool, name: string, value: string)
    requires TextAdded(doc, now, a0, parent, tag, rel, insert, name, value)
    requires a0 == a || (parent == 0 && rel == 0 && 0 < |a| && a0 == a[0 := a[0].(endL := |doc|)])
    ensures TextAdded(doc, now, a, parent, tag, rel, insert, name, value)
  {
    hide ElemText, UpToTag, Splice;
  }

  lemma AddedFrom(a: seq<ElemPos>, a0: seq<ElemPos>, tree: Forest, b: seq<ElemPos>, t: Forest, parent: nat, rel: nat,
                  insert: bool, id: nat, name: string, value: string)
    requires Added(a0, tree, b, t, parent, rel, insert, id, name, value) && SameLinks(a, a0)
    ensures Added(a, tree, b, t, parent, rel, insert, id, name, value)
  {
    hide Ids, ViewOf, Outside;
  }

  lemma AddedCursor(a: seq<ElemPos>, tree: Forest, b: seq<ElemPos>, t: Forest, parent: nat, rel: nat, insert: bool,
                    id: nat, name: string, value: string)
    requires Added(a, tree, b, t, parent, rel, insert, id, name, value)
    ensures id in Ids(t) && Ids(tree) <= Ids(t) && id < |b| && b[id].parent == parent
    ensures forall j :: j in Ids(tree) && j < |a| ==> b[j].parent == a[j].parent
  {
    hide Ids, ViewOf, Outside;
  }

  lemma SameOutside(f: Forest, g: Forest, parent: nat)
    requires forall j :: j in Ids(f) ==> ViewOf(f, j) == ViewOf(g, j)
    ensures forall j :: j in Ids(f) ==> Outside(ViewOf(f, j), ViewOf(g, j), j == parent)
  {
    hide ViewOf, Ids;
  }

  lemma PlaceParts(doc: string, a: seq<ElemPos>, tree: Forest, p: Place, parent: nat, before: nat, offset: int)
    requires PlaceOk(doc, a, tree, p, parent, before, offset)
    ensures CtxOk(p.c) && Plug(p.f, p.c) == tree && p.k <= LeadLen(p.f) && ParentOf(p.c) == parent < |a| && before < |a|
    ensures FirstId(p.f) == (if before != 0 then a[before].next else a[parent].child)
    ensures PrevId(p.c) == before && offset == |Pre(p.c)| + p.k
  {
  }

  lemma SplitLinks(a: seq<ElemPos>, a0: seq<ElemPos>, free: nat, q: Forest, n: Forest, c: Ctx, plan: seq<Item>, d: int)
    requires q.Node? && n.Node? && CtxOk(c) && 0 < q.id < free <= |a| && SplitRecorded(a, a0, free, q, n, c)
    ensures var b := VisitAll(a0, plan, d);
            && |b| == |a0| && (forall j :: 0 <= j < free ==> b[j].parent == a[j].parent)
            && b[free].parent == q.id && b[free].next == 0 && b[q.id].child == free
  {
    hide Render, TagBody, Pre, WF;
    VisitKeepsLinks(a0, plan, d);
    var r := a[q.id].(child := n.id, startR := a[q.id].startR - 1, endL := a[q.id].endL - (|q.name| + 1));
    forall j | 0 <= j < free ensures a0[j] == a[q.id := r][j] {
      assert a0[..free][j] == a[q.id := r][..free][j];
    }
  }

  // ---- InsertElem of a document element ----

  lemma {:induction false} TagFollows(f: Forest)
    requires WF(f) && Render(f) != "" && Render(f)[0] == '<'
    ensures 1 < |Render(f)| && Render(f)[1] != '<'
    ensures Roots(f) == 0 ==> Render(f)[1] == '?' || Render(f)[1] == '!'
  {
    match f
    case Nil =>
    case Chunk(text, next) =>
      if text == "" {
        assert Render(f) == Render(next);
        TagFollows(next);
      } else {
        assert Render(f)[0] == text[0] && !PlainText(text);
      }
    case Node(_, name, attrs, tail, _, kids, _, next) =>
      var h := "<" + (name + AttrsText(attrs) + tail);
      assert Around(f, Render(kids))[1] == name[0] == h[1];
      assert NameChar(name[0]);
  }

  // The element lands behind the first character, which keeps the document well formed exactly when that
  // is not the '<' of a declaration or comment.
  lemma RootInsertFits(doc: string, a: seq<ElemPos>, free: nat, tree: Forest, name: string, value: string)
    requires Indexed(doc, a, free, tree) && Roots(tree) == 0 && doc != "" && NameOk(name) && CString(value)
    ensures var s := Splice(doc, UpToTag(doc, 1), 0, Core(NewElem(free, name, value)) + "\r\n");
            doc[0] != '<' <==> exists t: Forest :: WF(t) && Roots(t) == 1 && Render(t) == s
  {
    hide UpToTag, Core, Placed, WF, Splice, NewElem;
    var n := NewElem(free, name, value);
    NewElemOk(free, name, value);
    NewElemShape(free, name, value);
    var s := Splice(doc, UpToTag(doc, 1), 0, Core(n) + "\r\n");
    if doc[0] != '<' {
      var t := RootInserted(doc, a, free, tree, n);
    } else {
      TreeWF(doc, a, free, tree);
      TagFollows(tree);
      SecondChar(doc, n);
      forall t: Forest | WF(t) && Roots(t) == 1 ensures Render(t) != s {
        NoDoubleStart(t, s);
      }
    }
  }

  lemma NewElemShape(id: nat, name: string, value: string)
    ensures var n := NewElem(id, name, value); n.Node? && n.id == id && n.next == Nil && n.name == name && n.attrs == []
  {
  }

  lemma RootInserted(doc: string, a: seq<ElemPos>, free: nat, tree: Forest, n: Forest) returns (t: Forest)
    requires Indexed(doc, a, free, tree) && Roots(tree) == 0 && doc != "" && doc[0] != '<'
    requires n.Node? && n.next == Nil && WF(n)
    ensures WF(t) && Roots(t) == 1 && Render(t) == Splice(doc, UpToTag(doc, 1), 0, Core(n) + "\r\n")
  {
    hide UpToTag, Core, Placed, WF, Splice, Render, InsertAt;
    var p := RootInsertPlace(doc, a, free, tree);
    var g := InsertAt(p.f, p.k, n);
    PlaceReady(doc, a, free, p.f, p.c);
    InsertText(doc, p.f, n, p.c, p.k);
    PlugWF(g, p.c);
    PlugRoots(p.f, g, p.c);
    PlugRoots(g, p.f, p.c);
    t := Plug(g, p.c);
  }

  lemma NoDoubleStart(t: Forest, s: string)
    requires WF(t) && 1 < |s| && s[0] == '<' && s[1] == '<'
    ensures Render(t) != s
  {
    if Render(t) != "" && Render(t)[0] == '<' {
      TagFollows(t);
    }
  }

  // A token that starts at offset 1 of "<?" or "<!" is not a tag, so the element goes there.
  lemma SecondChar(doc: string, n: Forest)
    requires 1 < |doc| && doc[0] == '<' && (doc[1] == '?' || doc[1] == '!') && n.Node?
    ensures UpToTag(doc, 1) == 1
    ensures var s := Splice(doc, 1, 0, Core(n) + "\r\n"); 1 < |s| && s[0] == '<' && s[1] == '<'
  {
    assert SkipSpaces(doc, 1) == 1;
    CoreAround(n);
    NodeStarts(n, Render(n.kids));
  }
}

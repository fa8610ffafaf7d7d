/** Edits of an indexed document: what each does to the tree, and that text, offsets and links still agree
    afterwards. */
module MarkupEdit {
  import opened MarkupText
  import opened MarkupTree
  import opened MarkupIndex
  import opened MarkupAdjust

  // The elements at the top level; a document has at most one.
  function Roots(f: Forest): nat {
    match f
    case Nil => 0
    case Chunk(_, next) => Roots(next)
    case Node(_, _, _, _, _, _, _, next) => 1 + Roots(next)
  }

  // The text is that of the tree, and the array indexes it.
  ghost predicate Indexed(doc: string, a: seq<ElemPos>, free: nat, tree: Forest) {
    && WF(tree) && Distinct(tree) && Roots(tree) <= 1
    && doc == Render(tree)
    && 8 <= |a| && 0 < free <= |a|
    && Placed(a, tree, 0, 0) && a[0].child == FirstId(tree) && a[0].startR == 0
    && forall i :: i in Ids(tree) ==> 0 < i < free
  }

  // ---- finding an element ----

  ghost predicate CtxWF(c: Ctx)
    requires CtxOk(c)
  {
    match c
    case Top => true
    case InKids(n, up) => WF(SetKids(n, Nil)) && CtxWF(up)
    case InNext(n, up) => WF(SetNext(n, Nil)) && CtxWF(up)
  }

  lemma {:induction false} PlugWF(f: Forest, c: Ctx)
    requires CtxOk(c)
    ensures WF(Plug(f, c)) <==> WF(f) && CtxWF(c)
    decreases c
  {
    match c
    case Top =>
    case InKids(n, up) =>
      PlugWF(SetKids(n, f), up);
      assert WF(SetKids(n, f)) <==> WF(f) && WF(SetKids(n, Nil));
    case InNext(n, up) =>
      PlugWF(SetNext(n, f), up);
      assert WF(SetNext(n, f)) <==> WF(f) && WF(SetNext(n, Nil));
  }

  lemma {:induction false} PlugRoots(f: Forest, g: Forest, c: Ctx)
    requires CtxOk(c)
    ensures Frames(c) != [] || Roots(f) == Roots(g) ==> Roots(Plug(f, c)) == Roots(Plug(g, c))
    ensures Frames(c) == [] ==> Roots(Plug(f, c)) == Roots(Plug(Nil, c)) + Roots(f)
    decreases c
  {
    match c
    case Top =>
    case InKids(n, up) =>
      PlugRoots(SetKids(n, f), SetKids(n, g), up);
    case InNext(n, up) =>
      PlugRoots(SetNext(n, f), SetNext(n, g), up);
      PlugRoots(SetNext(n, Nil), SetNext(n, g), up);
  }

  // The element with the given index, and its place.
  lemma {:induction false} Locate(f: Forest, c: Ctx, id: nat) returns (n: Forest, d: Ctx)
    requires CtxOk(c) && WF(f) && id in Ids(f)
    ensures CtxOk(d) && n.Node? && n.id == id && Plug(n, d) == Plug(f, c)
    decreases f
  {
    match f
    case Chunk(_, next) =>
      n, d := Locate(next, InNext(f, c), id);
    case Node(i, _, _, _, _, kids, _, next) =>
      if i == id {
        n, d := f, c;
      } else if id in Ids(kids) {
        assert SetKids(f, kids) == f;
        n, d := Locate(kids, InKids(f, c), id);
      } else {
        n, d := Locate(next, InNext(f, c), id);
      }
  }

  lemma LocateIn(tree: Forest, id: nat) returns (n: Forest, d: Ctx)
    requires WF(tree) && id in Ids(tree)
    ensures CtxOk(d) && n.Node? && n.id == id && Plug(n, d) == tree
  {
    n, d := Locate(tree, Top, id);
  }

  // ---- the visits of x_Adjust around an element ----

  lemma AdjustReady(a: seq<ElemPos>, n: Forest, c: Ctx, after: bool, kb: int, nb: int, first: nat, len: int)
    requires n.Node? && CtxOk(c) && Apart(n, c) && 0 < n.id < |a|
    requires a[n.id].parent == ParentOf(c) && a[n.id].next == FirstId(n.next)
    requires !after ==> a[n.id].child == FirstId(n.kids) && Placed(a, n.kids, kb, n.id)
    requires Placed(a, n.next, nb, ParentOf(c)) && CtxPlaced(a, c, first, len)
    ensures StandOk(a, Stand(n, after, Frames(c), 0))
  {
    hide Placed, CtxPlaced, FramesLinked, FramesDistinct, Frames, CtxDistinct;
    CtxFrames(c);
    CtxPlacedLinked(a, c, first, len);
    PlacedLinked(a, n.next, nb, ParentOf(c));
    if !after {
      PlacedLinked(a, n.kids, kb, n.id);
    }
  }

  lemma PlanShifts(a: seq<ElemPos>, n: Forest, c: Ctx, after: bool, kb: int, nb: int, first: nat, len: int, d: int)
    requires n.Node? && CtxOk(c) && Apart(n, c)
    requires !after ==> Placed(a, n.kids, kb, n.id)
    requires Placed(a, n.next, nb, ParentOf(c)) && CtxPlaced(a, c, first, len)
    ensures var b := VisitAll(a, Plan(n, c, after), d);
            && (!after ==> Placed(b, n.kids, kb + d, n.id))
            && Placed(b, n.next, nb + d, ParentOf(c)) && CtxPlaced(b, c, first, len + d)
            && SameLinks(a, b) && 0 < |a| && b[0].startR == a[0].startR
            && (0 < n.id < |a| ==> b[n.id] == a[n.id])
  {
    hide Placed, CtxPlaced, VisitAll, Walk, RestPlan, Frames, CtxDistinct, Pre;
    var kids := if after then Nil else n.kids;
    PlanParts(a, n, c, after, d);
    var b1 := VisitAll(a, Walk(kids), d);
    var b2 := VisitAll(b1, Walk(n.next), d);
    var b := VisitAll(b2, RestPlan(Frames(c), 0), d);
    CtxPlacedIds(a, c, first, len);
    PlacedIds(a, n.next, nb, ParentOf(c));
    WalkVisits(kids);
    WalkVisits(n.next);
    RestVisits(c);
    if !after {
      PlacedIds(a, n.kids, kb, n.id);
      WalkShifts(a, kids, kb, n.id, d);
      VisitKeepsOther(b1, n.next, kids, kb + d, n.id, d);
      RestKeepsOther(b2, c, kids, kb + d, n.id, d);
    }
    VisitKeepsOther(a, kids, n.next, nb, ParentOf(c), d);
    WalkShifts(b1, n.next, nb, ParentOf(c), d);
    RestKeepsOther(b2, c, n.next, nb + d, ParentOf(c), d);
    VisitKeepsLinks(a, Walk(kids), d);
    VisitKeepsLinks(b1, Walk(n.next), d);
    VisitKeepsLinks(b2, RestPlan(Frames(c), 0), d);
    forall i | (i in CtxIds(c) || i == n.id || i == 0) && i < |a| ensures b2[i] == a[i] {
      VisitFrame(a, Walk(kids), d, i);
      VisitFrame(b1, Walk(n.next), d, i);
    }
    CtxPlacedFrame(a, b2, c, first, len);
    RestShifts(b2, c, first, len, d);
    if 0 < n.id < |a| {
      VisitFrame(b2, RestPlan(Frames(c), 0), d, n.id);
    }
    RootStaysAtZero(b2, c, d);
  }

  // ---- text ----

  // x_DocChange
  function Splice(doc: string, left: int, replace: int, insert: string): string
    requires 0 <= left && 0 <= replace && left + replace <= |doc|
  {
    doc[..left] + insert + doc[left + replace..]
  }

  lemma SpliceInside(pre: string, u: string, v: string, w: string, post: string, insert: string)
    ensures var doc := pre + (u + v + w) + post;
            && |pre| + |u| + |v| <= |doc|
            && Splice(doc, |pre| + |u|, |v|, insert) == pre + (u + insert + w) + post
  {
    var doc := pre + (u + v + w) + post;
    assert doc[..|pre| + |u|] == pre + u;
    assert doc[|pre| + |u| + |v|..] == w + post;
  }

  // ---- changing one element ----

  // m takes the place of n: the same element with other attributes, or with other text in place of
  // its contents.
  ghost predicate Replaces(n: Forest, m: Forest) {
    && n.Node? && m.Node? && m.id == n.id && m.next == n.next && WF(m)
    && m.name == n.name
    && ((m.kids == n.kids && m.empty == n.empty && m.close == n.close) || (Ids(n.kids) == {} && Ids(m.kids) == {}))
  }

  lemma {:induction false} NoElements(a: seq<ElemPos>, f: Forest, base: int, parent: nat)
    requires Ids(f) == {}
    ensures Placed(a, f, base, parent) && Distinct(f) && FirstId(f) == 0 && Roots(f) == 0 && Walk(f) == []
  {
    if f.Chunk? {
      NoElements(a, f.next, base + |f.text|, parent);
    }
  }

  lemma {:induction false} NoFirst(a: seq<ElemPos>, f: Forest, base: int, parent: nat)
    requires Placed(a, f, base, parent) && FirstId(f) == 0
    ensures Ids(f) == {}
  {
    if f.Chunk? {
      NoFirst(a, f.next, base + |f.text|, parent);
    }
  }

  // The array as it stands when x_Adjust is called (a0) and when the edit is finished (a2).
  ghost predicate NodeEdit(a: seq<ElemPos>, a0: seq<ElemPos>, a2: seq<ElemPos>, n: Forest, m: Forest, c: Ctx)
    requires n.Node? && m.Node? && CtxOk(c)
  {
    && 0 < n.id < |a| && |a0| == |a| && a0 == a[n.id := a0[n.id]]
    && a0[n.id].parent == a[n.id].parent && a0[n.id].child == a[n.id].child && a0[n.id].next == a[n.id].next
    && var a1 := VisitAll(a0, Plan(n, c, false), |Core(m)| - |Core(n)|);
    && a2 == a1[n.id := Pos(m, |Pre(c)|, |Render(m.kids)|, ParentOf(c), FirstId(m.kids), FirstId(m.next))]
  }

  lemma NodeReady(doc: string, a: seq<ElemPos>, free: nat, n: Forest, c: Ctx)
    requires n.Node? && CtxOk(c) && Indexed(doc, a, free, Plug(n, c))
    ensures WF(n) && CtxWF(c) && Apart(n, c) && doc == Pre(c) + (Core(n) + Render(n.next)) + Post(c)
    ensures 0 < n.id < |a|
    ensures a[n.id] == Pos(n, |Pre(c)|, |Render(n.kids)|, ParentOf(c), FirstId(n.kids), FirstId(n.next))
    ensures Placed(a, n.kids, StartR(n, |Pre(c)|) + 1, n.id)
    ensures Placed(a, n.next, |Pre(c)| + |Core(n)|, ParentOf(c))
    ensures CtxPlaced(a, c, n.id, |Core(n)| + |Render(n.next)|)
  {
    hide Placed, Pos, CtxPlaced, CtxWF, Pre, Post, Apart, Distinct, Render, Core, StartR, WF;
    PlugWF(n, c);
    PlugIds(n, c);
    PlugText(n, c);
    PlugPlaced(a, n, c);
    RenderNode(n);
    NodeParts(a, n, |Pre(c)|, ParentOf(c));
  }

  lemma RenderNode(n: Forest)
    requires n.Node?
    ensures Render(n) == Core(n) + Render(n.next)
  {
  }

  lemma NodeParts(a: seq<ElemPos>, n: Forest, base: int, parent: nat)
    requires n.Node? && Placed(a, n, base, parent)
    ensures 0 < n.id < |a| && a[n.id] == Pos(n, base, |Render(n.kids)|, parent, FirstId(n.kids), FirstId(n.next))
    ensures Placed(a, n.kids, StartR(n, base) + 1, n.id) && Placed(a, n.next, base + |Core(n)|, parent)
    ensures FirstId(n) == n.id
  {
    hide Render;
    AroundLength(n, Render(n.kids));
  }

  lemma SetRecord(a: seq<ElemPos>, i: nat, r: ElemPos, f: Forest, base: int, parent: nat)
    requires i < |a| && i !in Ids(f) && Placed(a, f, base, parent)
    ensures Placed(a[i := r], f, base, parent)
  {
    PlacedFrame(a, a[i := r], f, base, parent);
  }

  lemma SetRecordCtx(a: seq<ElemPos>, i: nat, r: ElemPos, c: Ctx, first: nat, len: int)
    requires 0 < i < |a| && CtxOk(c) && i !in CtxIds(c) && CtxPlaced(a, c, first, len)
    ensures CtxPlaced(a[i := r], c, first, len)
  {
    CtxPlacedFrame(a, a[i := r], c, first, len);
  }

  lemma NodeAdjustReady(doc: string, a: seq<ElemPos>, a0: seq<ElemPos>, free: nat, n: Forest, c: Ctx)
    requires n.Node? && CtxOk(c) && Indexed(doc, a, free, Plug(n, c))
    requires n.id < |a| == |a0| && a0 == a[n.id := a0[n.id]]
    requires a0[n.id].parent == a[n.id].parent && a0[n.id].child == a[n.id].child && a0[n.id].next == a[n.id].next
    ensures StandOk(a0, Stand(n, false, Frames(c), 0))
  {
    hide Placed, CtxPlaced, Indexed, StandOk, Render, Core, StartR, EndL, EndR, WF, CtxWF, Pre, Plug, Post;
    NodeReady(doc, a, free, n, c);
    var kb, nb, len := StartR(n, |Pre(c)|) + 1, |Pre(c)| + |Core(n)|, |Core(n)| + |Render(n.next)|;
    SetRecord(a, n.id, a0[n.id], n.kids, kb, n.id);
    SetRecord(a, n.id, a0[n.id], n.next, nb, ParentOf(c));
    SetRecordCtx(a, n.id, a0[n.id], c, n.id, len);
    AdjustReady(a0, n, c, false, kb, nb, n.id, len);
  }

  lemma NodeEdited(doc: string, a: seq<ElemPos>, a0: seq<ElemPos>, a2: seq<ElemPos>, free: nat, n: Forest, m: Forest,
                   c: Ctx)
    requires Replaces(n, m) && CtxOk(c) && Indexed(doc, a, free, Plug(n, c)) && NodeEdit(a, a0, a2, n, m, c)
    ensures Indexed(Render(Plug(m, c)), a2, free, Plug(m, c))
  {
    hide Placed, CtxPlaced, Render, Core, CtxWF, Apart, VisitAll, Plan, StartR, EndL, EndR, WF, Pre, Post, CtxOk, Ids,
         Roots, Frames;
    NodeReady(doc, a, free, n, c);
    var d := |Core(m)| - |Core(n)|;
    var kb, nb, len := StartR(n, |Pre(c)|) + 1, |Pre(c)| + |Core(n)|, |Core(n)| + |Render(n.next)|;
    var r := a0[n.id];
    NodeApart(n, m, c);
    SetRecord(a, n.id, r, n.kids, kb, n.id);
    SetRecord(a, n.id, r, n.next, nb, ParentOf(c));
    SetRecordCtx(a, n.id, r, c, n.id, len);
    PlanShifts(a0, n, c, false, kb, nb, n.id, len, d);
    var a1 := VisitAll(a0, Plan(n, c, false), d);
    var s := a2[n.id];
    SetRecord(a1, n.id, s, n.kids, kb + d, n.id);
    SetRecord(a1, n.id, s, n.next, nb + d, ParentOf(c));
    SetRecordCtx(a1, n.id, s, c, n.id, len + d);
    NodePlaced(a2, n, m, |Pre(c)|, ParentOf(c), d);
    PlugPlaced(a2, m, c);
    PlugWF(m, c);
    PlugIds(m, c);
    PlugIds(n, c);
    PlugRoots(n, m, c);
  }

  lemma NodeApart(n: Forest, m: Forest, c: Ctx)
    requires Replaces(n, m) && CtxOk(c) && Apart(n, c)
    ensures Apart(m, c) && Ids(m) == Ids(n) && Roots(m) == Roots(n) && FirstId(m.kids) == FirstId(n.kids)
    ensures n.id !in Ids(n.kids) && n.id !in Ids(n.next) && n.id !in CtxIds(c)
  {
    if m.kids != n.kids {
      NoElements([], m.kids, 0, 0);
      NoElements([], n.kids, 0, 0);
    }
  }

  lemma NodePlaced(a: seq<ElemPos>, n: Forest, m: Forest, base: int, parent: nat, d: int)
    requires Replaces(n, m) && d == |Core(m)| - |Core(n)| && 0 < m.id < |a|
    requires a[m.id] == Pos(m, base, |Render(m.kids)|, parent, FirstId(m.kids), FirstId(m.next))
    requires Placed(a, n.kids, StartR(n, base) + 1 + d, n.id) && Placed(a, n.next, base + |Core(n)| + d, parent)
    ensures Placed(a, m, base, parent) && |Render(m)| == |Core(n)| + |Render(n.next)| + d
  {
    hide Render, Ids;
    AroundLength(m, Render(m.kids));
    AroundLength(n, Render(n.kids));
    RenderNode(m);
    if Ids(m.kids) == {} {
      NoElements(a, m.kids, StartR(m, base) + 1, m.id);
    }
  }

  // ---- adding and removing elements: the text between them ----

  // How much plain text f begins with, before any '<'.
  ghost function LeadLen(f: Forest): nat {
    if f.Chunk? && PlainText(f.text) then |f.text| + LeadLen(f.next) else 0
  }

  // f without its first k characters.
  ghost function DropLead(f: Forest, k: nat): Forest
    requires k <= LeadLen(f)
  {
    if k == 0 then f
    else if k < |f.text| then Chunk(f.text[k..], f.next)
    else DropLead(f.next, k - |f.text|)
  }

  // The element n and a line break, k characters into f.
  ghost function InsertAt(f: Forest, k: nat, n: Forest): Forest
    requires k <= LeadLen(f) && n.Node?
  {
    if k == 0 then SetNext(n, Chunk("\r\n", f))
    else if k < |f.text| then Chunk(f.text[..k], SetNext(n, Chunk("\r\n", Chunk(f.text[k..], f.next))))
    else Chunk(f.text, InsertAt(f.next, k - |f.text|, n))
  }

  lemma DropLeadOk(a: seq<ElemPos>, f: Forest, k: nat, base: int, parent: nat)
    requires WF(f) && k <= LeadLen(f) && Placed(a, f, base, parent)
    ensures var g := DropLead(f, k);
            && WF(g) && k <= |Render(f)| && Render(g) == Render(f)[k..] && Placed(a, g, base + k, parent)
            && FirstId(g) == FirstId(f) && Ids(g) == Ids(f) && Roots(g) == Roots(f) && (Distinct(f) ==> Distinct(g))
  {
    DropLeadText(f, k);
    DropLeadPlaced(a, f, k, base, parent);
  }

  lemma {:induction false} DropLeadText(f: Forest, k: nat)
    requires WF(f) && k <= LeadLen(f)
    ensures WF(DropLead(f, k)) && k <= |Render(f)| && Render(DropLead(f, k)) == Render(f)[k..]
    decreases f
  {
    hide NameOk, AttrsOk, Blank, ChunkOk, Around, SpecialText;
    if 0 < k {
      if k < |f.text| {
        SplitChunkOk(f.text, k);
        assert Render(f)[k..] == f.text[k..] + Render(f.next);
      } else {
        DropLeadText(f.next, k - |f.text|);
        assert Render(f)[k..] == Render(f.next)[k - |f.text|..];
      }
    }
  }

  lemma {:induction false} DropLeadPlaced(a: seq<ElemPos>, f: Forest, k: nat, base: int, parent: nat)
    requires k <= LeadLen(f) && Placed(a, f, base, parent)
    ensures var g := DropLead(f, k);
            && Placed(a, g, base + k, parent) && FirstId(g) == FirstId(f) && Ids(g) == Ids(f) && Roots(g) == Roots(f)
            && (Distinct(f) ==> Distinct(g))
    decreases f
  {
    hide Render, PlainText;
    if 0 < k && |f.text| <= k {
      DropLeadPlaced(a, f.next, k - |f.text|, base + |f.text|, parent);
    }
  }

  lemma InsertFront(f: Forest, n: Forest)
    requires WF(f) && n.Node? && n.next == Nil && WF(n)
    ensures var g := SetNext(n, Chunk("\r\n", f));
            && WF(g) && Render(g) == Core(n) + "\r\n" + Render(f) && FirstId(g) == n.id
            && Ids(g) == Ids(f) + {n.id} + Ids(n.kids) && Roots(g) == Roots(f) + 1
  {
    hide ChunkOk, NameOk, AttrsOk, Around;
    var e := Chunk("\r\n", f);
    LineBreakOk();
    NextText(n, e);
    OwnTextCore(n);
    assert Render(e) == "\r\n" + Render(f);
    assert Core(n) + ("\r\n" + Render(f)) == Core(n) + "\r\n" + Render(f);
    assert Ids(e) == Ids(f) && Roots(e) == Roots(f) && WF(e);
  }

  lemma RenderChunk(f: Forest)
    requires f.Chunk?
    ensures Render(f) == f.text + Render(f.next)
  {
  }

  lemma InsertInside(s: string, t: string, x: string, k: nat)
    requires k <= |s|
    ensures (s + t)[..k] + x + (s + t)[k..] == s[..k] + (x + (s[k..] + t))
  {
  }

  lemma InsertBehind(s: string, t: string, x: string, k: nat)
    requires |s| <= k <= |s| + |t|
    ensures (s + t)[..k] + x + (s + t)[k..] == s + (t[..k - |s|] + x + t[k - |s|..])
  {
    assert (s + t)[..k] == s + t[..k - |s|];
  }

  // n stands for a new element without element contents, at k characters into f.
  lemma {:induction false} InsertAtText(f: Forest, k: nat, n: Forest)
    requires WF(f) && k <= LeadLen(f) && n.Node? && n.next == Nil && WF(n)
    ensures var g := InsertAt(f, k, n);
            && WF(g) && k <= |Render(f)| && Render(g) == Render(f)[..k] + (Core(n) + "\r\n") + Render(f)[k..]
            && FirstId(g) == n.id && Ids(g) == Ids(f) + {n.id} + Ids(n.kids) && Roots(g) == Roots(f) + 1
    decreases f
  {
    hide Core, ChunkOk, NameOk, AttrsOk, Around;
    if k == 0 {
      InsertFront(f, n);
      assert Render(f)[..0] + (Core(n) + "\r\n") + Render(f)[0..] == Core(n) + "\r\n" + Render(f);
    } else if k < |f.text| {
      var r := Chunk(f.text[k..], f.next);
      SplitChunkOk(f.text, k);
      InsertFront(r, n);
      RenderChunk(f);
      RenderChunk(r);
      InsertInside(f.text, Render(f.next), Core(n) + "\r\n", k);
    } else {
      var j := k - |f.text|;
      InsertAtText(f.next, j, n);
      RenderChunk(f);
      InsertBehind(f.text, Render(f.next), Core(n) + "\r\n", k);
    }
  }

  lemma LineBreakOk()
    ensures ChunkOk("\r\n")
  {
  }

  lemma SplitChunkOk(text: string, k: nat)
    requires ChunkOk(text) && PlainText(text) && k <= |text|
    ensures ChunkOk(text[..k]) && ChunkOk(text[k..]) && PlainText(text[k..])
  {
  }

  lemma {:induction false} InsertAtPlaced(a: seq<ElemPos>, f: Forest, k: nat, n: Forest, base: int, parent: nat)
    requires k <= LeadLen(f) && n.Node? && n.next == Nil && Ids(n.kids) == {} && 0 < n.id < |a|
    requires a[n.id] == Pos(n, base + k, |Render(n.kids)|, parent, 0, FirstId(f))
    requires Placed(a, f, base + |Core(n)| + 2, parent)
    ensures Placed(a, InsertAt(f, k, n), base, parent)
    decreases f
  {
    hide Render, Core;
    AroundLength(n, Render(n.kids));
    CoreAround(n);
    if k == 0 || k < |f.text| {
      NoElements(a, n.kids, StartR(n, base + k) + 1, n.id);
      var rest := if k == 0 then Chunk("\r\n", f) else Chunk("\r\n", Chunk(f.text[k..], f.next));
      NextPlaced(a, n, rest, base + k, parent);
      OwnTextCore(n);
    } else {
      assert Placed(a, f.next, base + |f.text| + |Core(n)| + 2, parent);
      InsertAtPlaced(a, f.next, k - |f.text|, n, base + |f.text|, parent);
    }
  }

  lemma CoreAround(n: Forest)
    requires n.Node?
    ensures Core(n) == Around(n, Render(n.kids))
  {
  }

  lemma OwnTextCore(n: Forest)
    requires n.Node?
    ensures OwnText(n) == Core(n)
  {
  }

  lemma {:induction false} InsertAtDistinct(f: Forest, k: nat, n: Forest)
    requires k <= LeadLen(f) && n.Node? && n.next == Nil && Ids(n.kids) == {} && n.id !in Ids(f) && Distinct(f)
    ensures Distinct(InsertAt(f, k, n)) && Ids(InsertAt(f, k, n)) == Ids(f) + {n.id}
    decreases f
  {
    NoElements([], n.kids, 0, 0);
    if k == 0 || k < |f.text| {
      var r := if k == 0 then f else Chunk(f.text[k..], f.next);
      assert Distinct(r) && Ids(r) == Ids(f);
      var e := Chunk("\r\n", r);
      var g := SetNext(n, e);
      assert Ids(e) == Ids(f) && Distinct(e);
      DistinctNode(g, n.kids, e);
    } else {
      InsertAtDistinct(f.next, k - |f.text|, n);
    }
  }

  lemma DistinctNode(g: Forest, kids: Forest, next: Forest)
    requires g.Node? && g.kids == kids && g.next == next && Ids(kids) == {} && Distinct(kids) && Distinct(next)
             && g.id !in Ids(next)
    ensures Distinct(g) && Ids(g) == Ids(next) + {g.id}
  {
  }

  // ---- where the white space in front of the next tag ends ----

  lemma {:induction false} LeadText(f: Forest)
    requires WF(f)
    ensures LeadLen(f) <= |Render(f)| && (LeadLen(f) < |Render(f)| ==> Render(f)[LeadLen(f)] == '<')
  {
    match f
    case Nil =>
    case Chunk(text, next) =>
      LeadText(next);
    case Node(_, _, _, _, _, kids, _, next) =>
      RenderNode(f);
      assert Core(f)[0] == '<' by { NodeStarts(f, Render(kids)); }
  }

  lemma NodeStarts(n: Forest, content: string)
    requires n.Node?
    ensures |Around(n, content)| > 0 && Around(n, content)[0] == '<'
  {
  }

  lemma {:induction false} PostStarts(c: Ctx)
    requires CtxOk(c)
    ensures Post(c) == "" || Post(c)[0] == '<'
    ensures Frames(c) != [] ==> Post(c) != ""
    decreases c
  {
    if c.InNext? {
      PostStarts(c.up);
    }
  }

  // The first token from p on, when it is a tag, or the end of the document.
  function UpToTag(doc: string, p: nat): (q: nat)
    requires p <= |doc|
    ensures p <= q <= |doc|
  {
    var t := FindToken(doc, p);
    if !t.ok || (t.left < |doc| && doc[t.left] == '<') then t.left else p
  }

  lemma {:induction false} SpacesSkipped(doc: string, i: nat, k: nat)
    requires i <= |doc| && i <= k < SkipSpaces(doc, i)
    ensures IsSpace(doc[k])
    decreases k - i
  {
    if i < k {
      SpacesSkipped(doc, i + 1, k);
    }
  }

  lemma UpToTagStops(doc: string, p: nat, k: nat)
    requires p <= |doc| && p <= k < |doc| && doc[k] == '<'
    ensures UpToTag(doc, p) <= k
  {
    var s := SkipSpaces(doc, p);
    if k < s {
      SpacesSkipped(doc, p, k);
    }
  }

  // Only blanks lie before it, exactly unless a quotation mark follows them right in front of a tag: that mark is
  // skipped too.  Before other plain text nothing is skipped.
  lemma OnlyBlanksSkipped(doc: string, p: nat)
    requires p <= |doc|
    ensures var s := SkipSpaces(doc, p); var mark := s + 1 < |doc| && IsQuote(doc[s]) && doc[s + 1] == '<';
            && ((forall k :: p <= k < UpToTag(doc, p) ==> IsSpace(doc[k])) <==> !mark)
            && (!mark ==> UpToTag(doc, p) == if s == |doc| || doc[s] == '<' then s else p)
  {
    var s := SkipSpaces(doc, p);
    forall k | p <= k < s ensures IsSpace(doc[k]) {
      SpacesSkipped(doc, p, k);
    }
    assert s < |doc| ==> !IsSpace(doc[s]);
    if s + 1 < |doc| && IsQuote(doc[s]) && doc[s + 1] == '<' {
      assert UpToTag(doc, p) == s + 1;
    }
  }

  // So it ends inside the plain text at hand.
  lemma UpToTagLead(f: Forest, c: Ctx, j: nat)
    requires CtxOk(c) && WF(f) && j <= LeadLen(f)
    ensures var doc := Pre(c) + Render(f) + Post(c);
            |Pre(c)| + j <= |doc| && UpToTag(doc, |Pre(c)| + j) <= |Pre(c)| + LeadLen(f)
  {
    hide Render, Pre, Post, UpToTag, LeadLen;
    var doc := Pre(c) + Render(f) + Post(c);
    LeadText(f);
    PostStarts(c);
    var k := |Pre(c)| + LeadLen(f);
    if k < |doc| {
      if LeadLen(f) < |Render(f)| {
        assert doc[k] == Render(f)[LeadLen(f)];
      } else {
        assert doc[k] == Post(c)[0];
      }
      UpToTagStops(doc, |Pre(c)| + j, k);
    }
  }

  // ---- adding and removing elements: links ----

  // The element in front of a place, or 0.
  function PrevId(c: Ctx): nat
    requires CtxOk(c)
  {
    match c
    case InNext(n, up) => if n.Node? then n.id else PrevId(up)
    case _ => 0
  }

  // The list at c now begins with element id.
  function Relink(a: seq<ElemPos>, c: Ctx, id: nat): (b: seq<ElemPos>)
    requires CtxOk(c) && PrevId(c) < |a| && ParentOf(c) < |a|
    ensures |b| == |a|
  {
    if PrevId(c) != 0 then a[PrevId(c) := a[PrevId(c)].(next := id)]
    else a[ParentOf(c) := a[ParentOf(c)].(child := id)]
  }

  lemma {:induction false} OwnersIn(c: Ctx)
    requires CtxOk(c)
    ensures PrevId(c) == 0 || PrevId(c) in CtxIds(c)
    ensures ParentOf(c) == 0 || ParentOf(c) in CtxIds(c)
    decreases c
  {
    match c
    case Top =>
    case InKids(n, up) =>
    case InNext(n, up) => OwnersIn(up);
  }

  lemma {:induction false} RelinkPlaced(a: seq<ElemPos>, c: Ctx, first: nat, len: int, id: nat)
    requires CtxOk(c) && CtxPlaced(a, c, first, len) && CtxDistinct(c)
    ensures PrevId(c) < |a| && ParentOf(c) < |a| && CtxPlaced(Relink(a, c, id), c, id, len)
    decreases c
  {
    hide Placed, Render, Pre, StartR, EndR, EndL, Ids, Core;
    CtxPlacedIds(a, c, first, len);
    OwnersIn(c);
    match c
    case Top =>
    case InKids(n, up) =>
      var b := Relink(a, c, id);
      var nb := EndR(n, |Pre(up)|, len) + 1;
      SetRecord(a, n.id, b[n.id], n.next, nb, ParentOf(up));
      SetRecordCtx(a, n.id, b[n.id], up, n.id, EndR(n, 0, len) + 1 + |Render(n.next)|);
    case InNext(n, up) =>
      if n.Chunk? {
        RelinkPlaced(a, up, first, |n.text| + len, id);
      } else {
        var b := Relink(a, c, id);
        SetRecord(a, n.id, b[n.id], n.kids, StartR(n, |Pre(up)|) + 1, n.id);
        SetRecordCtx(a, n.id, b[n.id], up, n.id, |Core(n)| + len);
      }
  }

  lemma RelinkKeeps(a: seq<ElemPos>, c: Ctx, id: nat, f: Forest, base: int, parent: nat)
    requires CtxOk(c) && PrevId(c) < |a| && ParentOf(c) < |a|
    requires Placed(a, f, base, parent) && Ids(f) !! CtxIds(c)
    ensures Placed(Relink(a, c, id), f, base, parent)
    ensures 0 < |a| ==> Relink(a, c, id)[0].startR == a[0].startR
    ensures forall i :: 0 < i < |a| && i !in CtxIds(c) ==> Relink(a, c, id)[i] == a[i]
  {
    OwnersIn(c);
    PlacedIds(a, f, base, parent);
    PlacedFrame(a, Relink(a, c, id), f, base, parent);
  }

  // ---- x_RemoveElem ----

  // Unlinked, then adjusted from the removed element on.
  lemma RemoveReady(doc: string, a: seq<ElemPos>, free: nat, n: Forest, c: Ctx)
    requires n.Node? && CtxOk(c) && Indexed(doc, a, free, Plug(n, c))
    ensures PrevId(c) < |a| && ParentOf(c) < |a|
    ensures StandOk(Relink(a, c, FirstId(n.next)), Stand(n, true, Frames(c), 0))
  {
    hide Placed, CtxPlaced, Indexed, StandOk, Render, Core, StartR, EndL, EndR, Relink;
    NodeReady(doc, a, free, n, c);
    var nb, len := |Pre(c)| + |Core(n)|, |Core(n)| + |Render(n.next)|;
    RelinkPlaced(a, c, n.id, len, FirstId(n.next));
    RelinkKeeps(a, c, FirstId(n.next), n.next, nb, ParentOf(c));
    AdjustReady(Relink(a, c, FirstId(n.next)), n, c, true, 0, nb, FirstId(n.next), len);
  }

  lemma Removed(doc: string, a: seq<ElemPos>, free: nat, n: Forest, c: Ctx, k: nat)
    requires n.Node? && CtxOk(c) && Indexed(doc, a, free, Plug(n, c)) && k <= LeadLen(n.next)
    requires PrevId(c) < |a| && ParentOf(c) < |a|
    ensures var g := DropLead(n.next, k); var d := |Core(n)| + k;
            var a0 := Relink(a, c, FirstId(n.next));
            && |Pre(c)| + d <= |doc|
            && Render(Plug(g, c)) == Splice(doc, |Pre(c)|, d, "")
            && Indexed(Render(Plug(g, c)), VisitAll(a0, Plan(n, c, true), -d), free, Plug(g, c))
  {
    hide Placed, CtxPlaced, Render, Core, CtxWF, VisitAll, Plan, StartR, EndL, EndR, WF, Relink, DropLead, Splice, Pre,
         CtxDistinct, Plug, Post, PrevId;
    NodeReady(doc, a, free, n, c);
    var g, d, first := DropLead(n.next, k), |Core(n)| + k, FirstId(n.next);
    var nb, len := |Pre(c)| + |Core(n)|, |Core(n)| + |Render(n.next)|;
    PartsWF(n);
    RelinkPlaced(a, c, n.id, len, first);
    RelinkKeeps(a, c, first, n.next, nb, ParentOf(c));
    var a0 := Relink(a, c, first);
    PlanShifts(a0, n, c, true, 0, nb, first, len, -d);
    var a1 := VisitAll(a0, Plan(n, c, true), -d);
    DropLeadOk(a1, n.next, k, nb - d, ParentOf(c));
    RemoveText(doc, n, c, k);
    PlugPlaced(a1, g, c);
    PlugWF(g, c);
    PlugIds(g, c);
    PlugIds(n, c);
    PlugRoots(n, g, c);
    PlugRoots(g, n, c);
  }

  lemma PartsWF(n: Forest)
    requires n.Node? && WF(n)
    ensures WF(n.kids) && WF(n.next)
  {
  }

  lemma RemoveText(doc: string, n: Forest, c: Ctx, k: nat)
    requires n.Node? && WF(n) && CtxOk(c) && k <= LeadLen(n.next) && k <= |Render(n.next)|
    requires doc == Pre(c) + (Core(n) + Render(n.next)) + Post(c)
    requires Render(DropLead(n.next, k)) == Render(n.next)[k..]
    ensures var d := |Core(n)| + k;
            |Pre(c)| + d <= |doc| && Render(Plug(DropLead(n.next, k), c)) == Splice(doc, |Pre(c)|, d, "")
  {
    hide Render, Core, DropLead, Splice;
    var r := Render(n.next);
    assert r == r[..k] + r[k..];
    assert Core(n) + r == "" + (Core(n) + r[..k]) + r[k..];
    SpliceInside(Pre(c), "", Core(n) + r[..k], r[k..], Post(c), "");
    assert "" + "" + r[k..] == r[k..];
    assert |Pre(c)| + |""| == |Pre(c)|;
    PlugText(DropLead(n.next, k), c);
  }

  // ---- x_AddElem ----

  // What the new element looks like to x_Adjust: everything that followed the place now follows it.
  lemma InsertReady(a: seq<ElemPos>, f: Forest, n: Forest, c: Ctx, k: nat, base: int, len: int)
    requires n.Node? && n.next == Nil && Ids(n.kids) == {} && CtxOk(c) && Apart(f, c) && 0 < n.id < |a|
    requires n.id !in Ids(f) && n.id !in CtxIds(c)
    requires a[n.id] == Pos(n, |Pre(c)| + k, |Render(n.kids)|, ParentOf(c), 0, FirstId(f))
    requires Placed(a, f, base, ParentOf(c)) && CtxPlaced(a, c, n.id, len)
    ensures StandOk(a, Stand(SetNext(n, f), false, Frames(c), 0)) && Apart(SetNext(n, f), c)
  {
    hide Placed, CtxPlaced, StandOk, Render, StartR, EndL, EndR, Pre;
    NoElements(a, n.kids, 0, n.id);
    var m := SetNext(n, f);
    assert Apart(m, c);
    AdjustReady(a, m, c, false, 0, base, n.id, len);
  }

  // a0: the new element recorded and linked in; a1: adjusted.
  lemma Inserted(doc: string, a: seq<ElemPos>, a0: seq<ElemPos>, free: nat, f: Forest, n: Forest, c: Ctx, k: nat)
    requires CtxOk(c) && Indexed(doc, a, free, Plug(f, c)) && k <= LeadLen(f)
    requires n.Node? && n.next == Nil && Ids(n.kids) == {} && WF(n) && n.id == free
    requires Frames(c) == [] ==> Roots(Plug(f, c)) == 0
    requires |a| <= |a0| && free < |a0| && PrevId(c) < |a| && ParentOf(c) < |a|
    requires a0[..free] == Relink(a, c, n.id)[..free]
    requires a0[n.id] == Pos(n, |Pre(c)| + k, |Render(n.kids)|, ParentOf(c), 0, FirstId(f))
    ensures StandOk(a0, Stand(SetNext(n, f), false, Frames(c), 0))
    ensures var g := InsertAt(f, k, n); var d := |Core(n)| + 2;
            && |Pre(c)| + k <= |doc|
            && Render(Plug(g, c)) == Splice(doc, |Pre(c)| + k, 0, Core(n) + "\r\n")
            && Indexed(Render(Plug(g, c)), VisitAll(a0, Plan(SetNext(n, f), c, false), d), free + 1, Plug(g, c))
  {
    hide Placed, CtxPlaced, Render, Core, CtxWF, VisitAll, Plan, StartR, EndL, EndR, WF, Relink, InsertAt, Splice, Pre,
         StandOk, Plug, LeadLen, Roots, Pos, CtxOk;
    var g, d, m := InsertAt(f, k, n), |Core(n)| + 2, SetNext(n, f);
    PlaceReady(doc, a, free, f, c);
    RelinkPlaced(a, c, FirstId(f), |Render(f)|, n.id);
    RelinkKeeps(a, c, n.id, f, |Pre(c)|, ParentOf(c));
    ExtendArray(Relink(a, c, n.id), a0, free, f, c, n.id);
    InsertReady(a0, f, n, c, k, |Pre(c)|, |Render(f)|);
    NoElements(a0, n.kids, 0, n.id);
    PlanShifts(a0, m, c, false, 0, |Pre(c)|, n.id, |Render(f)|, d);
    var a1 := VisitAll(a0, Plan(m, c, false), d);
    InsertAtPlaced(a1, f, k, n, |Pre(c)|, ParentOf(c));
    InsertText(doc, f, n, c, k);
    InsertAtDistinct(f, k, n);
    PlugPlaced(a1, g, c);
    PlugWF(g, c);
    PlugIds(g, c);
    PlugIds(f, c);
    PlugRoots(f, g, c);
    PlugRoots(g, f, c);
  }

  lemma PlaceReady(doc: string, a: seq<ElemPos>, free: nat, f: Forest, c: Ctx)
    requires CtxOk(c) && Indexed(doc, a, free, Plug(f, c))
    ensures WF(f) && CtxWF(c) && Apart(f, c) && doc == Pre(c) + Render(f) + Post(c)
    ensures Placed(a, f, |Pre(c)|, ParentOf(c)) && CtxPlaced(a, c, FirstId(f), |Render(f)|)
    ensures forall i :: i in Ids(f) || i in CtxIds(c) ==> 0 < i < free
  {
    hide Placed, CtxPlaced, CtxWF, Pre, Post, Apart, Distinct, Render, WF;
    PlugWF(f, c);
    PlugIds(f, c);
    PlugText(f, c);
    PlugPlaced(a, f, c);
  }

  // Records from free on may change.
  lemma ExtendArray(a: seq<ElemPos>, b: seq<ElemPos>, free: nat, f: Forest, c: Ctx, first: nat)
    requires CtxOk(c) && 0 < free <= |a| <= |b| && a[..free] == b[..free]
    requires forall i :: i in Ids(f) || i in CtxIds(c) ==> 0 < i < free
    requires Placed(a, f, |Pre(c)|, ParentOf(c)) && CtxPlaced(a, c, first, |Render(f)|)
    ensures Placed(b, f, |Pre(c)|, ParentOf(c)) && CtxPlaced(b, c, first, |Render(f)|) && b[0] == a[0]
  {
    hide Placed, CtxPlaced, Render, Pre, Ids, CtxIds;
    forall i | 0 <= i < free ensures a[i] == b[i] {
      assert a[..free][i] == b[..free][i];
    }
    PlacedFrame(a, b, f, |Pre(c)|, ParentOf(c));
    CtxPlacedFrame(a, b, c, first, |Render(f)|);
  }

  lemma InsertText(doc: string, f: Forest, n: Forest, c: Ctx, k: nat)
    requires WF(f) && k <= LeadLen(f) && n.Node? && n.next == Nil && WF(n) && CtxOk(c)
    requires doc == Pre(c) + Render(f) + Post(c)
    ensures var g := InsertAt(f, k, n);
            && |Pre(c)| + k <= |doc| && WF(g) && Roots(g) == Roots(f) + 1 && FirstId(g) == n.id
            && |Render(g)| == |Render(f)| + |Core(n)| + 2
            && Render(Plug(g, c)) == Splice(doc, |Pre(c)| + k, 0, Core(n) + "\r\n")
  {
    hide Render, Core, InsertAt, Splice;
    var r := Render(f);
    InsertAtText(f, k, n);
    assert r == r[..k] + "" + r[k..];
    SpliceInside(Pre(c), r[..k], "", r[k..], Post(c), Core(n) + "\r\n");
    PlugText(InsertAt(f, k, n), c);
  }

  // <A/> about to become <A>..</A>.
  ghost function Opened(p: Forest): Forest
    requires p.Node?
  {
    Node(p.id, p.name, p.attrs, p.tail, false, Nil, "", p.next)
  }

  ghost function OnlyChild(n: Forest): Forest
    requires n.Node?
  {
    Chunk("\r\n", SetNext(n, Chunk("\r\n", Nil)))
  }

  // What replaces the '/' of the empty parent p.
  function SplitText(p: Forest, n: Forest): string
    requires p.Node? && n.Node?
  {
    ">\r\n" + (Core(n) + "\r\n") + ("</" + p.name)
  }

  lemma OpenedOk(a: seq<ElemPos>, p: Forest, c: Ctx, d: int)
    requires p.Node? && p.empty && CtxOk(c) && WF(p) && CtxWF(c) && Apart(p, c)
    ensures CtxOk(InKids(Opened(p), c)) && CtxWF(InKids(Opened(p), c)) && Apart(Nil, InKids(Opened(p), c))
    ensures CtxIds(InKids(Opened(p), c)) == Ids(p) + CtxIds(c)
    ensures |Pre(InKids(Opened(p), c))| == |Pre(c)| + 2 + |TagBody(p)|
    ensures TagBody(Opened(p)) == TagBody(p)
    ensures EndR(Opened(p), 0, -(|p.name| + 2)) == EndR(p, 0, 0) && |Core(p)| == EndR(p, 0, 0) + 1
    ensures ParentOf(InKids(Opened(p), c)) == p.id
  {
    assert Ids(p.kids) == {};
  }

  // With the parent's record adjusted in advance, the array is that of a parent whose contents are
  // so short that its end tag ends where the empty tag did.
  lemma SplitPrepared(a: seq<ElemPos>, a0: seq<ElemPos>, p: Forest, c: Ctx, id: nat)
    requires p.Node? && p.empty && CtxOk(c) && WF(p) && CtxWF(c) && Apart(p, c)
    requires 0 < p.id < |a| && |a| <= |a0| && a0[0] == a[0]
    requires forall i :: (i in Ids(p.next) || i in CtxIds(c)) && i < |a| ==> a0[i] == a[i]
    requires a[p.id] == Pos(p, |Pre(c)|, |Render(p.kids)|, ParentOf(c), FirstId(p.kids), FirstId(p.next))
    requires a0[p.id] == a[p.id].(child := id, startR := a[p.id].startR - 1, endL := a[p.id].endL - (|p.name| + 1))
    requires Placed(a, p.next, |Pre(c)| + |Core(p)|, ParentOf(c))
    requires CtxPlaced(a, c, p.id, |Core(p)| + |Render(p.next)|)
    requires CtxOk(InKids(Opened(p), c))
    ensures CtxPlaced(a0, InKids(Opened(p), c), id, -(|p.name| + 2))
  {
    hide Placed, CtxPlaced, Render, TagBody, Pre, CtxWF, CtxIds, Ids;
    var q, len := Opened(p), -(|p.name| + 2);
    OpenedOk(a, p, c, 0);
    PlacedFrame(a, a0, p.next, |Pre(c)| + |Core(p)|, ParentOf(c));
    CtxPlacedFrame(a, a0, c, p.id, |Core(p)| + |Render(p.next)|);
    assert EndR(q, |Pre(c)|, len) == |Pre(c)| + EndR(q, 0, len);
    assert p.kids.Nil?;
    InKidsPlaced(a0, q, c, id, len);
  }

  lemma InKidsPlaced(a: seq<ElemPos>, q: Forest, c: Ctx, id: nat, len: int)
    requires q.Node? && !q.empty && CtxOk(c) && 0 < q.id < |a|
    requires a[q.id] == Pos(q, |Pre(c)|, len, ParentOf(c), id, FirstId(q.next))
    requires Placed(a, q.next, EndR(q, |Pre(c)|, len) + 1, ParentOf(c))
    requires CtxPlaced(a, c, q.id, EndR(q, 0, len) + 1 + |Render(q.next)|)
    ensures CtxPlaced(a, InKids(q, c), id, len)
  {
    hide Placed, Render, Pre, EndR, Pos, FirstId;
  }

  // a0: the new element recorded and linked in, the parent adjusted in advance.
  ghost predicate SplitRecorded(a: seq<ElemPos>, a0: seq<ElemPos>, free: nat, p: Forest, n: Forest, c: Ctx)
    requires p.Node? && n.Node? && CtxOk(c) && 0 < p.id < free <= |a|
  {
    && n.next == Nil && Ids(n.kids) == {} && WF(n) && n.id == free && |a| <= |a0| && free < |a0|
    && var r := a[p.id].(child := n.id, startR := a[p.id].startR - 1, endL := a[p.id].endL - (|p.name| + 1));
    && a0[..free] == a[p.id := r][..free]
    && a0[n.id] == Pos(n, |Pre(c)| + |TagBody(p)| + 4, |Render(n.kids)|, p.id, 0, 0)
  }

  lemma SplitShifted(doc: string, a: seq<ElemPos>, a0: seq<ElemPos>, free: nat, p: Forest, n: Forest, c: Ctx)
    requires p.Node? && p.empty && n.Node? && CtxOk(c) && Indexed(doc, a, free, Plug(p, c)) && 0 < p.id < free
    requires SplitRecorded(a, a0, free, p, n, c)
    ensures CtxOk(InKids(Opened(p), c)) && StandOk(a0, Stand(n, false, Frames(InKids(Opened(p), c)), 0))
    ensures var e := InKids(Opened(p), c); var a1 := VisitAll(a0, Plan(n, e, false), |Core(n)| + |p.name| + 6);
            && |a1| == |a0| && a1[n.id] == a0[n.id] && a1[0].startR == 0
            && CtxPlaced(a1, e, n.id, |Core(n)| + 4)
  {
    hide Placed, CtxPlaced, Render, Core, CtxWF, VisitAll, Plan, StartR, EndL, EndR, WF, Pre, StandOk, TagBody, Apart,
         Post, Plug, Ids, Distinct, Pos;
    NodeReady(doc, a, free, p, c);
    PlugIds(p, c);
    OpenedOk(a, p, c, 0);
    var e, len := InKids(Opened(p), c), -(|p.name| + 2);
    SplitRecords(a, a0, free, p, n, c);
    SplitPrepared(a, a0, p, c, n.id);
    EmptyPlaced(a0, |Pre(e)|, p.id);
    InsertReady(a0, Nil, n, e, 2, |Pre(e)|, len);
    NoElements(a0, n.kids, 0, n.id);
    assert SetNext(n, Nil) == n;
    PlanShifts(a0, n, e, false, 0, |Pre(e)|, n.id, len, |Core(n)| + |p.name| + 6);
  }

  lemma SplitInserted(doc: string, a: seq<ElemPos>, a0: seq<ElemPos>, free: nat, p: Forest, n: Forest, c: Ctx)
    requires p.Node? && p.empty && n.Node? && CtxOk(c) && Indexed(doc, a, free, Plug(p, c)) && 0 < p.id < free
    requires SplitRecorded(a, a0, free, p, n, c)
    ensures CtxOk(InKids(Opened(p), c)) && StandOk(a0, Stand(n, false, Frames(InKids(Opened(p), c)), 0))
    ensures var e := InKids(Opened(p), c); var g := Plug(OnlyChild(n), e); var left := |Pre(c)| + |TagBody(p)| + 1;
            && left + 1 <= |doc| && Render(g) == Splice(doc, left, 1, SplitText(p, n))
            && Indexed(Render(g), VisitAll(a0, Plan(n, e, false), |SplitText(p, n)| - 1), free + 1, g)
  {
    hide Placed, CtxPlaced, Render, Core, CtxWF, VisitAll, Plan, StartR, EndL, EndR, WF, Splice, Pre, StandOk,
         OnlyChild, TagBody, SplitText, Pos;
    NodeReady(doc, a, free, p, c);
    PlugIds(p, c);
    OpenedOk(a, p, c, 0);
    SplitShifted(doc, a, a0, free, p, n, c);
    SplitLength(p, n);
    var e, g := InKids(Opened(p), c), OnlyChild(n);
    var a1 := VisitAll(a0, Plan(n, e, false), |SplitText(p, n)| - 1);
    OnlyChildOk(a1, n, |Pre(e)|, p.id);
    SplitTextOk(doc, p, n, c);
    PlugPlaced(a1, g, e);
    PlugWF(g, e);
    PlugIds(g, e);
    OpenedRoots(p, g, c);
  }

  lemma OpenedRoots(p: Forest, g: Forest, c: Ctx)
    requires p.Node? && CtxOk(c)
    ensures Roots(Plug(g, InKids(Opened(p), c))) == Roots(Plug(p, c))
  {
    PlugRoots(SetKids(Opened(p), g), p, c);
  }

  lemma SplitApart(p: Forest, c: Ctx)
    requires p.Node? && p.empty && WF(p) && CtxOk(c) && Apart(p, c)
    ensures p.id !in Ids(p.next) && p.id !in CtxIds(c) && Ids(p) == {p.id} + Ids(p.next)
  {
    assert Ids(p.kids) == {};
  }

  lemma SplitRecords(a: seq<ElemPos>, a0: seq<ElemPos>, free: nat, p: Forest, n: Forest, c: Ctx)
    requires p.Node? && p.empty && WF(p) && CtxOk(c) && Apart(p, c) && n.Node?
    requires p.id < |a| <= |a0| && 0 < p.id < free <= |a|
    requires forall i :: i in Ids(p) || i in CtxIds(c) ==> 0 < i < free
    requires var r := a[p.id].(child := n.id, startR := a[p.id].startR - 1, endL := a[p.id].endL - (|p.name| + 1));
             a0[..free] == a[p.id := r][..free]
    ensures forall i :: (i in Ids(p.next) || i in CtxIds(c)) && i < |a| ==> a0[i] == a[i]
    ensures a0[0] == a[0]
    ensures a0[p.id] == a[p.id].(child := n.id, startR := a[p.id].startR - 1, endL := a[p.id].endL - (|p.name| + 1))
  {
    hide Ids, CtxIds, Apart, WF;
    SplitApart(p, c);
    var r := a[p.id].(child := n.id, startR := a[p.id].startR - 1, endL := a[p.id].endL - (|p.name| + 1));
    forall i | 0 <= i < free ensures a0[i] == a[p.id := r][i] {
      assert a0[..free][i] == a[p.id := r][..free][i];
    }
  }

  lemma EmptyPlaced(a: seq<ElemPos>, base: int, parent: nat)
    ensures Placed(a, Nil, base, parent) && FirstId(Nil) == 0 && Ids(Nil) == {}
  {
  }

  lemma OnlyChildOk(a: seq<ElemPos>, n: Forest, base: int, parent: nat)
    requires n.Node? && n.next == Nil && Ids(n.kids) == {} && WF(n) && 0 < n.id < |a|
    requires a[n.id] == Pos(n, base + 2, |Render(n.kids)|, parent, 0, 0)
    ensures var g := OnlyChild(n);
            && Placed(a, g, base, parent) && FirstId(g) == n.id && WF(g) && Distinct(g) && Ids(g) == {n.id}
            && Render(g) == "\r\n" + (Core(n) + "\r\n")
  {
    hide Core, Around, ChunkOk, StartR, EndL, EndR, NameOk, AttrsOk;
    LineBreakOk();
    var e := Chunk("\r\n", Nil);
    var m := SetNext(n, e);
    InsertFront(Nil, n);
    assert Render(m) == Core(n) + "\r\n" by {
      assert Core(n) + "\r\n" + Render(Nil) == Core(n) + "\r\n";
    }
    NoElements(a, n.kids, StartR(n, base + 2) + 1, n.id);
    NextPlaced(a, n, e, base + 2, parent);
    assert Placed(a, e, base + 2 + |OwnText(n)|, parent);
    assert Placed(a, m, base + 2, parent);
    assert Ids(e) == {} && Distinct(e) && Distinct(m);
  }

  lemma SplitLength(p: Forest, n: Forest)
    requires p.Node? && n.Node?
    ensures |SplitText(p, n)| == |Core(n)| + |p.name| + 7
  {
  }

  lemma SplitTextOk(doc: string, p: Forest, n: Forest, c: Ctx)
    requires p.Node? && p.empty && n.Node? && CtxOk(c) && CtxOk(InKids(Opened(p), c))
    requires doc == Pre(c) + (Core(p) + Render(p.next)) + Post(c)
    requires Render(OnlyChild(n)) == "\r\n" + (Core(n) + "\r\n")
    ensures var left := |Pre(c)| + |TagBody(p)| + 1;
            && left + 1 <= |doc|
            && Render(Plug(OnlyChild(n), InKids(Opened(p), c))) == Splice(doc, left, 1, SplitText(p, n))
  {
    hide Render, OnlyChild, Splice, TagBody;
    var q := Opened(p);
    assert TagBody(q) == TagBody(p) by { OpenedBody(p); }
    var x := "\r\n" + (Core(n) + "\r\n");
    var r := Render(p.next);
    var u := "<" + TagBody(p);
    assert Core(p) == u + "/>" by { EmptyCore(p); }
    assert u + "/>" + r == u + "/" + (">" + r);
    SpliceInside(Pre(c), u, "/", ">" + r, Post(c), SplitText(p, n));
    PlugText(OnlyChild(n), InKids(q, c));
    KidsText(q, OnlyChild(n));
    PlugText(SetKids(q, OnlyChild(n)), c);
    SplitPieces(u, x, p.name, Core(n), r);
  }

  lemma EmptyCore(p: Forest)
    requires p.Node? && p.empty
    ensures Core(p) == "<" + TagBody(p) + "/>"
  {
  }

  lemma OpenedBody(p: Forest)
    requires p.Node?
    ensures TagBody(Opened(p)) == TagBody(p)
  {
  }

  lemma SplitPieces(u: string, x: string, name: string, core: string, r: string)
    requires x == "\r\n" + (core + "\r\n")
    ensures u + ">" + x + ("</" + name + "" + ">" + r) == u + (">\r\n" + (core + "\r\n") + ("</" + name)) + (">" + r)
  {
    assert ">\r\n" == ">" + "\r\n";
  }
}

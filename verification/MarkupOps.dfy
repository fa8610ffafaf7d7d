/** The facts about an indexed document that the editor's operations use at each of their steps. */
module MarkupOps {
  import opened Substring
  import opened MarkupText
  import opened MarkupTree
  import opened MarkupRender
  import opened MarkupIndex
  import opened MarkupAdjust
  import opened MarkupEdit
  import opened MarkupData
  import opened MarkupAccess
  import opened MarkupPlace

  // ---- the elements around an element ----

  lemma {:induction false} FirstIdIn(a: seq<ElemPos>, f: Forest, base: int, parent: nat)
    requires Placed(a, f, base, parent) && FirstId(f) != 0
    ensures FirstId(f) in Ids(f) && FirstId(f) < |a| && a[FirstId(f)].parent == parent
  {
    if f.Chunk? {
      FirstIdIn(a, f.next, base + |f.text|, parent);
    }
  }

  // The links out of an element lead to its neighbours in the tree.
  lemma LinksOk(doc: string, a: seq<ElemPos>, free: nat, tree: Forest, i: nat)
    requires Indexed(doc, a, free, tree) && i in Ids(tree)
    ensures 0 < i < |a|
    ensures a[i].parent == 0 || a[i].parent in Ids(tree)
    ensures a[i].next != 0 ==> a[i].next in Ids(tree) && a[i].next < |a| && a[a[i].next].parent == a[i].parent
    ensures a[i].child != 0 ==> a[i].child in Ids(tree) && a[i].child < |a| && a[a[i].child].parent == i
  {
    hide Placed, CtxPlaced, Indexed, Pre, StartR, EndL, EndR, Core, Render, Apart, CtxWF, WF, Plug;
    TreeWF(doc, a, free, tree);
    var n, c := LocateIn(tree, i);
    NodeReady(doc, a, free, n, c);
    PlugIds(n, c);
    CtxPlacedIds(a, c, n.id, |Core(n)| + |Render(n.next)|);
    OwnersIn(c);
    if FirstId(n.next) != 0 {
      FirstIdIn(a, n.next, |Pre(c)| + |Core(n)|, ParentOf(c));
    }
    if FirstId(n.kids) != 0 {
      FirstIdIn(a, n.kids, StartR(n, |Pre(c)|) + 1, n.id);
    }
  }

  lemma TreeWF(doc: string, a: seq<ElemPos>, free: nat, tree: Forest)
    requires Indexed(doc, a, free, tree)
    ensures WF(tree) && 8 <= |a| && 0 < free <= |a| && forall i :: i in Ids(tree) ==> 0 < i < free
  {
  }

  lemma RootText(doc: string, a: seq<ElemPos>, free: nat, tree: Forest)
    requires Indexed(doc, a, free, tree)
    ensures doc == Render(tree) && a[0].startR == 0
  {
  }

  lemma RootOk(doc: string, a: seq<ElemPos>, free: nat, tree: Forest)
    requires Indexed(doc, a, free, tree)
    ensures 0 < |a| && (a[0].child != 0 ==> a[0].child in Ids(tree) && a[0].child < |a| && a[a[0].child].parent == 0)
  {
    if FirstId(tree) != 0 {
      FirstIdIn(a, tree, 0, 0);
    }
  }

  // ---- the current position ----

  const NO_NODE := 0
  const ELEMENT_NODE := 1

  // The current element, its parent and the current child are elements and linked so.
  ghost predicate CursorAt(a: seq<ElemPos>, ids: set<nat>, parent: nat, pos: nat, child: nat, nodeType: int) {
    && (forall i :: i in ids ==> i < |a|)
    && (parent == 0 || parent in ids)
    && (pos == 0 || (pos in ids && a[pos].parent == parent))
    && (child == 0 || (pos != 0 && child in ids && a[child].parent == pos))
    && nodeType == if pos != 0 then ELEMENT_NODE else NO_NODE
  }

  lemma CursorKept(a: seq<ElemPos>, b: seq<ElemPos>, ids: set<nat>, parent: nat, pos: nat, child: nat, nodeType: int)
    requires CursorAt(a, ids, parent, pos, child, nodeType) && SameLinks(a, b)
    ensures CursorAt(b, ids, parent, pos, child, nodeType)
  {
  }

  lemma LinksKept(a: seq<ElemPos>)
    ensures SameLinks(a, a)
  {
  }

  // ---- reading ----

  lemma DataAtElement(doc: string, a: seq<ElemPos>, free: nat, n: Forest, c: Ctx)
    requires n.Node? && CtxOk(c) && Indexed(doc, a, free, Plug(n, c))
    ensures n.id < |a| && ViewOf(Plug(n, c), n.id) == View(n.name, n.attrs, Data(n))
    ensures a[n.id].IsEmptyElement() <==> n.empty
    ensures a[n.id].child != 0 <==> Ids(n.kids) != {}
    ensures var lo, hi := a[n.id].startR + 1, a[n.id].endL;
            a[n.id].child == 0 && !n.empty ==> 0 <= lo <= hi < |doc| && Data(n) == DataAt(doc, lo, hi)
  {
    hide Placed, CtxPlaced, Indexed, Data, DataAt, Render, CtxWF, Pre, Post, TagBody, Apart, Plug, WF, Core, EndTagText,
         OccursAt, ViewOf;
    NodeReady(doc, a, free, n, c);
    ViewAt(n, c);
    if FirstId(n.kids) == 0 {
      NoFirst(a, n.kids, StartR(n, |Pre(c)|) + 1, n.id);
    } else {
      FirstIdIn(a, n.kids, StartR(n, |Pre(c)|) + 1, n.id);
    }
    if FirstId(n.kids) == 0 && !n.empty {
      ContentsOccur(doc, n, c);
      DataLocal(doc, StartR(n, |Pre(c)|) + 1, Render(n.kids));
      DataByText(n);
    }
  }

  lemma DataByText(n: Forest)
    requires n.Node? && !n.empty && Ids(n.kids) == {}
    ensures Data(n) == DataAt(Render(n.kids) + "<", 0, |Render(n.kids)|)
  {
    hide DataAt;
  }

  lemma ContentsOccur(doc: string, n: Forest, c: Ctx)
    requires n.Node? && !n.empty && CtxOk(c) && doc == Pre(c) + (Core(n) + Render(n.next)) + Post(c)
    ensures OccursAt(doc, |Pre(c)| + |HeadText(n)|, Render(n.kids) + "<") && |HeadText(n)| == StartR(n, 0) + 1
  {
    hide Render, OccursAt, Pre, Post, TagBody;
    var k, e := Render(n.kids), EndTagText(n);
    assert e == "<" + ("/" + n.name + n.close + ">");
    assert Core(n) == HeadText(n) + k + e;
    var tail := ("/" + n.name + n.close + ">") + Render(n.next) + Post(c);
    assert doc == (Pre(c) + HeadText(n)) + (k + "<") + tail;
    OccursMiddle(Pre(c) + HeadText(n), k + "<", tail);
  }

  lemma AttribAtElement(doc: string, a: seq<ElemPos>, free: nat, n: Forest, c: Ctx, name: string)
    requires n.Node? && CtxOk(c) && Indexed(doc, a, free, Plug(n, c)) && NameOk(name)
    ensures n.id < |a| && a[n.id].startL == |Pre(c)| && |Pre(c)| + 1 <= |doc|
    ensures ViewOf(Plug(n, c), n.id) == View(n.name, n.attrs, Data(n))
    ensures var t := FindAttribFrom(doc, a[n.id].startL + 1, name, 0, 0);
            && (t.ok <==> IndexOf(n.attrs, name) < |n.attrs|)
            && (t.ok ==> t.left == |Pre(c)| + AttrEditAt(n, name) && t.right - t.left + 1 == AttrEditLength(n, name))
            && AttrOf(n.attrs, name) == if t.ok then Unescape(doc, t.left, t.right) else ""
  {
    hide Placed, CtxPlaced, Indexed, Data, Render, CtxWF, Pre, Post, TagBody, Apart, FindAttribFrom, Unescape, Core, WF,
         NameOk, OccursAt, Plug, ViewOf;
    NodeReady(doc, a, free, n, c);
    ViewAt(n, c);
    CoreOccurs(doc, Pre(c), Core(n), Render(n.next), Post(c));
    AttribFound(doc, |Pre(c)|, n, name);
  }

  lemma CoreOccurs(doc: string, pre: string, core: string, rest: string, post: string)
    requires doc == pre + (core + rest) + post
    ensures OccursAt(doc, |pre|, core)
  {
    OccursMiddle(pre, core, rest + post);
    assert doc == pre + core + (rest + post);
  }

  // ---- x_SetAttrib ----

  lemma AttribEditReady(doc: string, a: seq<ElemPos>, free: nat, n: Forest, c: Ctx, name: string, v: string)
    requires n.Node? && CtxOk(c) && Indexed(doc, a, free, Plug(n, c))
    ensures n.id < |a|
    ensures IndexOf(n.attrs, name) == |n.attrs| ==>
              a[n.id].startR - (if a[n.id].IsEmptyElement() then 1 else 0) == |Pre(c)| + AttrEditAt(n, name)
                && AttrEditLength(n, name) == 0
    ensures var m := WithAttr(n, name, v); var d := |AttrEditText(n, name, v)| - AttrEditLength(n, name);
            && |Pre(c)| + AttrEditAt(n, name) + AttrEditLength(n, name) <= |doc|
            && Splice(doc, |Pre(c)| + AttrEditAt(n, name), AttrEditLength(n, name), AttrEditText(n, name, v))
                == Render(Plug(m, c))
            && d == |Core(m)| - |Core(n)| && m.next == n.next && m.kids == n.kids && m.id == n.id
            && Pos(m, |Pre(c)|, |Render(m.kids)|, ParentOf(c), FirstId(m.kids), FirstId(m.next))
               == a[n.id].(startR := a[n.id].startR + d).AdjustEnd(d)
  {
    hide Placed, CtxPlaced, Indexed, CtxWF, Apart, Render, Core, TagBody, AttrEditText, Splice, Pre, Post;
    NodeReady(doc, a, free, n, c);
    var m := WithAttr(n, name, v);
    var u, w, was := AttrEditSplices(n, name, v);
    CoreAround(n);
    CoreAround(m);
    AroundLength(n, Render(n.kids));
    AroundLength(m, Render(m.kids));
    AttribText(doc, n, m, c, u, was, AttrEditText(n, name, v), w);
  }

  // Outside the start tag of the record r the text is the same.
  ghost predicate TagOnly(doc: string, now: string, r: ElemPos) {
    var e := r.startR - (if r.IsEmptyElement() then 1 else 0);
    && 0 <= r.startL < e <= |doc| && r.startL + 1 + (|doc| - e) <= |now|
    && now[..r.startL + 1] == doc[..r.startL + 1] && now[|now| - (|doc| - e)..] == doc[e..]
  }

  lemma OnlyTagEdited(doc: string, a: seq<ElemPos>, now: string, b: seq<ElemPos>, free: nat, n: Forest, c: Ctx,
                      name: string, v: string)
    requires n.Node? && CtxOk(c) && Indexed(doc, a, free, Plug(n, c))
             && Indexed(now, b, free, Plug(WithAttr(n, name, v), c))
    ensures n.id < |a| && TagOnly(doc, now, a[n.id])
  {
    hide Placed, CtxPlaced, Indexed, CtxWF, Apart, Render, Core, TagBody, Plug, Pre, Post, WithAttr, TagOnly,
         EndTagText;
    var m := WithAttr(n, name, v);
    SameButAttrs(n, name, v);
    NodeReady(doc, a, free, n, c);
    NodeReady(now, b, free, m, c);
    CoreAround(n);
    CoreAround(m);
    EmptyByOffsets(n, |Pre(c)|, |Render(n.kids)|, ParentOf(c), FirstId(n.kids), FirstId(n.next));
    var end := (if n.empty then "/>" else ">" + (Render(n.kids) + EndTagText(n))) + (Render(n.next) + Post(c));
    TagOnlyText(doc, now, a[n.id], Pre(c), TagBody(n), TagBody(m), end);
  }

  lemma SameButAttrs(n: Forest, name: string, v: string)
    requires n.Node?
    ensures var m := WithAttr(n, name, v);
            m.Node? && m.kids == n.kids && m.empty == n.empty && m.next == n.next && m.id == n.id
              && EndTagText(m) == EndTagText(n)
  {
  }

  lemma EmptyByOffsets(n: Forest, base: int, len: nat, parent: nat, child: nat, next: nat)
    requires n.Node?
    ensures var r := Pos(n, base, len, parent, child, next);
            r.startL == base && (r.IsEmptyElement() <==> n.empty)
              && r.startR == base + 1 + |TagBody(n)| + (if n.empty then 1 else 0)
  {
    hide TagBody;
  }

  lemma TagOnlyText(doc: string, now: string, r: ElemPos, pre: string, was: string, body: string, end: string)
    requires doc == pre + ("<" + was + end) && now == pre + ("<" + body + end)
    requires r.startL == |pre| && r.startR - (if r.IsEmptyElement() then 1 else 0) == |pre| + 1 + |was|
    ensures TagOnly(doc, now, r)
  {
    assert doc == pre + "<" + was + end && now == pre + "<" + body + end;
    assert doc[|pre| + 1 + |was|..] == end && now[|pre| + 1 + |body|..] == end;
    assert doc[..|pre| + 1] == pre + "<" == now[..|pre| + 1];
  }

  // The text with new contents of the element of the record r.
  ghost predicate ContentsPut(doc: string, now: string, r: ElemPos, tag: string, text: string) {
    var left := if r.IsEmptyElement() then r.endL else r.startR + 1;
    var len := if r.IsEmptyElement() then 1 else r.endL - r.startR - 1;
    && 0 <= left && 0 <= len && left + len <= |doc|
    && now == Splice(doc, left, len, if r.IsEmptyElement() then ">" + text + "</" + tag else text)
  }

  lemma AttribText(doc: string, n: Forest, m: Forest, c: Ctx, u: string, was: string, v: string, w: string)
    requires n.Node? && m.Node? && CtxOk(c) && doc == Pre(c) + (Core(n) + Render(n.next)) + Post(c) && m.next == n.next
    requires Core(n) == u + was + w && Core(m) == u + v + w
    ensures |Pre(c)| + |u| + |was| <= |doc| && Splice(doc, |Pre(c)| + |u|, |was|, v) == Render(Plug(m, c))
  {
    hide Render, Core, Pre, Post, Splice;
    var r := Render(n.next);
    PlugText(m, c);
    RenderNode(m);
    assert u + was + w + r == u + was + (w + r);
    SpliceInside(Pre(c), u, was, w + r, Post(c), v);
    assert u + v + w + r == u + v + (w + r);
  }

  lemma EditTextIs(n: Forest, name: string, v: string)
    requires n.Node?
    ensures AttrEditText(n, name, v) == if IndexOf(n.attrs, name) < |n.attrs| then v else " " + name + "=\"" + v + "\""
  {
  }

  lemma DataEmpty(n: Forest)
    requires n.Node? && (n.empty || Ids(n.kids) != {})
    ensures Data(n) == ""
  {
  }

  // a0: the element's own record updated; a1: adjusted.
  lemma AttribPut(doc: string, a: seq<ElemPos>, a0: seq<ElemPos>, a1: seq<ElemPos>, free: nat, n: Forest, c: Ctx,
                  name: string, v: string)
    requires n.Node? && CtxOk(c) && Indexed(doc, a, free, Plug(n, c)) && Replaces(n, WithAttr(n, name, v))
    requires var d := |Core(WithAttr(n, name, v))| - |Core(n)|;
             && n.id < |a| && a0 == a[n.id := a[n.id].(startR := a[n.id].startR + d).AdjustEnd(d)]
             && a1 == VisitAll(a0, Plan(n, c, false), d)
    ensures var t := Plug(WithAttr(n, name, v), c); Indexed(Render(t), a1, free, t) && SameLinks(a, a1)
  {
    hide Placed, CtxPlaced, Indexed, CtxWF, Apart, Render, Core, TagBody, Splice, VisitAll, Plan, Ids;
    var m := WithAttr(n, name, v);
    NodeReady(doc, a, free, n, c);
    AttribEditReady(doc, a, free, n, c, name, v);
    RecordKept(doc, a, a0, free, n, c, |Core(m)| - |Core(n)|);
    NodeEdited(doc, a, a0, a1, free, n, m, c);
  }

  // What can be read afterwards, when v was the text for the string `value`.
  lemma AttribEdited(doc: string, a: seq<ElemPos>, free: nat, n: Forest, c: Ctx, name: string, value: string)
    requires n.Node? && CtxOk(c) && Indexed(doc, a, free, Plug(n, c)) && NameOk(name) && CString(value)
    ensures var m := WithAttr(n, name, Escape(value, true)); var t, s := Plug(m, c), Plug(n, c);
            && Replaces(n, m) && Ids(t) == Ids(s) && n.id in Ids(s)
            && (forall j :: j != n.id ==> ViewOf(t, j) == ViewOf(s, j))
            && ViewOf(s, n.id) == View(n.name, n.attrs, Data(n)) && ViewOf(t, n.id) == View(n.name, m.attrs, Data(n))
            && AttrOf(m.attrs, name) == value
            && forall other :: other != name ==> AttrOf(m.attrs, other) == AttrOf(n.attrs, other)
  {
    hide Placed, CtxPlaced, Indexed, CtxWF, Apart, Render, Core, TagBody, Data, Unescape, Escape, AttrOf, Ids;
    var m := WithAttr(n, name, Escape(value, true));
    NodeReady(doc, a, free, n, c);
    AttrReadBack(n, name, value);
    ReplacedView(n, m, c);
    ViewAt(n, c);
    NodeApart(n, m, c);
    PlugIds(n, c);
    PlugIds(m, c);
    InOwnIds(n);
    assert Data(m) == Data(n) by { SameData(n, m); }
  }

  lemma SameData(n: Forest, m: Forest)
    requires n.Node? && m.Node? && n.kids == m.kids && n.empty == m.empty
    ensures Data(n) == Data(m)
  {
  }

  // The visits around an element keep its own record and all links.
  lemma RecordKept(doc: string, a: seq<ElemPos>, a0: seq<ElemPos>, free: nat, n: Forest, c: Ctx, d: int)
    requires n.Node? && CtxOk(c) && Indexed(doc, a, free, Plug(n, c))
    requires n.id < |a| == |a0| && a0 == a[n.id := a0[n.id]]
    requires a0[n.id].parent == a[n.id].parent && a0[n.id].child == a[n.id].child && a0[n.id].next == a[n.id].next
    ensures var b := VisitAll(a0, Plan(n, c, false), d); |b| == |a| && b[n.id] == a0[n.id] && SameLinks(a, b)
  {
    hide Placed, CtxPlaced, Indexed, Render, Core, StartR, EndL, EndR, VisitAll, Plan;
    NodeReady(doc, a, free, n, c);
    var kb, nb, len := StartR(n, |Pre(c)|) + 1, |Pre(c)| + |Core(n)|, |Core(n)| + |Render(n.next)|;
    SetRecord(a, n.id, a0[n.id], n.kids, kb, n.id);
    SetRecord(a, n.id, a0[n.id], n.next, nb, ParentOf(c));
    SetRecordCtx(a, n.id, a0[n.id], c, n.id, len);
    PlanShifts(a0, n, c, false, kb, nb, n.id, len, d);
  }

  // ---- x_SetData ----

  // x_GetTagName
  lemma TagNameRead(doc: string, a: seq<ElemPos>, free: nat, n: Forest, c: Ctx)
    requires n.Node? && CtxOk(c) && Indexed(doc, a, free, Plug(n, c))
    ensures n.id < |a| && 0 <= a[n.id].startL && a[n.id].startL + 1 <= |doc|
    ensures var t := FindToken(doc, a[n.id].startL + 1);
            0 <= t.left <= t.right + 1 <= |doc| && TokenText(doc, t) == n.name
  {
    hide Placed, CtxPlaced, Indexed, Render, CtxWF, Post, TagBody, Apart, Core, NameOk, FindToken, AttrsText,
         EndTagText, OccursAt, EndsTag, IsDelim, Pre, Plug, AttrsOk, WF;
    NodeReady(doc, a, free, n, c);
    assert OccursAt(doc, |Pre(c)|, Core(n)) by {
      assert doc == Pre(c) + Core(n) + (Render(n.next) + Post(c));
      OccursMiddle(Pre(c), Core(n), Render(n.next) + Post(c));
    }
    var rest := StartTagAt(doc, |Pre(c)|, n);
    PartsNameOk(n);
    WordToken(doc, |Pre(c)| + 1, n.name);
  }

  lemma PartsNameOk(n: Forest)
    requires n.Node? && WF(n)
    ensures NameOk(n.name)
  {
  }

  function DataEditText(n: Forest, text: string): string
    requires n.Node?
  {
    if n.empty then ">" + text + "</" + n.name else text
  }

  // The element's record when x_Adjust is called.
  function DataEditRecord(n: Forest, r: ElemPos): ElemPos
    requires n.Node?
  {
    if n.empty then r.(startR := r.startR - 1, endL := r.endL - (1 + |n.name|)) else r
  }

  lemma DataEditIs(n: Forest, r: ElemPos, text: string)
    requires n.Node?
    ensures DataEditText(n, text) == if n.empty then ">" + text + "</" + n.name else text
    ensures DataEditRecord(n, r) == if n.empty then r.(startR := r.startR - 1, endL := r.endL - (1 + |n.name|)) else r
  {
  }

  lemma DataEditReady(doc: string, a: seq<ElemPos>, free: nat, n: Forest, c: Ctx, text: string)
    requires n.Node? && CtxOk(c) && Indexed(doc, a, free, Plug(n, c)) && Ids(n.kids) == {}
    ensures n.id < |a| && (a[n.id].IsEmptyElement() <==> n.empty)
    ensures var m := WithData(n, text); var r := a[n.id];
            var left, replace := if n.empty then r.endL else r.startR + 1, if n.empty then 1 else r.endL - r.startR - 1;
            var d := |DataEditText(n, text)| - replace;
            && 0 <= left && 0 <= replace && left + replace <= |doc|
            && Splice(doc, left, replace, DataEditText(n, text)) == Render(Plug(m, c))
            && d == |Core(m)| - |Core(n)|
            && Pos(m, |Pre(c)|, |Render(m.kids)|, ParentOf(c), FirstId(m.kids), FirstId(m.next))
                == DataEditRecord(n, r).AdjustEnd(d)
  {
    hide Placed, CtxPlaced, Indexed, CtxWF, Apart, Render, Core, TagBody, Splice, Pre, Post, DataEditText, Plug, WF,
         Around, EndTagText;
    NodeReady(doc, a, free, n, c);
    var m := WithData(n, text);
    NoElements(a, n.kids, 0, 0);
    DataTextSplit(n, text);
    AroundLength(n, Render(n.kids));
    AroundLength(m, Render(m.kids));
    CoreAround(n);
    CoreAround(m);
    var u, w := "<" + TagBody(n), if n.empty then ">" else EndTagText(n);
    if n.empty {
      AttribText(doc, n, m, c, u, "/", DataEditText(n, text), w);
    } else {
      AttribText(doc, n, m, c, u + ">", Render(n.kids), DataEditText(n, text), w);
    }
  }

  lemma DataTextSplit(n: Forest, text: string)
    requires n.Node? && WF(n)
    ensures var m := WithData(n, text); var u := "<" + TagBody(n);
            && TagBody(m) == TagBody(n) && |Render(m.kids)| == |text| && m.next == n.next && FirstId(m.kids) == 0
            && (if n.empty then Core(n) == u + "/" + ">" && Core(m) == u + DataEditText(n, text) + ">" && n.close == ""
                else Core(n) == (u + ">") + Render(n.kids) + EndTagText(n)
                     && Core(m) == (u + ">") + DataEditText(n, text) + EndTagText(n))
            && |DataEditText(n, text)| == if n.empty then |text| + |n.name| + 3 else |text|
  {
    hide AttrsText, NameOk, AttrsOk;
    var m, u := WithData(n, text), "<" + TagBody(n);
    assert Render(m.kids) == text + Render(Nil) == text;
    assert EndTagText(m) == EndTagText(n);
    if n.empty {
      assert u + "/>" == u + "/" + ">";
      assert EndTagText(n) == "</" + n.name + "" + ">";
      assert u + ">" + text + ("</" + n.name + "" + ">") == u + (">" + text + "</" + n.name) + ">";
    }
  }

  // a0: the parts of the record that x_Adjust must not see updated; a1: adjusted; a2: the end moved.
  lemma TextPut(doc: string, a: seq<ElemPos>, a0: seq<ElemPos>, a2: seq<ElemPos>, free: nat, n: Forest, c: Ctx,
                text: string)
    requires n.Node? && CtxOk(c) && Indexed(doc, a, free, Plug(n, c)) && ChunkOk(text) && Ids(n.kids) == {}
    requires var d := |Core(WithData(n, text))| - |Core(n)|;
             && n.id < |a| && a0 == a[n.id := DataEditRecord(n, a[n.id])]
             && var a1 := VisitAll(a0, Plan(n, c, false), d); a2 == a1[n.id := a1[n.id].AdjustEnd(d)]
    ensures var t := Plug(WithData(n, text), c); Indexed(Render(t), a2, free, t) && SameLinks(a, a2)
  {
    hide Placed, CtxPlaced, Indexed, CtxWF, Apart, Render, Core, TagBody, Splice, VisitAll, Plan, Ids, Pre, ChunkOk;
    var m := WithData(n, text);
    NodeReady(doc, a, free, n, c);
    TextReplaces(n, text);
    DataEditReady(doc, a, free, n, c, text);
    RecordKept(doc, a, a0, free, n, c, |Core(m)| - |Core(n)|);
    NodeEdited(doc, a, a0, a2, free, n, m, c);
  }

  lemma TextReplaces(n: Forest, text: string)
    requires n.Node? && WF(n) && ChunkOk(text) && Ids(n.kids) == {}
    ensures Replaces(n, WithData(n, text))
  {
    hide ChunkOk;
    var k := Chunk(text, Nil);
    assert Ids(k) == Ids(Nil) == {} && WF(k);
  }

  // What can be read afterwards, when the text was that for the string s.
  lemma DataEdited(doc: string, a: seq<ElemPos>, free: nat, n: Forest, c: Ctx, s: string, cdata: bool)
    requires n.Node? && CtxOk(c) && Indexed(doc, a, free, Plug(n, c)) && CString(s) && Ids(n.kids) == {}
    ensures var t, u := Plug(WithData(n, DataText(s, cdata)), c), Plug(n, c);
            && Ids(t) == Ids(u) && (forall j :: j != n.id ==> ViewOf(t, j) == ViewOf(u, j))
            && n.id in Ids(u) && ViewOf(t, n.id) == SeenData(ViewOf(u, n.id), s)
              && ViewOf(t, n.id) == View(n.name, n.attrs, s)
  {
    hide Placed, CtxPlaced, Indexed, CtxWF, Apart, Render, Core, TagBody, Data, Ids, DataText, Pre;
    var m := WithData(n, DataText(s, cdata));
    NodeReady(doc, a, free, n, c);
    PartsWF(n);
    DataReadBack(n, s, cdata);
    ReplacedView(n, m, c);
    ViewAt(n, c);
    NodeApart(n, m, c);
    PlugIds(n, c);
    PlugIds(m, c);
    InOwnIds(n);
  }

  lemma InOwnIds(n: Forest)
    requires n.Node?
    ensures n.id in Ids(n)
  {
  }

  // ---- x_RemoveElem ----

  // The siblings in front of a place, and how far the blanks behind it go.
  lemma PlaceFacts(doc: string, a: seq<ElemPos>, free: nat, f: Forest, c: Ctx)
    requires CtxOk(c) && Indexed(doc, a, free, Plug(f, c))
    ensures ParentOf(c) < |a| && PrevId(c) < |a| && (ParentOf(c) == 0 || ParentOf(c) in CtxIds(c))
    ensures Chain(a, ParentOf(c), LeftIds(c) + [FirstId(f)]) && FirstId(f) !in LeftIds(c) && 0 !in LeftIds(c)
    ensures PrevId(c) == if LeftIds(c) == [] then 0 else LeftIds(c)[|LeftIds(c)| - 1]
    ensures FirstId(f) == if PrevId(c) != 0 then a[PrevId(c)].next else a[ParentOf(c)].child
    ensures PrevId(c) != 0 ==> a[PrevId(c)].parent == ParentOf(c) && PrevId(c) in CtxIds(c)
    ensures WF(f) && doc == Pre(c) + Render(f) + Post(c)
    ensures |Pre(c)| <= |doc| && UpToTag(doc, |Pre(c)|) <= |Pre(c)| + LeadLen(f)
  {
    hide Placed, CtxPlaced, Indexed, Render, Apart, CtxWF, WF, Plug, UpToTag, LeadLen, LeftIds, Pre, Post;
    PlaceReady(doc, a, free, f, c);
    CtxPlacedIds(a, c, FirstId(f), |Render(f)|);
    OwnersIn(c);
    LeftChain(a, c, FirstId(f), |Render(f)|);
    LeftIdsIn(c);
    PrevParent(a, c, FirstId(f), |Render(f)|);
    FirstApart(f, c);
    UpToTagLead(f, c, 0);
    var ids := LeftIds(c) + [FirstId(f)];
    if LeftIds(c) != [] {
      assert ids[|ids| - 1] == FirstId(f) && ids[|ids| - 2] == PrevId(c);
    }
  }

  lemma FirstApart(f: Forest, c: Ctx)
    requires CtxOk(c) && Apart(f, c)
    ensures FirstId(f) in CtxIds(c) ==> FirstId(f) == 0
  {
    FirstInIds(f);
  }

  lemma {:induction false} FirstInIds(f: Forest)
    ensures FirstId(f) == 0 || FirstId(f) in Ids(f)
  {
    if f.Chunk? {
      FirstInIds(f.next);
    }
  }

  // What the search for the previous sibling and for the end of the blanks behind the element finds.
  lemma RemovePlace(doc: string, a: seq<ElemPos>, free: nat, n: Forest, c: Ctx)
    requires n.Node? && CtxOk(c) && Indexed(doc, a, free, Plug(n, c))
    ensures n.id < |a| && a[n.id].parent == ParentOf(c) < |a| && PrevId(c) < |a| && a[n.id].next == FirstId(n.next)
    ensures Chain(a, ParentOf(c), LeftIds(c) + [n.id]) && n.id !in LeftIds(c) && 0 !in LeftIds(c)
    ensures PrevId(c) == if LeftIds(c) == [] then 0 else LeftIds(c)[|LeftIds(c)| - 1]
    ensures PrevId(c) != 0 ==> a[PrevId(c)].parent == ParentOf(c) && PrevId(c) in CtxIds(c)
    ensures ParentOf(c) == 0 || ParentOf(c) in CtxIds(c)
    ensures a[n.id].startL == |Pre(c)| && a[n.id].endR + 1 == |Pre(c)| + |Core(n)| && Pre(c) + Core(n) <= doc
    ensures UpToTag(doc, |Pre(c)| + |Core(n)|) - (|Pre(c)| + |Core(n)|) <= LeadLen(n.next)
  {
    hide Placed, CtxPlaced, Indexed, Render, Core, TagBody, Apart, CtxWF, WF, Plug, UpToTag, LeadLen, Chain, LeftIds,
         Pre, Post;
    NodeReady(doc, a, free, n, c);
    AroundLength(n, Render(n.kids));
    CoreAround(n);
    PlaceFacts(doc, a, free, n, c);
    BehindIs(n, c);
    PreOfNext(n, c);
    PlaceFacts(doc, a, free, n.next, InNext(n, c));
  }

  lemma BehindIs(n: Forest, c: Ctx)
    requires n.Node? && CtxOk(c)
    ensures CtxOk(InNext(n, c)) && Plug(n.next, InNext(n, c)) == Plug(n, c) && PrevId(InNext(n, c)) == n.id
    ensures ParentOf(InNext(n, c)) == ParentOf(c) && Frames(InNext(n, c)) == Frames(c)
  {
    assert SetNext(n, n.next) == n;
  }

  lemma PreOfNext(n: Forest, c: Ctx)
    requires n.Node? && CtxOk(c)
    ensures CtxOk(InNext(n, c)) && Pre(InNext(n, c)) == Pre(c) + Core(n) && Post(InNext(n, c)) == Post(c)
  {
  }

  // What is left afterwards.
  lemma RemovedRest(doc: string, a: seq<ElemPos>, free: nat, n: Forest, c: Ctx, k: nat)
    requires n.Node? && CtxOk(c) && Indexed(doc, a, free, Plug(n, c)) && k <= LeadLen(n.next)
    ensures var t, u := Plug(DropLead(n.next, k), c), Plug(n, c);
            && Ids(t) == Ids(u) - Below(u, n.id) && CtxIds(c) <= Ids(t)
            && forall j :: j in Ids(t) ==> Outside(ViewOf(u, j), ViewOf(t, j), j == ParentOf(c))
  {
    hide Placed, CtxPlaced, Indexed, CtxWF, Render, Core, Data, Pre, DropLead, LeadLen, ViewOf;
    NodeReady(doc, a, free, n, c);
    var g := DropLead(n.next, k);
    PlugIds(n, c);
    PlugIds(g, c);
    DropLeadViews(n.next, k, 0);
    BelowThrough(n, c, n.id);
    forall j | j in Ids(Plug(g, c)) ensures Outside(ViewOf(Plug(n, c), j), ViewOf(Plug(g, c), j), j == ParentOf(c)) {
      DropLeadViews(n.next, k, j);
      ViewBehind(n, j);
      ElsewhereUnchanged(n, g, c, j);
    }
  }

  lemma TextRemoved(doc: string, pre: string, len: nat)
    requires pre <= doc && |pre| + len <= |doc|
    ensures Splice(doc, |pre|, len, "") == pre + doc[|pre| + len..]
  {
  }

  // The text without the element of the record r, and without what is skipped up to the tag behind it.
  ghost predicate ElementCut(doc: string, now: string, r: ElemPos) {
    0 <= r.startL <= r.endR < |doc| && now == doc[..r.startL] + doc[UpToTag(doc, r.endR + 1)..]
  }

  // A quotation mark between two elements is cut with the first one.
  lemma QuoteCut(now: string, r: ElemPos)
    requires r.startL == 3 && r.endR == 6
    ensures ElementCut("<r><a/>\"<b/></r>", now, r) <==> now == "<r><b/></r>"
  {
    var doc := "<r><a/>\"<b/></r>";
    assert SkipSpaces(doc, 7) == 7;
    assert UpToTag(doc, 7) == 8;
    assert doc[..3] + doc[8..] == "<r><b/></r>";
  }

  lemma CutIs(doc: string, now: string, r: ElemPos, pre: string, core: string)
    requires r.startL == |pre| && r.endR + 1 == |pre| + |core| && core != "" && pre + core <= doc
    requires now == pre + doc[UpToTag(doc, |pre| + |core|)..]
    ensures ElementCut(doc, now, r)
  {
    hide UpToTag;
    assert doc[..|pre|] == (pre + core)[..|pre|] == pre;
  }

  lemma CoreStarts(n: Forest)
    requires n.Node?
    ensures Core(n) != ""
  {
  }

  // prev stands in front of i among the children of parent, or nothing does.
  ghost predicate StandsBefore(a: seq<ElemPos>, parent: nat, prev: nat, i: nat) {
    if prev == 0 then parent < |a| && a[parent].child == i else prev < |a| && a[prev].next == i
  }

  lemma PrevStandsBefore(a: seq<ElemPos>, parent: nat, ids: seq<nat>, i: nat)
    requires Chain(a, parent, ids + [i]) && 0 !in ids
    ensures StandsBefore(a, parent, if ids == [] then 0 else ids[|ids| - 1], i)
  {
    if ids != [] {
      assert (ids + [i])[|ids| - 1] == ids[|ids| - 1] && (ids + [i])[|ids|] == i;
    }
  }

  lemma RelinkIs(a: seq<ElemPos>, c: Ctx, id: nat)
    requires CtxOk(c) && PrevId(c) < |a| && ParentOf(c) < |a|
    ensures Relink(a, c, id) == if PrevId(c) != 0 then a[PrevId(c) := a[PrevId(c)].(next := id)]
                                else a[ParentOf(c) := a[ParentOf(c)].(child := id)]
  {
  }

  lemma ViewBehind(n: Forest, j: nat)
    requires n.Node? && j !in {n.id} + Ids(n.kids)
    ensures ViewOf(n, j) == ViewOf(n.next, j)
  {
  }

  // The same element before and after, but for the data of the parent of what came or went.
  predicate Outside(v: View, w: View, isParent: bool) {
    SeenData(v, "") == SeenData(w, "") && (!isParent ==> v == w)
  }
}

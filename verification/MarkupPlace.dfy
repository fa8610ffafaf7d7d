/** Places in an indexed document as the editor finds them: by walking a list of siblings. */
module MarkupPlace {
  import opened MarkupText
  import opened MarkupTree
  import opened MarkupIndex
  import opened MarkupAdjust
  import opened MarkupEdit
  import opened MarkupData

  // The elements in front of a place, in order.
  ghost function LeftIds(c: Ctx): seq<nat>
    requires CtxOk(c)
  {
    match c
    case InNext(n, up) => if n.Node? then LeftIds(up) + [n.id] else LeftIds(up)
    case _ => []
  }

  // The links of a sibling list lead through these records, the last of them possibly 0.
  ghost predicate Chain(a: seq<ElemPos>, parent: nat, ids: seq<nat>) {
    && 0 < |ids| && parent < |a| && a[parent].child == ids[0]
    && forall k :: 0 <= k < |ids| - 1 ==> 0 < ids[k] < |a| && a[ids[k]].next == ids[k + 1]
  }

  lemma {:induction false} LeftChain(a: seq<ElemPos>, c: Ctx, first: nat, len: int)
    requires CtxOk(c) && CtxPlaced(a, c, first, len)
    ensures Chain(a, ParentOf(c), LeftIds(c) + [first])
    decreases c
  {
    hide Placed, Render, Pre, StartR, EndR, EndL, Core;
    match c
    case Top =>
    case InKids(n, up) =>
    case InNext(n, up) =>
      if n.Chunk? {
        LeftChain(a, up, first, |n.text| + len);
      } else {
        LeftChain(a, up, n.id, |Core(n)| + len);
        var s := LeftIds(up) + [n.id];
        assert LeftIds(c) + [first] == s + [first];
      }
  }

  lemma {:induction false} LeftIdsIn(c: Ctx)
    requires CtxOk(c)
    ensures forall k :: 0 <= k < |LeftIds(c)| ==> LeftIds(c)[k] in CtxIds(c)
    ensures PrevId(c) == if LeftIds(c) == [] then 0 else LeftIds(c)[|LeftIds(c)| - 1]
    decreases c
  {
    if c.InNext? {
      LeftIdsIn(c.up);
    }
  }

  // The element in front of a place has the same parent.
  lemma {:induction false} PrevParent(a: seq<ElemPos>, c: Ctx, first: nat, len: int)
    requires CtxOk(c) && CtxPlaced(a, c, first, len)
    ensures PrevId(c) != 0 ==> PrevId(c) < |a| && a[PrevId(c)].parent == ParentOf(c)
    decreases c
  {
    hide Placed, Render, Pre, StartR, EndR, EndL, Core;
    if c.InNext? && c.node.Chunk? {
      PrevParent(a, c.up, first, |c.node.text| + len);
    }
  }

  // Linking and adjusting leave parents alone.
  lemma ParentsKept(a: seq<ElemPos>, c: Ctx, id: nat, plan: seq<Item>, d: int)
    requires CtxOk(c) && PrevId(c) < |a| && ParentOf(c) < |a|
    ensures var b := VisitAll(Relink(a, c, id), plan, d);
            |b| == |a| && forall i :: 0 <= i < |a| ==> b[i].parent == a[i].parent
  {
    VisitKeepsLinks(Relink(a, c, id), plan, d);
  }

  // The place behind the last of the siblings at c.
  lemma {:induction false} EndOf(f: Forest, c: Ctx) returns (d: Ctx)
    requires CtxOk(c)
    ensures CtxOk(d) && Plug(Nil, d) == Plug(f, c) && ParentOf(d) == ParentOf(c)
    ensures Frames(d) == Frames(c) && |Pre(d)| == |Pre(c)| + |Render(f)|
    decreases f
  {
    match f
    case Nil =>
      d := c;
    case Chunk(_, next) =>
      d := EndOf(next, InNext(f, c));
    case Node(_, _, _, _, _, _, _, next) =>
      d := EndOf(next, InNext(f, c));
      RenderNode(f);
      OwnTextCore(f);
  }

  // ---- the new element of x_AddElem ----

  ghost function NewElem(id: nat, name: string, value: string): Forest {
    Node(id, name, [], "", value == "", if value == "" then Nil else Chunk(Escape(value, false), Nil), "", Nil)
  }

  lemma NewElemOk(id: nat, name: string, value: string)
    requires NameOk(name) && CString(value)
    ensures var n := NewElem(id, name, value);
            && WF(n) && Ids(n.kids) == {} && FirstId(n.kids) == 0
            && Core(n) == (if value == "" then "<" + name + "/>"
                else "<" + name + ">" + Escape(value, false) + "</" + name + ">")
            && |Render(n.kids)| == (if value == "" then 0 else |Escape(value, false)|) && |TagBody(n)| == |name|
  {
    hide Escape, ChunkOk, PlainText, NameOk;
    var n := NewElem(id, name, value);
    EscapedIsPlain(value, false);
    assert TagBody(n) == name by { assert name + "" + "" == name; }
    assert Ids(Nil) == {} && WF(Nil) && AttrsOk([]) && Blank("");
    if value != "" {
      assert Render(n.kids) == Escape(value, false) + Render(Nil) == Escape(value, false);
      assert EndTagText(n) == "</" + name + ">" by { assert "</" + name + "" + ">" == "</" + name + ">"; }
      var h := "<" + name + ">" + Escape(value, false);
      assert h + EndTagText(n) == h + "</" + name + ">";
    }
  }
}

/** How the parser lays its result out in the position array, and that this and every edited array agree
    with what parsing the text gives. */
module MarkupStore {
  import opened Substring
  import opened MarkupText
  import opened MarkupParse
  import opened MarkupTree
  import opened MarkupRender
  import opened MarkupIndex
  import opened MarkupAdjust
  import opened MarkupEdit

  // ---- numbering in document order ----

  function FirstNo(f: OForest, i: nat): nat {
    if f.ONil? then 0 else i
  }

  function Record(f: OForest, i: nat, parent: nat): ElemPos
    requires f.ONode?
  {
    ElemPos(f.startL, f.startR, f.endL, f.endR, parent, FirstNo(f.kids, i + 1), FirstNo(f.next, i + 1 + Count(f.kids)))
  }

  // f occupies the records from i on, one for each element, in document order.
  ghost predicate Numbered(a: seq<ElemPos>, f: OForest, i: nat, parent: nat) {
    f.ONode? ==>
      && i + Count(f) <= |a| && a[i] == Record(f, i, parent)
      && Numbered(a, f.kids, i + 1, i) && Numbered(a, f.next, i + 1 + Count(f.kids), parent)
  }

  // The number of the last of the siblings.
  function LastNo(f: OForest, i: nat): nat {
    if f.ONil? then 0 else if f.next.ONil? then i else LastNo(f.next, i + 1 + Count(f.kids))
  }

  lemma {:induction false} LastNoRange(f: OForest, i: nat)
    requires f.ONode?
    ensures i <= LastNo(f, i) < i + Count(f)
    decreases f
  {
    if f.next.ONode? {
      LastNoRange(f.next, i + 1 + Count(f.kids));
    }
  }

  lemma {:induction false} NumberedFrame(a: seq<ElemPos>, b: seq<ElemPos>, f: OForest, i: nat, parent: nat)
    requires Numbered(a, f, i, parent) && |a| <= |b|
    requires forall k :: i <= k < i + Count(f) && k < |a| ==> b[k] == a[k]
    ensures Numbered(b, f, i, parent)
    decreases f
  {
    if f.ONode? {
      NumberedFrame(a, b, f.kids, i + 1, i);
      NumberedFrame(a, b, f.next, i + 1 + Count(f.kids), parent);
    }
  }

  lemma NumberedIs(a: seq<ElemPos>, f: OForest, i: nat, parent: nat)
    requires f.ONode?
    ensures Numbered(a, f, i, parent) <==>
            && i + Count(f) <= |a| && a[i] == Record(f, i, parent)
            && Numbered(a, f.kids, i + 1, i) && Numbered(a, f.next, i + 1 + Count(f.kids), parent)
  {
  }

  // Linking the next parsed sibling behind the last one.
  lemma {:induction false} NumberedAppend(a: seq<ElemPos>, f: OForest, t: OForest, i: nat, parent: nat)
    requires f.ONode? && t.ONode? && t.next.ONil? && Numbered(a, f, i, parent) && Numbered(a, t, i + Count(f), parent)
    ensures Count(Append(f, t)) == Count(f) + Count(t) && LastNo(Append(f, t), i) == i + Count(f)
    ensures var l := LastNo(f, i); l < |a| && Numbered(a[l := a[l].(next := i + Count(f))], Append(f, t), i, parent)
    decreases f
  {
    hide Numbered;
    LastNoRange(f, i);
    NumberedIs(a, f, i, parent);
    NumberedIs(a, t, i + Count(f), parent);
    var l, g := LastNo(f, i), Append(f, t);
    var b := a[l := a[l].(next := i + Count(f))];
    NumberedFrame(a, b, t, i + Count(f), parent);
    if f.next.ONode? {
      var j := i + 1 + Count(f.kids);
      LastNoRange(f.next, j);
      NumberedAppend(a, f.next, t, j, parent);
    }
    NumberedFrame(a, b, f.kids, i + 1, i);
    NumberedIs(b, g, i, parent);
  }

  lemma NumberedNone(a: seq<ElemPos>, i: nat, parent: nat)
    ensures Numbered(a, ONil, i, parent) && Count(ONil) == 0 && FirstNo(ONil, i) == 0 && LastNo(ONil, i) == 0
  {
  }

  lemma NumberedRecord(a: seq<ElemPos>, t: OForest, i: nat, parent: nat)
    requires t.ONode? && Numbered(a, t, i, parent)
    ensures i + Count(t) <= |a| && 0 < Count(t) && a[i].endR == t.endR
  {
  }

  lemma NumberedOne(a: seq<ElemPos>, t: OForest, i: nat, parent: nat)
    requires t.ONode? && t.next.ONil? && i + Count(t) <= |a| && Numbered(a, t.kids, i + 1, i)
    requires a[i] == ElemPos(t.startL, t.startR, t.endL, t.endR, parent, FirstNo(t.kids, i + 1), 0)
    ensures Numbered(a, t, i, parent)
  {
  }

  // What x_ParseElem finds, by the tag it comes to.
  lemma ElemIs(doc: string, i: nat)
    requires i <= |doc|
    ensures var g := NextTag(doc, i); var p := ParseElem(doc, i);
            match g
            case BadTag => p == Bad
            case StuckTag(lt) => p == Stuck(lt)
            case EndTag(lt) => p == NoElem(lt)
            case StartTag(lt, t) =>
              var gt := FindChar(doc, t.next, '>');
              if gt == |doc| then p == Bad
              else if doc[gt - 1] == '/' then p == Found(ONode(lt, gt, gt - 1, gt, ONil, ONil))
              else match ParseKids(doc, gt + 1)
                   case BadKids => p == Bad
                   case StuckKids(lt) => p == Stuck(lt)
                   case Kids(kids, endL) =>
                     var endR := EndTagRight(doc, endL + 1, TokenText(doc, t), 0);
                     p == if endR == -1 then Bad else Found(ONode(lt, gt, endL, endR, kids, ONil))
  {
    hide NextTag, FindChar, ParseKids, EndTagRight;
  }

  // ---- the loop over the contents of an element ----

  // The result when `done` has been parsed already.
  function KidsAfter(done: OForest, p: ParsedKids): ParsedKids {
    if p.Kids? then Kids(Append(done, p.forest), p.lt) else p
  }

  lemma {:induction false} AppendAssoc(f: OForest, g: OForest, h: OForest)
    ensures Append(Append(f, g), h) == Append(f, Append(g, h))
  {
    if f.ONode? {
      AppendAssoc(f.next, g, h);
    }
  }

  lemma KidsStep(doc: string, pos: nat, done: OForest)
    requires pos <= |doc|
    ensures match ParseElem(doc, pos)
            case Found(e) => KidsAfter(done, ParseKids(doc, pos))
                == KidsAfter(Append(done, e), ParseKids(doc, e.endR + 1))
            case NoElem(lt) => KidsAfter(done, ParseKids(doc, pos)) == Kids(done, lt)
            case Bad => KidsAfter(done, ParseKids(doc, pos)) == BadKids
            case Stuck(lt) => KidsAfter(done, ParseKids(doc, pos)) == StuckKids(lt)
  {
    hide ParseElem;
    var p := ParseElem(doc, pos);
    AppendNothing(done);
    if p.Found? {
      var q := ParseKids(doc, p.tree.endR + 1);
      if q.Kids? {
        AppendAssoc(done, p.tree, q.forest);
        assert Append(ONil, q.forest) == q.forest;
      }
    }
  }

  lemma {:induction false} AppendNothing(f: OForest)
    ensures Append(f, ONil) == f
  {
    if f.ONode? {
      AppendNothing(f.next);
    }
  }

  lemma NumberedNext(a: seq<ElemPos>, done: OForest, t: OForest, i: nat, parent: nat)
    requires t.ONode? && t.next.ONil? && Numbered(a, done, i, parent) && Numbered(a, t, i + Count(done), parent)
    ensures Count(Append(done, t)) == Count(done) + Count(t) && LastNo(Append(done, t), i) == i + Count(done)
    ensures var l := LastNo(done, i); var j := i + Count(done);
            && (done.ONode? ==> i <= l < j && Numbered(a[l := a[l].(next := j)], Append(done, t), i, parent))
            && (done.ONil? ==> l == 0 && Numbered(a, Append(done, t), i, parent))
  {
    if done.ONode? {
      LastNoRange(done, i);
      NumberedAppend(a, done, t, i, parent);
    }
  }

  // ---- the tree behind a freshly parsed document ----

  function Elements(f: Forest): nat {
    match f
    case Nil => 0
    case Chunk(_, next) => Elements(next)
    case Node(_, _, _, _, _, kids, _, next) => 1 + Elements(kids) + Elements(next)
  }

  // f with its elements numbered in document order from i on.
  function Renumber(f: Forest, i: nat): Forest {
    match f
    case Nil => Nil
    case Chunk(text, next) => Chunk(text, Renumber(next, i))
    case Node(_, name, attrs, tail, empty, kids, close, next) =>
      Node(i, name, attrs, tail, empty, Renumber(kids, i + 1), close, Renumber(next, i + 1 + Elements(kids)))
  }

  lemma RenumberNode(f: Forest, i: nat)
    requires f.Node?
    ensures var g := Renumber(f, i);
            && g.Node? && g.id == i && TagBody(g) == TagBody(f) && EndTagText(g) == EndTagText(f)
            && (forall base :: StartR(g, base) == StartR(f, base))
            && (forall base, len ::
                  EndL(g, base, len) == EndL(f, base, len) && EndR(g, base, len) == EndR(f, base, len))
  {
  }

  lemma {:induction false} RenumberText(f: Forest, i: nat)
    ensures var g := Renumber(f, i); Render(g) == Render(f) && Roots(g) == Roots(f) && (WF(f) ==> WF(g))
  {
    hide TagBody, EndTagText, NameOk, AttrsOk, Blank, ChunkOk;
    match f
    case Nil =>
    case Chunk(_, next) => RenumberText(next, i);
    case Node(_, _, _, _, _, kids, _, next) =>
      RenumberNode(f, i);
      RenumberText(kids, i + 1);
      RenumberText(next, i + 1 + Elements(kids));
  }

  lemma {:induction false} RenumberIds(f: Forest, i: nat)
    ensures var g := Renumber(f, i); Distinct(g) && forall k :: k in Ids(g) ==> i <= k < i + Elements(f)
  {
    match f
    case Nil =>
    case Chunk(_, next) => RenumberIds(next, i);
    case Node(_, _, _, _, _, kids, _, next) =>
      RenumberIds(kids, i + 1);
      RenumberIds(next, i + 1 + Elements(kids));
  }

  lemma {:induction false} OffsetsCount(f: Forest, base: int)
    requires WF(f)
    ensures Count(Offsets(f, base)) == Elements(f)
  {
    hide Render, NameOk, AttrsOk, ChunkOk;
    match f
    case Nil =>
    case Chunk(text, next) => OffsetsCount(next, base + |text|);
    case Node(_, _, _, _, _, kids, _, next) =>
      OffsetsCount(kids, StartR(f, base) + 1);
      OffsetsCount(next, EndR(f, base, |Render(kids)|) + 1);
  }

  lemma {:induction false} NumberedPlaced(a: seq<ElemPos>, f: Forest, base: int, i: nat, parent: nat)
    requires WF(f) && 0 < i && Numbered(a, Offsets(f, base), i, parent)
    ensures Placed(a, Renumber(f, i), base, parent) && FirstId(Renumber(f, i)) == FirstNo(Offsets(f, base), i)
    decreases f
  {
    hide Render, NameOk, AttrsOk, ChunkOk, StartR, EndL, EndR, Placed, Pos;
    match f
    case Nil => PlacedNothing(a, base, parent);
    case Chunk(text, next) =>
      NumberedPlaced(a, next, base + |text|, i, parent);
      PlacedChunk(a, Renumber(f, i), base, parent);
    case Node(_, _, _, _, _, kids, _, next) =>
      RenumberText(kids, i + 1);
      OffsetsCount(kids, StartR(f, base) + 1);
      EmptyHasNoKids(f, base);
      NumberedPlaced(a, kids, StartR(f, base) + 1, i + 1, i);
      NumberedPlaced(a, next, EndR(f, base, |Render(kids)|) + 1, i + 1 + Elements(kids), parent);
      RenumberedOffsets(f, i, base);
      PlacedNode(a, Renumber(f, i), base, parent);
  }

  lemma RenumberedOffsets(f: Forest, i: nat, base: int)
    requires f.Node? && Render(Renumber(f.kids, i + 1)) == Render(f.kids)
    ensures var g := Renumber(f, i); var len := |Render(f.kids)|;
            && g.Node? && g.id == i && g.kids == Renumber(f.kids, i + 1)
            && g.next == Renumber(f.next, i + 1 + Elements(f.kids))
            && StartR(g, base) == StartR(f, base) && EndR(g, base, len) == EndR(f, base, len)
            && forall parent, child, next :: Pos(g, base, len, parent, child, next)
                 == ElemPos(base, StartR(f, base), EndL(f, base, len), EndR(f, base, len), parent, child, next)
  {
    hide Render, AttrsText;
  }

  lemma EmptyHasNoKids(f: Forest, base: int)
    requires f.Node? && WF(f)
    ensures f.empty ==> f.kids == Nil && Offsets(f.kids, base) == ONil
  {
  }

  // ---- parsing a whole document ----

  // The parser reports the only element of a document and nothing else.
  lemma {:induction false} DocumentParses(doc: string, base: nat, f: Forest)
    requires WF(f) && Roots(f) <= 1 && OccursAt(doc, base, Render(f)) && base + |Render(f)| == |doc|
    ensures ParseElem(doc, base) == if Roots(f) == 0 then Bad else Found(Offsets(f, base))
    decreases f
  {
    hide ParseElem, OccursAt, Around, Offsets, NameOk, AttrsOk, Blank, ChunkOk, TagBody, EndTagText, NextTag;
    match f
    case Nil =>
      NothingFound(doc);
    case Chunk(text, next) =>
      OccursSplit(doc, base, text, Render(next));
      ChunkSkipped(doc, base, text);
      OffsetsOfChunk(f, base);
      DocumentParses(doc, base + |text|, next);
      ParseSkips(doc, base, base + |text|);
    case Node(_, _, _, _, _, _, _, next) =>
      OccursSplit(doc, base, Core(f), Render(next));
      RenderedElemParses(doc, base, f);
      OffsetsOfNode(f, base);
      NoRoots(next, base + |Core(f)|);
  }

  lemma NothingFound(doc: string)
    ensures ParseElem(doc, |doc|) == Bad
  {
    assert NextTag(doc, |doc|) == BadTag;
  }

  lemma {:induction false} NoRoots(f: Forest, base: int)
    requires Roots(f) == 0
    ensures Offsets(f, base) == ONil && FirstId(f) == 0 && Ids(f) == {}
    decreases f
  {
    if f.Chunk? {
      NoRoots(f.next, base + |f.text|);
    }
  }

  // The outcome p of parsing a whole document, in the array: numbered in document order, or empty.
  ghost predicate Stored(a: seq<ElemPos>, free: nat, p: Parsed)
    requires 0 < |a|
  {
    if p.Found? then a[0].child == 1 && free == 1 + Count(p.tree) <= |a| && Numbered(a, p.tree, 1, 0)
    else a[0].child == 0 && free == 1
  }

  // What the parser leaves in the array indexes the tree whose text it parsed, numbered in document order.
  lemma ParsedIsIndexed(doc: string, a: seq<ElemPos>, free: nat, g: Forest)
    requires WF(g) && Roots(g) <= 1 && Render(g) == doc && 8 <= |a| && a[0].startR == 0
    requires Stored(a, free, ParseElem(doc, 0))
    ensures Indexed(doc, a, free, Renumber(g, 1)) && (ParseElem(doc, 0).Found? <==> Roots(g) == 1)
  {
    hide ParseElem, Placed, Numbered, WF, Render;
    assert OccursAt(doc, 0, Render(g));
    DocumentParses(doc, 0, g);
    RenumberText(g, 1);
    RenumberIds(g, 1);
    OffsetsCount(g, 0);
    NumberedNone(a, 1, 0);
    if Roots(g) == 0 {
      NoRoots(g, 0);
      NoRoots(Renumber(g, 1), 0);
    }
    NumberedPlaced(a, g, 0, 1, 0);
  }

  // ---- the array against a fresh parse ----

  // Following the links from record i on gives the elements of f: same offsets, same shape.
  ghost predicate Agrees(a: seq<ElemPos>, i: nat, f: OForest, parent: nat)
    decreases f
  {
    if f.ONil? then i == 0
    else
      && 0 < i < |a|
      && a[i].startL == f.startL && a[i].startR == f.startR && a[i].endL == f.endL && a[i].endR == f.endR
      && a[i].parent == parent && Agrees(a, a[i].child, f.kids, i) && Agrees(a, a[i].next, f.next, parent)
  }

  lemma {:induction false} PlacedAgrees(a: seq<ElemPos>, f: Forest, base: int, parent: nat)
    requires Placed(a, f, base, parent) && WF(f)
    ensures Agrees(a, FirstId(f), Offsets(f, base), parent)
  {
    hide Render, NameOk, AttrsOk, ChunkOk, TagBody;
    match f
    case Nil =>
    case Chunk(text, next) => PlacedAgrees(a, next, base + |text|, parent);
    case Node(id, _, _, _, _, kids, _, next) =>
      PlacedAgrees(a, kids, StartR(f, base) + 1, id);
      PlacedAgrees(a, next, EndR(f, base, |Render(kids)|) + 1, parent);
  }

  // Whatever edits led to this state, parsing its text afresh finds exactly the elements, offsets and
  // links that the array records, up to the numbering of the records.
  lemma IndexAgreesWithFreshParse(doc: string, a: seq<ElemPos>, free: nat, tree: Forest)
    requires Indexed(doc, a, free, tree)
    ensures match ParseElem(doc, 0)
            case Found(t) => Agrees(a, a[0].child, t, 0)
            case _ => a[0].child == 0
  {
    hide Placed, ParseElem;
    assert OccursAt(doc, 0, Render(tree));
    DocumentParses(doc, 0, tree);
    PlacedAgrees(a, tree, 0, 0);
    if Roots(tree) == 0 {
      NoRoots(tree, 0);
    }
  }
}

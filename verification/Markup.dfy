/** The XML editor: the document as text with an array of element offsets and links beside it. */
module Markup {
  import opened MarkupText
  import opened MarkupParse
  import opened MarkupNames
  import opened MarkupTree
  import opened MarkupIndex
  import opened MarkupAdjust
  import opened MarkupEdit
  import opened MarkupData
  import opened MarkupAccess
  import opened MarkupEntities
  import opened MarkupReads
  import opened MarkupStore
  import opened MarkupPlace
  import opened MarkupOps
  import opened MarkupAdd
  import opened MarkupFind

  class Editor {
    var strDoc: string
    var aPos: seq<ElemPos>
    var iPosParent: nat
    var iPos: nat
    var iPosChild: nat
    var iPosFree: nat
    var nodeType: int
    ghost var tree: Forest

    // The text is that of a well-formed tree, the array indexes it, and the current positions are elements of it.
    ghost predicate Valid()
      reads this
    {
      Indexed(strDoc, aPos, iPosFree, tree) && CursorOk()
    }

    ghost predicate CursorOk()
      reads this
    {
      CursorAt(aPos, Ids(tree), iPosParent, iPos, iPosChild, nodeType)
    }

    // ---- parsing ----

    // x_GetFreePos
    method GetFreePos() returns (i: nat)
      requires 8 <= |aPos| && iPosFree <= |aPos|
      modifies this`aPos, this`iPosFree
      ensures i == old(iPosFree) && iPosFree == i + 1 && i < |aPos| && old(aPos) <= aPos
    {
      if iPosFree == |aPos| {
        aPos := aPos + seq(iPosFree / 2, _ => NO_POS);
      }
      iPosFree := iPosFree + 1;
      i := iPosFree - 1;
    }

    // The loop at the head of x_ParseElem.
    method ScanTag(i: nat) returns (g: Tag)
      requires i <= |strDoc| && !NextTag(strDoc, i).StuckTag?
      ensures g == NextTag(strDoc, i)
    {
      hide FindChar, FindToken, ParseNode;
      var p := i;
      while true
        invariant p <= |strDoc| && NextTag(strDoc, p) == NextTag(strDoc, i)
        decreases |strDoc| - p
      {
        var found, lt := ScanChar(strDoc, p, '<');
        if !found {
          return BadTag;
        }
        var t := ScanToken(strDoc, lt + 1);
        if !t.ok || t.isString {
          return BadTag;
        }
        var first := strDoc[t.left];
        if first == '?' || first == '!' {
          var k := ScanNode(strDoc, lt);
          if k.NoNode? {
            return BadTag;
          }
          p := k.next;
        } else if first == '/' {
          return EndTag(lt);
        } else {
          return StartTag(lt, t);
        }
      }
    }

    // The loop over the tokens of an end tag.
    method ScanEndTag(i: nat, name: string) returns (r: int)
      requires i <= |strDoc|
      ensures r == EndTagRight(strDoc, i, name, 0)
    {
      hide FindToken, Match;
      var p, count := i, 0;
      while true
        invariant p <= |strDoc| && EndTagRight(strDoc, p, name, count) == EndTagRight(strDoc, i, name, 0)
        decreases |strDoc| - p
      {
        var t := ScanToken(strDoc, p);
        if !t.ok {
          return -1;
        }
        if !t.isString {
          if count == 0 && strDoc[t.left] != '/' {
            return -1;
          } else if count == 1 && !Match(strDoc, t, name) {
            return -1;
          } else if strDoc[t.left] == '>' {
            return t.left;
          }
        }
        count := count + 1;
        p := t.next;
      }
    }

    method NewPos(parent: nat) returns (i: nat)
      requires 8 <= |aPos| && parent < iPosFree <= |aPos|
      modifies this`aPos, this`iPosFree
      ensures i == old(iPosFree) && iPosFree == i + 1 <= |aPos| && |old(aPos)| <= |aPos|
      ensures forall j :: 0 <= j < i ==> aPos[j] == old(aPos)[j]
      ensures aPos[i].parent == parent && aPos[i].child == 0 && aPos[i].next == 0
    {
      i := GetFreePos();
      aPos := aPos[i := aPos[i].(startL := aPos[parent].endL, parent := parent, child := 0, next := 0)];
    }

    method MarkTag(i: nat, parent: nat, lt: nat)
      requires parent < i < |aPos|
      modifies this`aPos
      ensures |aPos| == |old(aPos)| && forall j :: 0 <= j < i && j != parent ==> aPos[j] == old(aPos)[j]
      ensures aPos[parent] == old(aPos)[parent].(endL := lt) && aPos[i] == old(aPos)[i].(startL := lt)
    {
      aPos := aPos[i := aPos[i].(startL := lt)];
      aPos := aPos[parent := aPos[parent].(endL := lt)];
    }

    // x_ParseElem: the element that starts at the end offset of the parent's record, with everything in it.
    method ParseElement(parent: nat) returns (r: int)
      requires 8 <= |aPos| && parent < iPosFree <= |aPos|
      requires 0 <= aPos[parent].endL <= |strDoc| && !ParseElem(strDoc, aPos[parent].endL).Stuck?
      modifies this`aPos, this`iPosFree
      ensures |old(aPos)| <= |aPos| && old(iPosFree) <= iPosFree <= |aPos|
      ensures forall j :: 0 <= j < old(iPosFree) && j != parent ==> aPos[j] == old(aPos)[j]
      ensures aPos[parent] == old(aPos)[parent].(endL := aPos[parent].endL)
      ensures match ParseElem(strDoc, old(aPos)[parent].endL)
              case Found(t) => r == old(iPosFree) && iPosFree == r + Count(t) && Numbered(aPos, t, r, parent)
              case NoElem(lt) => r == 0 && iPosFree == old(iPosFree) && aPos[parent].endL == lt
              case _ => r == -1
      decreases |strDoc| - aPos[parent].endL, 1
    {
      hide FindChar, NextTag, EndTagRight, ParseElem, ParseKids, Numbered, TokenText;
      var start := aPos[parent].endL;
      ElemIs(strDoc, start);
      var i := NewPos(parent);
      var g := ScanTag(start);
      if g.BadTag? {
        iPosFree := iPosFree - 1;
        return -1;
      }
      MarkTag(i, parent, g.lt);
      if g.EndTag? {
        iPosFree := iPosFree - 1;
        return 0;
      }
      r := ParseOpened(i, parent, g, start);
    }

    // From behind the name of a start tag on.
    method ParseOpened(i: nat, parent: nat, g: Tag, ghost start: nat) returns (r: int)
      requires start <= |strDoc| && g == NextTag(strDoc, start) && g.StartTag? && !ParseElem(strDoc, start).Stuck?
      requires 8 <= |aPos| && iPosFree == i + 1 <= |aPos| && parent < i
      requires aPos[i].startL == g.lt && aPos[i].parent == parent && aPos[i].child == 0 && aPos[i].next == 0
      modifies this`aPos, this`iPosFree
      ensures |old(aPos)| <= |aPos| && i <= iPosFree <= |aPos|
      ensures forall j :: 0 <= j < i ==> aPos[j] == old(aPos)[j]
      ensures match ParseElem(strDoc, start)
              case Found(t) => r == i && iPosFree == i + Count(t) && Numbered(aPos, t, i, parent)
              case _ => r == -1
      decreases |strDoc| - start, 0
    {
      hide FindChar, NextTag, EndTagRight, ParseElem, ParseKids, Numbered, TokenText;
      ElemIs(strDoc, start);
      var found, gt := ScanChar(strDoc, g.t.next, '>');
      if !found {
        iPosFree := iPosFree - 1;
        return -1;
      }
      aPos := aPos[i := aPos[i].(startR := gt)];
      if strDoc[gt - 1] == '/' {
        aPos := aPos[i := aPos[i].(endL := gt - 1, endR := gt)];
        NumberedNone(aPos, i + 1, i);
        NumberedOne(aPos, ONode(g.lt, gt, gt - 1, gt, ONil, ONil), i, parent);
        return i;
      }
      r := ParseEndTag(i, parent, g);
    }

    // The rest of x_ParseElem, for a start tag that is not that of an empty element.
    method ParseEndTag(i: nat, parent: nat, g: Tag) returns (r: int)
      requires 8 <= |aPos| && iPosFree == i + 1 <= |aPos| && parent < i && g.StartTag?
               && 0 <= g.t.left <= g.t.right + 1 <= |strDoc|
      requires 0 <= aPos[i].startR < |strDoc| && !ParseKids(strDoc, aPos[i].startR + 1).StuckKids?
      requires aPos[i].startL == g.lt && aPos[i].parent == parent && aPos[i].child == 0 && aPos[i].next == 0
      modifies this`aPos, this`iPosFree
      ensures |old(aPos)| <= |aPos| && old(iPosFree) - 1 <= iPosFree <= |aPos|
      ensures forall j :: 0 <= j < i ==> aPos[j] == old(aPos)[j]
      ensures var gt := old(aPos)[i].startR;
              match ParseKids(strDoc, gt + 1)
              case Kids(kids, endL) =>
                var endR := EndTagRight(strDoc, endL + 1, TokenText(strDoc, g.t), 0);
                var t := ONode(g.lt, gt, endL, endR, kids, ONil);
                if endR == -1 then r == -1 else r == i && iPosFree == i + Count(t) && Numbered(aPos, t, i, parent)
              case _ => r == -1
      decreases |strDoc| - aPos[i].startR - 1, 3
    {
      hide FindChar, NextTag, EndTagRight, ParseElem, ParseKids, Numbered, TokenText;
      var ok, kids := ParseContents(i);
      if !ok {
        return -1;
      }
      var right := ScanEndTag(aPos[i].endL + 1, TokenText(strDoc, g.t));
      if right == -1 {
        iPosFree := iPosFree - 1;
        return -1;
      }
      ghost var a1 := aPos;
      aPos := aPos[i := aPos[i].(endR := right)];
      NumberedFrame(a1, aPos, kids, i + 1, i);
      NumberedOne(aPos, ONode(g.lt, aPos[i].startR, aPos[i].endL, right, kids, ONil), i, parent);
      return i;
    }

    // The loop of x_ParseElem over the elements inside element i.
    method ParseContents(i: nat) returns (ok: bool, ghost kids: OForest)
      requires 8 <= |aPos| && iPosFree == i + 1 <= |aPos| && aPos[i].startR < |strDoc| && aPos[i].child == 0
      requires 0 <= aPos[i].startR && !ParseKids(strDoc, aPos[i].startR + 1).StuckKids?
      modifies this`aPos, this`iPosFree
      ensures |old(aPos)| <= |aPos| && old(iPosFree) <= iPosFree <= |aPos|
      ensures forall j :: 0 <= j < i ==> aPos[j] == old(aPos)[j]
      ensures aPos[i] == old(aPos)[i].(child := aPos[i].child, endL := aPos[i].endL)
      ensures ok <==> ParseKids(strDoc, aPos[i].startR + 1).Kids?
      ensures ok ==> var p := ParseKids(strDoc, aPos[i].startR + 1);
                     && kids == p.forest && aPos[i].endL == p.lt && Numbered(aPos, kids, i + 1, i)
                     && aPos[i].child == FirstNo(kids, i + 1) && iPosFree == i + 1 + Count(kids)
      decreases |strDoc| - aPos[i].startR - 1, 2
    {
      hide ParseElem, ParseKids, Numbered, FirstNo;
      ghost var start := aPos[i].startR + 1;
      aPos := aPos[i := aPos[i].(endL := aPos[i].startR + 1)];
      var prev := 0;
      ok, kids := true, ONil;
      NumberedNone(aPos, i + 1, i);
      ghost var r0, a0 := aPos[i], aPos;
      while true
        invariant |a0| <= |aPos| && iPosFree == i + 1 + Count(kids) <= |aPos| && forall j :: 0 <= j < i ==>
                    aPos[j] == a0[j]
        invariant aPos[i] == r0.(child := FirstNo(kids, i + 1), endL := aPos[i].endL)
        invariant start <= aPos[i].endL <= |strDoc|
                  && KidsAfter(kids, ParseKids(strDoc, aPos[i].endL)) == ParseKids(strDoc, start)
        invariant Numbered(aPos, kids, i + 1, i) && prev == LastNo(kids, i + 1)
        decreases |strDoc| - aPos[i].endL
      {
        ghost var pos, a1 := aPos[i].endL, aPos;
        KidsStep(strDoc, pos, kids);
        var inner := ParseElement(i);
        if inner <= 0 {
          ok := inner == 0;
          NumberedFrame(a1, aPos, kids, i + 1, i);
          return;
        }
        ghost var t := ParseElem(strDoc, pos).tree;
        NumberedFrame(a1, aPos, kids, i + 1, i);
        LinkParsed(i, prev, inner, kids, t);
        prev := inner;
        kids := Append(kids, t);
      }
    }

    // The element `inner` just parsed becomes the last one inside element i.
    method LinkParsed(i: nat, prev: nat, inner: nat, ghost kids: OForest, ghost t: OForest)
      requires t.ONode? && t.next.ONil? && i < inner < |aPos|
      requires Numbered(aPos, kids, i + 1, i) && Numbered(aPos, t, inner, i)
      requires prev == LastNo(kids, i + 1) && inner == i + 1 + Count(kids) && aPos[i].child == FirstNo(kids, i + 1)
      modifies this`aPos
      ensures |aPos| == |old(aPos)| && forall j :: 0 <= j < i ==> aPos[j] == old(aPos)[j]
      ensures aPos[i] == old(aPos)[i].(child := i + 1, endL := t.endR + 1)
      ensures Numbered(aPos, Append(kids, t), i + 1, i) && LastNo(Append(kids, t), i + 1) == inner
      ensures Count(Append(kids, t)) == Count(kids) + Count(t) && FirstNo(Append(kids, t), i + 1) == i + 1
    {
      hide Numbered;
      ghost var a := aPos;
      NumberedNext(aPos, kids, t, i + 1, i);
      NumberedRecord(aPos, t, inner, i);
      if prev != 0 {
        aPos := aPos[prev := aPos[prev].(next := inner)];
      } else {
        aPos := aPos[i := aPos[i].(child := inner)];
      }
      ghost var a1 := if kids.ONode? then aPos else a;
      aPos := aPos[i := aPos[i].(endL := aPos[inner].endR + 1)];
      NumberedFrame(a1, aPos, Append(kids, t), i + 1, i);
    }

    // The state right after parsing `doc`.
    ghost predicate Parsed(doc: string)
      reads this
    {
      && strDoc == doc && 8 <= |aPos| && aPos[0].startR == 0
        && CursorAt(aPos, {}, iPosParent, iPos, iPosChild, nodeType)
      && iPosParent == 0 && iPos == 0 && iPosChild == 0 && Stored(aPos, iPosFree, ParseElem(doc, 0))
    }

    // The part of SetDoc that parses.
    method ParseDocument() returns (ok: bool)
      requires 8 <= |aPos| && iPosFree == 1 && !ParseElem(strDoc, 0).Stuck?
      modifies this`aPos, this`iPosFree
      ensures 8 <= |aPos| && aPos[0].startR == 0 && Stored(aPos, iPosFree, ParseElem(strDoc, 0))
              && ok == ParseElem(strDoc, 0).Found?
    {
      hide ParseElem, Numbered;
      ok := false;
      NothingFound(strDoc);
      if |strDoc| != 0 {
        aPos := aPos[0 := NO_POS];
        var i := ParseElement(0);
        if i > 0 {
          ghost var a := aPos;
          aPos := aPos[0 := aPos[0].(child := i)];
          ok := true;
          NumberedFrame(a, aPos, ParseElem(strDoc, 0).tree, 1, 0);
          NumberedRecord(aPos, ParseElem(strDoc, 0).tree, 1, 0);
        }
      }
      if !ok {
        aPos := aPos[0 := NO_POS];
        iPosFree := 1;
      }
    }

    // SetDoc; g stands for any tree that the text may be the text of.
    method SetDoc(doc: string, ghost g: Forest) returns (ok: bool)
      requires !ParseElem(doc, 0).Stuck?
      modifies this
      ensures Parsed(doc) && ok == ParseElem(doc, 0).Found?
      ensures ok ==> Nested(doc, ParseElem(doc, 0).tree, 0, |doc|) && Named(doc, ParseElem(doc, 0).tree)
      ensures WF(g) && Roots(g) <= 1 && Render(g) == doc ==>
                Valid() && tree == Renumber(g, 1) && (ok <==> Roots(g) == 1)
    {
      hide ParseElem, Indexed, Stored, Ids, Roots, WF, Render, Nested, Named;
      AcceptedIsTagged(doc);
      iPosFree := 1;
      SetPos(0, 0, 0);
      strDoc := doc;
      var startSize := |doc| / 64 + 8;
      if |aPos| < startSize {
        aPos := aPos + seq(startSize - |aPos|, _ => NO_POS);
      }
      ok := ParseDocument();
      SetPos(0, 0, 0);
      tree := Renumber(g, 1);
      if WF(g) && Roots(g) <= 1 && Render(g) == doc {
        ParsedIsIndexed(doc, aPos, iPosFree, g);
        TreeWF(strDoc, aPos, iPosFree, tree);
      }
    }

    // An empty document.
    constructor ()
      ensures Valid() && tree == Nil && strDoc == "" && iPosParent == 0 && iPos == 0 && iPosChild == 0
    {
      strDoc, aPos, iPosFree, tree := "", [], 1, Nil;
      iPosParent, iPos, iPosChild, nodeType := 0, 0, 0, NO_NODE;
      new;
      NothingFound("");
      var ok := SetDoc("", Nil);
    }

    // ---- moving about ----

    method SetPos(parent: nat, pos: nat, child: nat)
      modifies this`iPosParent, this`iPos, this`iPosChild, this`nodeType
      ensures iPosParent == parent && iPos == pos && iPosChild == child
      ensures nodeType == if pos != 0 then ELEMENT_NODE else NO_NODE
    {
      iPosParent, iPos, iPosChild := parent, pos, child;
      nodeType := if pos != 0 then ELEMENT_NODE else NO_NODE;
    }

    // FindElem: to the next sibling, by name, or along a path; the position stays if there is none.
    method FindElem(path: string) returns (found: bool)
      requires Valid()
      modifies this`iPosParent, this`iPos, this`iPosChild, this`nodeType
      ensures Valid()
      ensures var r := Target(tree, old(iPosParent), old(iPos), path);
              && found == (r != 0)
              && if found then r < |aPos| && iPosParent == aPos[r].parent && iPos == r && iPosChild == 0
                 else iPosParent == old(iPosParent) && iPos == old(iPos) && iPosChild == old(iPosChild)
    {
      hide Indexed, Ids, Target;
      var r := FindPath(path);
      found := r != 0;
      if found {
        LinksOk(strDoc, aPos, iPosFree, tree, r);
        SetPos(aPos[r].parent, r, 0);
      }
    }

    // x_FindElem
    method FindPath(path: string) returns (r: nat)
      requires Valid()
      ensures r == Target(tree, iPosParent, iPos, path) && (r == 0 || r in Ids(tree))
    {
      hide Indexed, Ids, Search, Behind, Contents, At;
      var offset, start := 0, 0;
      ghost var f, c := tree, Top;
      TreeWF(strDoc, aPos, iPosFree, tree);
      RootOk(strDoc, aPos, iPosFree, tree);
      RootReady(strDoc, aPos, iPosFree, tree);
      if path != "" && path[0] == '/' {
        start := aPos[0].child;
        offset := 1;
      } else if iPos != 0 {
        ghost var n, d := StartReady(strDoc, aPos, iPosFree, tree, iPos);
        f, c := n.next, InNext(n, d);
        start := aPos[iPos].next;
      } else if iPosParent != 0 {
        ghost var n, d := StartReady(strDoc, aPos, iPosFree, tree, iPosParent);
        f, c := n.kids, InKids(n, d);
        start := aPos[iPosParent].child;
      } else {
        start := aPos[0].child;
      }
      assert path[0..] == path;
      NoZero(strDoc, aPos, iPosFree, tree, f, c);
      if offset == |path| {
        FirstInIds(f);
        return start;
      }
      SearchIn(f, path[offset..]);
      r := SearchFrom(start, path, offset, f, c);
    }

    // The loop of x_FindElem from the first of the siblings f on.
    method SearchFrom(start: nat, path: string, from: nat, ghost f: Forest, ghost c: Ctx) returns (r: nat)
      requires Indexed(strDoc, aPos, iPosFree, tree) && At(tree, f, c) && start == FirstId(f) && from <= |path|
      ensures r == Search(f, path[from..])
    {
      hide Indexed, Search, Begins, At, Ids, FindToken, Match;
      var i, offset := start, from;
      ghost var g, d := f, c;
      while i != 0
        invariant At(tree, g, d) && i == FirstId(g) && 0 <= offset <= |path|
        invariant Search(g, path[offset..]) == Search(f, path[from..])
        decreases Elements(g)
      {
        ghost var rest := path[offset..];
        ghost var n, e := FindReady(strDoc, aPos, iPosFree, tree, g, d, rest);
        SearchStep(n, rest);
        var t := ScanToken(strDoc, aPos[i].startL + 1);
        if offset < |path| && path[offset] == '*' {
          if offset + 1 == |path| || path[offset + 1] != '/' {
            return i;
          }
          PathRest(path, offset, 2);
          offset := offset + 2;
          i := aPos[i].child;
          g, d := n.kids, InKids(n, e);
        } else if Match(strDoc, t, path[offset..]) {
          var len := t.right - t.left + 1;
          if offset + len == |path| || path[offset + len] != '/' {
            return i;
          }
          PathRest(path, offset, len + 1);
          offset := offset + len + 1;
          i := aPos[i].child;
          g, d := n.kids, InKids(n, e);
        } else {
          i := aPos[i].next;
          g, d := n.next, InNext(n, e);
        }
      }
      NoZero(strDoc, aPos, iPosFree, tree, g, d);
      NoneToFind(g, path[offset..]);
      r := 0;
    }

    method IntoElem() returns (ok: bool)
      requires Valid()
      modifies this`iPosParent, this`iPos, this`iPosChild, this`nodeType
      ensures Valid() && ok == (old(iPos) != 0)
      ensures ok ==> iPosParent == old(iPos) && iPos == old(iPosChild) && iPosChild == 0
      ensures !ok ==> iPosParent == old(iPosParent) && iPos == old(iPos) && iPosChild == old(iPosChild)
    {
      ok := iPos != 0 && nodeType == ELEMENT_NODE;
      if ok {
        SetPos(iPos, iPosChild, 0);
      }
    }

    method OutOfElem() returns (ok: bool)
      requires Valid()
      modifies this`iPosParent, this`iPos, this`iPosChild, this`nodeType
      ensures Valid() && ok == (old(iPosParent) != 0)
      ensures ok ==> iPosParent == aPos[old(iPosParent)].parent && iPos == old(iPosParent) && iPosChild == old(iPos)
      ensures !ok ==> iPosParent == old(iPosParent) && iPos == old(iPos) && iPosChild == old(iPosChild)
    {
      ok := iPosParent != 0;
      if ok {
        LinksOk(strDoc, aPos, iPosFree, tree, iPosParent);
        SetPos(aPos[iPosParent].parent, iPosParent, iPos);
      }
    }

    // ---- reading ----

    // The data of element i, in the tree.
    ghost function DataOf(i: nat): string
      reads this
      requires i in Ids(tree)
    {
      ViewOf(tree, i).data
    }

    // The value of attribute `name` of element i, in the tree; empty when there is none.
    ghost function AttribOf(i: nat, name: string): string
      reads this
      requires i in Ids(tree)
    {
      AttrOf(ViewOf(tree, i).attrs, name)
    }

    // Without a current element nothing is read, if there is a document element.
    method GetData(i: nat) returns (r: string)
      requires Valid() && (i in Ids(tree) || (i == 0 && 0 < |aPos| && aPos[0].child != 0))
      ensures r == if i in Ids(tree) then DataOf(i) else ""
      ensures i in Ids(tree) && i < |aPos| && aPos[i].child == 0 && !aPos[i].IsEmptyElement() ==>
                0 <= aPos[i].startR + 1 <= aPos[i].endL < |strDoc|
                && ReadsAs(strDoc[aPos[i].startR + 1..aPos[i].endL], r)
    {
      hide Indexed, ViewOf, Ids, DataAt, Data, ReadsAs;
      TreeWF(strDoc, aPos, iPosFree, tree);
      ghost var inTree := i in Ids(tree);
      if inTree {
        ghost var n, c := LocateIn(tree, i);
        DataAtElement(strDoc, aPos, iPosFree, n, c);
        if aPos[i].IsEmptyElement() || aPos[i].child != 0 {
          DataEmpty(n);
        }
      }
      if aPos[i].child == 0 && !aPos[i].IsEmptyElement() {
        r := ReadData(strDoc, aPos[i].startR + 1, aPos[i].endL);
        DataReads(strDoc, aPos[i].startR + 1, aPos[i].endL);
      } else {
        r := "";
      }
    }

    method GetAttrib(i: nat, name: string) returns (r: string)
      requires Valid() && (i == 0 || i in Ids(tree)) && NameOk(name)
      ensures r == if i == 0 || nodeType != ELEMENT_NODE then "" else AttribOf(i, name)
      ensures i != 0 && nodeType == ELEMENT_NODE ==>
                var attrs := ViewOf(tree, i).attrs;
                && (forall ps :: HasAttr(attrs, name, ps) ==> r == Says(ps))
                && (Unnamed(attrs, name) ==> r == "")
    {
      hide Indexed, ViewOf, Ids, FindAttribFrom, Unescape, NameOk, HasAttr, AttrOf, Says;
      if i == 0 || nodeType != ELEMENT_NODE {
        return "";
      }
      TreeWF(strDoc, aPos, iPosFree, tree);
      ghost var n, c := LocateIn(tree, i);
      AttribAtElement(strDoc, aPos, iPosFree, n, c, name);
      AttrReads(ViewOf(tree, i).attrs, name);
      var t := FindAttrib(strDoc, aPos[i].startL + 1, name);
      if t.ok {
        r := TextFromDoc(strDoc, t.left, t.right);
      } else {
        r := "";
      }
    }

    // ---- changing one element ----

    method SetAttrib(i: nat, name: string, value: string) returns (ok: bool)
      requires Valid() && (i == 0 || i in Ids(tree)) && NameOk(name) && CString(value)
      modifies this`strDoc, this`aPos, this`tree
      ensures Valid() && ok == (i != 0 && nodeType == ELEMENT_NODE)
      ensures !ok ==> strDoc == old(strDoc) && aPos == old(aPos) && tree == old(tree)
      ensures Ids(tree) == old(Ids(tree)) && SameLinks(old(aPos), aPos)
      ensures ok ==> i < |old(aPos)| && TagOnly(old(strDoc), strDoc, old(aPos)[i])
      ensures ok ==> AttribOf(i, name) == value && DataOf(i) == old(DataOf(i))
      ensures ok ==> HasAttr(ViewOf(tree, i).attrs, name, WrittenAll(value, true))
      ensures ok && Unnamed(old(ViewOf(tree, i)).attrs, name) ==>
                var at := old(aPos)[i].startR - if old(aPos)[i].IsEmptyElement() then 1 else 0;
                && 0 <= at <= |old(strDoc)|
                && strDoc == Splice(old(strDoc), at, 0, " " + name + "=\"" + PiecesText(WrittenAll(value, true)) + "\"")
      ensures ok ==> forall other :: other != name ==> AttribOf(i, other) == old(AttribOf(i, other))
      ensures forall j :: j != i ==> ViewOf(tree, j) == old(ViewOf(tree, j))
    {
      hide Indexed, ViewOf, Ids, FindAttribFrom, Unescape, NameOk, Escape, Splice, Core, AttrEditAt, AttrEditLength,
           AttrEditText, AttrOf, WithAttr, Data, Plug, Render, IndexOf, Pre, CursorAt, Replaces, TagOnly, HasAttr,
           WrittenAll;
      if i == 0 || nodeType != ELEMENT_NODE {
        LinksKept(aPos);
        return false;
      }
      TreeWF(strDoc, aPos, iPosFree, tree);
      ghost var n, c := LocateIn(tree, i);
      ghost var doc0, a0, v := strDoc, aPos, Escape(value, true);
      AttribAtElement(strDoc, aPos, iPosFree, n, c, name);
      AttribEditReady(strDoc, aPos, iPosFree, n, c, name, v);
      AttribEdited(strDoc, aPos, iPosFree, n, c, name, value);
      AttrPut(n, name, value);
      var t := FindAttrib(strDoc, aPos[i].startL + 1, name);
      var insert := TextToDoc(value, true);
      var insertAt, replace;
      if t.ok {
        insertAt := t.left;
        replace := t.right - t.left + 1;
      } else {
        insert := " " + name + "=\"" + insert + "\"";
        insertAt := aPos[i].startR - (if aPos[i].IsEmptyElement() then 1 else 0);
        replace := 0;
      }
      EditTextIs(n, name, v);
      PutAttrib(i, insertAt, replace, insert, n, c, name, v);
      OnlyTagEdited(doc0, a0, strDoc, aPos, iPosFree, n, c, name, v);
      CursorKept(a0, aPos, Ids(tree), iPosParent, iPos, iPosChild, nodeType);
      ok := true;
    }

    // The part of x_SetAttrib that changes the document, inside the start tag of element i.
    method PutAttrib(i: nat, insertAt: int, replace: int, insert: string, ghost n: Forest, ghost c: Ctx,
                     ghost name: string, ghost v: string)
      requires CtxOk(c) && n.Node? && n.id == i && tree == Plug(n, c)
      requires Indexed(strDoc, aPos, iPosFree, tree) && Replaces(n, WithAttr(n, name, v))
      requires insertAt == |Pre(c)| + AttrEditAt(n, name) && replace == AttrEditLength(n, name)
               && insert == AttrEditText(n, name, v)
      modifies this`strDoc, this`aPos, this`tree
      ensures tree == Plug(WithAttr(n, name, v), c) && Indexed(strDoc, aPos, iPosFree, tree)
              && SameLinks(old(aPos), aPos)
      ensures 0 <= insertAt <= insertAt + replace <= |old(strDoc)|
              && strDoc == Splice(old(strDoc), insertAt, replace, insert)
    {
      hide Indexed, StandOk, VisitAll, Plan, Splice, Core, AttrEditAt, AttrEditLength, AttrEditText, WithAttr, Plug,
           Render, Pre, SameLinks, Replaces;
      ghost var doc0, a0 := strDoc, aPos;
      AttribEditReady(strDoc, aPos, iPosFree, n, c, name, v);
      strDoc := Splice(strDoc, insertAt, replace, insert);
      var adjust := |insert| - replace;
      aPos := aPos[i := aPos[i].(startR := aPos[i].startR + adjust)];
      aPos := aPos[i := aPos[i].AdjustEnd(adjust)];
      NodeAdjustReady(doc0, a0, aPos, iPosFree, n, c);
      ghost var a1 := aPos;
      Adjust(i, adjust, false, n, c);
      AttribPut(doc0, a0, a1, aPos, iPosFree, n, c, name, v);
      tree := Plug(WithAttr(n, name, v), c);
    }

    method GetTagName(i: nat, ghost n: Forest, ghost c: Ctx) returns (r: string)
      requires CtxOk(c) && n.Node? && n.id == i && tree == Plug(n, c) && Indexed(strDoc, aPos, iPosFree, tree)
      ensures r == n.name
    {
      hide Indexed, FindToken, Plug;
      TagNameRead(strDoc, aPos, iPosFree, n, c);
      var t := ScanToken(strDoc, aPos[i].startL + 1);
      r := TokenText(strDoc, t);
    }

    method SetData(i: nat, data: string, cdata: bool) returns (ok: bool)
      requires Valid() && (i == 0 || i in Ids(tree)) && CString(data)
      modifies this`strDoc, this`aPos, this`tree
      ensures Valid() && ok == (i != 0 && old(aPos)[i].child == 0)
      ensures !ok ==> strDoc == old(strDoc) && aPos == old(aPos) && tree == old(tree)
      ensures Ids(tree) == old(Ids(tree)) && SameLinks(old(aPos), aPos)
      ensures ok ==> i < |old(aPos)| && old(ViewOf(tree, i)).View?
                     && ContentsPut(old(strDoc), strDoc, old(aPos)[i], old(ViewOf(tree, i)).name, DataText(data, cdata))
      ensures ok ==> DataOf(i) == data && ViewOf(tree, i) == SeenData(old(ViewOf(tree, i)), data)
      ensures forall j :: j != i ==> ViewOf(tree, j) == old(ViewOf(tree, j))
    {
      hide Indexed, ViewOf, Ids, Escape, Data, Plug, DataText, CursorAt, WithData, FindStr, ChunkOk, ContentsPut;
      TreeWF(strDoc, aPos, iPosFree, tree);
      if i == 0 || aPos[i].child != 0 {
        LinksKept(aPos);
        return false;
      }
      ghost var n, c := LocateIn(tree, i);
      ghost var a0 := aPos;
      DataAtElement(strDoc, aPos, iPosFree, n, c);
      var insert := "";
      if cdata && FindStr(data, 0, CDATA_END) == |data| {
        insert := "<" + CDATA + data + CDATA_END;
      } else {
        insert := TextToDoc(data, false);
      }
      DataTextIs(data, cdata);
      DataTextOk(data, cdata);
      DataEdited(strDoc, aPos, iPosFree, n, c, data, cdata);
      PutText(i, insert, n, c);
      CursorKept(a0, aPos, Ids(tree), iPosParent, iPos, iPosChild, nodeType);
      ok := true;
    }

    // The part of x_SetData that changes the document: text becomes the contents of element i.
    method PutText(i: nat, text: string, ghost n: Forest, ghost c: Ctx)
      requires CtxOk(c) && n.Node? && n.id == i && tree == Plug(n, c)
      requires Indexed(strDoc, aPos, iPosFree, tree) && ChunkOk(text) && Ids(n.kids) == {} && i in Ids(tree)
      modifies this`strDoc, this`aPos, this`tree
      ensures tree == Plug(WithData(n, text), c) && Indexed(strDoc, aPos, iPosFree, tree) && SameLinks(old(aPos), aPos)
      ensures i < |old(aPos)| && ContentsPut(old(strDoc), strDoc, old(aPos)[i], n.name, text)
    {
      hide Indexed, ViewOf, Ids, StandOk, VisitAll, Plan, Splice, Core, Data, Plug, Render, Pre, TagBody, SameLinks,
           WithData, DataEditText, DataEditRecord, ChunkOk;
      ghost var doc0, a0, m := strDoc, aPos, WithData(n, text);
      DataEditReady(strDoc, aPos, iPosFree, n, c, text);
      DataEditIs(n, aPos[i], text);
      var insert, insertAt, replace := text, 0, 0;
      if aPos[i].IsEmptyElement() {
        insertAt := aPos[i].endL;
        replace := 1;
        var tagName := GetTagName(i, n, c);
        aPos := aPos[i := aPos[i].(startR := aPos[i].startR - 1, endL := aPos[i].endL - (1 + |tagName|))];
        insert := ">" + text + "</" + tagName;
      } else {
        insertAt := aPos[i].startR + 1;
        replace := aPos[i].endL - aPos[i].startR - 1;
      }
      strDoc := Splice(strDoc, insertAt, replace, insert);
      var adjust := |insert| - replace;
      ghost var a1 := aPos;
      NodeAdjustReady(doc0, a0, a1, iPosFree, n, c);
      Adjust(i, adjust, false, n, c);
      aPos := aPos[i := aPos[i].AdjustEnd(adjust)];
      TextPut(doc0, a0, a1, aPos, iPosFree, n, c, text);
      tree := Plug(m, c);
    }

    // ---- removing an element ----

    // The sibling in front of element i, or 0.
    method PrevSibling(i: nat, iPosParent: nat, ghost before: seq<nat>) returns (prev: nat)
      requires Chain(aPos, iPosParent, before + [i]) && i !in before
      ensures prev == if before == [] then 0 else before[|before| - 1]
    {
      var look := aPos[iPosParent].child;
      ghost var x, ids := 0, before + [i];
      prev := 0;
      while look != i
        invariant 0 <= x < |ids| && look == ids[x] && prev == if x == 0 then 0 else ids[x - 1]
        decreases |ids| - x
      {
        prev := look;
        look := aPos[look].next;
        x := x + 1;
      }
    }

    // Out of the list of its siblings.
    method Unlink(i: nat, iPosParent: nat, prev: nat, ghost c: Ctx)
      requires CtxOk(c) && prev == PrevId(c) < |aPos| && iPosParent == ParentOf(c) < |aPos| && i < |aPos|
      modifies this`aPos
      ensures aPos == Relink(old(aPos), c, old(aPos)[i].next) && |aPos| == |old(aPos)|
      ensures aPos[i].startL == old(aPos)[i].startL && aPos[i].endR == old(aPos)[i].endR
    {
      RelinkIs(aPos, c, aPos[i].next);
      if prev != 0 {
        aPos := aPos[prev := aPos[prev].(next := aPos[i].next)];
      } else {
        aPos := aPos[iPosParent := aPos[iPosParent].(child := aPos[i].next)];
      }
    }

    // x_RemoveElem: k characters of plain text behind the element go with it.
    method DetachElem(i: nat, ghost n: Forest, ghost c: Ctx) returns (prev: nat, ghost k: nat)
      requires CtxOk(c) && n.Node? && n.id == i && tree == Plug(n, c) && Indexed(strDoc, aPos, iPosFree, tree)
      modifies this`strDoc, this`aPos, this`tree
      ensures Indexed(strDoc, aPos, iPosFree, tree) && k <= LeadLen(n.next) && tree == Plug(DropLead(n.next, k), c)
      ensures prev == PrevId(c)
      ensures |aPos| == |old(aPos)| && forall j :: 0 <= j < |aPos| ==> aPos[j].parent == old(aPos)[j].parent
      ensures i < |old(aPos)| && ElementCut(old(strDoc), strDoc, old(aPos)[i])
              && StandsBefore(old(aPos), old(aPos)[i].parent, prev, i)
    {
      hide Indexed, StandOk, VisitAll, Plan, Splice, Core, Plug, Render, Pre, DropLead, LeadLen, FindToken, LeftIds,
           Relink, SameLinks, Chain, ElementCut, StandsBefore, Frames, PrevId, ParentOf;
      RemovePlace(strDoc, aPos, iPosFree, n, c);
      ghost var doc0, a0 := strDoc, aPos;
      var iPosParent := aPos[i].parent;
      prev := PrevSibling(i, iPosParent, LeftIds(c));
      Unlink(i, iPosParent, prev, c);
      RemoveReady(doc0, a0, iPosFree, n, c);
      var afterEnd := aPos[i].endR + 1;
      var t := ScanToken(strDoc, afterEnd);
      if !t.ok || (t.left < |strDoc| && strDoc[t.left] == '<') {
        afterEnd := t.left;
      }
      var len := afterEnd - aPos[i].startL;
      k := len - |Core(n)|;
      strDoc := Splice(strDoc, aPos[i].startL, len, "");
      Adjust(i, -len, true, n, c);
      Removed(doc0, a0, iPosFree, n, c, k);
      ParentsKept(a0, c, FirstId(n.next), Plan(n, c, true), -len);
      TextRemoved(doc0, Pre(c), len);
      CoreStarts(n);
      CutIs(doc0, strDoc, a0[i], Pre(c), Core(n));
      PrevStandsBefore(a0, iPosParent, LeftIds(c), i);
      tree := Plug(DropLead(n.next, k), c);
    }

    // RemoveElem: the current element with its contents; the element in front of it becomes current.
    method RemoveElem() returns (ok: bool)
      requires Valid()
      modifies this
      ensures Valid() && ok == (old(iPos) != 0)
      ensures !ok ==> strDoc == old(strDoc) && aPos == old(aPos) && tree == old(tree)
      ensures ok ==> Ids(tree) == old(Ids(tree)) - old(Below(tree, iPos))
                     && iPosParent == old(iPosParent) && iPosChild == 0
      ensures ok ==> old(iPos) < |old(aPos)| && ElementCut(old(strDoc), strDoc, old(aPos)[old(iPos)])
                     && StandsBefore(old(aPos), old(iPosParent), iPos, old(iPos))
      ensures forall j :: j in Ids(tree) ==> Outside(old(ViewOf(tree, j)), ViewOf(tree, j), j == old(iPosParent))
    {
      hide Indexed, ViewOf, Ids, Plug, DropLead, LeadLen, CtxIds, Pre, Core, UpToTag, Below, ElementCut, StandsBefore;
      ok := iPos != 0 && nodeType == ELEMENT_NODE;
      if ok {
        ghost var doc0, a0 := strDoc, aPos;
        TreeWF(strDoc, aPos, iPosFree, tree);
        ghost var n, c := LocateIn(tree, iPos);
        RemovePlace(strDoc, aPos, iPosFree, n, c);
        var prev, k := DetachElem(iPos, n, c);
        RemovedRest(doc0, a0, iPosFree, n, c, k);
        TreeWF(strDoc, aPos, iPosFree, tree);
        SetPos(iPosParent, prev, 0);
      }
    }

    // RemoveChildElem: the same for the current child.
    method RemoveChildElem() returns (ok: bool)
      requires Valid()
      modifies this
      ensures Valid() && ok == (old(iPosChild) != 0)
      ensures !ok ==> strDoc == old(strDoc) && aPos == old(aPos) && tree == old(tree)
      ensures ok ==> Ids(tree) == old(Ids(tree)) - old(Below(tree, iPosChild))
                     && iPosParent == old(iPosParent) && iPos == old(iPos)
      ensures ok ==> old(iPosChild) < |old(aPos)| && ElementCut(old(strDoc), strDoc, old(aPos)[old(iPosChild)])
                     && StandsBefore(old(aPos), old(iPos), iPosChild, old(iPosChild))
      ensures forall j :: j in Ids(tree) ==> Outside(old(ViewOf(tree, j)), ViewOf(tree, j), j == old(iPos))
    {
      hide Indexed, ViewOf, Ids, Plug, DropLead, LeadLen, CtxIds, Pre, Core, UpToTag, Below, ElementCut, StandsBefore;
      ok := iPosChild != 0;
      if ok {
        ghost var doc0, a0 := strDoc, aPos;
        TreeWF(strDoc, aPos, iPosFree, tree);
        ghost var n, c := LocateIn(tree, iPosChild);
        RemovePlace(strDoc, aPos, iPosFree, n, c);
        var prev, k := DetachElem(iPosChild, n, c);
        RemovedRest(doc0, a0, iPosFree, n, c, k);
        TreeWF(strDoc, aPos, iPosFree, tree);
        LinksOk(strDoc, aPos, iPosFree, tree, iPos);
        SetPos(iPosParent, iPos, prev);
      }
    }

    // ---- adding an element ----

    // The last sibling under iPosParent, or 0.
    method LastSibling(iPosParent: nat, ghost before: seq<nat>) returns (last: nat)
      requires Chain(aPos, iPosParent, before + [0]) && 0 !in before
      ensures last == if before == [] then 0 else before[|before| - 1]
    {
      last := aPos[iPosParent].child;
      ghost var x, ids := 0, before + [0];
      if last != 0 {
        var next := last;
        assert before != [] && next == before[0];
        while next != 0
          invariant 0 <= x < |ids| && next == ids[x]
          invariant last == if x == 0 then before[0] else ids[x - 1]
          decreases |ids| - x
        {
          last := next;
          next := aPos[next].next;
          x := x + 1;
        }
      }
    }

    // x_LocateNew, for element nodes; an empty parent is to be split at its '/'.
    method LocateNew(iPosParent: nat, rel: nat, insert: bool) returns (offset: int, before: nat, ghost p: Place)
      requires Indexed(strDoc, aPos, iPosFree, tree) && (iPosParent == 0 || iPosParent in Ids(tree))
      requires rel != 0 ==> rel in Ids(tree) && rel < |aPos| && aPos[rel].parent == iPosParent
      requires iPosParent == 0 ==> Roots(tree) == 0 && rel == 0 && aPos[0].endL == |strDoc|
      requires iPosParent == 0 && insert ==> strDoc != ""
      ensures iPosParent < |aPos|
      ensures aPos[iPosParent].IsEmptyElement() ==> offset == aPos[iPosParent].startR && before == 0 && rel == 0
      ensures !aPos[iPosParent].IsEmptyElement() && !Misplaced(strDoc, iPosParent, insert) ==>
                PlaceOk(strDoc, aPos, tree, p, iPosParent, before, offset)
      ensures Misplaced(strDoc, iPosParent, insert) ==> !aPos[0].IsEmptyElement() && before == 0 && rel == 0
      ensures !aPos[iPosParent].IsEmptyElement() ==>
                && rel < |aPos| && 0 <= PlaceStart(strDoc, aPos, iPosParent, rel, insert) <= |strDoc|
                && offset == UpToTag(strDoc, PlaceStart(strDoc, aPos, iPosParent, rel, insert))
      ensures !aPos[iPosParent].IsEmptyElement() && !Misplaced(strDoc, iPosParent, insert) ==>
                if rel != 0 then (if insert then FirstId(p.f) == rel else before == rel)
                else (if insert then before == 0 else FirstId(p.f) == 0)
    {
      hide Indexed, PlaceOk, Plug, Ids, FindToken, LeftIds, Chain, LeadLen, FirstId;
      offset, p := LocateStart(iPosParent, rel, insert);
      if aPos[iPosParent].IsEmptyElement() {
        return offset, 0, p;
      }
      var t := ScanToken(strDoc, offset);
      if !t.ok || (t.left < |strDoc| && strDoc[t.left] == '<') {
        offset := t.left;
      }
      before := 0;
      if rel != 0 {
        before := rel;
        if insert {
          before := PrevSibling(rel, iPosParent, LeftIds(p.c));
        }
      } else if aPos[iPosParent].child != 0 {
        if !insert {
          before := LastSibling(iPosParent, LeftIds(p.c));
        }
      } else if !Misplaced(strDoc, iPosParent, insert) {
        NoChild(aPos, p, iPosParent);
      }
    }

    // Where x_LocateNew starts looking for the next tag.
    method LocateStart(iPosParent: nat, rel: nat, insert: bool) returns (offset: int, ghost p: Place)
      requires Indexed(strDoc, aPos, iPosFree, tree) && (iPosParent == 0 || iPosParent in Ids(tree))
      requires rel != 0 ==> rel in Ids(tree) && rel < |aPos| && aPos[rel].parent == iPosParent
      requires iPosParent == 0 ==> Roots(tree) == 0 && rel == 0 && aPos[0].endL == |strDoc|
      requires iPosParent == 0 && insert ==> strDoc != ""
      ensures iPosParent < |aPos|
      ensures aPos[iPosParent].IsEmptyElement() ==> offset == aPos[iPosParent].startR && rel == 0
      ensures !aPos[iPosParent].IsEmptyElement() ==>
                0 <= offset <= |strDoc| && rel < |aPos| && offset == PlaceStart(strDoc, aPos, iPosParent, rel, insert)
      ensures !aPos[iPosParent].IsEmptyElement() && !Misplaced(strDoc, iPosParent, insert) ==>
                && CtxOk(p.c) && PlaceOk(strDoc, aPos, tree, p, iPosParent, PrevId(p.c), UpToTag(strDoc, offset))
                && BehindSiblings(aPos, p, iPosParent)
      ensures Misplaced(strDoc, iPosParent, insert) ==> !aPos[0].IsEmptyElement() && aPos[0].child == 0
      ensures !aPos[iPosParent].IsEmptyElement() && !Misplaced(strDoc, iPosParent, insert) ==>
                if rel != 0 then (if insert then FirstId(p.f) == rel else PrevId(p.c) == rel)
                else (if insert then PrevId(p.c) == 0 else FirstId(p.f) == 0)
    {
      hide Indexed, PlaceOk, Plug, Ids, Pre, LeftIds, Chain, LeadLen, UpToTag, BehindSiblings, Roots;
      TreeWF(strDoc, aPos, iPosFree, tree);
      RootText(strDoc, aPos, iPosFree, tree);
      p := Place(tree, Top, 0);
      if rel != 0 {
        ghost var n, d := LocateIn(tree, rel);
        AroundElement(strDoc, aPos, iPosFree, n, d);
        SiblingParent(strDoc, aPos, iPosFree, n, d);
        if insert {
          offset := aPos[rel].startL;
          p := PlaceIsOk(strDoc, aPos, iPosFree, tree, n, d);
        } else {
          offset := aPos[rel].endR + 1;
          p := PlaceIsOk(strDoc, aPos, iPosFree, tree, n.next, InNext(n, d));
        }
      } else if iPosParent == 0 {
        offset := if insert then aPos[iPosParent].startR + 1 else aPos[iPosParent].endL;
        NoRootChild(strDoc, aPos, iPosFree, tree);
        if !Misplaced(strDoc, iPosParent, insert) {
          p := RootPlace(strDoc, aPos, iPosFree, tree, insert);
        }
      } else {
        ghost var n, d := LocateIn(tree, iPosParent);
        ghost var e := InsideElement(strDoc, aPos, iPosFree, n, d);
        if aPos[iPosParent].IsEmptyElement() {
          offset := aPos[iPosParent].startR;
        } else if insert {
          offset := aPos[iPosParent].startR + 1;
          p := PlaceIsOk(strDoc, aPos, iPosFree, tree, n.kids, InKids(n, d));
        } else {
          offset := aPos[iPosParent].endL;
          p := PlaceIsOk(strDoc, aPos, iPosFree, tree, Nil, e);
        }
      }
    }

    // The text of a new element with its record, which is still to be linked.
    method NewElemText(i: nat, name: string, value: string) returns (text: string)
      requires i < |aPos| && NameOk(name) && CString(value)
      modifies this`aPos
      ensures var n, r := NewElem(i, name, value), old(aPos)[i];
              && text == Core(n) + "\r\n"
              && aPos == old(aPos)[i := Pos(n, r.startL, |Render(n.kids)|, r.parent, 0, r.next).(child := r.child)]
    {
      hide Core, Render, Pos, Escape, NameOk;
      NewElemOk(i, name, value);
      ghost var r := aPos[i];
      NewRecord(i, name, value, r.startL, r.parent, r.next);
      if value == "" {
        text := "<" + name + "/>\r\n";
        assert "<" + name + "/>\r\n" == "<" + name + "/>" + "\r\n";
        aPos := aPos[i := aPos[i].(startR := aPos[i].startL + |name| + 2)];
        aPos := aPos[i := aPos[i].(endL := aPos[i].startR - 1)];
        aPos := aPos[i := aPos[i].(endR := aPos[i].endL + 1)];
      } else {
        var v := TextToDoc(value, false);
        text := "<" + name + ">" + v + "</" + name + ">\r\n";
        assert "<" + name + ">" + v + "</" + name + ">\r\n" == "<" + name + ">" + v + "</" + name + ">" + "\r\n";
        aPos := aPos[i := aPos[i].(startR := aPos[i].startL + |name| + 1)];
        aPos := aPos[i := aPos[i].(endL := aPos[i].startR + |v| + 1)];
        aPos := aPos[i := aPos[i].(endR := aPos[i].endL + |name| + 2)];
      }
    }

    // A new record for an element at `offset`, linked in behind `before` or as the first child.
    method LinkNew(parent: nat, before: nat, offset: int, ghost c: Ctx) returns (i: nat)
      requires 8 <= |aPos| && iPosFree <= |aPos| && parent < iPosFree && before < iPosFree
      requires CtxOk(c) && ParentOf(c) == parent && PrevId(c) == before
      modifies this`aPos, this`iPosFree
      ensures i == old(iPosFree) && iPosFree == i + 1 && |old(aPos)| <= |aPos| && i < |aPos|
      ensures aPos[..i] == Relink(old(aPos), c, i)[..i]
      ensures aPos[i] == ElemPos(offset, 0, 0, 0, parent, 0, if before != 0 then old(aPos)[before].next
                else old(aPos)[parent].child)
    {
      i := GetFreePos();
      aPos := aPos[i := ElemPos(offset, 0, 0, 0, parent, 0, 0)];
      if before != 0 {
        aPos := aPos[i := aPos[i].(next := aPos[before].next)];
        aPos := aPos[before := aPos[before].(next := i)];
      } else {
        aPos := aPos[i := aPos[i].(next := aPos[parent].child)];
        aPos := aPos[parent := aPos[parent].(child := i)];
      }
    }

    // x_AddElem behind `before`, where the parent has contents or at least an end tag; `fits` unless the place is
    // that of a misplaced document element.
    method PutElem(parent: nat, before: nat, offset: int, name: string, value: string, ghost p: Place, ghost fits: bool)
      returns (i: nat)
      requires Indexed(strDoc, aPos, iPosFree, tree) && NameOk(name) && CString(value)
      requires fits ==> PlaceOk(strDoc, aPos, tree, p, parent, before, offset) && (parent == 0 ==> Roots(tree) == 0)
      requires !fits ==> parent == 0 && before == 0 && 0 <= offset <= |strDoc| && 8 <= |aPos| && 0 < iPosFree <= |aPos|
                         && aPos[0].child == 0
      modifies this`strDoc, this`aPos, this`iPosFree, this`tree
      ensures i == old(iPosFree) && i < |aPos|
      ensures 0 <= offset <= |old(strDoc)|
              && strDoc == Splice(old(strDoc), offset, 0, Core(NewElem(i, name, value)) + "\r\n")
      ensures fits ==>
                && Indexed(strDoc, aPos, iPosFree, tree) && CtxOk(p.c) && p.k <= LeadLen(p.f)
                && tree == Plug(InsertAt(p.f, p.k, NewElem(i, name, value)), p.c)
                && |old(aPos)| <= |aPos|
                && (forall j :: 0 <= j < i && j < |old(aPos)| ==> aPos[j].parent == old(aPos)[j].parent)
                && aPos[i].parent == parent && aPos[i].next == FirstId(p.f)
                && (if before != 0 then aPos[before].next == i else aPos[parent].child == i)
      ensures !fits ==>
                && aPos[0].child == i
                && aPos[i] == Pos(NewElem(i, name, value), offset, |Render(NewElem(i, name, value).kids)|, 0, 0, 0)
    {
      hide Indexed, Plug, Core, Render, InsertAt, LeadLen, StandOk, VisitAll, Plan, Splice, Pre, NewElem, NameOk,
           Relink, PlaceOk;
      ghost var doc0, a0, f, c := strDoc, aPos, if fits then p.f else Nil, if fits then p.c else Top;
      if fits {
        PlaceIds(strDoc, aPos, iPosFree, tree, p, parent, before, offset);
        PlaceParts(strDoc, aPos, tree, p, parent, before, offset);
      }
      i := LinkNew(parent, before, offset, c);
      ghost var n := NewElem(i, name, value);
      NewElemOk(i, name, value);
      NewElemShape(i, name, value);
      var insert := NewElemText(i, name, value);
      if fits {
        Inserted(doc0, a0, aPos, i, f, n, c, p.k);
      } else {
        AloneReady(a0, aPos, i, name, value);
      }
      strDoc := Splice(strDoc, offset, 0, insert);
      ghost var a1, start := aPos, if fits then SetNext(n, f) else n;
      Adjust(i, |insert|, false, start, c);
      if fits {
        LinksAfter(a0, a1, i, c, i, Plan(SetNext(n, f), c, false), |insert|);
        RelinkIs(a0, c, i);
        tree := Plug(InsertAt(f, p.k, n), c);
      }
    }

    // x_AddElem where the parent q is an empty element: <A/> becomes <A>..</A>.
    method SplitParent(parent: nat, at: int, name: string, value: string, ghost q: Forest,
                       ghost c: Ctx) returns (i: nat)
      requires CtxOk(c) && q.Node? && q.empty && q.id == parent && tree == Plug(q, c)
               && Indexed(strDoc, aPos, iPosFree, tree)
      requires parent < |aPos| && at == aPos[parent].startR && NameOk(name) && CString(value)
      modifies this`strDoc, this`aPos, this`iPosFree, this`tree
      ensures Indexed(strDoc, aPos, iPosFree, tree) && i == old(iPosFree)
      ensures CtxOk(InKids(Opened(q), c)) && tree == Plug(OnlyChild(NewElem(i, name, value)), InKids(Opened(q), c))
      ensures 0 < at <= |old(strDoc)| && strDoc == Splice(old(strDoc), at - 1, 1, SplitText(q, NewElem(i, name, value)))
      ensures old(|aPos|) <= |aPos| && i < |aPos| && forall j :: 0 <= j < i && j < old(|aPos|) ==>
                aPos[j].parent == old(aPos)[j].parent
      ensures aPos[i].parent == parent && aPos[i].next == 0 && aPos[parent].child == i
    {
      hide Indexed, Plug, Core, Render, StandOk, VisitAll, Plan, Splice, Pre, NewElem, NameOk, OnlyChild, TagBody,
           SplitText, SplitRecorded, Pos, SameLinks;
      ghost var doc0, a0, e := strDoc, aPos, InKids(Opened(q), c);
      SplitPlace(strDoc, aPos, iPosFree, q, c);
      var tagName := GetTagName(parent, q, c);
      var insert := "";
      i, insert := RecordSplit(parent, at, name, value, tagName, q, c);
      ghost var n := NewElem(i, name, value);
      NewElemShape(i, name, value);
      var left := aPos[i].startL - 3;
      ghost var a1 := aPos;
      SplitInserted(doc0, a0, a1, i, q, n, c);
      strDoc := Splice(strDoc, left, 1, insert);
      Adjust(i, |insert| - 1, false, n, e);
      SplitLinks(a0, a1, i, q, n, c, Plan(n, e, false), |insert| - 1);
      tree := Plug(OnlyChild(n), e);
    }

    method RecordSplit(parent: nat, at: int, name: string, value: string, tagName: string, ghost q: Forest,
                       ghost c: Ctx)
      returns (i: nat, insert: string)
      requires CtxOk(c) && q.Node? && CtxOk(InKids(Opened(q), c)) && q.id == parent && q.name == tagName
      requires 8 <= |aPos| && 0 < parent < iPosFree <= |aPos| && aPos[parent].child == 0
      requires at == |Pre(c)| + |TagBody(q)| + 2 && NameOk(name) && CString(value)
      requires ParentOf(InKids(Opened(q), c)) == parent && PrevId(InKids(Opened(q), c)) == 0
      modifies this`aPos, this`iPosFree
      ensures i == old(iPosFree) && iPosFree == i + 1 && i < |aPos| && |old(aPos)| <= |aPos|
      ensures SplitRecorded(old(aPos), aPos, i, q, NewElem(i, name, value), c)
      ensures insert == SplitText(q, NewElem(i, name, value)) && aPos[i].startL == at + 2
    {
      hide Core, Render, Pre, NewElem, NameOk, TagBody, SplitText, Relink, SplitRecorded, Opened, PrevId, ParentOf;
      ghost var a0 := aPos;
      i := LinkNew(parent, 0, at + 2, InKids(Opened(q), c));
      ghost var n := NewElem(i, name, value);
      NewElemOk(i, name, value);
      NewElemShape(i, name, value);
      insert := NewElemText(i, name, value);
      SplitTextIs(q, n);
      insert := ">\r\n" + insert + "</" + tagName;
      aPos := aPos[parent := aPos[parent].(startR := aPos[parent].startR - 1)];
      aPos := aPos[parent := aPos[parent].(endL := aPos[parent].endL - (|tagName| + 1))];
      SplitRecordedOk(a0, aPos, i, q, n, c);
    }

    // AddElem, InsertElem, AddChildElem and InsertChildElem.
    method AddElem(name: string, value: string, insert: bool, addChild: bool) returns (ok: bool)
      requires Valid() && NameOk(name) && CString(value)
      requires !addChild && insert && Roots(tree) == 0 ==> strDoc != ""
      modifies this
      ensures ok == if addChild then old(iPos) != 0 else old(iPosParent) != 0 || old(aPos)[0].child == 0
      ensures !ok ==> strDoc == old(strDoc) && tree == old(tree) && Valid()
      ensures var parent := if addChild then old(iPos) else old(iPosParent);
              var rel := if addChild then old(iPosChild) else old(iPos);
              ok ==>
                && (if Misplaced(old(strDoc), parent, insert) then
                      RootMisplaced(old(strDoc), strDoc, aPos, old(iPosFree), name, value)
                    else
                      && Valid()
                      && Added(old(aPos), old(tree), aPos, tree, parent, rel, insert, old(iPosFree), name, value)
                      && TextAdded(old(strDoc), strDoc, old(aPos), parent, TagNameOf(ViewOf(old(tree), parent)), rel,
                                   insert, name, value))
                && (if addChild then iPosParent == old(iPosParent) && iPos == parent && iPosChild == old(iPosFree)
                    else iPosParent == parent && iPos == old(iPosFree) && iPosChild == 0)
    {
      hide Indexed, Ids, ViewOf, Roots, Added, NameOk, TextAdded;
      TreeWF(strDoc, aPos, iPosFree, tree);
      RootOk(strDoc, aPos, iPosFree, tree);
      if addChild {
        if iPos == 0 {
          return false;
        }
      } else if iPosParent == 0 {
        if aPos[0].child != 0 {
          return false;
        }
        NoDocumentElement(strDoc, aPos, iPosFree, tree, |strDoc|);
        aPos := aPos[0 := aPos[0].(endL := |strDoc|)];
      }
      var parent, rel := if addChild then iPos else iPosParent, if addChild then iPosChild else iPos;
      ghost var a0 := aPos;
      var i := PlaceElem(name, value, insert, parent, rel);
      if !Misplaced(old(strDoc), parent, insert) {
        TextAddedFrom(old(strDoc), strDoc, old(aPos), a0, parent, TagNameOf(ViewOf(old(tree), parent)), rel, insert,
                      name, value);
        AddedFrom(old(aPos), a0, old(tree), aPos, tree, parent, rel, insert, i, name, value);
        AddedCursor(old(aPos), old(tree), aPos, tree, parent, rel, insert, i, name, value);
        TreeWF(strDoc, aPos, iPosFree, tree);
      }
      if addChild {
        SetPos(iPosParent, parent, i);
      } else {
        SetPos(parent, i, 0);
      }
      ok := true;
    }

    method PlaceElem(name: string, value: string, insert: bool, parent: nat, rel: nat) returns (i: nat)
      requires Indexed(strDoc, aPos, iPosFree, tree) && (parent == 0 || parent in Ids(tree)) && NameOk(name)
               && CString(value)
      requires rel != 0 ==> rel in Ids(tree) && rel < |aPos| && aPos[rel].parent == parent
      requires parent == 0 ==> Roots(tree) == 0 && rel == 0 && aPos[0].endL == |strDoc|
      requires parent == 0 && insert ==> strDoc != ""
      modifies this`strDoc, this`aPos, this`iPosFree, this`tree
      ensures i == old(iPosFree)
      ensures if Misplaced(old(strDoc), parent, insert) then RootMisplaced(old(strDoc), strDoc, aPos, i, name, value)
              else Indexed(strDoc, aPos, iPosFree, tree)
                   && Added(old(aPos), old(tree), aPos, tree, parent, rel, insert, i, name, value)
                   && TextAdded(old(strDoc), strDoc, old(aPos), parent, TagNameOf(ViewOf(old(tree), parent)), rel,
                                insert, name, value)
    {
      hide Indexed, Ids, ViewOf, Roots, NameOk, PlaceOk, Plug, TextAdded, PlaceStart, UpToTag, Added, RootMisplaced;
      TreeWF(strDoc, aPos, iPosFree, tree);
      RootText(strDoc, aPos, iPosFree, tree);
      var offset, before, p := LocateNew(parent, rel, insert);
      if aPos[parent].IsEmptyElement() {
        i := PlaceInside(name, value, insert, parent, rel, offset);
      } else {
        i := PlaceBeside(name, value, insert, parent, rel, offset, before, p);
      }
    }

    // Below a parent that is an empty element.
    method PlaceInside(name: string, value: string, insert: bool, parent: nat, rel: nat, offset: int) returns (i: nat)
      requires Indexed(strDoc, aPos, iPosFree, tree) && (parent == 0 || parent in Ids(tree)) && NameOk(name)
               && CString(value)
      requires rel != 0 ==> rel in Ids(tree) && rel < |aPos| && aPos[rel].parent == parent
      requires parent == 0 ==> Roots(tree) == 0 && rel == 0 && aPos[0].endL == |strDoc|
      requires 0 < parent < |aPos| && aPos[parent].IsEmptyElement() && offset == aPos[parent].startR && rel == 0
      modifies this`strDoc, this`aPos, this`iPosFree, this`tree
      ensures i == old(iPosFree)
      ensures if Misplaced(old(strDoc), parent, insert) then RootMisplaced(old(strDoc), strDoc, aPos, i, name, value)
              else Indexed(strDoc, aPos, iPosFree, tree)
                   && Added(old(aPos), old(tree), aPos, tree, parent, rel, insert, i, name, value)
                   && TextAdded(old(strDoc), strDoc, old(aPos), parent, TagNameOf(ViewOf(old(tree), parent)), rel,
                                insert, name, value)
    {
      hide Indexed, Ids, ViewOf, Roots, NameOk, PlaceOk, Plug, InsertAt, LeadLen, OnlyChild, NewElem, Data, Outside,
           TextAdded, PlaceStart, Core, Splice, UpToTag, SplitText, Frames,
           RootMisplaced;
      ghost var doc0, a0, free, tree0 := strDoc, aPos, iPosFree, tree;
      ghost var n := NewElem(free, name, value);
      TreeWF(strDoc, aPos, iPosFree, tree);
      NewElemOk(free, name, value);
      NewElemShape(free, name, value);
      NewElemRead(free, name, value);
      ghost var q, c := LocateIn(tree, parent);
      DataAtElement(strDoc, aPos, iPosFree, q, c);
      SplitPlace(strDoc, aPos, iPosFree, q, c);
      i := SplitParent(parent, offset, name, value, q, c);
      AddedBySplit(doc0, strDoc, a0, parent, q.name, rel, insert, name, value, q, n);
      SplitViews(doc0, a0, free, q, c, n);
      SameOutside(tree0, tree, parent);
    }

    // At the place that x_LocateNew has found.
    method PlaceBeside(name: string, value: string, insert: bool, parent: nat, rel: nat, offset: int, before: nat,
                       ghost p: Place)
      returns (i: nat)
      requires Indexed(strDoc, aPos, iPosFree, tree) && (parent == 0 || parent in Ids(tree)) && NameOk(name)
               && CString(value)
      requires rel != 0 ==> rel in Ids(tree) && rel < |aPos| && aPos[rel].parent == parent
      requires parent == 0 ==> Roots(tree) == 0 && rel == 0 && aPos[0].endL == |strDoc|
      requires parent < |aPos| && !aPos[parent].IsEmptyElement() && rel < |aPos|
      requires 0 <= PlaceStart(strDoc, aPos, parent, rel, insert) <= |strDoc|
      requires offset == UpToTag(strDoc, PlaceStart(strDoc, aPos, parent, rel, insert))
      requires if Misplaced(strDoc, parent, insert) then before == 0 && rel == 0
               else PlaceOk(strDoc, aPos, tree, p, parent, before, offset)
                    && if rel != 0 then (if insert then FirstId(p.f) == rel else before == rel)
                       else (if insert then before == 0 else FirstId(p.f) == 0)
      modifies this`strDoc, this`aPos, this`iPosFree, this`tree
      ensures i == old(iPosFree)
      ensures if Misplaced(old(strDoc), parent, insert) then RootMisplaced(old(strDoc), strDoc, aPos, i, name, value)
              else Indexed(strDoc, aPos, iPosFree, tree)
                   && Added(old(aPos), old(tree), aPos, tree, parent, rel, insert, i, name, value)
                   && TextAdded(old(strDoc), strDoc, old(aPos), parent, TagNameOf(ViewOf(old(tree), parent)), rel,
                                insert, name, value)
    {
      hide Indexed, Ids, ViewOf, Roots, NameOk, PlaceOk, Plug, InsertAt, LeadLen, OnlyChild, NewElem, Data, Outside,
           TextAdded, PlaceStart, Core, Splice, UpToTag, SplitText, Frames,
           RootMisplaced;
      ghost var doc0, a0, free, tree0 := strDoc, aPos, iPosFree, tree;
      ghost var n := NewElem(free, name, value);
      NewElemOk(free, name, value);
      NewElemShape(free, name, value);
      NewElemRead(free, name, value);
      TreeWF(strDoc, aPos, iPosFree, tree);
      ghost var fits := !Misplaced(strDoc, parent, insert);
      if fits {
        PlaceIds(strDoc, aPos, iPosFree, tree, p, parent, before, offset);
        PlaceParts(strDoc, aPos, tree, p, parent, before, offset);
      } else {
        NoRootChild(strDoc, aPos, iPosFree, tree);
        Sizes(strDoc, aPos, iPosFree, tree);
      }
      i := PutElem(parent, before, offset, name, value, p, fits);
      if fits {
        AddedInPlace(doc0, strDoc, a0, parent, TagNameOf(ViewOf(tree0, parent)), rel, insert, name, value, offset, n);
        AddedViews(doc0, a0, free, p, n);
      } else {
        RootIsMisplaced(doc0, a0, free, tree0, strDoc, aPos, n, name, value);
      }
    }

    // ---- offsets behind an edit ----

    // The traversal step of x_Adjust, with its marker iPosTop: the element whose contents hold iPos.
    method NextPos(iPos0: nat, iPosTop0: nat, first: bool, ghost s: Stand)
      returns (iPos: nat, iPosTop: nat, ghost t: Stand, ghost item: Item)
      requires StandOk(aPos, s) && s.cur.id == iPos0 && (s.skip <==> first || iPos0 == iPosTop0)
      requires if iPos0 == iPosTop0 then s.inner == 0 else iPosTop0 == TopId(s.fs, s.inner)
      ensures iPos == 0 ==> iPosTop == 0
      ensures iPos != 0 ==> StandOk(aPos, t) && t.cur.id == iPos && (t.skip <==> iPos == iPosTop)
      ensures iPos != 0 ==> if iPos == iPosTop then t.inner == 0 else iPosTop == TopId(t.fs, t.inner)
      ensures item == if iPos == iPosTop then EndOnly(iPos) else Whole(iPos)
      ensures Left(s) == [item] + if iPos == 0 then [] else Left(t)
    {
      hide StandOk, Left, RestPlan, FramesLinked, FramesDistinct, TopId, FrameId, Walk, FirstId;
      StandFacts(aPos, s);
      iPos, iPosTop, t := iPos0, iPosTop0, s;
      var posTop := false;
      if iPos == iPosTop {
        iPosTop := aPos[iPos].parent;
        posTop := true;
      }
      if !posTop && !first && aPos[iPos].child != 0 {
        iPos := aPos[iPos].child;
        t := StepIntoKids(aPos, s);
        StandFacts(aPos, t);
        item := Whole(iPos);
      } else if aPos[iPos].next != 0 {
        iPos := aPos[iPos].next;
        t := StepToNext(aPos, s);
        StandFacts(aPos, t);
        item := Whole(iPos);
      } else {
        iPos := aPos[iPos].parent;
        FramesOf(aPos, s);
        ghost var fs, inner: nat := s.fs, s.inner;
        while iPos != 0 && iPos != iPosTop
          invariant (forall i :: 0 <= i < |fs| ==> fs[i].Node?) && inner <= |fs|
          invariant iPos == FrameId(fs) && iPosTop == TopId(fs, inner)
          invariant FramesLinked(aPos, fs) && FramesDistinct(fs)
          invariant RestPlan(fs, inner) == Left(s)
          decreases |fs|
        {
          NoFrame(aPos, fs);
          FrameFacts(aPos, fs, inner);
          if aPos[iPos].next != 0 {
            iPos := aPos[iPos].next;
            t := StepBehindFrame(aPos, fs, inner);
            StandFacts(aPos, t);
            item := Whole(iPos);
            return;
          }
          iPos := aPos[iPos].parent;
          fs, inner := fs[1..], inner - 1;
        }
        NoFrame(aPos, fs);
        item := EndOnly(iPos);
        if iPos != 0 {
          FrameFacts(aPos, fs, inner);
          t := StepToFrame(aPos, fs);
        } else {
          EndOfPlan(fs, inner);
        }
      }
    }

    // x_Adjust
    method Adjust(iPos0: nat, n: int, after: bool, ghost start: Forest, ghost place: Ctx)
      requires CtxOk(place) && start.Node? && start.id == iPos0
      requires StandOk(aPos, Stand(start, after, Frames(place), 0))
      modifies this`aPos
      ensures aPos == VisitAll(old(aPos), Plan(start, place, after), n)
    {
      hide StandOk, Left, RestPlan, TopId, FrameId, Walk, VisitAll, Plan, Frames;
      ghost var s := Stand(start, after, Frames(place), 0);
      StandFacts(aPos, s);
      PlanIsLeft(start, place, after);
      var iPos, iPosTop, first := iPos0, aPos[iPos0].parent, after;
      while iPos != 0
        invariant iPos != 0 ==> StandOk(aPos, s) && s.cur.id == iPos && (s.skip <==> first || iPos == iPosTop)
        invariant iPos != 0 ==> if iPos == iPosTop then s.inner == 0 else iPosTop == TopId(s.fs, s.inner)
        invariant VisitAll(aPos, if iPos == 0 then [] else Left(s), n)
                    == VisitAll(old(aPos), Plan(start, place, after), n)
        decreases if iPos == 0 then 0 else 1 + |Left(s)|
      {
        ghost var before, t, item := aPos, s, EndOnly(0);
        iPos, iPosTop, t, item := NextPos(iPos, iPosTop, first, s);
        first := false;
        if iPos != 0 {
          StandFacts(aPos, t);
        } else {
          StandRoot(aPos, s);
        }
        VisitFirst(aPos, item, if iPos == 0 then [] else Left(t), n);
        if iPos != iPosTop {
          aPos := aPos[iPos := aPos[iPos].AdjustStart(n)];
        }
        aPos := aPos[iPos := aPos[iPos].AdjustEnd(n)];
        assert aPos == Visit(before, item, n);
        if iPos != 0 {
          StandFrame(before, aPos, t);
        }
        s := t;
      }
      VisitNone(aPos, n);
    }
  }
}

/** The position array beside the document, what it means for it to index a tree, and the effect of
    shifting the offsets behind an edit. */
module MarkupIndex {
  import opened MarkupTree

  // ElemPos: four offsets into the document and three links, 0 standing for "none".
  datatype ElemPos = ElemPos(startL: int, startR: int, endL: int, endR: int, parent: nat, child: nat, next: nat) {
    predicate IsEmptyElement() { startR == endL + 1 }
    function AdjustStart(n: int): ElemPos { this.(startL := startL + n, startR := startR + n) }
    function AdjustEnd(n: int): ElemPos { this.(endL := endL + n, endR := endR + n) }
  }

  const NO_POS := ElemPos(0, 0, 0, 0, 0, 0, 0)

  // ---- the place of a sibling list in the document ----

  // A path to the root: the list hangs below node (InKids), or follows node (InNext).  The part of
  // node that the list fills is ignored.
  datatype Ctx = Top | InKids(node: Forest, up: Ctx) | InNext(node: Forest, up: Ctx)

  ghost predicate CtxOk(c: Ctx) {
    match c
    case Top => true
    case InKids(n, up) => n.Node? && !n.empty && CtxOk(up)
    case InNext(n, up) => !n.Nil? && CtxOk(up)
  }

  function Plug(f: Forest, c: Ctx): Forest
    requires CtxOk(c)
    decreases c
  {
    match c
    case Top => f
    case InKids(n, up) => Plug(SetKids(n, f), up)
    case InNext(n, up) => Plug(SetNext(n, f), up)
  }

  function HeadText(n: Forest): string
    requires n.Node?
  {
    "<" + TagBody(n) + ">"
  }

  function OwnText(n: Forest): string
    requires !n.Nil?
  {
    if n.Chunk? then n.text else Core(n)
  }

  function Pre(c: Ctx): string
    requires CtxOk(c)
  {
    match c
    case Top => ""
    case InKids(n, up) => Pre(up) + HeadText(n)
    case InNext(n, up) => Pre(up) + OwnText(n)
  }

  function Post(c: Ctx): string
    requires CtxOk(c)
  {
    match c
    case Top => ""
    case InKids(n, up) => EndTagText(n) + Render(n.next) + Post(up)
    case InNext(_, up) => Post(up)
  }

  lemma SameTags(n: Forest, f: Forest)
    requires n.Node?
    ensures var g := SetKids(n, f); TagBody(g) == TagBody(n) && EndTagText(g) == EndTagText(n)
  {
  }

  lemma EndTagLength(n: Forest)
    requires n.Node?
    ensures |EndTagText(n)| == 3 + |n.name| + |n.close|
  {
  }

  lemma KidsJoined(a: string, b: string, c: string, d: string)
    ensures a + b + c + d == a + b + (c + d)
  {
  }

  lemma KidsText(n: Forest, f: Forest)
    requires n.Node? && !n.empty
    ensures Render(SetKids(n, f)) == HeadText(n) + Render(f) + (EndTagText(n) + Render(n.next))
    ensures |Render(SetKids(n, f))| == EndR(n, 0, |Render(f)|) + 1 + |Render(n.next)|
    ensures |HeadText(n)| == StartR(n, 0) + 1
  {
    hide AttrsText, TagBody, EndTagText;
    var g := SetKids(n, f);
    SameTags(n, f);
    assert Render(g) == Around(g, Render(f)) + Render(n.next);
    KidsJoined("<" + TagBody(n) + ">", Render(f), EndTagText(n), Render(n.next));
    EndTagLength(n);
  }

  lemma NextText(n: Forest, f: Forest)
    requires !n.Nil?
    ensures Render(SetNext(n, f)) == OwnText(n) + Render(f)
    ensures n.Node? ==> |OwnText(n)| == EndR(n, 0, |Render(n.kids)|) + 1
  {
    hide AttrsText;
    if n.Node? {
      var g := SetNext(n, f);
      assert TagBody(g) == TagBody(n) && EndTagText(g) == EndTagText(n);
      AroundLength(n, Render(n.kids));
    }
  }

  lemma {:induction false} PlugText(f: Forest, c: Ctx)
    requires CtxOk(c)
    ensures Render(Plug(f, c)) == Pre(c) + Render(f) + Post(c)
    decreases c
  {
    hide Render, EndTagText, HeadText, OwnText;
    match c
    case Top =>
      assert Pre(c) + Render(f) + Post(c) == Render(f);
    case InKids(n, up) =>
      PlugText(SetKids(n, f), up);
      KidsText(n, f);
      Regroup(Pre(up), HeadText(n), Render(f), EndTagText(n) + Render(n.next), Post(up));
    case InNext(n, up) =>
      PlugText(SetNext(n, f), up);
      NextText(n, f);
      assert OwnText(n) + Render(f) == OwnText(n) + Render(f) + "";
      Regroup(Pre(up), OwnText(n), Render(f), "", Post(up));
      assert "" + Post(up) == Post(up);
  }

  lemma Regroup(a: string, b: string, c: string, d: string, e: string)
    ensures a + (b + c + d) + e == a + b + c + (d + e)
  {
  }

  function ParentOf(c: Ctx): nat
    requires CtxOk(c)
  {
    match c
    case Top => 0
    case InKids(n, _) => n.id
    case InNext(_, up) => ParentOf(up)
  }

  // ---- the array indexes a tree ----

  function Pos(n: Forest, base: int, len: int, parent: nat, child: nat, next: nat): ElemPos
    requires n.Node?
  {
    ElemPos(base, StartR(n, base), EndL(n, base, len), EndR(n, base, len), parent, child, next)
  }

  ghost predicate Placed(a: seq<ElemPos>, f: Forest, base: int, parent: nat) {
    match f
    case Nil => true
    case Chunk(text, next) => Placed(a, next, base + |text|, parent)
    case Node(id, _, _, _, _, kids, _, next) =>
      var len := |Render(kids)|;
      && 0 < id < |a|
      && a[id] == Pos(f, base, len, parent, FirstId(kids), FirstId(next))
      && Placed(a, kids, StartR(f, base) + 1, id)
      && Placed(a, next, EndR(f, base, len) + 1, parent)
  }

  // The array indexes what surrounds a list whose first element is `first` and whose text has length len.
  ghost predicate CtxPlaced(a: seq<ElemPos>, c: Ctx, first: nat, len: int)
    requires CtxOk(c)
  {
    match c
    case Top => 0 < |a| && a[0].child == first
    case InKids(n, up) =>
      var base := |Pre(up)|;
      && 0 < n.id < |a|
      && a[n.id] == Pos(n, base, len, ParentOf(up), first, FirstId(n.next))
      && Placed(a, n.next, EndR(n, base, len) + 1, ParentOf(up))
      && CtxPlaced(a, up, n.id, EndR(n, 0, len) + 1 + |Render(n.next)|)
    case InNext(n, up) =>
      var base := |Pre(up)|;
      if n.Chunk? then CtxPlaced(a, up, first, |n.text| + len)
      else
        && 0 < n.id < |a|
        && a[n.id] == Pos(n, base, |Render(n.kids)|, ParentOf(up), FirstId(n.kids), first)
        && Placed(a, n.kids, StartR(n, base) + 1, n.id)
        && CtxPlaced(a, up, n.id, |Core(n)| + len)
  }

  lemma KidsPlaced(a: seq<ElemPos>, n: Forest, f: Forest, base: int, parent: nat)
    requires n.Node? && !n.empty
    ensures Placed(a, SetKids(n, f), base, parent) <==>
            && 0 < n.id < |a|
            && a[n.id] == Pos(n, base, |Render(f)|, parent, FirstId(f), FirstId(n.next))
            && Placed(a, f, base + |HeadText(n)|, n.id)
            && Placed(a, n.next, EndR(n, base, |Render(f)|) + 1, parent)
  {
    hide AttrsText;
    assert TagBody(SetKids(n, f)) == TagBody(n);
  }

  lemma NextPlaced(a: seq<ElemPos>, n: Forest, f: Forest, base: int, parent: nat)
    requires n.Node?
    ensures Placed(a, SetNext(n, f), base, parent) <==>
            && 0 < n.id < |a|
            && a[n.id] == Pos(n, base, |Render(n.kids)|, parent, FirstId(n.kids), FirstId(f))
            && Placed(a, n.kids, StartR(n, base) + 1, n.id)
            && Placed(a, f, base + |OwnText(n)|, parent)
  {
    hide AttrsText, Render, OwnText;
    NextText(n, f);
    assert TagBody(SetNext(n, f)) == TagBody(n);
    var len := |Render(n.kids)|;
    assert EndR(SetNext(n, f), base, len) == base + EndR(n, 0, len);
  }

  // The array indexes the document with f at c exactly when it indexes f there and the surroundings of f.
  lemma {:induction false} PlugPlaced(a: seq<ElemPos>, f: Forest, c: Ctx)
    requires CtxOk(c)
    ensures (Placed(a, Plug(f, c), 0, 0) && 0 < |a| && a[0].child == FirstId(Plug(f, c)))
       <==> (Placed(a, f, |Pre(c)|, ParentOf(c)) && CtxPlaced(a, c, FirstId(f), |Render(f)|))
    decreases c
  {
    hide Placed, Pos, StartR, EndR, EndL, Render, OwnText, HeadText;
    match c
    case Top =>
    case InKids(n, up) =>
      PlugPlaced(a, SetKids(n, f), up);
      KidsPlaced(a, n, f, |Pre(up)|, ParentOf(up));
      KidsText(n, f);
    case InNext(n, up) =>
      PlugPlaced(a, SetNext(n, f), up);
      NextText(n, f);
      if n.Node? {
        NextPlaced(a, n, f, |Pre(up)|, ParentOf(up));
        NodeOwnText(n);
      } else {
        ChunkPlaced(a, n, f, |Pre(up)|, ParentOf(up));
      }
  }

  lemma NodeOwnText(n: Forest)
    requires n.Node?
    ensures OwnText(n) == Core(n)
  {
  }

  lemma ChunkPlaced(a: seq<ElemPos>, n: Forest, f: Forest, base: int, parent: nat)
    requires n.Chunk?
    ensures Placed(a, SetNext(n, f), base, parent) <==> Placed(a, f, base + |OwnText(n)|, parent)
    ensures OwnText(n) == n.text && FirstId(SetNext(n, f)) == FirstId(f)
  {
  }

  // ---- distinct elements ----

  function Ids(f: Forest): set<nat> {
    match f
    case Nil => {}
    case Chunk(_, next) => Ids(next)
    case Node(id, _, _, _, _, kids, _, next) => {id} + Ids(kids) + Ids(next)
  }

  ghost predicate Distinct(f: Forest) {
    match f
    case Nil => true
    case Chunk(_, next) => Distinct(next)
    case Node(id, _, _, _, _, kids, _, next) =>
      id !in Ids(kids) && id !in Ids(next) && Ids(kids) !! Ids(next) && Distinct(kids) && Distinct(next)
  }

  // The ids that a context adds around a list.
  function CtxIds(c: Ctx): set<nat>
    requires CtxOk(c)
  {
    match c
    case Top => {}
    case InKids(n, up) => {n.id} + Ids(n.next) + CtxIds(up)
    case InNext(n, up) => (if n.Node? then {n.id} + Ids(n.kids) else {}) + CtxIds(up)
  }

  ghost predicate CtxDistinct(c: Ctx)
    requires CtxOk(c)
  {
    match c
    case Top => true
    case InKids(n, up) =>
      && n.id !in Ids(n.next) && n.id !in CtxIds(up) && Ids(n.next) !! CtxIds(up)
      && Distinct(n.next) && CtxDistinct(up)
    case InNext(n, up) =>
      && (n.Node? ==> n.id !in Ids(n.kids) && n.id !in CtxIds(up) && Ids(n.kids) !! CtxIds(up) && Distinct(n.kids))
      && CtxDistinct(up)
  }

  ghost predicate Apart(f: Forest, c: Ctx)
    requires CtxOk(c)
  {
    Distinct(f) && CtxDistinct(c) && Ids(f) !! CtxIds(c)
  }

  lemma {:induction false} PlugIds(f: Forest, c: Ctx)
    requires CtxOk(c)
    ensures Ids(Plug(f, c)) == Ids(f) + CtxIds(c)
    ensures Distinct(Plug(f, c)) <==> Apart(f, c)
    decreases c
  {
    match c
    case Top =>
    case InKids(n, up) => PlugIds(SetKids(n, f), up);
    case InNext(n, up) => PlugIds(SetNext(n, f), up);
  }
}

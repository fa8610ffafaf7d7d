/** What the recursive parser computes from the document text, as a function, with the facts that hold
    of every accepted document. */
module MarkupParse {
  import opened MarkupText

  // A list of sibling elements with their four offsets, in the first-child/next-sibling form that
  // the position array uses.
  datatype OForest = ONil
                   | ONode(startL: int, startR: int, endL: int, endR: int, kids: OForest, next: OForest)

  function Count(f: OForest): nat {
    if f.ONil? then 0 else 1 + Count(f.kids) + Count(f.next)
  }

  function Append(f: OForest, g: OForest): OForest {
    if f.ONil? then g else f.(next := Append(f.next, g))
  }

  // TokenPos::Match
  predicate Match(doc: string, t: Token, name: string)
    requires 0 <= t.left <= t.right + 1 <= |doc|
  {
    var n := t.right - t.left + 1;
    n <= |name| && name[..n] == doc[t.left..t.right + 1] && (n == |name| || name[n] in " =/[")
  }

  // The loop at the head of x_ParseElem: past text, comments and the like to the next tag.
  // StuckTag: the program repeats the same iteration for ever, at the '<' at lt.
  datatype Tag = StartTag(lt: nat, t: Token) | EndTag(lt: nat) | BadTag | StuckTag(lt: nat)

  function NextTag(doc: string, i: nat): (g: Tag)
    requires i <= |doc|
    ensures g.StartTag? ==> i <= g.lt < |doc| && doc[g.lt] == '<' && g.t == FindToken(doc, g.lt + 1)
                            && g.t.ok && !g.t.isString
    ensures g.EndTag? ==> i <= g.lt < |doc| && doc[g.lt] == '<'
    decreases |doc| - i
  {
    var lt := FindChar(doc, i, '<');
    if lt == |doc| then BadTag else
    var t := FindToken(doc, lt + 1);
    if !t.ok || t.isString then BadTag
    else if doc[t.left] == '?' || doc[t.left] == '!' then
      match ParseNode(doc, lt)
      case NoNode => BadTag
      case ElementNode => StuckTag(lt)
      case Special(next) => NextTag(doc, next)
    else if doc[t.left] == '/' then EndTag(lt)
    else StartTag(lt, t)
  }

  // The loop over the tokens of an end tag; the result is the offset of its '>', or -1.
  function EndTagRight(doc: string, i: nat, name: string, count: nat): (r: int)
    requires i <= |doc|
    ensures r == -1 || (i <= r < |doc| && doc[r] == '>')
    decreases |doc| - i
  {
    var t := FindToken(doc, i);
    if !t.ok then -1
    else if t.isString then EndTagRight(doc, t.next, name, count + 1)
    else if count == 0 && doc[t.left] != '/' then -1
    else if count == 1 && !Match(doc, t, name) then -1
    else if doc[t.left] == '>' then t.left
    else EndTagRight(doc, t.next, name, count + 1)
  }

  datatype Parsed = Found(tree: OForest) | NoElem(lt: nat) | Bad | Stuck(lt: nat)

  datatype ParsedKids = Kids(forest: OForest, lt: nat) | BadKids | StuckKids(lt: nat)

  function ParseElem(doc: string, i: nat): (p: Parsed)
    requires i <= |doc|
    ensures p.Found? ==> p.tree.ONode? && p.tree.next.ONil? && i <= p.tree.startL < p.tree.endR < |doc|
    ensures p.NoElem? ==> i <= p.lt < |doc| && doc[p.lt] == '<'
    decreases |doc| - i, 0
  {
    match NextTag(doc, i)
    case BadTag => Bad
    case StuckTag(lt) => Stuck(lt)
    case EndTag(lt) => NoElem(lt)
    case StartTag(lt, t) =>
      var gt := FindChar(doc, t.next, '>');
      if gt == |doc| then Bad
      else if doc[gt - 1] == '/' then Found(ONode(lt, gt, gt - 1, gt, ONil, ONil))
      else
        match ParseKids(doc, gt + 1)
        case BadKids => Bad
        case StuckKids(lt) => Stuck(lt)
        case Kids(kids, endL) =>
          var endR := EndTagRight(doc, endL + 1, TokenText(doc, t), 0);
          if endR == -1 then Bad else Found(ONode(lt, gt, endL, endR, kids, ONil))
  }

  function ParseKids(doc: string, i: nat): (p: ParsedKids)
    requires i <= |doc|
    ensures p.Kids? ==> i <= p.lt < |doc| && doc[p.lt] == '<'
    decreases |doc| - i, 1
  {
    match ParseElem(doc, i)
    case Bad => BadKids
    case Stuck(lt) => StuckKids(lt)
    case NoElem(lt) => Kids(ONil, lt)
    case Found(e) =>
      match ParseKids(doc, e.endR + 1)
      case Kids(rest, lt) => Kids(e.(next := rest), lt)
      case other => other
  }

  // ---- every accepted document ----

  // Offsets land on the tag characters, children lie strictly between the tags of their parent,
  // and siblings follow one another without overlap.
  ghost predicate Nested(doc: string, f: OForest, lo: int, hi: int) {
    f.ONode? ==>
      && 0 <= lo <= f.startL < f.startR <= f.endR < hi <= |doc|
      && doc[f.startL] == '<' && doc[f.startR] == '>' && doc[f.endR] == '>'
      && (if f.endL < f.startR
          then f.endL == f.startR - 1 && f.endR == f.startR && doc[f.endL] == '/' && f.kids.ONil?
          else f.startR < f.endL < f.endR && doc[f.endL] == '<' && Nested(doc, f.kids, f.startR + 1, f.endL))
      && Nested(doc, f.next, f.endR + 1, hi)
  }

  lemma {:induction false} ParsedElemIsNested(doc: string, i: nat)
    requires i <= |doc| && ParseElem(doc, i).Found?
    ensures Nested(doc, ParseElem(doc, i).tree, i, |doc|)
    decreases |doc| - i, 0
  {
    hide NextTag, FindChar, FindToken, EndTagRight;
    var g := NextTag(doc, i);
    var gt := FindChar(doc, g.t.next, '>');
    var e := ParseElem(doc, i).tree;
    assert e.startL == g.lt && e.startR == gt;
    assert Nested(doc, e.next, e.endR + 1, |doc|);
    if doc[gt - 1] != '/' {
      ParsedKidsAreNested(doc, gt + 1);
      assert e.kids == ParseKids(doc, gt + 1).forest && e.endL == ParseKids(doc, gt + 1).lt;
    }
  }

  lemma {:induction false} ParsedKidsAreNested(doc: string, i: nat)
    requires i <= |doc| && ParseKids(doc, i).Kids?
    ensures Nested(doc, ParseKids(doc, i).forest, i, ParseKids(doc, i).lt)
    decreases |doc| - i, 1
  {
    hide ParseElem;
    var p := ParseElem(doc, i);
    if p.Found? {
      ParsedElemIsNested(doc, i);
      ParsedKidsAreNested(doc, p.tree.endR + 1);
      var e := ParseKids(doc, i).forest;
      assert e.next == ParseKids(doc, p.tree.endR + 1).forest;
      assert e == p.tree.(next := e.next);
    }
  }
}

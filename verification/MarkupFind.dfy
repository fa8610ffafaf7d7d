/** Finding elements by name and by path. */
module MarkupFind {
  import opened MarkupText
  import opened MarkupParse
  import opened MarkupTree
  import opened MarkupIndex
  import opened MarkupEdit
  import opened MarkupStore
  import opened MarkupOps

  // The path begins with this name, and the name ends there: TokenPos::Match.
  predicate Begins(path: string, name: string) {
    |name| <= |path| && path[..|name|] == name && (|name| == |path| || path[|name|] in " =/[")
  }

  // Among the siblings f the first that the path names, or what the rest of the path finds inside it; 0 if nothing
  // does.
  function Search(f: Forest, path: string): nat {
    match f
    case Nil => 0
    case Chunk(_, next) => Search(next, path)
    case Node(id, name, _, _, _, kids, _, next) =>
      if path != "" && path[0] == '*' then (if 1 < |path| && path[1] == '/' then Search(kids, path[2..]) else id)
      else if !Begins(path, name) then Search(next, path)
      else if |name| < |path| && path[|name|] == '/' then Search(kids, path[|name| + 1..])
      else id
  }

  // The siblings behind the element with this index, and what it contains.
  function Behind(f: Forest, id: nat): Forest {
    match f
    case Nil => Nil
    case Chunk(_, next) => Behind(next, id)
    case Node(i, _, _, _, _, kids, _, next) =>
      if i == id then next else if id in Ids(kids) then Behind(kids, id) else Behind(next, id)
  }

  function Contents(f: Forest, id: nat): Forest {
    match f
    case Nil => Nil
    case Chunk(_, next) => Contents(next, id)
    case Node(i, _, _, _, _, kids, _, next) =>
      if i == id then kids else if id in Ids(kids) then Contents(kids, id) else Contents(next, id)
  }

  // From the root, or from the current position on.
  function Target(tree: Forest, parent: nat, pos: nat, path: string): nat {
    var absolute := path != "" && path[0] == '/';
    var f := if absolute then tree
             else if pos != 0 then Behind(tree, pos)
             else if parent != 0 then Contents(tree, parent) else tree;
    var rest := if absolute then path[1..] else path;
    if rest == "" then FirstId(f) else Search(f, rest)
  }

  // ---- what is found ----

  // The elements among the siblings.
  function Siblings(f: Forest): (s: seq<Forest>)
    ensures forall i :: 0 <= i < |s| ==> s[i].Node?
  {
    match f
    case Nil => []
    case Chunk(_, next) => Siblings(next)
    case Node(_, _, _, _, _, _, _, next) => [f] + Siblings(next)
  }

  // The number of the first sibling of that name, or how many there are.
  function FirstNamed(s: seq<Forest>, name: string): (k: nat)
    requires forall i :: 0 <= i < |s| ==> s[i].Node?
    ensures k <= |s| && (k < |s| ==> s[k].name == name) && forall i :: 0 <= i < k ==> s[i].name != name
  {
    if s == [] || s[0].name == name then 0 else 1 + FirstNamed(s[1..], name)
  }

  lemma BeginsWhole(name: string, other: string)
    requires NameOk(name) && NameOk(other)
    ensures Begins(name, other) <==> name == other
  {
    assert |other| < |name| ==> NameChar(name[|other|]);
    assert name == other ==> name[..|other|] == other;
  }

  lemma BeginsPart(name: string, rest: string, other: string)
    requires NameOk(name) && NameOk(other)
    ensures Begins(name + ("/" + rest), other) <==> name == other
  {
    var path := name + ("/" + rest);
    assert |other| < |name| ==> path[|other|] == name[|other|] && NameChar(name[|other|]);
    assert |name| < |other| ==> path[|name|] == '/' && NameChar(other[|name|]);
    if |other| == |name| {
      assert path[..|other|] == name;
    }
  }

  // By name: the first sibling of that name.
  lemma {:induction false} FoundByName(f: Forest, name: string)
    requires WF(f) && NameOk(name) && name[0] != '*'
    ensures var s := Siblings(f); var k := FirstNamed(s, name);
            Search(f, name) == if k < |s| then s[k].id else 0
    decreases f
  {
    hide Begins, NameOk, AttrsOk, Blank, ChunkOk;
    if !f.Nil? {
      FoundByName(f.next, name);
      if f.Node? {
        NameNotEmpty(name);
        BeginsWhole(name, f.name);
        assert Siblings(f)[1..] == Siblings(f.next);
      }
    }
  }

  lemma NameNotEmpty(name: string)
    requires NameOk(name)
    ensures name != ""
  {
  }

  // By a path: the rest of it inside the first sibling of the first name, and nowhere else.
  lemma {:induction false} FoundByPath(f: Forest, name: string, rest: string)
    requires WF(f) && NameOk(name) && name[0] != '*'
    ensures var s := Siblings(f); var k := FirstNamed(s, name);
            Search(f, name + ("/" + rest)) == if k < |s| then Search(s[k].kids, rest) else 0
    decreases f
  {
    hide Begins, NameOk, AttrsOk, Blank, ChunkOk;
    if !f.Nil? {
      FoundByPath(f.next, name, rest);
      if f.Node? {
        NameNotEmpty(name);
        BeginsPart(name, rest, f.name);
        assert Siblings(f)[1..] == Siblings(f.next);
        var path := name + ("/" + rest);
        assert path[0] == name[0] && path[|name|] == '/' && path[|name| + 1..] == rest;
      }
    }
  }

  // By the wildcard: the first sibling, or the rest of the path inside it.
  lemma {:induction false} FoundByWildcard(f: Forest, rest: string)
    ensures Search(f, "*") == FirstId(f)
    ensures Search(f, "*/" + rest) == if Siblings(f) == [] then 0 else Search(Siblings(f)[0].kids, rest)
    decreases f
  {
    var path := "*/" + rest;
    assert path[0] == '*' && path[1] == '/' && path[2..] == rest;
    if f.Chunk? {
      FoundByWildcard(f.next, rest);
    }
  }

  lemma {:induction false} SearchIn(f: Forest, path: string)
    ensures Search(f, path) == 0 || Search(f, path) in Ids(f)
    decreases f
  {
    match f
    case Nil =>
    case Chunk(_, next) => SearchIn(next, path);
    case Node(_, name, _, _, _, kids, _, next) =>
      SearchIn(next, path);
      if 2 <= |path| {
        SearchIn(kids, path[2..]);
      }
      if |name| < |path| {
        SearchIn(kids, path[|name| + 1..]);
      }
  }

  // ---- where the program looks ----

  lemma {:induction false} PartsThrough(f: Forest, c: Ctx, id: nat)
    requires CtxOk(c) && id in Ids(f) && id !in CtxIds(c)
    ensures Behind(Plug(f, c), id) == Behind(f, id) && Contents(Plug(f, c), id) == Contents(f, id)
    decreases c
  {
    match c
    case Top =>
    case InKids(n, up) => PartsThrough(SetKids(n, f), up, id);
    case InNext(n, up) => PartsThrough(SetNext(n, f), up, id);
  }

  lemma {:induction false} ToElement(f: Forest, c: Ctx) returns (n: Forest, d: Ctx)
    requires CtxOk(c) && FirstId(f) != 0
    ensures CtxOk(d) && n.Node? && n.id == FirstId(f) && Plug(n, d) == Plug(f, c) && Elements(n) == Elements(f)
    ensures forall path :: Search(n, path) == Search(f, path)
    decreases f
  {
    if f.Chunk? {
      assert SetNext(f, f.next) == f;
      n, d := ToElement(f.next, InNext(f, c));
      forall path ensures Search(n, path) == Search(f, path) {
        assert Search(f, path) == Search(f.next, path);
      }
    } else {
      n, d := f, c;
    }
  }

  // The search stands at sibling list f.
  ghost predicate At(tree: Forest, f: Forest, c: Ctx) {
    f.Nil? || (CtxOk(c) && Plug(f, c) == tree)
  }

  // One element on the way: its tag name in the text, and how to go on from it.
  lemma FindReady(doc: string, a: seq<ElemPos>, free: nat, tree: Forest, f: Forest, c: Ctx, path: string)
    returns (n: Forest, d: Ctx)
    requires Indexed(doc, a, free, tree) && At(tree, f, c) && FirstId(f) != 0
    ensures n.Node? && n.id == FirstId(f) < |a| && Search(n, path) == Search(f, path) && Elements(n) == Elements(f)
    ensures CtxOk(InNext(n, d)) && At(tree, n.next, InNext(n, d)) && a[n.id].next == FirstId(n.next)
    ensures At(tree, n.kids, InKids(n, d)) && a[n.id].child == FirstId(n.kids)
    ensures 0 <= a[n.id].startL && a[n.id].startL + 1 <= |doc|
    ensures var t := FindToken(doc, a[n.id].startL + 1);
            0 <= t.left <= t.right + 1 <= |doc| && (Match(doc, t, path) <==> Begins(path, n.name))
            && t.right - t.left + 1 == |n.name|
  {
    hide Indexed, Placed, CtxPlaced, Render, CtxWF, Apart, Core, Pre, Post, FindToken, WF, Search;
    n, d := ToElement(f, c);
    TagNameRead(doc, a, free, n, d);
    NodeReady(doc, a, free, n, d);
    BehindIs(n, d);
    if n.empty {
      EmptyKids(n);
    } else {
      assert SetKids(n, n.kids) == n;
    }
  }

  lemma EmptyKids(n: Forest)
    requires n.Node? && WF(n) && n.empty
    ensures n.kids == Nil
  {
  }

  // Where it starts, by the links of the current position.
  lemma StartReady(doc: string, a: seq<ElemPos>, free: nat, tree: Forest, id: nat) returns (n: Forest, d: Ctx)
    requires Indexed(doc, a, free, tree) && id in Ids(tree)
    ensures n.Node? && n.id == id < |a| && n.next == Behind(tree, id) && n.kids == Contents(tree, id)
    ensures At(tree, n.next, InNext(n, d)) && a[id].next == FirstId(n.next)
    ensures At(tree, n.kids, InKids(n, d)) && a[id].child == FirstId(n.kids)
  {
    hide Indexed, Placed, CtxPlaced, Render, CtxWF, Core, Pre, Post, FindToken, WF;
    TreeWF(doc, a, free, tree);
    n, d := LocateIn(tree, id);
    NodeReady(doc, a, free, n, d);
    BehindIs(n, d);
    PartsThrough(n, d, id);
    if n.empty {
      EmptyKids(n);
    } else {
      assert SetKids(n, n.kids) == n;
    }
  }

  // The rest of a path from offset on.
  lemma PathRest(path: string, off: nat, skip: nat)
    requires off + skip <= |path|
    ensures path[off..][skip..] == path[off + skip..] && (off + skip < |path| ==> path[off..][skip] == path[off + skip])
  {
  }

  // One step of the search.
  lemma SearchStep(n: Forest, path: string)
    requires n.Node?
    ensures Search(n, path)
         == if path != "" && path[0] == '*' then
              (if 1 < |path| && path[1] == '/' then Search(n.kids, path[2..]) else n.id)
            else if !Begins(path, n.name) then Search(n.next, path)
            else if |n.name| < |path| && path[|n.name|] == '/' then Search(n.kids, path[|n.name| + 1..])
            else n.id
    ensures Elements(n) == 1 + Elements(n.kids) + Elements(n.next) && (Begins(path, n.name) ==> |n.name| <= |path|)
  {
  }

  lemma {:induction false} NoneToFind(f: Forest, path: string)
    requires FirstId(f) == 0 && forall id :: id in Ids(f) ==> id != 0
    ensures Search(f, path) == 0
  {
    if f.Chunk? {
      assert FirstId(f.next) == FirstId(f) && Ids(f.next) == Ids(f);
      NoneToFind(f.next, path);
    } else if f.Node? {
      assert f.id in Ids(f);
    }
  }

  // The ids below the root are positive, so an empty list has no first.
  lemma NoZero(doc: string, a: seq<ElemPos>, free: nat, tree: Forest, f: Forest, c: Ctx)
    requires Indexed(doc, a, free, tree) && At(tree, f, c)
    ensures (forall id :: id in Ids(f) ==> id != 0) && Ids(f) <= Ids(tree)
  {
    hide Placed, WF;
    if !f.Nil? {
      PlugIds(f, c);
    }
  }

  lemma RootReady(doc: string, a: seq<ElemPos>, free: nat, tree: Forest)
    requires Indexed(doc, a, free, tree)
    ensures 0 < |a| && At(tree, tree, Top) && a[0].child == FirstId(tree)
  {
  }
}

/** The documents on which the parser of the XML editor never returns. */
module MarkupHang {
  import opened Substring
  import opened MarkupText
  import opened MarkupParse
  import opened MarkupTree
  import opened MarkupRender

  // White space between '<' and '?' or '!'.
  ghost predicate LoopsAt(doc: string, lt: nat) {
    && lt + 1 < |doc| && doc[lt] == '<' && IsSpace(doc[lt + 1])
    && var s := SkipSpaces(doc, lt + 1); s < |doc| && (doc[s] == '?' || doc[s] == '!')
  }

  // What x_ParseElem takes for a declaration, by the token behind '<'.
  ghost predicate Declared(doc: string, lt: nat)
    requires lt < |doc|
  {
    var t := FindToken(doc, lt + 1);
    t.ok && !t.isString && (doc[t.left] == '?' || doc[t.left] == '!')
  }

  // x_ParseNode, which looks at the character itself, takes it for an element, so neither moves on.
  lemma LoopsExactlyAtSpacedDeclaration(doc: string, lt: nat)
    requires lt < |doc| && doc[lt] == '<'
    ensures Declared(doc, lt) && ParseNode(doc, lt).ElementNode? <==> LoopsAt(doc, lt)
  {
    hide FindChar, SkipWord, SpecialTo, DocType;
    var s := SkipSpaces(doc, lt + 1);
    if LoopsAt(doc, lt) {
      SkipWordStops(doc, s, s);
    } else if Declared(doc, lt) && !IsSpace(doc[lt + 1]) {
      assert s == lt + 1;
    }
  }

  // ---- the places that a parse reaches as markup ----

  // The '<' at lt is one that the head of x_ParseElem looks at, from i on.
  ghost predicate ReachedTag(doc: string, i: nat, lt: nat)
    requires i <= |doc|
    decreases |doc| - i
  {
    var f := FindChar(doc, i, '<');
    f < |doc|
    && (lt == f
        || (Declared(doc, f) && ParseNode(doc, f).Special? && ReachedTag(doc, ParseNode(doc, f).next, lt)))
  }

  // A start tag at the place where the parse stands, and where its contents begin.
  ghost predicate Opens(doc: string, i: nat, inside: nat)
    requires i <= |doc|
  {
    var g := NextTag(doc, i);
    g.StartTag? && inside == FindChar(doc, g.t.next, '>') + 1 <= |doc| && doc[inside - 2] != '/'
  }

  ghost predicate ReachedElem(doc: string, i: nat, lt: nat)
    requires i <= |doc|
    decreases |doc| - i, 0
  {
    ReachedTag(doc, i, lt)
    || exists inside: nat :: i < inside <= |doc| && Opens(doc, i, inside) && ReachedKids(doc, inside, lt)
  }

  ghost predicate ReachedKids(doc: string, i: nat, lt: nat)
    requires i <= |doc|
    decreases |doc| - i, 1
  {
    ReachedElem(doc, i, lt) || (ParseElem(doc, i).Found? && ReachedKids(doc, ParseElem(doc, i).tree.endR + 1, lt))
  }

  lemma {:induction false} TagHangsExactly(doc: string, i: nat, lt: nat)
    requires i <= |doc|
    ensures NextTag(doc, i) == StuckTag(lt) <==> ReachedTag(doc, i, lt) && LoopsAt(doc, lt)
    decreases |doc| - i
  {
    hide FindToken, LoopsAt, ParseNode;
    var f := FindChar(doc, i, '<');
    if f < |doc| {
      LoopsExactlyAtSpacedDeclaration(doc, f);
      if Declared(doc, f) && ParseNode(doc, f).Special? {
        TagHangsExactly(doc, ParseNode(doc, f).next, lt);
      }
    }
  }

  // On any document: the parse repeats itself for ever at lt exactly when it reaches the '<' there and white space
  // separates it from a question or exclamation mark.
  lemma {:induction false} ParserHangsExactly(doc: string, i: nat, lt: nat)
    requires i <= |doc|
    ensures ParseElem(doc, i) == Stuck(lt) <==> ReachedElem(doc, i, lt) && LoopsAt(doc, lt)
    decreases |doc| - i, 0
  {
    hide FindToken, LoopsAt, ReachedTag, NextTag, ParseKids, ReachedKids, EndTagRight;
    TagHangsExactly(doc, i, lt);
    var g := NextTag(doc, i);
    if g.StartTag? {
      var inside := FindChar(doc, g.t.next, '>') + 1;
      if inside <= |doc| && doc[inside - 2] != '/' {
        assert Opens(doc, i, inside);
        KidsHangExactly(doc, inside, lt);
      }
      NotStuckAndReached(doc, i, lt);
    }
  }

  // A place that the head of the loop passes does not loop if the head comes to a tag behind it.
  lemma NotStuckAndReached(doc: string, i: nat, lt: nat)
    requires i <= |doc| && !NextTag(doc, i).StuckTag?
    ensures !(ReachedTag(doc, i, lt) && LoopsAt(doc, lt))
  {
    hide NextTag, ReachedTag, LoopsAt;
    TagHangsExactly(doc, i, lt);
  }

  lemma {:induction false} KidsHangExactly(doc: string, i: nat, lt: nat)
    requires i <= |doc|
    ensures ParseKids(doc, i) == StuckKids(lt) <==> ReachedKids(doc, i, lt) && LoopsAt(doc, lt)
    decreases |doc| - i, 1
  {
    hide ParseElem, LoopsAt, ReachedElem;
    var p := ParseElem(doc, i);
    ParserHangsExactly(doc, i, lt);
    if p.Found? {
      KidsHangExactly(doc, p.tree.endR + 1, lt);
    }
  }

  // The first such place is where it hangs: there is at most one.
  lemma HangsSomewhere(doc: string)
    ensures ParseElem(doc, 0).Stuck? <==> exists lt: nat :: ReachedElem(doc, 0, lt) && LoopsAt(doc, lt)
  {
    hide ParseElem, ReachedElem, LoopsAt;
    var p := ParseElem(doc, 0);
    if p.Stuck? {
      ParserHangsExactly(doc, 0, p.lt);
    }
    forall lt: nat | ReachedElem(doc, 0, lt) && LoopsAt(doc, lt) ensures p.Stuck? {
      ParserHangsExactly(doc, 0, lt);
    }
  }

  // ---- places in well-formed text ----

  // Behind well-formed siblings, and inside any number of open tags.
  datatype Path = Here(before: Forest) | Inside(before: Forest, tag: Forest, inner: Path)

  ghost predicate PathOk(p: Path) {
    WF(p.before) && (p.Inside? ==>
      p.tag.Node? && !p.tag.empty && NameOk(p.tag.name) && AttrsOk(p.tag.attrs) && Blank(p.tag.tail) && PathOk(p.inner))
  }

  function PathText(p: Path): string {
    match p
    case Here(before) => Render(before)
    case Inside(before, tag, inner) =>
      Render(before) + ((if tag.Node? then "<" + TagBody(tag) + ">" else "") + PathText(inner))
  }

  predicate ChunksOnly(f: Forest) { f.Nil? || (f.Chunk? && ChunksOnly(f.next)) }

  lemma ChunkPassed(doc: string, off: nat, text: string, lt: nat)
    requires OccursAt(doc, off, text) && ChunkOk(text)
    ensures off + |text| <= |doc| && (ReachedTag(doc, off + |text|, lt) ==> ReachedTag(doc, off, lt))
  {
    hide FindChar, FindToken, FindStr, DocType;
    if PlainText(text) {
      forall k | off <= k < off + |text| ensures doc[k] != '<' {
        OccursChar(doc, off, text, k - off);
      }
      FindCharSkips(doc, off, off + |text|, '<');
    } else {
      OccursChar(doc, off, text, 0);
      OccursChar(doc, off, text, 1);
      OccursChar(doc, off, text, 2);
      FindCharStops(doc, off, off, '<');
      CharToken(doc, off + 1, off + 1);
      SpecialNodeShift(doc, off, text);
    }
  }

  lemma ChunkReached(doc: string, off: nat, text: string, lt: nat)
    requires OccursAt(doc, off, text) && ChunkOk(text)
    ensures off + |text| <= |doc|
    ensures ReachedElem(doc, off + |text|, lt) ==> ReachedElem(doc, off, lt)
    ensures ReachedKids(doc, off + |text|, lt) ==> ReachedKids(doc, off, lt)
  {
    hide OccursAt, ChunkOk, NextTag, ReachedTag, ParseElem, FindChar;
    ChunkPassed(doc, off, text, lt);
    ChunkSkipped(doc, off, text);
    ParseSkips(doc, off, off + |text|);
    assert forall inside: nat :: Opens(doc, off + |text|, inside) ==> Opens(doc, off, inside);
  }

  lemma {:induction false} PrologPassed(doc: string, base: nat, f: Forest, lt: nat)
    requires WF(f) && ChunksOnly(f) && OccursAt(doc, base, Render(f))
    ensures base + |Render(f)| <= |doc| && (ReachedElem(doc, base + |Render(f)|, lt) ==> ReachedElem(doc, base, lt))
    decreases f
  {
    hide ReachedElem, ChunkOk;
    if f.Chunk? {
      OccursSplit(doc, base, f.text, Render(f.next));
      PrologPassed(doc, base + |f.text|, f.next, lt);
      ChunkReached(doc, base, f.text, lt);
    }
  }

  lemma {:induction false} SiblingsPassed(doc: string, base: nat, f: Forest, lt: nat)
    requires WF(f) && OccursAt(doc, base, Render(f))
    ensures base + |Render(f)| <= |doc| && (ReachedKids(doc, base + |Render(f)|, lt) ==> ReachedKids(doc, base, lt))
    decreases f
  {
    hide ReachedElem, ReachedKids, OccursAt, ChunkOk, NameOk, AttrsOk, Blank, Around, ParseElem, Offsets;
    match f
    case Nil => OccursWithin(doc, base, Render(f));
    case Chunk(text, next) =>
      OccursSplit(doc, base, text, Render(next));
      SiblingsPassed(doc, base + |text|, next, lt);
      ChunkReached(doc, base, text, lt);
    case Node(_, _, _, _, _, _, _, next) =>
      OccursSplit(doc, base, Core(f), Render(next));
      OccursWithin(doc, base, Core(f));
      SiblingsPassed(doc, base + |Core(f)|, next, lt);
      RenderedElemParses(doc, base, f);
      OffsetsOfNode(f, base);
      NextReached(doc, base, lt);
  }

  lemma NextReached(doc: string, i: nat, lt: nat)
    requires i <= |doc| && ParseElem(doc, i).Found?
    ensures ReachedKids(doc, ParseElem(doc, i).tree.endR + 1, lt) ==> ReachedKids(doc, i, lt)
  {
    hide ParseElem, ReachedElem;
  }

  lemma TagPassed(doc: string, base: nat, tag: Forest, lt: nat)
    requires tag.Node? && !tag.empty && NameOk(tag.name) && AttrsOk(tag.attrs) && Blank(tag.tail)
    requires OccursAt(doc, base, "<" + TagBody(tag) + ">")
    ensures base + 2 + |TagBody(tag)| <= |doc|
    ensures ReachedKids(doc, base + 2 + |TagBody(tag)|, lt) ==> ReachedElem(doc, base, lt)
  {
    hide ReachedKids, ReachedTag, NextTag, FindChar, OccursAt, TagBody, NameOk, AttrsOk, Blank, TokenText;
    StartTagParsed(doc, base, tag);
    assert Opens(doc, base, base + 2 + |TagBody(tag)|);
  }

  lemma AlsoKids(doc: string, i: nat, lt: nat)
    requires i <= |doc|
    ensures ReachedElem(doc, i, lt) ==> ReachedKids(doc, i, lt)
  {
    hide ReachedElem, ParseElem;
  }

  lemma PathParts(doc: string, base: nat, p: Path)
    requires PathOk(p) && OccursAt(doc, base, PathText(p))
    ensures OccursAt(doc, base, Render(p.before))
    ensures p.Here? ==> |PathText(p)| == |Render(p.before)|
    ensures p.Inside? ==>
              var at := base + |Render(p.before)|;
              var inside := at + 2 + |TagBody(p.tag)|;
              && OccursAt(doc, at, "<" + TagBody(p.tag) + ">") && OccursAt(doc, inside, PathText(p.inner))
              && base + |PathText(p)| == inside + |PathText(p.inner)|
  {
    hide OccursAt, TagBody, NameOk, AttrsOk, Blank, WF, Render;
    if p.Inside? {
      var before, tag := Render(p.before), "<" + TagBody(p.tag) + ">";
      OccursSplit(doc, base, before, tag + PathText(p.inner));
      OccursSplit(doc, base + |before|, tag, PathText(p.inner));
    }
  }

  // The place at the end of a path is reached.
  lemma {:induction false} PathKidsReached(doc: string, base: nat, p: Path)
    requires PathOk(p) && OccursAt(doc, base, PathText(p)) && base + |PathText(p)| < |doc|
             && doc[base + |PathText(p)|] == '<'
    ensures base <= |doc| && ReachedKids(doc, base, base + |PathText(p)|)
    decreases p
  {
    hide ReachedElem, ReachedKids, OccursAt, TagBody, NameOk, AttrsOk, Blank, WF, Render, PathText;
    PathParts(doc, base, p);
    var lt := base + |PathText(p)|;
    if p.Here? {
      SiblingsPassed(doc, base, p.before, lt);
      ReachedHere(doc, lt);
    } else {
      var at := base + |Render(p.before)|;
      PathKidsReached(doc, at + 2 + |TagBody(p.tag)|, p.inner);
      SiblingsPassed(doc, base, p.before, lt);
      TagPassed(doc, at, p.tag, lt);
      AlsoKids(doc, at, lt);
    }
  }

  lemma ReachedHere(doc: string, lt: nat)
    requires lt < |doc| && doc[lt] == '<'
    ensures ReachedTag(doc, lt, lt) && ReachedElem(doc, lt, lt) && ReachedKids(doc, lt, lt)
  {
    FindCharStops(doc, lt, lt, '<');
  }

  // Behind any prolog, and inside any open tags behind any well-formed siblings, the parse hangs at a '<' exactly when
  // white space separates it from a question or exclamation mark.
  lemma HangsExactlyInMarkup(doc: string, p: Path)
    requires PathOk(p) && ChunksOnly(p.before)
    requires OccursAt(doc, 0, PathText(p)) && |PathText(p)| < |doc| && doc[|PathText(p)|] == '<'
    ensures ParseElem(doc, 0) == Stuck(|PathText(p)|) <==> LoopsAt(doc, |PathText(p)|)
  {
    hide ReachedElem, ReachedKids, OccursAt, TagBody, NameOk, AttrsOk, Blank, WF, Render, LoopsAt, ParseElem, PathText;
    PathParts(doc, 0, p);
    var lt := |PathText(p)|;
    if p.Here? {
      PrologPassed(doc, 0, p.before, lt);
      ReachedHere(doc, lt);
    } else {
      var at := |Render(p.before)|;
      PathKidsReached(doc, at + 2 + |TagBody(p.tag)|, p.inner);
      PrologPassed(doc, 0, p.before, lt);
      TagPassed(doc, at, p.tag, lt);
    }
    ParserHangsExactly(doc, 0, lt);
  }

  // So does any document that begins like this.
  lemma SpacedDeclarationHangs(rest: string)
    ensures ParseElem("< !" + rest, 0) == Stuck(0)
  {
    hide ParseElem;
    var doc := "< !" + rest;
    assert doc[0] == '<' && doc[1] == ' ' && doc[2] == '!';
    assert SkipSpaces(doc, 1) == SkipSpaces(doc, 2) == 2;
    assert Render(Nil) == "";
    OccursMiddle("", "", doc);
    assert "" + "" + doc == doc;
    HangsExactlyInMarkup(doc, Here(Nil));
  }
}

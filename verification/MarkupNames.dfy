/** Start and end tags belong together: in every accepted document the end tag of an element spells the name of its
    start tag, and a document in which one does not is refused. */
module MarkupNames {
  import opened Substring
  import opened MarkupText
  import opened MarkupParse
  import opened MarkupTree
  import opened MarkupRender
  import opened MarkupHang

  // ---- words, by their characters ----

  const BLANKS := " \t\r\n"

  const MARKS := "<>=\\/?!"

  ghost predicate Spaces(doc: string, i: int, j: int) {
    0 <= i <= j <= |doc| && forall k :: i <= k < j ==> doc[k] in BLANKS
  }

  // A word goes on up to a blank or special character; a special character is a word of its own.
  ghost predicate WordAt(doc: string, p: int, q: int) {
    && 0 <= p < q <= |doc| && doc[p] !in BLANKS && doc[p] != '\"' && doc[p] != '\''
    && if doc[p] in MARKS then q == p + 1
       else (forall k :: p <= k < q ==> doc[k] !in BLANKS + MARKS) && (q < |doc| ==> doc[q] in BLANKS + MARKS)
  }

  // The first word behind the less-than sign at lt.
  ghost predicate StartName(doc: string, lt: int, name: string) {
    exists p, q :: Spaces(doc, lt + 1, p) && WordAt(doc, p, q) && doc[p..q] == name
  }

  // A word spells the name, or the part of it in front of a bracket.
  ghost predicate Spells(w: string, name: string) { w == name || w + "[" <= name }

  // Behind the less-than sign at lt and a slash stands a quotation, or a word that spells the name.
  ghost predicate ClosedBy(doc: string, lt: int, name: string) {
    exists s, c :: Spaces(doc, lt + 1, s) && s < |doc| && doc[s] == '/' && Spaces(doc, s + 1, c) && c < |doc|
      && EndName(doc, c, name)
  }

  ghost predicate EndName(doc: string, c: int, name: string)
    requires 0 <= c < |doc|
  {
    doc[c] == '\"' || doc[c] == '\'' || exists d :: WordAt(doc, c, d) && Spells(doc[c..d], name)
  }

  // So it is for every element of a forest with an end tag.
  ghost predicate Named(doc: string, f: OForest) {
    f.ONode? ==>
      && (exists name :: StartName(doc, f.startL, name) && (f.startR < f.endL ==> ClosedBy(doc, f.endL, name)))
      && Named(doc, f.kids) && Named(doc, f.next)
  }

  lemma {:induction false} BlanksSkipped(doc: string, i: nat)
    requires i <= |doc|
    ensures Spaces(doc, i, SkipSpaces(doc, i))
    decreases |doc| - i
  {
    if i < |doc| && IsSpace(doc[i]) {
      BlanksSkipped(doc, i + 1);
    }
  }

  lemma {:induction false} WordSkipped(doc: string, i: nat)
    requires i <= |doc|
    ensures var j := SkipWord(doc, i);
            (forall k :: i <= k < j ==> doc[k] !in BLANKS + MARKS) && (j < |doc| ==> doc[j] in BLANKS + MARKS)
    decreases |doc| - i
  {
    DelimsAre();
    if i < |doc| && !IsDelim(doc[i]) {
      WordSkipped(doc, i + 1);
    }
  }

  lemma DelimsAre()
    ensures forall c :: IsDelim(c) <==> c in BLANKS + MARKS
  {
  }

  lemma TokenIsWord(doc: string, i: nat)
    requires i <= |doc| && FindToken(doc, i).ok
    ensures var t := FindToken(doc, i);
            if t.isString then i < t.left && Spaces(doc, i, t.left - 1) && IsQuote(doc[t.left - 1])
            else Spaces(doc, i, t.left) && WordAt(doc, t.left, t.right + 1)
  {
    var s := SkipSpaces(doc, i);
    BlanksSkipped(doc, i);
    WordSkipped(doc, s);
    DelimsAre();
  }

  // ---- accepted documents ----

  lemma {:induction false} TagTokens(doc: string, i: nat)
    requires i <= |doc| && NextTag(doc, i).EndTag?
    ensures var t := FindToken(doc, NextTag(doc, i).lt + 1); t.ok && !t.isString && doc[t.left] == '/'
    decreases |doc| - i
  {
    hide FindChar, FindToken;
    var lt := FindChar(doc, i, '<');
    var t := FindToken(doc, lt + 1);
    if doc[t.left] == '?' || doc[t.left] == '!' {
      TagTokens(doc, ParseNode(doc, lt).next);
    }
  }

  lemma {:induction false} KidsEndAtTag(doc: string, i: nat)
    requires i <= |doc| && ParseKids(doc, i).Kids?
    ensures var t := FindToken(doc, ParseKids(doc, i).lt + 1); t.ok && !t.isString && doc[t.left] == '/'
    decreases |doc| - i
  {
    hide ParseElem, NextTag, FindToken;
    KidsFollowElem(doc, i);
    var p := ParseElem(doc, i);
    if p.Found? {
      KidsEndAtTag(doc, p.tree.endR + 1);
    } else {
      NoElemIsTag(doc, i);
      TagTokens(doc, i);
    }
  }

  lemma NoElemIsTag(doc: string, i: nat)
    requires i <= |doc| && ParseElem(doc, i).NoElem?
    ensures NextTag(doc, i) == EndTag(ParseElem(doc, i).lt)
  {
    hide NextTag, FindChar, EndTagRight;
  }

  // A name is one word, so what follows the matching part of it can only be a bracket.
  lemma MatchSpells(doc: string, t: Token, name: string, lt: int)
    requires 0 <= t.left <= t.right < |doc| && Match(doc, t, name) && StartName(doc, lt, name)
    ensures Spells(doc[t.left..t.right + 1], name)
  {
    var p, q :| Spaces(doc, lt + 1, p) && WordAt(doc, p, q) && doc[p..q] == name;
    var n := t.right - t.left + 1;
    if n < |name| {
      assert name[n] == doc[p + n] && name[n] !in BLANKS + MARKS;
      assert name[n] == '[';
    }
  }

  lemma EndTagSpells(doc: string, lt: nat, name: string, from: int)
    requires lt < |doc| && EndTagRight(doc, lt + 1, name, 0) != -1 && StartName(doc, from, name)
    requires var t := FindToken(doc, lt + 1); t.ok && !t.isString && doc[t.left] == '/'
    ensures ClosedBy(doc, lt, name)
  {
    hide FindToken, Match, StartName, Spells;
    var t := FindToken(doc, lt + 1);
    TokenIsWord(doc, lt + 1);
    assert t.next == t.left + 1;
    assert EndTagRight(doc, t.next, name, 1) != -1;
    TokenIsWord(doc, t.next);
    var u := FindToken(doc, t.next);
    if u.isString {
      assert EndName(doc, u.left - 1, name);
    } else {
      MatchSpells(doc, u, name, from);
      assert EndName(doc, u.left, name);
    }
  }

  lemma StartIsName(doc: string, i: nat)
    requires i <= |doc| && NextTag(doc, i).StartTag?
    ensures StartName(doc, NextTag(doc, i).lt, TokenText(doc, NextTag(doc, i).t))
  {
    hide NextTag, FindToken;
    TokenIsWord(doc, NextTag(doc, i).lt + 1);
  }

  lemma {:induction false} ElemIsNamed(doc: string, i: nat)
    requires i <= |doc| && ParseElem(doc, i).Found?
    ensures Named(doc, ParseElem(doc, i).tree)
    decreases |doc| - i, 0
  {
    hide NextTag, FindChar, FindToken, EndTagRight, StartName, ClosedBy, TokenText;
    var g := NextTag(doc, i);
    var gt := FindChar(doc, g.t.next, '>');
    var e := ParseElem(doc, i).tree;
    StartIsName(doc, i);
    if doc[gt - 1] != '/' {
      KidsAreNamed(doc, gt + 1);
      KidsEndAtTag(doc, gt + 1);
      EndTagSpells(doc, e.endL, TokenText(doc, g.t), g.lt);
    }
  }

  // An accepted document has its tags at the offsets, in pairs of one name.
  lemma AcceptedIsTagged(doc: string)
    ensures ParseElem(doc, 0).Found? ==>
              Nested(doc, ParseElem(doc, 0).tree, 0, |doc|) && Named(doc, ParseElem(doc, 0).tree)
  {
    hide ParseElem, Nested, Named;
    if ParseElem(doc, 0).Found? {
      ParsedElemIsNested(doc, 0);
      ElemIsNamed(doc, 0);
    }
  }

  lemma {:induction false} KidsAreNamed(doc: string, i: nat)
    requires i <= |doc| && ParseKids(doc, i).Kids?
    ensures Named(doc, ParseKids(doc, i).forest)
    decreases |doc| - i, 1
  {
    hide ParseElem, StartName, ClosedBy;
    var p := ParseElem(doc, i);
    if p.Found? {
      ElemIsNamed(doc, i);
      KidsAreNamed(doc, p.tree.endR + 1);
      assert ParseKids(doc, i).forest == p.tree.(next := ParseKids(doc, p.tree.endR + 1).forest);
    }
  }

  lemma BracketIn(w: string, name: string)
    requires w + "[" <= name
    ensures '[' in name
  {
    assert name[|w|] == (w + "[")[|w|];
  }

  // For a name without brackets the word is the name.
  lemma SpelledSame(w: string, name: string)
    requires Spells(w, name) && '[' !in name
    ensures w == name
  {
    if w != name {
      BracketIn(w, name);
    }
  }

  // ---- refused documents ----

  // The name of the innermost open tag at the end of a path.
  function LastName(p: Path): string
    requires p.Inside?
  {
    if p.inner.Inside? then LastName(p.inner) else if p.tag.Node? then p.tag.name else ""
  }

  lemma WordIsToken(doc: string, i: nat, p: int, q: int)
    requires Spaces(doc, i, p) && WordAt(doc, p, q)
    ensures i <= |doc| && FindToken(doc, i) == Token(true, p, q - 1, q, false)
  {
    DelimsAre();
    SkipSpacesStops(doc, i, p);
    if IsDelim(doc[p]) {
      SkipWordStops(doc, p, p);
    } else {
      WordEnds(doc, p, q);
    }
  }

  lemma {:induction false} WordEnds(doc: string, p: nat, q: nat)
    requires p <= q <= |doc| && (forall k :: p <= k < q ==> !IsDelim(doc[k])) && (q < |doc| ==> IsDelim(doc[q]))
    ensures SkipWord(doc, p) == q
    decreases q - p
  {
    if p < q {
      WordEnds(doc, p + 1, q);
    }
  }

  // An end tag whose first word is not the given name.
  ghost predicate OtherEndTag(doc: string, lt: nat, c: int, d: int, name: string) {
    OccursAt(doc, lt, "</") && Spaces(doc, lt + 2, c) && WordAt(doc, c, d) && doc[c..d] != name
  }

  lemma OtherRefused(doc: string, lt: nat, c: int, d: int, name: string)
    requires OtherEndTag(doc, lt, c, d, name) && NameOk(name)
    ensures lt < |doc| && NextTag(doc, lt) == EndTag(lt) && EndTagRight(doc, lt + 1, name, 0) == -1
  {
    hide FindToken, NextTag, Spaces, WordAt, Match;
    OccursChar(doc, lt, "</", 0);
    OccursChar(doc, lt, "</", 1);
    CharToken(doc, lt + 1, lt + 1);
    EndTagFound(doc, lt);
    WordIsToken(doc, lt + 2, c, d);
    NoMatch(doc, FindToken(doc, lt + 2), name);
    assert EndTagRight(doc, lt + 2, name, 1) == -1;
  }

  lemma NoMatch(doc: string, t: Token, name: string)
    requires 0 <= t.left <= t.right < |doc| && NameOk(name) && doc[t.left..t.right + 1] != name
    ensures !Match(doc, t, name)
  {
    var n := t.right - t.left + 1;
    assert n < |name| ==> NameChar(name[n]);
  }

  lemma {:induction false} SiblingsThenBad(doc: string, base: nat, f: Forest)
    requires WF(f) && OccursAt(doc, base, Render(f))
    ensures base + |Render(f)| <= |doc|
    ensures ParseKids(doc, base + |Render(f)|).BadKids? ==> ParseKids(doc, base).BadKids?
    decreases f
  {
    hide OccursAt, ChunkOk, NameOk, AttrsOk, Blank, Around, ParseElem, ParseKids, Offsets, NextTag;
    OccursWithin(doc, base, Render(f));
    match f
    case Nil =>
    case Chunk(text, next) =>
      OccursSplit(doc, base, text, Render(next));
      SiblingsThenBad(doc, base + |text|, next);
      ChunkSkipped(doc, base, text);
      ParseSkips(doc, base, base + |text|);
    case Node(_, _, _, _, _, _, _, next) =>
      OccursSplit(doc, base, Core(f), Render(next));
      SiblingsThenBad(doc, base + |Core(f)|, next);
      RenderedElemParses(doc, base, f);
      OffsetsOfNode(f, base);
      KidsFollowElem(doc, base);
  }

  lemma {:induction false} PrologThenBad(doc: string, base: nat, f: Forest)
    requires WF(f) && ChunksOnly(f) && OccursAt(doc, base, Render(f))
    ensures base + |Render(f)| <= |doc|
    ensures ParseElem(doc, base + |Render(f)|).Bad? ==> ParseElem(doc, base).Bad?
    decreases f
  {
    hide OccursAt, ChunkOk, ParseElem, ParseKids, NextTag;
    OccursWithin(doc, base, Render(f));
    if f.Chunk? {
      OccursSplit(doc, base, f.text, Render(f.next));
      PrologThenBad(doc, base + |f.text|, f.next);
      ChunkSkipped(doc, base, f.text);
      ParseSkips(doc, base, base + |f.text|);
    }
  }

  // An open tag and, inside it, a path whose end no end tag fits.
  lemma {:induction false} TagThenBad(doc: string, at: nat, p: Path, c: int, d: int)
    requires p.Inside? && PathOk(p)
    requires var inside := at + 2 + |TagBody(p.tag)|;
             && OccursAt(doc, at, "<" + TagBody(p.tag) + ">") && OccursAt(doc, inside, PathText(p.inner))
             && OtherEndTag(doc, inside + |PathText(p.inner)|, c, d, LastName(p))
    ensures at <= |doc| && ParseElem(doc, at) == Bad
    decreases p, 0
  {
    hide OccursAt, NameOk, AttrsOk, Blank, ParseKids, Offsets, NextTag, FindChar, TagBody, EndTagRight, Render, WF,
         TokenText, OtherEndTag;
    var inside := at + 2 + |TagBody(p.tag)|;
    var lt := inside + |PathText(p.inner)|;
    OccursWithin(doc, at, "<" + TagBody(p.tag) + ">");
    StartTagParsed(doc, at, p.tag);
    if p.inner.Here? {
      OtherRefused(doc, lt, c, d, p.tag.name);
      RenderedKidsParse(doc, inside, p.inner.before, lt);
    } else {
      PathThenBad(doc, inside, p.inner, c, d);
    }
    assert StartR(p.tag, at) == inside - 1;
  }

  lemma {:induction false} PathThenBad(doc: string, base: nat, p: Path, c: int, d: int)
    requires p.Inside? && PathOk(p) && OccursAt(doc, base, PathText(p))
             && OtherEndTag(doc, base + |PathText(p)|, c, d, LastName(p))
    ensures base <= |doc| && ParseKids(doc, base).BadKids?
    decreases p, 1
  {
    hide OccursAt, NameOk, AttrsOk, Blank, ParseElem, ParseKids, TagBody, Render, WF, PathText, OtherEndTag;
    PathParts(doc, base, p);
    var at := base + |Render(p.before)|;
    TagThenBad(doc, at, p, c, d);
    KidsFollowElem(doc, at);
    SiblingsThenBad(doc, base, p.before);
  }

  // Behind any prolog and inside any open tags behind any well-formed siblings, an end tag with another name than that
  // of the innermost open tag makes the parser refuse the document, whatever follows.
  lemma MismatchRefused(doc: string, p: Path, c: int, d: int)
    requires PathOk(p) && p.Inside? && ChunksOnly(p.before)
    requires OccursAt(doc, 0, PathText(p)) && OtherEndTag(doc, |PathText(p)|, c, d, LastName(p))
    ensures ParseElem(doc, 0) == Bad
  {
    hide OccursAt, NameOk, AttrsOk, Blank, ParseElem, TagBody, Render, WF, PathText, OtherEndTag;
    PathParts(doc, 0, p);
    TagThenBad(doc, |Render(p.before)|, p, c, d);
    PrologThenBad(doc, 0, p.before);
  }
}

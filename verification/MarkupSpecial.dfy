/** The nodes that the parser steps over, by their text: comments, character data sections, instructions, and
    declarations with whatever stands in brackets inside them. */
module MarkupSpecial {
  import opened Substring
  import opened MarkupText
  import opened MarkupTree
  import opened MarkupRender
  import opened MarkupAccess
  import opened MarkupNames

  // The end mark comes first at the end of s + mark.
  ghost predicate EndsWith(s: string, mark: string) {
    forall k :: 0 <= k < |s| ==> !OccursAt(s + mark, k, mark)
  }

  // From an opening to the first end mark behind it.
  lemma MarkedNode(s: string, mark: string)
    requires s != "" && mark != "" && EndsWith(s, mark)
    ensures SpecialTo(s + mark, 0, mark) == Special(|s + mark|)
  {
    hide FindStr;
    assert OccursAt(s + mark, |s|, mark);
    FindStrStops(s + mark, 0, |s|, mark);
  }

  // A comment, up to the first two hyphens and greater-than sign behind its exclamation mark.
  lemma CommentNode(s: string)
    requires EndsWith("<!--" + s, "-->")
    ensures SpecialText("<!--" + s + "-->")
  {
    hide SpecialTo;
    MarkedNode("<!--" + s, "-->");
    var t := "<!--" + s + "-->";
    assert t[0] == '<' && t[1] == '!' && t[2] == '-';
  }

  lemma SectionNode(s: string)
    requires EndsWith("<![CDATA[" + s, "]]>")
    ensures SpecialText("<![CDATA[" + s + "]]>")
  {
    hide SpecialTo;
    MarkedNode("<![CDATA[" + s, "]]>");
    var t := "<![CDATA[" + s + "]]>";
    assert t[0] == '<' && t[1] == '!' && t[2] == '[';
  }

  lemma InstructionNode(s: string)
    requires EndsWith("<?" + s, "?>")
    ensures SpecialText("<?" + s + "?>")
  {
    hide SpecialTo;
    MarkedNode("<?" + s, "?>");
    var t := "<?" + s + "?>";
    assert t[0] == '<' && t[1] == '?';
  }

  // ---- declarations ----

  // A blank or a special character; a quotation; a word, whose first character may be a bracket.
  datatype Part = Mark(c: char) | Quoted(quote: char, s: string) | Word(w: string)

  predicate PartOk(p: Part) {
    match p
    case Mark(c) => c in BLANKS + MARKS
    case Quoted(q, s) => (q == '\"' || q == '\'') && q !in s
    case Word(w) => w != "" && w[0] != '\"' && w[0] != '\'' && forall k :: 0 <= k < |w| ==> w[k] !in BLANKS + MARKS
  }

  function PartText(p: Part): (s: string)
  {
    match p
    case Mark(c) => [c]
    case Quoted(q, s) => [q] + (s + [q])
    case Word(w) => w
  }

  function PartsText(ps: seq<Part>): string {
    if ps == [] then "" else PartText(ps[0]) + PartsText(ps[1..])
  }

  // The brackets that are open behind it.
  function Depth(p: Part, depth: int): int {
    if p.Word? && p.w != "" && p.w[0] == '[' then depth + 1
    else if p.Word? && p.w != "" && p.w[0] == ']' then depth - 1
    else depth
  }

  // Words are parted, no greater-than sign stands outside brackets, and all brackets are closed at the end.
  predicate PartsOk(ps: seq<Part>, depth: int) {
    if ps == [] then depth == 0
    else
      && PartOk(ps[0]) && (ps[0] == Mark('>') ==> depth != 0)
      && (ps[0].Word? && 1 < |ps| ==> ps[1].Mark?) && PartsOk(ps[1..], Depth(ps[0], depth))
  }

  lemma QuotedToken(doc: string, i: nat, q: char, s: string)
    requires (q == '\"' || q == '\'') && q !in s && OccursAt(doc, i, [q] + (s + [q]))
    ensures i + |s| + 2 <= |doc| && FindToken(doc, i) == Token(true, i + 1, i + |s|, i + |s| + 2, true)
  {
    var t := [q] + (s + [q]);
    OccursWithin(doc, i, t);
    OccursChar(doc, i, t, 0);
    OccursChar(doc, i, t, |s| + 1);
    forall k | i + 1 <= k < i + 1 + |s| ensures doc[k] != q {
      OccursChar(doc, i, t, k - i);
      assert t[k - i] == s[k - i - 1];
    }
    FindCharStops(doc, i + 1, i + 1 + |s|, q);
  }

  lemma WordPart(doc: string, i: nat, w: string)
    requires PartOk(Word(w)) && OccursAt(doc, i, w) && i + |w| < |doc| && doc[i + |w|] in BLANKS + MARKS
    ensures FindToken(doc, i) == Token(true, i, i + |w| - 1, i + |w|, false) && doc[i] == w[0]
  {
    hide FindToken;
    forall k | i <= k < i + |w| ensures doc[k] == w[k - i] {
      OccursChar(doc, i, w, k - i);
    }
    WordIsToken(doc, i, i, i + |w|);
  }

  lemma MarkPart(doc: string, i: nat, c: char)
    requires c in BLANKS + MARKS && OccursAt(doc, i, [c])
    ensures i < |doc| && doc[i] == c
    ensures c in MARKS ==> FindToken(doc, i) == Token(true, i, i, i + 1, false)
    ensures c in BLANKS ==> FindToken(doc, i) == FindToken(doc, i + 1)
  {
    OccursChar(doc, i, [c], 0);
    DelimsAre();
    if c in MARKS {
      MarkIsNoBlank(c);
      CharToken(doc, i, i);
    } else {
      assert IsSpace(c);
    }
  }

  lemma MarkIsNoBlank(c: char)
    requires c in MARKS
    ensures c !in BLANKS && !IsSpace(c) && IsDelim(c)
  {
  }

  lemma BlankPassed(doc: string, i: nat, depth: int)
    requires i < |doc| && FindToken(doc, i) == FindToken(doc, i + 1)
    ensures DocType(doc, i, depth) == DocType(doc, i + 1, depth)
  {
    hide FindToken;
  }

  lemma {:induction false} PartsRead(doc: string, i: nat, ps: seq<Part>, depth: int)
    requires PartsOk(ps, depth) && OccursAt(doc, i, PartsText(ps) + ">")
    ensures i + |PartsText(ps)| + 1 <= |doc| && DocType(doc, i, depth) == Special(i + |PartsText(ps)| + 1)
    decreases |ps|
  {
    hide OccursAt, FindToken, PartOk, DocType, PartText, Depth;
    OccursWithin(doc, i, PartsText(ps) + ">");
    if ps == [] {
      assert PartsText(ps) + ">" == ">";
      DeclarationEnds(doc, i);
    } else {
      var p, rest := ps[0], PartsText(ps[1..]) + ">";
      assert PartsText(ps) + ">" == PartText(p) + rest;
      OccursSplit(doc, i, PartText(p), rest);
      PartsRead(doc, i + |PartText(p)|, ps[1..], Depth(p, depth));
      PartPassed(doc, i, ps, depth);
    }
  }

  lemma DeclarationEnds(doc: string, i: nat)
    requires OccursAt(doc, i, ">")
    ensures i < |doc| && DocType(doc, i, 0) == Special(i + 1)
  {
    hide OccursAt, FindToken;
    MarkPart(doc, i, '>');
  }

  lemma PartPassed(doc: string, i: nat, ps: seq<Part>, depth: int)
    requires ps != [] && PartsOk(ps, depth) && OccursAt(doc, i, PartText(ps[0]))
    requires OccursAt(doc, i + |PartText(ps[0])|, PartsText(ps[1..]) + ">")
    ensures i + |PartText(ps[0])| <= |doc|
    ensures DocType(doc, i, depth) == DocType(doc, i + |PartText(ps[0])|, Depth(ps[0], depth))
  {
    hide OccursAt, FindToken, DocType, PartsText;
    var p := ps[0];
    OccursWithin(doc, i, PartText(p));
    match p
    case Mark(c) => MarkPassed(doc, i, c, depth);
    case Quoted(q, s) => QuotedPassed(doc, i, q, s, depth);
    case Word(w) =>
      FollowedByMark(doc, i + |w|, ps[1..], Depth(p, depth));
      WordPassed(doc, i, w, depth);
  }

  lemma FollowedByMark(doc: string, j: nat, ps: seq<Part>, depth: int)
    requires PartsOk(ps, depth) && (ps != [] ==> ps[0].Mark?) && OccursAt(doc, j, PartsText(ps) + ">")
    ensures j < |doc| && doc[j] in BLANKS + MARKS
  {
    OccursChar(doc, j, PartsText(ps) + ">", 0);
  }

  lemma MarkPassed(doc: string, i: nat, c: char, depth: int)
    requires PartOk(Mark(c)) && (c == '>' ==> depth != 0) && OccursAt(doc, i, [c])
    ensures i + 1 <= |doc| && DocType(doc, i, depth) == DocType(doc, i + 1, depth)
  {
    hide FindToken, OccursAt;
    MarkPart(doc, i, c);
    if c in BLANKS {
      BlankPassed(doc, i, depth);
    }
  }

  lemma QuotedPassed(doc: string, i: nat, q: char, s: string, depth: int)
    requires PartOk(Quoted(q, s)) && OccursAt(doc, i, [q] + (s + [q]))
    ensures i + |s| + 2 <= |doc| && DocType(doc, i, depth) == DocType(doc, i + |s| + 2, depth)
  {
    hide FindToken, OccursAt;
    QuotedToken(doc, i, q, s);
  }

  lemma WordPassed(doc: string, i: nat, w: string, depth: int)
    requires PartOk(Word(w)) && OccursAt(doc, i, w) && i + |w| < |doc| && doc[i + |w|] in BLANKS + MARKS
    ensures DocType(doc, i, depth) == DocType(doc, i + |w|, Depth(Word(w), depth))
  {
    hide FindToken, OccursAt;
    WordPart(doc, i, w);
    assert w[0] in w;
    assert w[0] !in BLANKS + MARKS;
  }

  // A declaration goes on to the greater-than sign outside brackets and quotations.
  lemma DeclarationNode(ps: seq<Part>)
    requires PartsOk(ps, 0) && 2 < |PartsText(ps)| && "<!" <= PartsText(ps)
    requires PartsText(ps)[2] != '[' && PartsText(ps)[2] != '-'
    ensures SpecialText(PartsText(ps) + ">")
  {
    hide DocType, PartsOk;
    var t := PartsText(ps) + ">";
    assert t[0] == PartsText(ps)[0] == "<!"[0] && t[1] == PartsText(ps)[1] == "<!"[1];
    assert OccursAt(t, 0, t);
    PartsRead(t, 0, ps, 0);
  }
}

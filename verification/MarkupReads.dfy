/** What the data and the attributes of an element say, read off the text of the document, whoever wrote it. */
module MarkupReads {
  import opened Substring
  import opened MarkupText
  import opened MarkupParse
  import opened MarkupTree
  import opened MarkupRender
  import opened MarkupEntities
  import opened MarkupData
  import opened MarkupAccess

  // s holds no end mark of a section, nor the beginning of one that the mark behind it completes.
  ghost predicate EndsFirst(s: string) {
    forall k :: 0 <= k < |s| ==> !OccursAt(s + "]]>", k, "]]>")
  }

  ghost predicate IsSection(text: string, s: string) {
    exists white, rest ::
      text == white + ("<![CDATA[" + (s + ("]]>" + rest))) && (forall k :: 0 <= k < |white| ==> white[k] in " \t\r\n")
      && EndsFirst(s)
  }

  // Text without markup is read piece by piece; a section in front, after blanks, is read as it stands.
  ghost predicate ReadsAs(text: string, r: string) {
    && (forall ps :: PiecesOk(ps) && PiecesText(ps) == text && '<' !in text ==> r == Says(ps))
    && forall s :: IsSection(text, s) ==> r == s
  }

  lemma NoSection(doc: string, lo: nat, hi: nat)
    requires lo <= hi < |doc| && '<' !in doc[lo..hi]
    ensures CDataEnd(doc, lo, hi) == -1
  {
    hide FindToken, FindStr, OccursAt;
    var t := FindToken(doc, lo);
    if t.left < hi {
      assert doc[t.left] == doc[lo..hi][t.left - lo];
    }
  }

  lemma TextReads(doc: string, lo: nat, hi: nat, ps: seq<Piece>)
    requires lo <= hi < |doc| && '<' !in doc[lo..hi] && PiecesOk(ps) && PiecesText(ps) == doc[lo..hi]
    ensures DataAt(doc, lo, hi) == Says(ps)
  {
    hide CDataEnd, Unescape, OccursAt, PiecesOk, PiecesText, Says;
    NoSection(doc, lo, hi);
    SliceOccurs(doc, lo, hi);
    PiecesRead(doc, lo, ps);
  }

  // The token that opens a section behind blanks.
  lemma OpeningToken(doc: string, lo: nat, white: string)
    requires OccursAt(doc, lo, white) && forall k :: 0 <= k < |white| ==> white[k] in " \t\r\n"
    requires OccursAt(doc, lo + |white|, "<![CDATA[")
    ensures var p := lo + |white|; FindToken(doc, lo) == Token(true, p, p, p + 1, false) && doc[p] == '<'
    ensures OccursAt(doc, lo + |white| + 1, CDATA) && CDATA_END == "]]>"
  {
    hide FindToken;
    var p := lo + |white|;
    OccursChar(doc, p, "<![CDATA[", 0);
    forall k | lo <= k < p ensures IsSpace(doc[k]) {
      OccursChar(doc, lo, white, k - lo);
    }
    CharToken(doc, lo, p);
    assert "<![CDATA[" == "<" + "![CDATA[";
    OccursSplit(doc, p, "<", "![CDATA[");
  }

  lemma EndMarkAt(doc: string, p: nat, s: string)
    requires p + 9 <= |doc| && OccursAt(doc, p, "<![CDATA[") && OccursAt(doc, p + 9, s + "]]>") && EndsFirst(s)
    ensures p + 9 + |s| < |doc| && FindStr(doc, p + 1, "]]>") == p + 9 + |s|
  {
    hide FindStr, OccursAt;
    var e := p + 9 + |s|;
    OccursSplit(doc, p + 9, s, "]]>");
    OccursChar(doc, e, "]]>", 0);
    forall k | p + 1 <= k < e ensures !OccursAt(doc, k, "]]>") {
      if k < p + 9 {
        NotInOpening(doc, p, k);
      } else {
        OccursInside(doc, p + 9, s + "]]>", k - p - 9, "]]>");
      }
    }
    FindStrStops(doc, p + 1, e, "]]>");
  }

  lemma NotInOpening(doc: string, p: nat, k: nat)
    requires OccursAt(doc, p, "<![CDATA[") && p < k < p + 9
    ensures !OccursAt(doc, k, "]]>")
  {
    hide OccursAt;
    if OccursAt(doc, k, "]]>") {
      OccursChar(doc, k, "]]>", 0);
      OccursChar(doc, p, "<![CDATA[", k - p);
      OpeningHasNoBracket(k - p);
    }
  }

  lemma OpeningHasNoBracket(k: nat)
    requires k < 9
    ensures "<![CDATA["[k] != ']'
  {
  }

  lemma SectionReads(doc: string, lo: nat, hi: nat, s: string)
    requires lo <= hi < |doc| && IsSection(doc[lo..hi], s)
    ensures DataAt(doc, lo, hi) == s
  {
    hide FindToken, FindStr, OccursAt, Unescape, EndsFirst;
    var white, rest :|
      doc[lo..hi] == white + ("<![CDATA[" + (s + ("]]>" + rest)))
      && (forall k :: 0 <= k < |white| ==> white[k] in " \t\r\n") && EndsFirst(s);
    SliceOccurs(doc, lo, hi);
    SectionPlaces(doc, lo, white, s, rest);
    SectionTaken(doc, lo, hi, white, s);
  }

  lemma SectionPlaces(doc: string, lo: nat, white: string, s: string, rest: string)
    requires OccursAt(doc, lo, white + ("<![CDATA[" + (s + ("]]>" + rest))))
    ensures var p := lo + |white|;
            && OccursAt(doc, lo, white) && OccursAt(doc, p, "<![CDATA[") && OccursAt(doc, p + 9, s + "]]>")
            && OccursAt(doc, p + 9, s) && p + 12 + |s| + |rest| == lo + |white + ("<![CDATA[" + (s + ("]]>" + rest)))|
  {
    hide OccursAt;
    var p := lo + |white|;
    OccursSplit(doc, lo, white, "<![CDATA[" + (s + ("]]>" + rest)));
    OccursSplit(doc, p, "<![CDATA[", s + ("]]>" + rest));
    assert s + ("]]>" + rest) == (s + "]]>") + rest;
    OccursSplit(doc, p + 9, s + "]]>", rest);
    OccursSplit(doc, p + 9, s, "]]>");
  }

  lemma SectionTaken(doc: string, lo: nat, hi: nat, white: string, s: string)
    requires lo <= hi < |doc| && (forall k :: 0 <= k < |white| ==> white[k] in " \t\r\n") && EndsFirst(s)
    requires var p := lo + |white|;
             && OccursAt(doc, lo, white) && OccursAt(doc, p, "<![CDATA[") && OccursAt(doc, p + 9, s + "]]>")
             && OccursAt(doc, p + 9, s) && p + 12 + |s| <= hi
    ensures DataAt(doc, lo, hi) == s
  {
    hide FindToken, FindStr, OccursAt, Unescape, EndsFirst;
    var p := lo + |white|;
    OpeningToken(doc, lo, white);
    EndMarkAt(doc, p, s);
    SliceIs(doc, p + 9, s);
  }

  lemma SliceIs(doc: string, i: nat, s: string)
    requires OccursAt(doc, i, s)
    ensures i + |s| <= |doc| && doc[i..i + |s|] == s
  {
  }

  lemma DataReads(doc: string, lo: nat, hi: nat)
    requires lo <= hi < |doc|
    ensures ReadsAs(doc[lo..hi], DataAt(doc, lo, hi))
  {
    hide DataAt, PiecesOk, PiecesText, Says, IsSection;
    forall ps | PiecesOk(ps) && PiecesText(ps) == doc[lo..hi] && '<' !in doc[lo..hi]
      ensures DataAt(doc, lo, hi) == Says(ps) {
      TextReads(doc, lo, hi, ps);
    }
    forall s | IsSection(doc[lo..hi], s) ensures DataAt(doc, lo, hi) == s {
      SectionReads(doc, lo, hi, s);
    }
  }

  // The first attribute of that name, in pieces.
  ghost predicate HasAttr(attrs: seq<Attr>, name: string, ps: seq<Piece>) {
    PiecesOk(ps) && exists k :: 0 <= k < |attrs| && FirstNamed(attrs, name, k) && attrs[k].value == PiecesText(ps)
  }

  ghost predicate Unnamed(attrs: seq<Attr>, name: string) {
    forall k :: 0 <= k < |attrs| ==> attrs[k].name != name
  }

  ghost predicate FirstNamed(attrs: seq<Attr>, name: string, k: nat)
    requires k < |attrs|
  {
    attrs[k].name == name && forall j :: 0 <= j < k ==> attrs[j].name != name
  }

  // An attribute is read as its pieces say, and as nothing if there is none.
  lemma AttrReads(attrs: seq<Attr>, name: string)
    ensures forall ps :: HasAttr(attrs, name, ps) ==> AttrOf(attrs, name) == Says(ps)
    ensures Unnamed(attrs, name) ==> AttrOf(attrs, name) == ""
  {
    hide Unescape, PiecesOk, PiecesText, Says, IndexOf;
    forall ps | HasAttr(attrs, name, ps) ensures AttrOf(attrs, name) == Says(ps) {
      var k :| 0 <= k < |attrs| && FirstNamed(attrs, name, k) && attrs[k].value == PiecesText(ps);
      assert IndexOf(attrs, name) == k;
      SliceOccurs(attrs[k].value, 0, |attrs[k].value|);
      assert attrs[k].value[0..|attrs[k].value|] == attrs[k].value;
      PiecesRead(attrs[k].value, 0, ps);
    }
  }

  // What SetData puts between the tags: the characters in pieces, or a section if that is asked for and possible.
  lemma DataPut(s: string, cdata: bool)
    ensures DataText(s, cdata)
            == if cdata && forall k :: 0 <= k < |s| ==> !OccursAt(s, k, "]]>") then "<![CDATA[" + s + "]]>"
               else PiecesText(WrittenAll(s, false))
  {
    hide Escape, FindStr, OccursAt, PiecesText;
    EscapeIsWritten(s, false);
    SectionMarks();
    NoEndExactly(s);
  }

  lemma SectionMarks()
    ensures "<" + CDATA == "<![CDATA[" && CDATA_END == "]]>"
  {
  }

  lemma NoEndExactly(s: string)
    ensures FindStr(s, 0, "]]>") == |s| <==> forall k :: 0 <= k < |s| ==> !OccursAt(s, k, "]]>")
  {
    hide FindStr, OccursAt;
    if FindStr(s, 0, "]]>") == |s| {
      forall k | 0 <= k < |s| ensures !OccursAt(s, k, "]]>") {
        NoEndInside(s, k);
      }
    } else {
      assert OccursAt(s, FindStr(s, 0, "]]>"), "]]>");
    }
  }

  // What SetAttrib puts between the quotation marks.
  lemma AttrPut(n: Forest, name: string, value: string)
    requires n.Node?
    ensures HasAttr(WithAttr(n, name, Escape(value, true)).attrs, name, WrittenAll(value, true))
  {
    hide Escape, PiecesText;
    EscapeIsWritten(value, true);
    WrittenSays(value, true);
    var m, i := WithAttr(n, name, Escape(value, true)), IndexOf(n.attrs, name);
    assert FirstNamed(m.attrs, name, i);
  }
}

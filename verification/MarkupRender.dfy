/** Parsing the text of a well-formed tree gives back the offsets of that tree. */
module MarkupRender {
  import opened Substring
  import opened MarkupText
  import opened MarkupParse
  import opened MarkupTree

  // ---- where a search stops ----

  lemma {:induction false} FindCharStops(doc: string, i: nat, j: nat, c: char)
    requires i <= j < |doc| && doc[j] == c
    requires forall k :: i <= k < j ==> doc[k] != c
    ensures FindChar(doc, i, c) == j
    decreases j - i
  {
    if i < j {
      FindCharStops(doc, i + 1, j, c);
    }
  }

  lemma {:induction false} FindCharSkips(doc: string, i: nat, j: nat, c: char)
    requires i <= j <= |doc|
    requires forall k :: i <= k < j ==> doc[k] != c
    ensures FindChar(doc, i, c) == FindChar(doc, j, c)
    decreases j - i
  {
    if i < j {
      FindCharSkips(doc, i + 1, j, c);
    }
  }

  lemma {:induction false} SkipSpacesStops(doc: string, i: nat, j: nat)
    requires i <= j <= |doc| && (j < |doc| ==> !IsSpace(doc[j]))
    requires forall k :: i <= k < j ==> IsSpace(doc[k])
    ensures SkipSpaces(doc, i) == j
    decreases j - i
  {
    if i < j {
      SkipSpacesStops(doc, i + 1, j);
    }
  }

  lemma {:induction false} SkipWordStops(doc: string, i: nat, j: nat)
    requires i <= j < |doc| && IsDelim(doc[j])
    requires forall k :: i <= k < j ==> !IsDelim(doc[k])
    ensures SkipWord(doc, i) == j
    decreases j - i
  {
    if i < j {
      SkipWordStops(doc, i + 1, j);
    }
  }

  // A word between i (after blanks) and a delimiter is one token.
  lemma WordToken(doc: string, i: nat, word: string)
    requires NameOk(word) && OccursAt(doc, i, word) && i + |word| < |doc| && IsDelim(doc[i + |word|])
    ensures FindToken(doc, i) == Token(true, i, i + |word| - 1, i + |word|, false)
    ensures doc[i..i + |word|] == word && NameChar(doc[i])
  {
    forall k | i <= k < i + |word| ensures NameChar(doc[k]) {
      assert doc[k] == word[k - i];
    }
    SkipSpacesStops(doc, i, i);
    SkipWordStops(doc, i, i + |word|);
  }

  // A special character after blanks is a token of its own.
  lemma CharToken(doc: string, i: nat, j: nat)
    requires i <= j < |doc| && IsDelim(doc[j]) && !IsSpace(doc[j])
    requires forall k :: i <= k < j ==> IsSpace(doc[k])
    ensures FindToken(doc, i) == Token(true, j, j, j + 1, false)
  {
    SkipSpacesStops(doc, i, j);
    SkipWordStops(doc, j, j);
  }

  // ---- start and end tags ----

  lemma AttrTextShape(a: Attr)
    requires AttrOk(a)
    ensures var s := AttrText(a); |s| > 1 && IsSpace(s[0]) && IsQuote(s[|s| - 1])
                                  && forall i :: 0 <= i < |s| ==> s[i] != '>'
  {
    assert AttrText(a)[0] == a.space[0];
  }

  lemma {:induction false} AttrsTextShape(attrs: seq<Attr>)
    requires AttrsOk(attrs)
    ensures var s := AttrsText(attrs); (s == "" <==> attrs == []) && (s != "" ==> IsSpace(s[0]) && IsQuote(s[|s| - 1]))
    ensures forall i :: 0 <= i < |AttrsText(attrs)| ==> AttrsText(attrs)[i] != '>'
  {
    if attrs != [] {
      AttrTextShape(attrs[0]);
      AttrsTextShape(attrs[1..]);
    }
  }

  // What follows the name in a start tag: begins with a blank, does not end in '/', has no '>'.
  ghost predicate TagRest(s: string) {
    && (s != "" ==> IsSpace(s[0]) && s[|s| - 1] != '/')
    && forall i :: 0 <= i < |s| ==> s[i] != '>'
  }

  lemma TagRestShape(n: Forest)
    requires n.Node? && AttrsOk(n.attrs) && Blank(n.tail)
    ensures TagRest(AttrsText(n.attrs) + n.tail)
  {
    hide AttrsText;
    AttrsTextShape(n.attrs);
    var t := AttrsText(n.attrs);
    if n.tail == "" {
      assert t + n.tail == t;
    } else {
      assert IsSpace(n.tail[|n.tail| - 1]);
      if t == "" {
        assert t + n.tail == n.tail;
      }
    }
  }

  lemma StartTagParsed(doc: string, base: nat, n: Forest)
    requires n.Node? && NameOk(n.name) && AttrsOk(n.attrs) && Blank(n.tail)
    requires OccursAt(doc, base, "<" + TagBody(n) + (if n.empty then "/>" else ">"))
    ensures var g := NextTag(doc, base);
            && g.StartTag? && g.lt == base && TokenText(doc, g.t) == n.name
            && FindChar(doc, g.t.next, '>') == StartR(n, base) < |doc|
            && (doc[StartR(n, base) - 1] == '/' <==> n.empty)
  {
    hide NextTag, FindChar, FindToken, NameOk, AttrsOk, Blank, TagRest, TokenText, OccursAt, AttrsText;
    var rest := AttrsText(n.attrs) + n.tail;
    var e := if n.empty then "/>" else ">";
    StartTagText(n, e);
    OccursSplit(doc, base, "<", n.name + (rest + e));
    OccursSplit(doc, base + 1, n.name, rest + e);
    OccursSplit(doc, base + 1 + |n.name|, rest, e);
    TagRestShape(n);
    StartTagPieces(doc, base, n.name, rest, e);
  }

  lemma StartTagText(n: Forest, e: string)
    requires n.Node?
    ensures var rest := AttrsText(n.attrs) + n.tail;
            "<" + TagBody(n) + e == "<" + (n.name + (rest + e)) && |TagBody(n)| == |n.name| + |rest|
  {
    var a := AttrsText(n.attrs);
    assert n.name + a + n.tail == n.name + (a + n.tail);
  }

  lemma StartTagPieces(doc: string, base: nat, name: string, rest: string, e: string)
    requires NameOk(name) && TagRest(rest) && (e == "/>" || e == ">")
    requires OccursAt(doc, base, "<") && OccursAt(doc, base + 1, name)
    requires OccursAt(doc, base + 1 + |name|, rest) && OccursAt(doc, base + 1 + |name| + |rest|, e)
    ensures var g := NextTag(doc, base); var r := base + 1 + |name| + |rest| + |e| - 1;
            && g.StartTag? && g.lt == base && TokenText(doc, g.t) == name
            && FindChar(doc, g.t.next, '>') == r < |doc|
            && (doc[r - 1] == '/' <==> e == "/>")
  {
    hide FindChar, SkipSpaces, SkipWord, FindToken;
    var w := base + 1 + |name|;
    var r := w + |rest|;
    assert doc[base] == "<"[0] == '<';
    FindCharStops(doc, base, base, '<');
    assert forall k :: w <= k < r ==> doc[k] == rest[k - w];
    assert forall k :: r <= k < r + |e| ==> doc[k] == e[k - r];
    assert IsDelim(doc[w]) by {
      if rest != "" {
        assert doc[w] == rest[0];
      } else {
        assert doc[w] == e[0];
      }
    }
    WordToken(doc, base + 1, name);
    assert doc[base + 1] == name[0] && NameChar(name[0]);
    FindCharStops(doc, w, r + |e| - 1, '>');
    if e == ">" {
      if rest != "" {
        assert doc[r - 1] == rest[|rest| - 1];
      } else {
        assert doc[r - 1] == name[|name| - 1] && NameChar(name[|name| - 1]);
      }
    }
  }

  lemma EndTagParsed(doc: string, base: nat, n: Forest)
    requires n.Node? && NameOk(n.name) && Blank(n.close) && OccursAt(doc, base, EndTagText(n))
    ensures NextTag(doc, base) == EndTag(base)
    ensures EndTagRight(doc, base + 1, n.name, 0) == base + 2 + |n.name| + |n.close|
  {
    hide NextTag, EndTagRight, OccursAt, NameOk, Blank;
    var s := EndTagText(n);
    assert s == "<" + ("/" + (n.name + (n.close + ">")));
    OccursSplit(doc, base, "<", "/" + (n.name + (n.close + ">")));
    OccursSplit(doc, base + 1, "/", n.name + (n.close + ">"));
    OccursSplit(doc, base + 2, n.name, n.close + ">");
    OccursSplit(doc, base + 2 + |n.name|, n.close, ">");
    EndTagPieces(doc, base, n.name, n.close);
  }

  lemma CloseToken(doc: string, c: nat, close: string)
    requires Blank(close) && OccursAt(doc, c, close) && OccursAt(doc, c + |close|, ">")
    ensures c < |doc| && IsDelim(doc[c])
    ensures var r := c + |close|; r < |doc| && doc[r] == '>' && FindToken(doc, c) == Token(true, r, r, r + 1, false)
  {
    hide FindToken;
    OccursChar(doc, c + |close|, ">", 0);
    forall k | c <= k < c + |close| ensures IsSpace(doc[k]) {
      OccursChar(doc, c, close, k - c);
    }
    CharToken(doc, c, c + |close|);
  }

  lemma EndTagPieces(doc: string, base: nat, name: string, close: string)
    requires NameOk(name) && Blank(close)
    requires OccursAt(doc, base, "<") && OccursAt(doc, base + 1, "/") && OccursAt(doc, base + 2, name)
    requires OccursAt(doc, base + 2 + |name|, close) && OccursAt(doc, base + 2 + |name| + |close|, ">")
    ensures NextTag(doc, base) == EndTag(base)
    ensures EndTagRight(doc, base + 1, name, 0) == base + 2 + |name| + |close|
  {
    hide FindToken, NextTag, EndTagRight, Blank, OccursAt, NameOk;
    var c := base + 2 + |name|;
    CloseToken(doc, c, close);
    OccursChar(doc, base, "<", 0);
    OccursChar(doc, base + 1, "/", 0);
    CharToken(doc, base + 1, base + 1);
    EndTagFound(doc, base);
    WordToken(doc, base + 2, name);
    EndTagTokens(doc, base + 1, c, c + |close|, name);
  }

  lemma EndTagFound(doc: string, i: nat)
    requires i + 1 < |doc| && doc[i] == '<' && doc[i + 1] == '/'
    requires FindToken(doc, i + 1) == Token(true, i + 1, i + 1, i + 2, false)
    ensures NextTag(doc, i) == EndTag(i)
  {
    hide FindToken, ParseNode;
    FindCharStops(doc, i, i, '<');
  }

  lemma EndTagTokens(doc: string, i: nat, c: nat, r: nat, name: string)
    requires i + 1 < c <= r < |doc| && doc[i] == '/' && doc[i + 1..c] == name && doc[i + 1] != '>' && doc[r] == '>'
    requires FindToken(doc, i) == Token(true, i, i, i + 1, false)
    requires FindToken(doc, i + 1) == Token(true, i + 1, c - 1, c, false)
    requires FindToken(doc, c) == Token(true, r, r, r + 1, false)
    ensures EndTagRight(doc, i, name, 0) == r
  {
    hide FindToken;
    assert EndTagRight(doc, c, name, 2) == r;
    assert EndTagRight(doc, i + 1, name, 1) == r;
  }

  // ---- comments, sections, instructions and declarations ----

  lemma OccursInside(doc: string, off: nat, t: string, i: nat, pat: string)
    requires OccursAt(doc, off, t) && i + |pat| <= |t|
    ensures OccursAt(doc, off + i, pat) <==> OccursAt(t, i, pat)
  {
    forall k | i <= k < i + |pat| ensures t[k] == doc[off + k] {
      OccursChar(doc, off, t, k);
    }
    assert t[i..i + |pat|] == doc[off + i..off + i + |pat|];
  }

  lemma {:induction false} FindStrShift(doc: string, off: nat, t: string, i: nat, pat: string)
    requires OccursAt(doc, off, t) && i <= |t| && 0 < |pat| && FindStr(t, i, pat) < |t|
    ensures FindStr(doc, off + i, pat) == off + FindStr(t, i, pat)
    decreases |t| - i
  {
    OccursInside(doc, off, t, i, pat);
    if !OccursAt(t, i, pat) {
      FindStrShift(doc, off, t, i + 1, pat);
    }
  }

  lemma {:induction false} FindCharShift(doc: string, off: nat, t: string, i: nat, c: char)
    requires OccursAt(doc, off, t) && i <= |t| && FindChar(t, i, c) < |t|
    ensures FindChar(doc, off + i, c) == off + FindChar(t, i, c)
    decreases |t| - i
  {
    OccursChar(doc, off, t, i);
    if t[i] != c {
      FindCharShift(doc, off, t, i + 1, c);
    }
  }

  lemma {:induction false} SkipSpacesShift(doc: string, off: nat, t: string, i: nat)
    requires OccursAt(doc, off, t) && i <= |t| && SkipSpaces(t, i) < |t|
    ensures SkipSpaces(doc, off + i) == off + SkipSpaces(t, i)
    decreases |t| - i
  {
    OccursChar(doc, off, t, i);
    if IsSpace(t[i]) {
      SkipSpacesShift(doc, off, t, i + 1);
    }
  }

  lemma {:induction false} SkipWordShift(doc: string, off: nat, t: string, i: nat)
    requires OccursAt(doc, off, t) && i <= |t| && SkipWord(t, i) < |t|
    ensures SkipWord(doc, off + i) == off + SkipWord(t, i)
    decreases |t| - i
  {
    OccursChar(doc, off, t, i);
    if !IsDelim(t[i]) {
      SkipWordShift(doc, off, t, i + 1);
    }
  }

  lemma FindTokenShift(doc: string, off: nat, t: string, i: nat)
    requires OccursAt(doc, off, t) && i <= |t|
    requires var k := FindToken(t, i); k.ok && (k.next < |t| || (!k.isString && IsDelim(t[k.left])))
    ensures var k := FindToken(t, i);
            FindToken(doc, off + i) == Token(true, off + k.left, off + k.right, off + k.next, k.isString)
  {
    hide FindChar, SkipWord, SkipSpaces;
    var s := SkipSpaces(t, i);
    SkipSpacesShift(doc, off, t, i);
    OccursChar(doc, off, t, s);
    if IsQuote(t[s]) {
      FindCharShift(doc, off, t, s + 1, t[s]);
    } else if IsDelim(t[s]) {
      SkipWordStops(t, s, s);
      SkipWordStops(doc, off + s, off + s);
    } else {
      SkipWordShift(doc, off, t, s);
    }
  }

  lemma {:induction false} DocTypeShift(doc: string, off: nat, t: string, i: nat, brackets: int)
    requires OccursAt(doc, off, t) && i <= |t| && DocType(t, i, brackets) == Special(|t|)
    ensures DocType(doc, off + i, brackets) == Special(off + |t|)
    decreases |t| - i
  {
    hide FindToken;
    var k := FindToken(t, i);
    if k.next == |t| {
      EndOfText(t, 0);
      EndOfText(t, brackets);
      EndOfText(t, brackets + 1);
      EndOfText(t, brackets - 1);
    }
    FindTokenShift(doc, off, t, i);
    if !k.isString {
      OccursChar(doc, off, t, k.left);
    }
    if k.next < |t| {
      var b := if k.isString then brackets else if t[k.left] == '[' then brackets + 1
               else if t[k.left] == ']' then brackets - 1 else brackets;
      DocTypeShift(doc, off, t, k.next, b);
    }
  }

  lemma EndOfText(t: string, brackets: int)
    ensures DocType(t, |t|, brackets).NoNode?
  {
  }

  lemma SpecialShift(doc: string, off: nat, t: string, end: string)
    requires OccursAt(doc, off, t) && 0 < |t| && 0 < |end| && SpecialTo(t, 0, end) == Special(|t|)
    ensures SpecialTo(doc, off, end) == Special(off + |t|)
  {
    hide FindStr;
    FindStrShift(doc, off, t, 0, end);
  }

  // The parser steps over a chunk.
  lemma ChunkSkipped(doc: string, off: nat, text: string)
    requires OccursAt(doc, off, text) && ChunkOk(text)
    ensures NextTag(doc, off) == NextTag(doc, off + |text|)
  {
    hide FindChar, FindToken, FindStr, DocType;
    if PlainText(text) {
      forall k | off <= k < off + |text| ensures doc[k] != '<' {
        OccursChar(doc, off, text, k - off);
      }
      FindCharSkips(doc, off, off + |text|, '<');
    } else {
      OccursChar(doc, off, text, 0);
      OccursChar(doc, off, text, 1);
      OccursChar(doc, off, text, 2);
      FindCharStops(doc, off, off, '<');
      CharToken(doc, off + 1, off + 1);
      SpecialNodeShift(doc, off, text);
    }
  }

  lemma SpecialNodeShift(doc: string, off: nat, text: string)
    requires OccursAt(doc, off, text) && SpecialText(text) && off + 2 < |doc|
    requires doc[off] == text[0] && doc[off + 1] == text[1] && doc[off + 2] == text[2]
    ensures ParseNode(doc, off) == Special(off + |text|)
  {
    hide DocType, SpecialTo, OccursAt;
    if text[1] == '?' {
      SpecialShift(doc, off, text, "?>");
    } else if text[2] == '[' {
      SpecialShift(doc, off, text, "]]>");
    } else if text[2] == '-' {
      SpecialShift(doc, off, text, "-->");
    } else {
      DocTypeShift(doc, off, text, 0, 0);
    }
  }

  // ---- whole trees ----

  lemma ParseSkips(doc: string, i: nat, j: nat)
    requires i <= j <= |doc| && NextTag(doc, i) == NextTag(doc, j)
    ensures ParseElem(doc, i) == ParseElem(doc, j) && ParseKids(doc, i) == ParseKids(doc, j)
  {
    hide NextTag, FindChar, EndTagRight;
    assert ParseElem(doc, i) == ParseElem(doc, j);
    KidsFollowElem(doc, i);
    KidsFollowElem(doc, j);
  }

  // ParseKids by what ParseElem returns.
  lemma KidsFollowElem(doc: string, i: nat)
    requires i <= |doc|
    ensures ParseKids(doc, i) == match ParseElem(doc, i)
                                 case Bad => BadKids
                                 case Stuck(lt) => StuckKids(lt)
                                 case NoElem(lt) => Kids(ONil, lt)
                                 case Found(e) =>
                                   match ParseKids(doc, e.endR + 1)
                                   case Kids(rest, lt) => Kids(e.(next := rest), lt)
                                   case other => other
  {
    hide ParseElem;
  }

  lemma NoElemAtEndTag(doc: string, i: nat)
    requires i <= |doc| && NextTag(doc, i) == EndTag(i)
    ensures ParseElem(doc, i) == NoElem(i)
  {
    hide NextTag;
  }

  lemma {:induction false} RenderedElemParses(doc: string, base: nat, n: Forest)
    requires n.Node? && WF(n) && OccursAt(doc, base, Core(n))
    ensures ParseElem(doc, base) == Found(Offsets(SetNext(n, Nil), base))
    decreases n, 0
  {
    hide NextTag, FindChar, FindToken, EndTagRight, OccursAt, TokenText, NameOk, AttrsOk, Blank, ParseKids, ParseElem,
         AttrsText, Offsets, Render;
    var content := Render(n.kids);
    if n.empty {
      StartTagParsed(doc, base, n);
    } else {
      var s := "<" + TagBody(n) + ">";
      ElementText(n);
      OccursSplit(doc, base, s, content + EndTagText(n));
      OccursSplit(doc, base + |s|, content, EndTagText(n));
      StartTagParsed(doc, base, n);
      var e := base + |s| + |content|;
      EndTagParsed(doc, e, n);
      RenderedKidsParse(doc, base + |s|, n.kids, e);
    }
    ElemFromTags(doc, base, n);
  }

  lemma ElementText(n: Forest)
    requires n.Node? && !n.empty
    ensures Core(n) == "<" + TagBody(n) + ">" + (Render(n.kids) + EndTagText(n))
  {
    hide TagBody, Render, EndTagText;
    assert "<" + TagBody(n) + ">" + Render(n.kids) + EndTagText(n)
             == "<" + TagBody(n) + ">" + (Render(n.kids) + EndTagText(n));
  }

  // An element whose tags and kids are read as they were written.
  lemma ElemFromTags(doc: string, base: nat, n: Forest)
    requires n.Node? && base <= |doc| && (n.empty ==> n.kids.Nil?)
    requires var g := NextTag(doc, base);
             && g.StartTag? && g.lt == base && TokenText(doc, g.t) == n.name
             && FindChar(doc, g.t.next, '>') == StartR(n, base) < |doc|
               && (doc[StartR(n, base) - 1] == '/' <==> n.empty)
    requires !n.empty ==>
               var e := StartR(n, base) + 1 + |Render(n.kids)|;
               && ParseKids(doc, StartR(n, base) + 1) == Kids(Offsets(n.kids, StartR(n, base) + 1), e)
               && EndTagRight(doc, e + 1, n.name, 0) == e + 2 + |n.name| + |n.close|
    ensures ParseElem(doc, base) == Found(Offsets(SetNext(n, Nil), base))
  {
    hide NextTag, FindChar, FindToken, EndTagRight, TokenText, ParseKids, Render, AttrsText;
    EmptyOffsets(EndR(n, base, |Render(n.kids)|) + 1);
  }

  lemma EmptyOffsets(base: int)
    ensures Offsets(Nil, base) == ONil
  {
  }

  lemma OffsetsOfChunk(f: Forest, base: int)
    requires f.Chunk?
    ensures Offsets(f, base) == Offsets(f.next, base + |f.text|)
  {
  }

  lemma OffsetsOfNode(f: Forest, base: int)
    requires f.Node?
    ensures var e := Offsets(SetNext(f, Nil), base);
            && e.ONode? && e.endR + 1 == base + |Core(f)|
            && Offsets(f, base) == e.(next := Offsets(f.next, base + |Core(f)|))
  {
    hide Around, TagBody, EndTagText, Render, StartR, EndL, EndR;
    AroundLength(f, Render(f.kids));
    EndMoves(f, base, |Render(f.kids)|);
  }

  // The offsets of an element do not depend on what follows it, and its end moves with its start.
  lemma EndMoves(f: Forest, base: int, len: int)
    requires f.Node?
    ensures EndR(f, base, len) == base + EndR(f, 0, len)
    ensures var n := SetNext(f, Nil);
            && StartR(n, base) == StartR(f, base) && EndL(n, base, len) == EndL(f, base, len)
            && EndR(n, base, len) == EndR(f, base, len) && n.kids == f.kids
  {
  }

  lemma {:induction false} RenderedKidsParse(doc: string, base: nat, f: Forest, e: nat)
    requires WF(f) && OccursAt(doc, base, Render(f)) && e == base + |Render(f)| < |doc|
    requires NextTag(doc, e) == EndTag(e)
    ensures ParseKids(doc, base) == Kids(Offsets(f, base), e)
    decreases f, 1
  {
    hide ParseElem, ParseKids, OccursAt, NextTag, Around, Offsets, NameOk, AttrsOk, Blank, ChunkOk;
    KidsFollowElem(doc, base);
    match f
    case Nil =>
      assert Offsets(f, base) == ONil by { EmptyOffsets(base); }
      NoElemAtEndTag(doc, base);
    case Chunk(text, next) =>
      OccursSplit(doc, base, text, Render(next));
      ChunkSkipped(doc, base, text);
      OffsetsOfChunk(f, base);
      RenderedKidsParse(doc, base + |text|, next, e);
      ParseSkips(doc, base, base + |text|);
    case Node(_, _, _, _, _, _, _, next) =>
      OccursSplit(doc, base, Core(f), Render(next));
      RenderedElemParses(doc, base, f);
      OffsetsOfNode(f, base);
      RenderedKidsParse(doc, base + |Core(f)|, next, e);
  }
}

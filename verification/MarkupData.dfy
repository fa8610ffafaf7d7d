/** Reading and writing the data and the attributes of an element: the escaping of text, and the search
    for an attribute in a start tag. */
module MarkupData {
  import opened Substring
  import opened MarkupText
  import opened MarkupParse
  import opened MarkupTree
  import opened MarkupRender
  import opened MarkupEntities

  // ---- x_TextToDoc ----

  function Entity(c: char, attrib: bool): string {
    if c == '<' then "&lt;"
    else if c == '&' then "&amp;"
    else if c == '>' then "&gt;"
    else if attrib && c == '\'' then "&apos;"
    else if attrib && c == '\"' then "&quot;"
    else [c]
  }

  function Escape(s: string, attrib: bool): string {
    if s == "" then "" else Entity(s[0], attrib) + Escape(s[1..], attrib)
  }

  lemma {:induction false} EscapeIsWritten(s: string, attrib: bool)
    ensures Escape(s, attrib) == PiecesText(WrittenAll(s, attrib))
  {
    if s != "" {
      EscapeIsWritten(s[1..], attrib);
      assert WrittenAll(s, attrib)[1..] == WrittenAll(s[1..], attrib);
    }
  }

  method TextToDoc(s: string, attrib: bool) returns (r: string)
    ensures r == Escape(s, attrib) == PiecesText(WrittenAll(s, attrib))
  {
    EscapeIsWritten(s, attrib);
    r := "";
    for i := 0 to |s|
      invariant r + Escape(s[i..], attrib) == Escape(s, attrib)
    {
      assert s[i..][1..] == s[i + 1..];
      assert r + (Entity(s[i], attrib) + Escape(s[i + 1..], attrib))
               == r + Entity(s[i], attrib) + Escape(s[i + 1..], attrib);
      r := r + Entity(s[i], attrib);
    }
    assert r + Escape(s[|s|..], attrib) == r;
  }

  // ---- x_TextFromDoc ----

  function Code(m: nat): string
    requires m < 5
  {
    if m == 0 then "lt;" else if m == 1 then "amp;" else if m == 2 then "gt;" else if m == 3 then "apos;" else "quot;"
  }

  function Symbol(m: nat): char
    requires m < 5
  {
    if m == 0 then '<' else if m == 1 then '&' else if m == 2 then '>' else if m == 3 then '\'' else '\"'
  }

  // The first code, from number m on, that follows the '&' at i and fits before right; 5 if none does.
  function CodeAt(doc: string, i: nat, right: int, m: nat): (r: nat)
    requires m <= 5 && right < |doc|
    ensures m <= r <= 5 && (r < 5 ==> i + |Code(r)| <= right)
    decreases 5 - m
  {
    if m == 5 then 5
    else if i + |Code(m)| <= right && OccursAt(doc, i + 1, Code(m)) then m
    else CodeAt(doc, i, right, m + 1)
  }

  // The text from i to right with the codes replaced by what they stand for.
  function Unescape(doc: string, i: nat, right: int): string
    requires right < |doc|
    decreases right + 1 - i
  {
    if right < i then ""
    else
      var m := if doc[i] == '&' then CodeAt(doc, i, right, 0) else 5;
      if m < 5 then [Symbol(m)] + Unescape(doc, i + 1 + |Code(m)|, right)
      else [doc[i]] + Unescape(doc, i + 1, right)
  }

  // Whatever the pieces are, they are read as what they say.
  method TextFromDoc(doc: string, left: nat, right: int) returns (r: string)
    requires right < |doc|
    ensures r == Unescape(doc, left, right)
    ensures left <= right + 1 ==> forall ps :: PiecesOk(ps) && PiecesText(ps) == doc[left..right + 1] ==> r == Says(ps)
  {
    hide CodeAt, OccursAt, Code, Symbol, Unescape, PiecesOk, PiecesText, Says;
    if left <= right + 1 {
      forall ps | PiecesOk(ps) && PiecesText(ps) == doc[left..right + 1]
        ensures Unescape(doc, left, right) == Says(ps) {
        SliceOccurs(doc, left, right + 1);
        PiecesRead(doc, left, ps);
      }
    }
    r := "";
    var i := left;
    while i <= right
      invariant left <= i && r + Unescape(doc, i, right) == Unescape(doc, left, right)
      decreases right + 1 - i
    {
      var c, was := doc[i], i;
      UnescapeStep(doc, i, right);
      if c == '&' {
        var m := 0;
        while m < 5 && !(i + |Code(m)| <= right && OccursAt(doc, i + 1, Code(m)))
          invariant 0 <= m <= 5 && CodeAt(doc, i, right, m) == CodeAt(doc, i, right, 0)
        {
          CodeStep(doc, i, right, m);
          m := m + 1;
        }
        CodeStep(doc, i, right, m);
        if m < 5 {
          c := Symbol(m);
          i := i + |Code(m)|;
        }
      }
      i := i + 1;
      assert Unescape(doc, was, right) == [c] + Unescape(doc, i, right);
      assert r + ([c] + Unescape(doc, i, right)) == r + [c] + Unescape(doc, i, right);
      r := r + [c];
    }
    UnescapeStep(doc, i, right);
    assert r + "" == r;
  }

  lemma CodeStep(doc: string, i: nat, right: int, m: nat)
    requires m <= 5 && right < |doc|
    ensures CodeAt(doc, i, right, m) == if m == 5 then 5
                                        else if i + |Code(m)| <= right && OccursAt(doc, i + 1, Code(m)) then m
                                        else CodeAt(doc, i, right, m + 1)
  {
  }

  lemma UnescapeStep(doc: string, i: nat, right: int)
    requires right < |doc|
    ensures right < i ==> Unescape(doc, i, right) == ""
    ensures i <= right ==>
              var m := if doc[i] == '&' then CodeAt(doc, i, right, 0) else 5;
              Unescape(doc, i, right) == if m < 5 then [Symbol(m)] + Unescape(doc, i + 1 + |Code(m)|, right)
                                         else [doc[i]] + Unescape(doc, i + 1, right)
  {
    hide CodeAt, Code, Symbol;
  }

  lemma SliceOccurs(doc: string, i: nat, j: nat)
    requires i <= j <= |doc|
    ensures OccursAt(doc, i, doc[i..j]) && |doc[i..j]| == j - i
  {
  }

  lemma PieceRead(doc: string, i: nat, right: int, p: Piece, t: string)
    requires OccursAt(doc, i, PieceText(p) + t) && i + |PieceText(p) + t| == right + 1
    requires p.Raw? ==> !BeginsEntity(PieceText(p) + t)
    ensures right < |doc| && Unescape(doc, i, right) == [PieceSays(p)] + Unescape(doc, i + |PieceText(p)|, right)
  {
    hide OccursAt, CodeAt, Unescape, Code, BeginsEntity;
    var s := PieceText(p) + t;
    OccursWithin(doc, i, s);
    UnescapeStep(doc, i, right);
    OccursChar(doc, i, s, 0);
    if p.Raw? {
      if p.c == '&' {
        NoCode(doc, i, right, s, 0);
      }
    } else {
      EntityFound(doc, i, right, p, t);
      CodeOf(p);
    }
  }

  // Numbered as the codes are.
  function NumberOf(p: Piece): (m: nat)
    requires !p.Raw?
    ensures m < 5
  {
    match p
    case LessThan => 0
    case Ampersand => 1
    case GreaterThan => 2
    case Apostrophe => 3
    case Quotation => 4
  }

  lemma CodeOf(p: Piece)
    requires !p.Raw?
    ensures PieceText(p) == "&" + Code(NumberOf(p)) && PieceSays(p) == Symbol(NumberOf(p))
  {
  }

  lemma EntityFound(doc: string, i: nat, right: int, p: Piece, t: string)
    requires !p.Raw? && OccursAt(doc, i, PieceText(p) + t) && i + |PieceText(p) + t| == right + 1 <= |doc|
    ensures doc[i] == '&' && CodeAt(doc, i, right, 0) == NumberOf(p)
  {
    hide OccursAt, CodeAt, Code;
    CodeOf(p);
    OccursSplit(doc, i, PieceText(p), t);
    OccursSplit(doc, i, "&", Code(NumberOf(p)));
    OccursChar(doc, i, "&", 0);
    CodesDiffer(doc, i + 1, NumberOf(p));
    CodeFound(doc, i, right, 0, NumberOf(p));
  }

  lemma {:induction false} NoCode(doc: string, i: nat, right: int, s: string, m: nat)
    requires s != "" && s[0] == '&' && OccursAt(doc, i, s) && i + |s| == right + 1 <= |doc|
    requires !BeginsEntity(s) && m <= 5
    ensures CodeAt(doc, i, right, m) == 5
    decreases 5 - m
  {
    hide OccursAt, BeginsEntity;
    if m < 5 {
      NoCode(doc, i, right, s, m + 1);
      if i + |Code(m)| <= right && OccursAt(doc, i + 1, Code(m)) {
        CodeBegins(doc, i, s, m);
      }
    }
  }

  lemma CodeBegins(doc: string, i: nat, s: string, m: nat)
    requires s != "" && s[0] == '&' && OccursAt(doc, i, s) && m < 5 && |Code(m)| < |s| && OccursAt(doc, i + 1, Code(m))
    ensures BeginsEntity(s)
  {
    hide OccursAt;
    var k := |Code(m)|;
    forall j | 0 <= j < k ensures s[j + 1] == Code(m)[j] {
      OccursChar(doc, i, s, j + 1);
      OccursChar(doc, i + 1, Code(m), j);
    }
    assert s[..k + 1] == "&" + Code(m);
  }

  // The text between left and right in pieces, whoever wrote it, is read as what the pieces say.
  lemma {:induction false} PiecesRead(doc: string, i: nat, ps: seq<Piece>)
    requires PiecesOk(ps) && OccursAt(doc, i, PiecesText(ps))
    ensures i + |PiecesText(ps)| <= |doc| && Unescape(doc, i, i + |PiecesText(ps)| - 1) == Says(ps)
    decreases |ps|
  {
    hide OccursAt, Unescape, PieceText, PieceSays, BeginsEntity;
    OccursWithin(doc, i, PiecesText(ps));
    if ps == [] {
      UnescapeNothing(doc, i);
    } else {
      var t := PieceText(ps[0]);
      PieceRead(doc, i, i + |PiecesText(ps)| - 1, ps[0], PiecesText(ps[1..]));
      OccursSplit(doc, i, t, PiecesText(ps[1..]));
      PiecesRead(doc, i + |t|, ps[1..]);
    }
  }

  // The code of an escaped character is recognised as that character.
  lemma EntityDecoded(doc: string, i: nat, right: int, c: char, attrib: bool)
    requires OccursAt(doc, i, Entity(c, attrib)) && i + |Entity(c, attrib)| - 1 <= right < |doc|
    ensures Unescape(doc, i, right) == [c] + Unescape(doc, i + |Entity(c, attrib)|, right)
  {
    hide OccursAt, CodeAt, Unescape, Code;
    var e := Entity(c, attrib);
    UnescapeStep(doc, i, right);
    OccursChar(doc, i, e, 0);
    if |e| > 1 {
      var m := if c == '<' then 0 else if c == '&' then 1 else if c == '>' then 2 else if c == '\'' then 3 else 4;
      assert e == "&" + Code(m) && Symbol(m) == c by {
        EntityCode(c, attrib, m);
      }
      OccursSplit(doc, i, "&", Code(m));
      CodesDiffer(doc, i + 1, m);
      CodeFound(doc, i, right, 0, m);
    }
  }

  lemma EntityCode(c: char, attrib: bool, m: nat)
    requires m < 5 && Symbol(m) == c && |Entity(c, attrib)| > 1
    ensures Entity(c, attrib) == "&" + Code(m)
  {
  }

  // No two codes occur at the same place.
  lemma CodesDiffer(doc: string, i: nat, m: nat)
    requires m < 5 && OccursAt(doc, i, Code(m))
    ensures forall k :: 0 <= k < m ==> !OccursAt(doc, i, Code(k))
  {
    forall k | 0 <= k < m ensures !OccursAt(doc, i, Code(k)) {
      OccursChar(doc, i, Code(m), 0);
      OccursChar(doc, i, Code(m), 1);
      if OccursAt(doc, i, Code(k)) {
        OccursChar(doc, i, Code(k), 0);
        OccursChar(doc, i, Code(k), 1);
      }
    }
  }

  lemma {:induction false} CodeFound(doc: string, i: nat, right: int, k: nat, m: nat)
    requires k <= m < 5 && right < |doc| && i + |Code(m)| <= right && OccursAt(doc, i + 1, Code(m))
    requires forall j :: k <= j < m ==> !OccursAt(doc, i + 1, Code(j))
    ensures CodeAt(doc, i, right, k) == m
    decreases m - k
  {
    if k < m {
      CodeFound(doc, i, right, k + 1, m);
    }
  }

  // x_TextFromDoc inverts x_TextToDoc for every string, in both modes.
  lemma {:induction false} UnescapeInverts(doc: string, i: nat, s: string, attrib: bool)
    requires OccursAt(doc, i, Escape(s, attrib))
    ensures Unescape(doc, i, i + |Escape(s, attrib)| - 1) == s
    decreases |s|
  {
    hide Unescape, Entity;
    if s == "" {
      UnescapeNothing(doc, i);
    } else {
      var e, rest := Entity(s[0], attrib), Escape(s[1..], attrib);
      OccursSplit(doc, i, e, rest);
      EntityDecoded(doc, i, i + |Escape(s, attrib)| - 1, s[0], attrib);
      UnescapeInverts(doc, i + |e|, s[1..], attrib);
      assert [s[0]] + s[1..] == s;
    }
  }

  lemma UnescapeNothing(doc: string, i: nat)
    requires i <= |doc|
    ensures Unescape(doc, i, i - 1) == ""
  {
  }

  // No angle bracket, NUL or, in attributes, quotation mark.
  predicate Calm(c: char, attrib: bool) { c != '<' && c != '>' && c != '\0' && (attrib ==> !IsQuote(c)) }

  lemma EntityCalm(c: char, attrib: bool)
    requires c != '\0'
    ensures forall i :: 0 <= i < |Entity(c, attrib)| ==> Calm(Entity(c, attrib)[i], attrib)
  {
  }

  lemma {:induction false} EscapedCalm(s: string, attrib: bool)
    requires CString(s)
    ensures forall i :: 0 <= i < |Escape(s, attrib)| ==> Calm(Escape(s, attrib)[i], attrib)
    decreases |s|
  {
    hide Calm, Entity;
    if s != "" {
      EntityCalm(s[0], attrib);
      assert CString(s[1..]);
      EscapedCalm(s[1..], attrib);
    }
  }

  // Escaped text cannot be mistaken for markup.
  lemma EscapedIsPlain(s: string, attrib: bool)
    requires CString(s)
    ensures ChunkOk(Escape(s, attrib)) && PlainText(Escape(s, attrib))
    ensures attrib ==> ValueOk(Escape(s, true), '\"') && ValueOk(Escape(s, true), '\'')
  {
    hide Escape, SpecialText;
    EscapedCalm(s, attrib);
  }

  // ---- attributes ----

  // x_FindAttrib from the token at i on, `count` tokens into the tag; `attrib` is the number of the token
  // that matched the name, or 0.
  function FindAttribFrom(doc: string, i: nat, name: string, count: nat, attrib: nat): (t: Token)
    requires i <= |doc|
    ensures t.ok ==> t.isString && t.left <= t.right + 1 && t.right < |doc|
    decreases |doc| - i
  {
    var t := FindToken(doc, i);
    if !t.ok then t
    else if t.isString then
      if attrib != 0 && count == attrib + 2 then t else FindAttribFrom(doc, t.next, name, count + 1, attrib)
    else if doc[t.left] == '>' || doc[t.left] == '/' then Token(false, t.left, t.right, t.next, false)
    else if doc[t.left] != '=' && attrib == 0 && count != 0 && Match(doc, t, name) then
      FindAttribFrom(doc, t.next, name, count + 1, count)
    else FindAttribFrom(doc, t.next, name, count + 1, attrib)
  }

  method FindAttrib(doc: string, i: nat, name: string) returns (t: Token)
    requires i <= |doc|
    ensures t == FindAttribFrom(doc, i, name, 0, 0)
  {
    var attrib: nat, count: nat, p := 0, 0, i;
    t := ScanToken(doc, p);
    while t.ok
      invariant i <= p <= |doc| && t == FindToken(doc, p)
      invariant FindAttribFrom(doc, p, name, count, attrib) == FindAttribFrom(doc, i, name, 0, 0)
      decreases |doc| - p, t.ok
    {
      if !t.isString {
        if doc[t.left] == '>' || doc[t.left] == '/' {
          return Token(false, t.left, t.right, t.next, false);
        }
        if doc[t.left] != '=' && attrib == 0 && count != 0 && Match(doc, t, name) {
          attrib := count;
        }
      } else if attrib != 0 && count == attrib + 2 {
        return;
      }
      count := count + 1;
      p := t.next;
      t := ScanToken(doc, p);
    }
  }

  // The number of the first attribute of that name, or the number of attributes.
  function IndexOf(attrs: seq<Attr>, name: string): (i: nat)
    ensures i <= |attrs| && (i < |attrs| ==> attrs[i].name == name)
    ensures forall k :: 0 <= k < i ==> attrs[k].name != name
  {
    if attrs == [] || attrs[0].name == name then 0 else 1 + IndexOf(attrs[1..], name)
  }

  // How far into the attributes the value of number i begins.
  function ValueOffset(attrs: seq<Attr>, i: nat): nat
    requires i < |attrs|
  {
    if i == 0 then |attrs[0].space| + |attrs[0].name| + |attrs[0].preEq| + 1 + |attrs[0].postEq| + 1
    else |AttrText(attrs[0])| + ValueOffset(attrs[1..], i - 1)
  }

  lemma QuoteToken(doc: string, i: nat, j: nat, value: string, q: char)
    requires i <= j && OccursAt(doc, j, [q] + value + [q]) && IsQuote(q) && ValueOk(value, q)
    requires forall k :: i <= k < j ==> IsSpace(doc[k])
    ensures FindToken(doc, i) == Token(true, j + 1, j + |value|, j + 2 + |value|, true)
  {
    hide FindChar, SkipSpaces, OccursAt;
    OccursSplit(doc, j, [q] + value, [q]);
    OccursSplit(doc, j, [q], value);
    OccursChar(doc, j, [q], 0);
    OccursChar(doc, j + 1 + |value|, [q], 0);
    forall k | j + 1 <= k < j + 1 + |value| ensures doc[k] != q {
      OccursChar(doc, j + 1, value, k - j - 1);
    }
    SkipSpacesStops(doc, i, j);
    FindCharStops(doc, j + 1, j + 1 + |value|, q);
  }

  lemma BlanksThen(doc: string, i: nat, blanks: string, rest: string)
    requires Blank(blanks) && OccursAt(doc, i, blanks + rest)
    ensures OccursAt(doc, i + |blanks|, rest) && forall k :: i <= k < i + |blanks| ==> IsSpace(doc[k])
  {
    OccursSplit(doc, i, blanks, rest);
    forall k | i <= k < i + |blanks| ensures IsSpace(doc[k]) {
      OccursChar(doc, i, blanks, k - i);
    }
  }

  // Where the parts of an attribute lie.
  lemma AttrParts(doc: string, i: nat, a: Attr)
    requires AttrOk(a) && OccursAt(doc, i, AttrText(a))
    ensures var w := i + |a.space|; var p := w + |a.name|; var e := p + |a.preEq|; var j := e + 1 + |a.postEq|;
            && OccursAt(doc, w, a.name) && OccursAt(doc, j, [a.quote] + a.value + [a.quote])
            && (forall k :: i <= k < w ==> IsSpace(doc[k])) && (forall k :: p <= k < e ==> IsSpace(doc[k]))
            && (forall k :: e + 1 <= k < j ==> IsSpace(doc[k]))
            && doc[e] == '=' && j + 1 + |a.value| < |doc|
  {
    hide OccursAt, NameOk, Blank, ValueOk, AttrText, IsSpace, IsQuote;
    var quoted := [a.quote] + a.value + [a.quote];
    var r2 := a.preEq + ("=" + (a.postEq + quoted));
    AttrTextGroups(a);
    BlanksThen(doc, i, a.space, a.name + r2);
    OccursSplit(doc, i + |a.space|, a.name, r2);
    EqualsSign(doc, i + |a.space| + |a.name|, a.preEq, a.postEq, quoted);
  }

  lemma EqualsSign(doc: string, p: nat, preEq: string, postEq: string, quoted: string)
    requires Blank(preEq) && Blank(postEq) && quoted != "" && OccursAt(doc, p, preEq + ("=" + (postEq + quoted)))
    ensures var e := p + |preEq|; var j := e + 1 + |postEq|;
            && (forall k :: p <= k < e ==> IsSpace(doc[k])) && (forall k :: e + 1 <= k < j ==> IsSpace(doc[k]))
            && OccursAt(doc, j, quoted) && j + |quoted| <= |doc| && doc[e] == '='
  {
    hide OccursAt, Blank, IsSpace;
    var e := p + |preEq|;
    BlanksThen(doc, p, preEq, "=" + (postEq + quoted));
    OccursSplit(doc, e, "=", postEq + quoted);
    OccursChar(doc, e, "=", 0);
    BlanksThen(doc, e + 1, postEq, quoted);
    OccursChar(doc, e + 1 + |postEq|, quoted, |quoted| - 1);
  }

  lemma AttrTextGroups(a: Attr)
    ensures AttrText(a) == a.space + (a.name + (a.preEq + ("=" + (a.postEq + ([a.quote] + a.value + [a.quote])))))
  {
  }

  // The three tokens of one attribute.
  lemma AttrTokens(doc: string, i: nat, a: Attr)
    requires AttrOk(a) && OccursAt(doc, i, AttrText(a))
    ensures var w := i + |a.space|; var e := w + |a.name| + |a.preEq|; var v := e + 1 + |a.postEq| + 1;
            && e < |doc| && doc[e] == '=' && v + |a.value| < |doc|
            && FindToken(doc, i) == Token(true, w, w + |a.name| - 1, w + |a.name|, false)
            && doc[w..w + |a.name|] == a.name && NameChar(doc[w])
            && FindToken(doc, w + |a.name|) == Token(true, e, e, e + 1, false)
            && FindToken(doc, e + 1) == Token(true, v, v + |a.value| - 1, v + |a.value| + 1, true)
            && doc[v..v + |a.value|] == a.value
  {
    hide FindToken, OccursAt, NameOk, Blank, ValueOk, AttrText;
    AttrParts(doc, i, a);
    var w := i + |a.space|;
    var p := w + |a.name|;
    var e := p + |a.preEq|;
    var j := e + 1 + |a.postEq|;
    assert IsDelim(doc[p]);
    SpacedWordToken(doc, i, w, a.name);
    CharToken(doc, p, e);
    QuoteToken(doc, e + 1, j, a.value, a.quote);
    QuotedText(doc, j, a.value, a.quote);
  }

  lemma QuotedText(doc: string, j: nat, value: string, q: char)
    requires OccursAt(doc, j, [q] + value + [q])
    ensures j + 1 + |value| <= |doc| && doc[j + 1..j + 1 + |value|] == value
  {
    OccursSplit(doc, j, [q] + value, [q]);
    OccursSplit(doc, j, [q], value);
  }

  lemma SpacedWordToken(doc: string, i: nat, j: nat, word: string)
    requires i <= j && NameOk(word) && OccursAt(doc, j, word) && j + |word| < |doc| && IsDelim(doc[j + |word|])
    requires forall k :: i <= k < j ==> IsSpace(doc[k])
    ensures FindToken(doc, i) == Token(true, j, j + |word| - 1, j + |word|, false)
    ensures doc[j..j + |word|] == word && NameChar(doc[j])
  {
    WordToken(doc, j, word);
    SkipSpacesStops(doc, j, j);
    SkipSpacesStops(doc, i, j);
  }

  lemma MatchIsEquality(doc: string, t: Token, name: string, word: string)
    requires 0 <= t.left <= t.right + 1 <= |doc| && doc[t.left..t.right + 1] == word && NameOk(name) && NameOk(word)
    ensures Match(doc, t, name) <==> name == word
  {
    assert |word| < |name| ==> NameChar(name[|word|]);
    assert name == word ==> name[..|word|] == word;
  }

  // Searching the attributes of a start tag finds the value of the first attribute of that name.
  lemma {:induction false} FindInAttrs(doc: string, p: nat, attrs: seq<Attr>, rest: string, name: string, count: nat)
    requires AttrsOk(attrs) && NameOk(name) && 0 < count
    requires OccursAt(doc, p, AttrsText(attrs) + rest)
    requires EndsTag(doc, p + |AttrsText(attrs)|)
    ensures var t := FindAttribFrom(doc, p, name, count, 0); var i := IndexOf(attrs, name);
            if i == |attrs| then !t.ok
            else t.ok && t.left == p + ValueOffset(attrs, i) && t.right == t.left + |attrs[i].value| - 1
                 && doc[t.left..t.right + 1] == attrs[i].value
    decreases |attrs|
  {
    hide FindToken, OccursAt, NameOk, Blank, ValueOk, Match, AttrText, FindAttribFrom, EndsTag, AttrOk;
    if attrs == [] {
      NothingBehind(doc, p, name, count);
    } else {
      var a, more := attrs[0], AttrsText(attrs[1..]);
      assert AttrsText(attrs) + rest == AttrText(a) + (more + rest);
      OccursSplit(doc, p, AttrText(a), more + rest);
      var q := p + |AttrText(a)|;
      AttrTokens(doc, p, a);
      AttrLength(a);
      AttrStep(doc, p, a, name, count);
      if a.name != name {
        FindInAttrs(doc, q, attrs[1..], rest, name, count + 3);
      }
    }
  }

  // The tokens from i on begin with the end of a start tag.
  ghost predicate EndsTag(doc: string, i: nat) {
    i <= |doc| && var t := FindToken(doc, i); t.ok && !t.isString && (doc[t.left] == '>' || doc[t.left] == '/')
  }

  lemma NothingBehind(doc: string, p: nat, name: string, count: nat)
    requires EndsTag(doc, p)
    ensures !FindAttribFrom(doc, p, name, count, 0).ok
  {
    hide FindToken, Match;
  }

  lemma AttrLength(a: Attr)
    ensures |AttrText(a)| == |a.space| + |a.name| + |a.preEq| + 1 + |a.postEq| + 1 + |a.value| + 1
  {
  }

  lemma AttrStep(doc: string, p: nat, a: Attr, name: string, count: nat)
    requires AttrOk(a) && NameOk(name) && 0 < count && OccursAt(doc, p, AttrText(a)) && p + |AttrText(a)| <= |doc|
    ensures var t := FindAttribFrom(doc, p, name, count, 0);
            if a.name == name then
              var v := p + ValueOffset([a], 0);
              v + |a.value| < |doc| && t == Token(true, v, v + |a.value| - 1, v + |a.value| + 1, true)
                && doc[v..v + |a.value|] == a.value
            else t == FindAttribFrom(doc, p + |AttrText(a)|, name, count + 3, 0)
  {
    hide FindToken, OccursAt, NameOk, Blank, ValueOk, Match, AttrText;
    AttrTokens(doc, p, a);
    AttrLength(a);
    var w := p + |a.space|;
    var e := w + |a.name| + |a.preEq|;
    MatchIsEquality(doc, FindToken(doc, p), name, a.name);
    var k := if a.name == name then count else 0;
    assert FindAttribFrom(doc, p, name, count, 0) == FindAttribFrom(doc, w + |a.name|, name, count + 1, k);
    assert FindAttribFrom(doc, w + |a.name|, name, count + 1, k) == FindAttribFrom(doc, e + 1, name, count + 2, k);
  }
}

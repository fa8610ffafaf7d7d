/** The data and attributes of the elements of a tree: what the searches in the text return, and what an
    edit of one element does to them. */
module MarkupAccess {
  import opened Substring
  import opened MarkupText
  import opened MarkupTree
  import opened MarkupRender
  import opened MarkupIndex
  import opened MarkupEdit
  import opened MarkupData

  // ---- attributes ----

  function AttrOf(attrs: seq<Attr>, name: string): string {
    var i := IndexOf(attrs, name);
    if i == |attrs| then "" else Unescape(attrs[i].value, 0, |attrs[i].value| - 1)
  }

  lemma {:induction false} UnescapeShift(doc: string, off: nat, t: string, i: nat)
    requires OccursAt(doc, off, t)
    ensures Unescape(doc, off + i, off + |t| - 1) == Unescape(t, i, |t| - 1)
    decreases |t| - i
  {
    hide Unescape, CodeAt, Code, Symbol;
    UnescapeStep(doc, off + i, off + |t| - 1);
    UnescapeStep(t, i, |t| - 1);
    if i < |t| {
      OccursChar(doc, off, t, i);
      CodeShift(doc, off, t, i, 0);
      var m := CodeAt(t, i, |t| - 1, 0);
      if t[i] == '&' && m < 5 {
        UnescapeShift(doc, off, t, i + 1 + |Code(m)|);
      } else {
        UnescapeShift(doc, off, t, i + 1);
      }
    }
  }

  lemma {:induction false} CodeShift(doc: string, off: nat, t: string, i: nat, m: nat)
    requires OccursAt(doc, off, t) && i < |t| && m <= 5
    ensures CodeAt(doc, off + i, off + |t| - 1, m) == CodeAt(t, i, |t| - 1, m)
    decreases 5 - m
  {
    hide OccursAt, Code;
    if m < 5 {
      if i + |Code(m)| <= |t| - 1 {
        OccursInside(doc, off, t, i + 1, Code(m));
      }
      CodeShift(doc, off, t, i, m + 1);
    }
  }

  // The parts of a start tag in the document.
  lemma StartTagAt(doc: string, base: nat, n: Forest) returns (rest: string)
    requires n.Node? && WF(n) && OccursAt(doc, base, Core(n))
    ensures OccursAt(doc, base + 1, n.name) && OccursAt(doc, base + 1 + |n.name|, AttrsText(n.attrs) + rest)
    ensures base + 1 + |n.name| + |AttrsText(n.attrs)| <= |doc|
            && EndsTag(doc, base + 1 + |n.name| + |AttrsText(n.attrs)|)
    ensures base + 1 + |n.name| < |doc| && IsDelim(doc[base + 1 + |n.name|]) && rest != "" && IsDelim(rest[0])
  {
    hide FindToken, OccursAt, NameOk, Blank, AttrsText, Render, EndsTag, IsDelim;
    var e := if n.empty then "/>" else ">" + Render(n.kids) + EndTagText(n);
    rest := n.tail + e;
    assert Core(n) == "<" + (n.name + (AttrsText(n.attrs) + rest)) by { CoreGroups(n); }
    OccursSplit(doc, base, "<", n.name + (AttrsText(n.attrs) + rest));
    OccursSplit(doc, base + 1, n.name, AttrsText(n.attrs) + rest);
    OccursSplit(doc, base + 1 + |n.name|, AttrsText(n.attrs), rest);
    TagEnds(doc, base + 1 + |n.name| + |AttrsText(n.attrs)|, n.tail, e);
    NameThenDelim(doc, base + 1, n, rest);
  }

  // The search of a start tag in the document finds what the tree says.
  lemma AttribFound(doc: string, base: nat, n: Forest, name: string)
    requires n.Node? && WF(n) && NameOk(name) && OccursAt(doc, base, Core(n))
    ensures base + 1 <= |doc|
    ensures var t := FindAttribFrom(doc, base + 1, name, 0, 0); var i := IndexOf(n.attrs, name);
            if i == |n.attrs| then !t.ok && AttrOf(n.attrs, name) == ""
            else t.ok && t.left == base + 1 + |n.name| + ValueOffset(n.attrs, i)
                 && t.right == t.left + |n.attrs[i].value| - 1
                 && Unescape(doc, t.left, t.right) == AttrOf(n.attrs, name)
  {
    hide FindToken, OccursAt, NameOk, Blank, Unescape, AttrsText, FindAttribFrom, Render, EndsTag;
    var rest := StartTagAt(doc, base, n);
    var p := base + 1 + |n.name|;
    FirstTokenSkipped(doc, base + 1, n.name, name);
    FindInAttrs(doc, p, n.attrs, rest, name, 1);
    ValueRead(doc, p, n, name);
  }

  lemma ValueRead(doc: string, p: nat, n: Forest, name: string)
    requires n.Node? && p <= |doc|
    requires var t := FindAttribFrom(doc, p, name, 1, 0); var i := IndexOf(n.attrs, name);
             i < |n.attrs| ==>
               t.ok && t.right == t.left + |n.attrs[i].value| - 1 && doc[t.left..t.right + 1] == n.attrs[i].value
    ensures var t := FindAttribFrom(doc, p, name, 1, 0); var i := IndexOf(n.attrs, name);
            i < |n.attrs| ==> Unescape(doc, t.left, t.right) == AttrOf(n.attrs, name)
  {
    hide Unescape, FindAttribFrom;
    var i := IndexOf(n.attrs, name);
    if i < |n.attrs| {
      var t := FindAttribFrom(doc, p, name, 1, 0);
      UnescapeShift(doc, t.left, n.attrs[i].value, 0);
    }
  }

  lemma CoreGroups(n: Forest)
    requires n.Node?
    ensures var e := if n.empty then "/>" else ">" + Render(n.kids) + EndTagText(n);
            Core(n) == "<" + (n.name + (AttrsText(n.attrs) + (n.tail + e)))
  {
    hide Render, EndTagText, AttrsText;
    var e := if n.empty then "/>" else ">" + Render(n.kids) + EndTagText(n);
    assert Core(n) == "<" + TagBody(n) + e by {
      if !n.empty {
        assert "<" + TagBody(n) + ">" + Render(n.kids) + EndTagText(n)
                 == "<" + TagBody(n) + (">" + Render(n.kids) + EndTagText(n));
      }
    }
    var t := AttrsText(n.attrs);
    assert "<" + (n.name + t + n.tail) + e == "<" + (n.name + (t + (n.tail + e)));
  }

  lemma TagEnds(doc: string, i: nat, tail: string, e: string)
    requires Blank(tail) && OccursAt(doc, i, tail + e) && |e| > 0 && (e[0] == '>' || e[0] == '/')
    ensures EndsTag(doc, i) && IsDelim((tail + e)[0])
  {
    hide OccursAt, FindToken;
    BlanksThen(doc, i, tail, e);
    OccursChar(doc, i + |tail|, e, 0);
    OccursChar(doc, i, tail + e, 0);
    CharToken(doc, i, i + |tail|);
  }

  lemma NameThenDelim(doc: string, i: nat, n: Forest, rest: string)
    requires n.Node? && AttrsOk(n.attrs) && rest != "" && IsDelim(rest[0])
    requires OccursAt(doc, i + |n.name|, AttrsText(n.attrs) + rest)
    ensures i + |n.name| < |doc| && IsDelim(doc[i + |n.name|])
  {
    hide OccursAt, IsDelim, IsQuote;
    AttrsTextShape(n.attrs);
    var s := AttrsText(n.attrs) + rest;
    OccursChar(doc, i + |n.name|, s, 0);
    if AttrsText(n.attrs) != "" {
      SpaceIsDelim(s[0]);
    }
  }

  lemma SpaceIsDelim(c: char)
    requires IsSpace(c)
    ensures IsDelim(c)
  {
  }

  lemma FirstTokenSkipped(doc: string, i: nat, word: string, name: string)
    requires NameOk(word) && OccursAt(doc, i, word) && i + |word| < |doc| && IsDelim(doc[i + |word|])
    ensures FindAttribFrom(doc, i, name, 0, 0) == FindAttribFrom(doc, i + |word|, name, 1, 0)
  {
    hide FindToken, OccursAt;
    WordToken(doc, i, word);
  }

  // ---- x_SetAttrib ----

  // The element with attribute `name` set to the escaped value v: replaced where it is, or added at the
  // end of the start tag.
  function WithAttr(n: Forest, name: string, v: string): Forest
    requires n.Node?
  {
    var i := IndexOf(n.attrs, name);
    if i < |n.attrs| then n.(attrs := n.attrs[i := n.attrs[i].(value := v)])
    else n.(attrs := n.attrs + [Attr(n.tail + " ", name, "", "", '\"', v)], tail := "")
  }

  // Where the edit happens in the element's text, how much it replaces, and by what.
  function AttrEditAt(n: Forest, name: string): nat
    requires n.Node?
  {
    var i := IndexOf(n.attrs, name);
    if i < |n.attrs| then 1 + |n.name| + ValueOffset(n.attrs, i) else 1 + |TagBody(n)|
  }

  function AttrEditLength(n: Forest, name: string): nat
    requires n.Node?
  {
    var i := IndexOf(n.attrs, name);
    if i < |n.attrs| then |n.attrs[i].value| else 0
  }

  function AttrEditText(n: Forest, name: string, v: string): string
    requires n.Node?
  {
    if IndexOf(n.attrs, name) < |n.attrs| then v else " " + name + "=\"" + v + "\""
  }

  lemma {:induction false} AttrsAppend(s: seq<Attr>, t: seq<Attr>)
    ensures AttrsText(s + t) == AttrsText(s) + AttrsText(t)
    decreases |s|
  {
    hide AttrText;
    if s == [] {
      assert s + t == t;
    } else {
      assert (s + t)[1..] == s[1..] + t;
      AttrsAppend(s[1..], t);
      assert AttrText(s[0]) + (AttrsText(s[1..]) + AttrsText(t)) == AttrText(s[0]) + AttrsText(s[1..]) + AttrsText(t);
    }
  }

  // The text of the attributes around the value of number i.
  lemma {:induction false} AttrsAround(s: seq<Attr>, i: nat, v: string) returns (x: string, z: string)
    requires i < |s|
    ensures |x| == ValueOffset(s, i) && AttrsText(s) == x + s[i].value + z
    ensures AttrsText(s[i := s[i].(value := v)]) == x + v + z
    decreases i
  {
    hide AttrText;
    var a, more := s[0], AttrsText(s[1..]);
    if i == 0 {
      x := a.space + a.name + a.preEq + "=" + a.postEq + [a.quote];
      z := [a.quote] + more;
      var b := a.(value := v);
      var t := s[0 := b];
      assert t[1..] == s[1..];
      AttrTextAround(a, v, more);
      assert AttrsText(s) == AttrText(a) + more && AttrsText(t) == AttrText(b) + more;
    } else {
      var y;
      y, z := AttrsAround(s[1..], i - 1, v);
      x := AttrText(a) + y;
      var t := s[i := s[i].(value := v)];
      assert t[1..] == s[1..][i - 1 := s[1..][i - 1].(value := v)];
      assert AttrsText(s) == AttrText(a) + more && AttrsText(t) == AttrText(a) + AttrsText(t[1..]);
    }
  }

  lemma AttrTextAround(a: Attr, v: string, more: string)
    ensures var x := a.space + a.name + a.preEq + "=" + a.postEq + [a.quote];
            && AttrText(a) + more == x + a.value + ([a.quote] + more)
            && AttrText(a.(value := v)) + more == x + v + ([a.quote] + more)
  {
  }

  // The edited element's text is the spliced text.
  lemma AttrEditSplices(n: Forest, name: string, v: string) returns (u: string, w: string, was: string)
    requires n.Node?
    ensures |u| == AttrEditAt(n, name) && |was| == AttrEditLength(n, name)
    ensures Core(n) == u + was + w && Core(WithAttr(n, name, v)) == u + AttrEditText(n, name, v) + w
  {
    hide Render, EndTagText, AttrsText, Core, AttrEditText, TagBody;
    var i, m := IndexOf(n.attrs, name), WithAttr(n, name, v);
    SameEndTag(n, m);
    CoreGroups(n);
    CoreGroups(m);
    var e := if n.empty then "/>" else ">" + Render(n.kids) + EndTagText(n);
    if i < |n.attrs| {
      var x, z := AttrsAround(n.attrs, i, v);
      was := n.attrs[i].value;
      u, w := "<" + n.name + x, z + (n.tail + e);
      RegroupValue(n.name, x, was, z, n.tail + e);
      RegroupValue(n.name, x, v, z, n.tail + e);
      ReplacedText(n, name, v);
    } else {
      was := "";
      u, w := "<" + TagBody(n), e;
      AddedText(n, name, v, e);
    }
  }

  lemma RegroupValue(name: string, x: string, v: string, z: string, r: string)
    ensures "<" + (name + (x + v + z + r)) == "<" + name + x + v + (z + r)
  {
  }

  lemma ReplacedText(n: Forest, name: string, v: string)
    requires n.Node? && IndexOf(n.attrs, name) < |n.attrs|
    ensures AttrEditText(n, name, v) == v
  {
  }

  lemma AddedText(n: Forest, name: string, v: string, e: string)
    requires n.Node? && IndexOf(n.attrs, name) == |n.attrs|
    ensures var m := WithAttr(n, name, v); var u := "<" + TagBody(n);
            && "<" + (n.name + (AttrsText(n.attrs) + (n.tail + e))) == u + "" + e
            && "<" + (m.name + (AttrsText(m.attrs) + (m.tail + e))) == u + AttrEditText(n, name, v) + e
  {
    hide AttrsText;
    var a := Attr(n.tail + " ", name, "", "", '\"', v);
    AttrsAppend(n.attrs, [a]);
    NewAttrText(a, n.tail, name, v);
    RegroupAdded(n.name, AttrsText(n.attrs), n.tail, AttrEditText(n, name, v), e);
    RegroupAdded(n.name, AttrsText(n.attrs), n.tail, "", e);
  }

  lemma RegroupAdded(name: string, t: string, tail: string, s: string, e: string)
    ensures "<" + (name + (t + (tail + s) + ("" + e))) == "<" + (name + t + tail) + s + e
    ensures "<" + (name + (t + (tail + e))) == "<" + (name + t + tail) + "" + e
  {
  }

  lemma SameEndTag(n: Forest, m: Forest)
    requires n.Node? && m.Node? && n.name == m.name && n.close == m.close
    ensures EndTagText(n) == EndTagText(m)
  {
  }

  lemma NewAttrText(a: Attr, tail: string, name: string, v: string)
    requires a == Attr(tail + " ", name, "", "", '\"', v)
    ensures AttrsText([a]) == tail + (" " + name + "=\"" + v + "\"")
  {
    assert AttrsText([a]) == AttrText(a) + AttrsText([]);
    assert AttrText(a) == tail + " " + name + "" + "=" + "" + "\"" + v + "\"";
  }

  // Setting an attribute is read back exactly, and leaves the others alone.
  lemma AttrReadBack(n: Forest, name: string, value: string)
    requires n.Node? && WF(n) && NameOk(name) && CString(value)
    ensures var m := WithAttr(n, name, Escape(value, true));
            && Replaces(n, m) && AttrOf(m.attrs, name) == value
            && forall other :: other != name ==> AttrOf(m.attrs, other) == AttrOf(n.attrs, other)
  {
    hide Escape, Unescape, NameOk, PlainText, ChunkOk, IndexOf;
    var v := Escape(value, true);
    var m, i := WithAttr(n, name, v), IndexOf(n.attrs, name);
    EscapedIsPlain(value, true);
    assert OccursAt(v, 0, v);
    UnescapeInverts(v, 0, value, true);
    var j := if i < |n.attrs| then i else |n.attrs|;
    IndexIs(m.attrs, name, j);
    assert AttrsOk(m.attrs) && Blank(m.tail);
    forall other | other != name ensures AttrOf(m.attrs, other) == AttrOf(n.attrs, other) {
      var k := IndexOf(n.attrs, other);
      if k < |n.attrs| {
        IndexIs(m.attrs, other, k);
      } else {
        IndexNone(m.attrs, other);
      }
    }
  }

  lemma IndexIs(attrs: seq<Attr>, name: string, i: nat)
    requires i < |attrs| && attrs[i].name == name && forall k :: 0 <= k < i ==> attrs[k].name != name
    ensures IndexOf(attrs, name) == i
  {
  }

  lemma IndexNone(attrs: seq<Attr>, name: string)
    requires forall k :: 0 <= k < |attrs| ==> attrs[k].name != name
    ensures IndexOf(attrs, name) == |attrs|
  {
  }

  // ---- x_GetData ----

  const CDATA := "![CDATA["
  const CDATA_END := "]]>"

  // The offset at which a character data section that opens the contents ends, or -1.
  function CDataEnd(doc: string, lo: nat, hi: nat): (e: int)
    requires lo <= hi < |doc|
    ensures e == -1 || FindToken(doc, lo).left + 9 <= e < hi
  {
    var t := FindToken(doc, lo);
    if t.ok && t.left + 11 < hi && doc[t.left] == '<' && OccursAt(doc, t.left + 1, CDATA) then
      var e := FindStr(doc, t.next, CDATA_END);
      NoEndInOpening(doc, t.left, e);
      if e < hi then e else -1
    else -1
  }

  lemma NoEndInOpening(doc: string, left: nat, e: nat)
    requires left < |doc| && doc[left] == '<' && OccursAt(doc, left + 1, CDATA) && left <= e
    requires e < |doc| ==> OccursAt(doc, e, CDATA_END)
    ensures left + 9 <= e
  {
    if e < left + 9 {
      OccursChar(doc, e, CDATA_END, 0);
      if left < e {
        OccursChar(doc, left + 1, CDATA, e - left - 1);
      }
    }
  }

  // The data between the tags of an element, from lo up to the '<' of its end tag at hi.
  function DataAt(doc: string, lo: nat, hi: nat): string
    requires lo <= hi < |doc|
  {
    var e := CDataEnd(doc, lo, hi);
    if e == -1 then Unescape(doc, lo, hi - 1) else doc[FindToken(doc, lo).left + 9..e]
  }

  method ReadData(doc: string, lo: nat, hi: nat) returns (r: string)
    requires lo <= hi < |doc|
    ensures r == DataAt(doc, lo, hi)
  {
    hide OccursAt, FindToken, FindStr, Unescape;
    var t := ScanToken(doc, lo);
    if t.ok && t.left + 11 < hi && doc[t.left] == '<' && OccursAt(doc, t.left + 1, CDATA) {
      var e := FindStr(doc, t.next, CDATA_END);
      if e < hi {
        NoEndInOpening(doc, t.left, e);
        return doc[t.left + 9..e];
      }
    }
    r := TextFromDoc(doc, lo, hi - 1);
  }

  function Data(n: Forest): string
    requires n.Node?
  {
    if n.empty || Ids(n.kids) != {} then "" else DataAt(Render(n.kids) + "<", 0, |Render(n.kids)|)
  }

  // Reading the data depends on the contents alone, whatever follows them in the document.
  lemma DataLocal(doc: string, lo: nat, content: string)
    requires OccursAt(doc, lo, content + "<")
    ensures lo + |content| < |doc|
    ensures DataAt(doc, lo, lo + |content|) == DataAt(content + "<", 0, |content|)
  {
    hide OccursAt, Unescape, FindToken, FindStr;
    var s, hi := content + "<", |content|;
    OccursChar(doc, lo, s, hi);
    OccursSplit(doc, lo, content, "<");
    assert OccursAt(s, 0, content) by { PrefixOccurs(content, "<"); }
    UnescapeShift(doc, lo, content, 0);
    UnescapeShift(s, 0, content, 0);
    CDataLocal(doc, lo, content);
    var e := CDataEnd(s, 0, hi);
    if e != -1 {
      SameSlice(doc, lo, s, FindToken(s, 0).left + 9, e);
    }
  }

  lemma PrefixOccurs(s: string, t: string)
    ensures OccursAt(s + t, 0, s)
  {
  }

  lemma SameSlice(doc: string, off: nat, s: string, i: nat, j: nat)
    requires OccursAt(doc, off, s) && i <= j <= |s|
    ensures off + j <= |doc| && doc[off + i..off + j] == s[i..j]
  {
    forall k | i <= k < j ensures s[k] == doc[off + k] {
      OccursChar(doc, off, s, k);
    }
    assert doc[off + i..off + j] == s[i..j];
  }

  lemma CDataLocal(doc: string, lo: nat, content: string)
    requires OccursAt(doc, lo, content + "<") && lo + |content| < |doc|
    ensures var e := CDataEnd(content + "<", 0, |content|); var d := CDataEnd(doc, lo, lo + |content|);
            if e == -1 then d == -1
            else d == lo + e && FindToken(doc, lo).left == lo + FindToken(content + "<", 0).left
  {
    hide OccursAt, FindToken, FindStr;
    var s, hi := content + "<", |content|;
    TokenLocal(doc, lo, content);
    var t, u := FindToken(s, 0), FindToken(doc, lo);
    if t.ok && t.left + 11 < hi {
      OccursChar(doc, lo, s, t.left);
      OccursInside(doc, lo, s, t.left + 1, CDATA);
      if t.next <= hi {
        EndLocal(doc, lo, content, t.next);
      } else {
        assert FindStr(s, t.next, CDATA_END) >= hi;
      }
    }
  }

  // The first token of the contents: the same left end; the same right end if that lies inside.
  lemma TokenLocal(doc: string, lo: nat, content: string)
    requires OccursAt(doc, lo, content + "<")
    ensures var t := FindToken(content + "<", 0); var u := FindToken(doc, lo);
            && t.ok && u.ok && u.left == lo + t.left
            && (t.left + 11 < |content| && content[t.left] == '<' ==>
                  if t.next <= |content| then u.next == lo + t.next else lo + |content| < u.next)
  {
    hide OccursAt, FindChar, SkipSpaces, SkipWord;
    var s, hi := content + "<", |content|;
    assert s[hi] == '<';
    SkipSpacesBefore(s, 0, hi);
    SkipSpacesShift(doc, lo, s, 0);
    var p := SkipSpaces(s, 0);
    OccursChar(doc, lo, s, p);
    if IsQuote(s[p]) {
      if FindChar(s, p + 1, s[p]) < |s| {
        FindCharShift(doc, lo, s, p + 1, s[p]);
        OccursChar(doc, lo, s, FindChar(s, p + 1, s[p]));
        assert FindChar(doc, lo + p + 1, doc[lo + p]) == lo + FindChar(s, p + 1, s[p]);
      } else {
        QuoteBeyond(doc, lo, s, p + 1, s[p]);
      }
    } else if s[p] == '<' {
      SkipWordStops(s, p, p);
      SkipWordStops(doc, lo + p, lo + p);
    }
  }

  lemma {:induction false} SkipSpacesBefore(doc: string, i: nat, k: nat)
    requires i <= k < |doc| && !IsSpace(doc[k])
    ensures SkipSpaces(doc, i) <= k
    decreases k - i
  {
    if i < k {
      SkipSpacesBefore(doc, i + 1, k);
    }
  }

  lemma {:induction false} QuoteBeyond(doc: string, off: nat, s: string, i: nat, c: char)
    requires OccursAt(doc, off, s) && i <= |s| && FindChar(s, i, c) == |s|
    ensures off + |s| <= FindChar(doc, off + i, c)
    decreases |s| - i
  {
    if i < |s| {
      OccursChar(doc, off, s, i);
      QuoteBeyond(doc, off, s, i + 1, c);
    }
  }

  lemma {:induction false} EndLocal(doc: string, lo: nat, content: string, i: nat)
    requires OccursAt(doc, lo, content + "<") && i <= |content| && lo + |content| < |doc|
    ensures var e := FindStr(content + "<", i, CDATA_END); var d := FindStr(doc, lo + i, CDATA_END);
            if e < |content| then d == lo + e else lo + |content| <= d
    decreases |content| - i
  {
    hide OccursAt;
    var s, hi := content + "<", |content|;
    if i < hi {
      if i + 3 <= |s| {
        OccursInside(doc, lo, s, i, CDATA_END);
      } else {
        OccursChar(doc, lo, s, hi);
        NotAcross(doc, lo + i);
        NotAcross(s, i);
      }
      EndLocal(doc, lo, content, i + 1);
    }
  }

  lemma NotAcross(doc: string, i: nat)
    requires i + 1 < |doc| && doc[i + 1] == '<'
    ensures !OccursAt(doc, i, CDATA_END)
  {
    if OccursAt(doc, i, CDATA_END) {
      OccursChar(doc, i, CDATA_END, 1);
    }
  }

  // ---- x_SetData ----

  // The new contents: a character data section when asked for and possible, else escaped text.
  function DataText(s: string, cdata: bool): string {
    if cdata && FindStr(s, 0, CDATA_END) == |s| then "<" + CDATA + s + CDATA_END else Escape(s, false)
  }

  lemma DataTextIs(s: string, cdata: bool)
    ensures DataText(s, cdata) == if cdata && FindStr(s, 0, CDATA_END) == |s| then "<" + CDATA + s + CDATA_END
                                  else Escape(s, false)
  {
  }

  function WithData(n: Forest, text: string): Forest
    requires n.Node?
  {
    Node(n.id, n.name, n.attrs, n.tail, false, Chunk(text, Nil), n.close, n.next)
  }

  lemma SectionEnd(s: string, rest: string, i: nat)
    requires FindStr(s, 0, CDATA_END) == |s| && i <= 9
    ensures FindStr("<" + CDATA + s + CDATA_END + rest, i, CDATA_END) == 9 + |s|
  {
    hide OccursAt, FindStr;
    var doc := "<" + CDATA + s + CDATA_END + rest;
    var e := 9 + |s|;
    OccursMiddle("<" + CDATA + s, CDATA_END, rest);
    forall k | i <= k < e ensures !OccursAt(doc, k, CDATA_END) {
      NoEarlierEnd(s, rest, k);
    }
    FindStrStops(doc, i, e, CDATA_END);
  }

  // Neither the opening of the section, nor s, nor s running into the end mark holds an end mark.
  lemma NoEarlierEnd(s: string, rest: string, k: nat)
    requires FindStr(s, 0, CDATA_END) == |s| && k < 9 + |s|
    ensures !OccursAt("<" + CDATA + s + CDATA_END + rest, k, CDATA_END)
  {
    hide OccursAt, FindStr;
    var open := "<" + CDATA;
    var doc := open + s + CDATA_END + rest;
    if k < 9 {
      assert doc[k] == open[k];
      OpeningChar(k);
      SectionCharDiffers(doc, k);
    } else if 9 + |s| <= k + 2 {
      OccursMiddle(open + s, CDATA_END, rest);
      OccursChar(doc, 9 + |s|, CDATA_END, k + 2 - 9 - |s|);
      EndChar(k + 2 - 9 - |s|);
      SectionCharDiffers(doc, k);
    } else {
      NoEndInside(s, k - 9);
      Joined(open, s, CDATA_END, rest);
      OccursMiddle(open, s, CDATA_END + rest);
      OccursInside(doc, 9, s, k - 9, CDATA_END);
    }
  }

  lemma Joined(a: string, b: string, c: string, d: string)
    ensures a + b + c + d == a + b + (c + d)
  {
  }

  lemma OpeningChar(k: nat)
    requires k < 9
    ensures ("<" + CDATA)[k] != ']'
  {
  }

  lemma EndChar(k: nat)
    requires k < 2
    ensures CDATA_END[k] != '>'
  {
  }

  lemma NoEndInside(s: string, k: nat)
    requires FindStr(s, 0, CDATA_END) == |s| && k < |s|
    ensures !OccursAt(s, k, CDATA_END)
  {
    if OccursAt(s, k, CDATA_END) {
      FindStrNone(s, 0, CDATA_END, k);
    }
  }

  lemma SectionCharDiffers(doc: string, k: nat)
    requires k + 3 <= |doc| && (doc[k] != ']' || doc[k + 2] != '>')
    ensures !OccursAt(doc, k, CDATA_END)
  {
    if OccursAt(doc, k, CDATA_END) {
      OccursChar(doc, k, CDATA_END, 0);
      OccursChar(doc, k, CDATA_END, 2);
    }
  }

  lemma {:induction false} FindStrStops(doc: string, i: nat, j: nat, pat: string)
    requires i <= j < |doc| && 0 < |pat| && OccursAt(doc, j, pat)
    requires forall k :: i <= k < j ==> !OccursAt(doc, k, pat)
    ensures FindStr(doc, i, pat) == j
    decreases j - i
  {
    if i < j {
      FindStrStops(doc, i + 1, j, pat);
    }
  }

  lemma {:induction false} FindStrNone(doc: string, i: nat, pat: string, k: nat)
    requires i <= k < |doc| && 0 < |pat| && OccursAt(doc, k, pat)
    ensures FindStr(doc, i, pat) <= k
    decreases k - i
  {
    if i < k {
      FindStrNone(doc, i + 1, pat, k);
    }
  }

  // What is written as data is read back, as text and as a section.
  lemma DataReadBack(n: Forest, s: string, cdata: bool)
    requires n.Node? && WF(n) && CString(s) && Ids(n.kids) == {}
    ensures var m := WithData(n, DataText(s, cdata)); Replaces(n, m) && Data(m) == s
  {
    hide Escape, Unescape, FindStr, ParseNode, FindToken;
    var text := DataText(s, cdata);
    var m := WithData(n, text);
    assert Render(m.kids) == text + Render(Nil) == text && Ids(m.kids) == Ids(Nil) == {};
    DataTextOk(s, cdata);
    DataTextRead(s, cdata);
    assert Data(m) == DataAt(text + "<", 0, |text|);
    assert WF(m.kids) && WF(m.next);
  }

  lemma DataTextOk(s: string, cdata: bool)
    requires CString(s)
    ensures ChunkOk(DataText(s, cdata))
  {
    hide Escape, FindStr;
    EscapedIsPlain(s, false);
    if cdata && FindStr(s, 0, CDATA_END) == |s| {
      var text := DataText(s, cdata);
      SectionEnd(s, "", 0);
      assert text + "" == text;
      assert text[0] == '<' && text[1] == '!' && text[2] == '[';
      assert CString(text);
    }
  }

  lemma DataTextRead(s: string, cdata: bool)
    requires CString(s)
    ensures var text := DataText(s, cdata); DataAt(text + "<", 0, |text|) == s
  {
    hide Escape, Unescape, FindStr, FindToken;
    var text := DataText(s, cdata);
    var doc := text + "<";
    if cdata && FindStr(s, 0, CDATA_END) == |s| {
      SectionEnd(s, "<", 1);
      assert doc == "<" + CDATA + s + CDATA_END + "<";
      assert doc[0] == '<';
      CharToken(doc, 0, 0);
      assert doc[1..9] == CDATA;
      assert doc[9..9 + |s|] == s;
    } else {
      PrefixOccurs(text, "<");
      UnescapeInverts(doc, 0, s, false);
      EscapedIsPlain(s, false);
      NoSection(text);
    }
  }

  lemma NoSection(text: string)
    requires PlainText(text)
    ensures CDataEnd(text + "<", 0, |text|) == -1
  {
    hide FindToken;
    var t := FindToken(text + "<", 0);
    if t.left < |text| {
      assert (text + "<")[t.left] == text[t.left];
    }
  }

  // ---- one element among the others ----

  datatype View = Absent | View(name: string, attrs: seq<Attr>, data: string)

  function SeenData(v: View, s: string): View {
    if v.Absent? then v else v.(data := s)
  }

  // What can be read of element id.
  function ViewOf(f: Forest, id: nat): (v: View)
    ensures v.View? <==> id in Ids(f)
  {
    match f
    case Nil => Absent
    case Chunk(_, next) => ViewOf(next, id)
    case Node(i, name, attrs, _, _, kids, _, next) =>
      if i == id then View(name, attrs, Data(f))
      else if id in Ids(kids) then ViewOf(kids, id)
      else ViewOf(next, id)
  }

  // Whatever is done to the list at c that keeps its elements, and among them element id, only id is changed.
  lemma {:induction false} OthersUnchanged(f: Forest, g: Forest, c: Ctx, id: nat)
    requires CtxOk(c) && Ids(f) == Ids(g) && id in Ids(f)
    requires forall j :: j != id ==> ViewOf(f, j) == ViewOf(g, j)
    ensures forall j :: j != id ==> ViewOf(Plug(f, c), j) == ViewOf(Plug(g, c), j)
    decreases c
  {
    hide Data;
    match c
    case Top =>
    case InKids(n, up) =>
      assert Data(SetKids(n, f)) == Data(SetKids(n, g)) by { ParentsHaveNoData(n, f, g); }
      OthersUnchanged(SetKids(n, f), SetKids(n, g), up, id);
    case InNext(n, up) =>
      assert n.Node? ==> Data(SetNext(n, f)) == Data(SetNext(n, g)) by { DataOfContents(n, f, g); }
      OthersUnchanged(SetNext(n, f), SetNext(n, g), up, id);
  }

  lemma ParentsHaveNoData(n: Forest, f: Forest, g: Forest)
    requires n.Node? && Ids(f) != {} && Ids(g) != {}
    ensures Data(SetKids(n, f)) == Data(SetKids(n, g)) == ""
  {
  }

  lemma DataOfContents(n: Forest, f: Forest, g: Forest)
    requires !n.Nil?
    ensures n.Node? ==> Data(SetNext(n, f)) == Data(SetNext(n, g))
  {
  }

  // The element at c is the one seen.
  lemma {:induction false} ViewAt(n: Forest, c: Ctx)
    requires n.Node? && CtxOk(c) && Apart(n, c)
    ensures ViewOf(Plug(n, c), n.id) == View(n.name, n.attrs, Data(n))
  {
    ViewThrough(n, c, n.id);
  }

  lemma {:induction false} ViewThrough(f: Forest, c: Ctx, id: nat)
    requires CtxOk(c) && id in Ids(f) && id !in CtxIds(c)
    ensures ViewOf(Plug(f, c), id) == ViewOf(f, id)
    decreases c
  {
    hide Data;
    match c
    case Top =>
    case InKids(n, up) => ViewThrough(SetKids(n, f), up, id);
    case InNext(n, up) => ViewThrough(SetNext(n, f), up, id);
  }

  // Replacing one element leaves what can be read of all the others.
  lemma ReplacedView(n: Forest, m: Forest, c: Ctx)
    requires Replaces(n, m) && CtxOk(c) && Apart(n, c)
    ensures forall j :: j != n.id ==> ViewOf(Plug(m, c), j) == ViewOf(Plug(n, c), j)
    ensures ViewOf(Plug(m, c), n.id) == View(m.name, m.attrs, Data(m))
  {
    hide Data;
    NodeApart(n, m, c);
    forall j | j != n.id ensures ViewOf(n, j) == ViewOf(m, j) {
    }
    OthersUnchanged(n, m, c, n.id);
    ViewAt(m, c);
  }

  // Element id and its descendants.
  function Below(f: Forest, id: nat): set<nat> {
    match f
    case Nil => {}
    case Chunk(_, next) => Below(next, id)
    case Node(i, _, _, _, _, kids, _, next) =>
      if i == id then {i} + Ids(kids) else if id in Ids(kids) then Below(kids, id) else Below(next, id)
  }

  lemma {:induction false} BelowThrough(f: Forest, c: Ctx, id: nat)
    requires CtxOk(c) && id in Ids(f) && id !in CtxIds(c)
    ensures Below(Plug(f, c), id) == Below(f, id)
    decreases c
  {
    match c
    case Top =>
    case InKids(n, up) => BelowThrough(SetKids(n, f), up, id);
    case InNext(n, up) => BelowThrough(SetNext(n, f), up, id);
  }

  // ---- the other elements when elements come or go ----

  // What can be read of element j stays when the list at c changes elsewhere; only the data of an element
  // can depend on the list, if it is its parent.
  lemma {:induction false} ElsewhereUnchanged(f: Forest, g: Forest, c: Ctx, j: nat)
    requires CtxOk(c) && (j in Ids(f) <==> j in Ids(g)) && ViewOf(f, j) == ViewOf(g, j)
    ensures (Ids(f) != {} && Ids(g) != {}) || j != ParentOf(c) ==> ViewOf(Plug(f, c), j) == ViewOf(Plug(g, c), j)
    ensures SeenData(ViewOf(Plug(f, c), j), "") == SeenData(ViewOf(Plug(g, c), j), "")
    decreases c
  {
    hide Data;
    match c
    case Top =>
    case InKids(n, up) =>
      if Ids(f) != {} && Ids(g) != {} {
        ParentsHaveNoData(n, f, g);
      }
      if j == n.id {
        TagThrough(SetKids(n, f), SetKids(n, g), up);
      } else {
        ElsewhereUnchanged(SetKids(n, f), SetKids(n, g), up, j);
      }
      if j == n.id && Data(SetKids(n, f)) == Data(SetKids(n, g)) {
        ElsewhereUnchanged(SetKids(n, f), SetKids(n, g), up, j);
      }
    case InNext(n, up) =>
      DataOfContents(n, f, g);
      ElsewhereUnchanged(SetNext(n, f), SetNext(n, g), up, j);
  }

  // The same element with other data.
  lemma {:induction false} TagThrough(n: Forest, m: Forest, c: Ctx)
    requires n.Node? && m.Node? && CtxOk(c) && n.id == m.id && n.name == m.name && n.attrs == m.attrs
    ensures SeenData(ViewOf(Plug(n, c), n.id), "") == SeenData(ViewOf(Plug(m, c), n.id), "")
  {
    TagsThrough(n, m, c, n.id);
  }

  lemma {:induction false} TagsThrough(f: Forest, g: Forest, c: Ctx, j: nat)
    requires CtxOk(c) && j in Ids(f) && j in Ids(g) && SeenData(ViewOf(f, j), "") == SeenData(ViewOf(g, j), "")
    ensures SeenData(ViewOf(Plug(f, c), j), "") == SeenData(ViewOf(Plug(g, c), j), "")
    decreases c
  {
    hide Data;
    match c
    case Top =>
    case InKids(n, up) => TagsThrough(SetKids(n, f), SetKids(n, g), up, j);
    case InNext(n, up) => TagsThrough(SetNext(n, f), SetNext(n, g), up, j);
  }

  lemma {:induction false} DropLeadViews(f: Forest, k: nat, j: nat)
    requires k <= LeadLen(f)
    ensures ViewOf(DropLead(f, k), j) == ViewOf(f, j) && Ids(DropLead(f, k)) == Ids(f)
    decreases f
  {
    if 0 < k && |f.text| <= k {
      DropLeadViews(f.next, k - |f.text|, j);
    }
  }

  lemma {:induction false} InsertAtViews(f: Forest, k: nat, n: Forest, j: nat)
    requires k <= LeadLen(f) && n.Node? && n.next == Nil && Ids(n.kids) == {} && j != n.id
    ensures ViewOf(InsertAt(f, k, n), j) == ViewOf(f, j) && Ids(InsertAt(f, k, n)) == Ids(f) + {n.id}
    decreases f
  {
    hide Data;
    if k == 0 || k < |f.text| {
      var r := if k == 0 then f else Chunk(f.text[k..], f.next);
      var e := Chunk("\r\n", r);
      var m := SetNext(n, e);
      assert ViewOf(r, j) == ViewOf(f, j) && Ids(r) == Ids(f);
      assert ViewOf(e, j) == ViewOf(r, j) && Ids(e) == Ids(r);
      assert ViewOf(m, j) == ViewOf(e, j) && Ids(m) == Ids(e) + {n.id};
    } else {
      InsertAtViews(f.next, k - |f.text|, n, j);
    }
  }
}

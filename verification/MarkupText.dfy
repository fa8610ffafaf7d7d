/** Scanning of the document text: the character and token searches that the parser and every edit of
    the XML editor rest on.  A document is a C string, so no NUL occurs in it and reading one position
    past the end yields NUL. */
module MarkupText {
  import opened Substring

  ghost predicate CString(s: string) {
    forall i :: 0 <= i < |s| ==> s[i] != '\0'
  }

  predicate IsSpace(c: char) { c == ' ' || c == '\t' || c == '\n' || c == '\r' }

  predicate IsQuote(c: char) { c == '\"' || c == '\'' }

  // The characters that end a word: white space and the special characters.
  predicate IsDelim(c: char) {
    IsSpace(c) || c == '<' || c == '>' || c == '=' || c == '\\' || c == '/' || c == '?' || c == '!'
  }

  // x_FindChar: the first position from i on that holds c, or the end of the document.
  function FindChar(doc: string, i: nat, c: char): (j: nat)
    requires i <= |doc|
    ensures i <= j <= |doc|
    ensures j < |doc| ==> doc[j] == c
    decreases |doc| - i
  {
    if i < |doc| && doc[i] != c then FindChar(doc, i + 1, c) else i
  }

  // strstr: the first position from i on where pat occurs, or the end of the document.
  function FindStr(doc: string, i: nat, pat: string): (j: nat)
    requires i <= |doc| && 0 < |pat|
    ensures i <= j <= |doc|
    ensures j < |doc| ==> OccursAt(doc, j, pat)
    decreases |doc| - i
  {
    if i < |doc| && !OccursAt(doc, i, pat) then FindStr(doc, i + 1, pat) else i
  }

  function SkipSpaces(doc: string, i: nat): (j: nat)
    requires i <= |doc|
    ensures i <= j <= |doc|
    ensures j < |doc| ==> !IsSpace(doc[j])
    decreases |doc| - i
  {
    if i < |doc| && IsSpace(doc[i]) then SkipSpaces(doc, i + 1) else i
  }

  function SkipWord(doc: string, i: nat): (j: nat)
    requires i <= |doc|
    ensures i <= j <= |doc|
    ensures j < |doc| ==> IsDelim(doc[j])
    decreases |doc| - i
  {
    if i < |doc| && !IsDelim(doc[i]) then SkipWord(doc, i + 1) else i
  }

  // The token occupies doc[left..right+1]; `ok` is false when the document ended first.
  datatype Token = Token(ok: bool, left: nat, right: int, next: nat, isString: bool)

  function FindToken(doc: string, i: nat): (t: Token)
    requires i <= |doc|
    ensures i <= t.left <= |doc| && t.left <= t.next <= |doc| && t.left - 1 <= t.right <= |doc|
    ensures t.ok ==> i < t.next && t.right < |doc|
    ensures t.ok && !t.isString ==> t.left <= t.right && t.next == t.right + 1
    ensures !t.ok ==> t.left == |doc|
  {
    var s := SkipSpaces(doc, i);
    if s == |doc| then Token(false, s, s, s, false)
    else if IsQuote(doc[s]) then
      var e := FindChar(doc, s + 1, doc[s]);
      Token(true, s + 1, e - 1, if e < |doc| then e + 1 else e, true)
    else
      var e := SkipWord(doc, s);
      var n := if e == s then s + 1 else e;
      Token(true, s, n - 1, n, false)
  }

  // x_GetToken of an ordinary token
  function TokenText(doc: string, t: Token): string
    requires 0 <= t.left <= t.right + 1 <= |doc|
  {
    doc[t.left..t.right + 1]
  }

  // x_ParseNode called at a '<': no node, an element (which it does not step over), or a
  // comment, section, instruction or declaration that ends just before `next`.
  datatype NodeKind = NoNode | ElementNode | Special(next: nat)

  function ParseNode(doc: string, i: nat): (k: NodeKind)
    requires i < |doc| && doc[i] == '<'
    ensures k.Special? ==> i < k.next <= |doc|
    ensures k.ElementNode? ==> i + 2 < |doc| && doc[i + 1] != '?' && doc[i + 1] != '!' && doc[i + 1] != '/'
  {
    if i + 2 >= |doc| then NoNode
    else if doc[i + 1] == '?' then SpecialTo(doc, i, "?>")
    else if doc[i + 1] == '!' then
      if doc[i + 2] == '[' then SpecialTo(doc, i, "]]>")
      else if doc[i + 2] == '-' then SpecialTo(doc, i, "-->")
      else DocType(doc, i, 0)
    else if doc[i + 1] == '/' then NoNode
    else ElementNode
  }

  function SpecialTo(doc: string, i: nat, end: string): (k: NodeKind)
    requires i < |doc| && 0 < |end|
    ensures !k.ElementNode?
    ensures k.Special? ==> i < k.next <= |doc|
  {
    var e := FindStr(doc, i, end);
    if e == |doc| then NoNode else Special(e + |end|)
  }

  // A document type declaration is tokenised: it ends at a '>' outside brackets.
  function DocType(doc: string, i: nat, brackets: int): (k: NodeKind)
    requires i <= |doc|
    ensures !k.ElementNode?
    ensures k.Special? ==> i < k.next <= |doc|
    decreases |doc| - i
  {
    var t := FindToken(doc, i);
    if !t.ok then NoNode
    else if t.isString then DocType(doc, t.next, brackets)
    else
      var c := doc[t.left];
      if c == '[' then DocType(doc, t.next, brackets + 1)
      else if c == ']' then DocType(doc, t.next, brackets - 1)
      else if brackets == 0 && c == '>' then Special(t.next)
      else DocType(doc, t.next, brackets)
  }

  // ---- the loops of the program ----

  method ScanChar(doc: string, i: nat, c: char) returns (found: bool, j: nat)
    requires i <= |doc|
    ensures j == FindChar(doc, i, c) && found == (j < |doc|)
  {
    j := i;
    while j < |doc| && doc[j] != c
      invariant i <= j <= |doc| && FindChar(doc, j, c) == FindChar(doc, i, c)
    {
      j := j + 1;
    }
    found := j < |doc|;
  }

  method ScanToken(doc: string, i: nat) returns (t: Token)
    requires i <= |doc|
    ensures t == FindToken(doc, i)
  {
    var p := i;
    while p < |doc| && IsSpace(doc[p])
      invariant i <= p <= |doc| && SkipSpaces(doc, p) == SkipSpaces(doc, i)
    {
      p := p + 1;
    }
    if p == |doc| {
      return Token(false, p, p, p, false);
    }
    var first := doc[p];
    if IsQuote(first) {
      var left := p + 1;
      var found, e := ScanChar(doc, left, first);
      return Token(true, left, e - 1, if found then e + 1 else e, true);
    }
    var left := p;
    while p < |doc| && !IsDelim(doc[p])
      invariant left <= p <= |doc| && SkipWord(doc, p) == SkipWord(doc, left)
    {
      p := p + 1;
    }
    if p == left {
      p := p + 1;
    }
    t := Token(true, left, p - 1, p, false);
  }

  method ScanNode(doc: string, i: nat) returns (k: NodeKind)
    requires i < |doc| && doc[i] == '<'
    ensures k == ParseNode(doc, i)
  {
    if i + 2 >= |doc| {
      return NoNode;
    }
    var end := "";
    if doc[i + 1] == '?' {
      end := "?>";
    } else if doc[i + 1] == '!' {
      if doc[i + 2] == '[' {
        end := "]]>";
      } else if doc[i + 2] == '-' {
        end := "-->";
      } else {
        var brackets, p := 0, i;
        while true
          invariant i <= p <= |doc| && DocType(doc, p, brackets) == DocType(doc, i, 0)
          decreases |doc| - p
        {
          var t := ScanToken(doc, p);
          if !t.ok {
            return NoNode;
          }
          if !t.isString {
            var c := doc[t.left];
            if c == '[' {
              brackets := brackets + 1;
            } else if c == ']' {
              brackets := brackets - 1;
            } else if brackets == 0 && c == '>' {
              return Special(t.next);
            }
          }
          p := t.next;
        }
      }
    } else if doc[i + 1] == '/' {
      return NoNode;
    } else {
      return ElementNode;
    }
    k := SpecialTo(doc, i, end);
  }
}

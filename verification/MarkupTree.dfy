/** The abstract document: a tree of elements and of the text between them, its text, and the offsets
    its elements have there. */
module MarkupTree {
  import opened MarkupText
  import opened MarkupParse

  datatype Attr = Attr(space: string, name: string, preEq: string, postEq: string, quote: char, value: string)

  // A list of siblings: runs of text (or a comment, section or instruction) and elements.  `id` is the
  // element's index in the position array.  An empty element <NAME/> has no kids and no end tag.
  datatype Forest =
    | Nil
    | Chunk(text: string, next: Forest)
    | Node(id: nat, name: string, attrs: seq<Attr>, tail: string, empty: bool, kids: Forest, close: string,
           next: Forest)

  // ---- text ----

  function AttrText(a: Attr): string {
    a.space + a.name + a.preEq + "=" + a.postEq + [a.quote] + a.value + [a.quote]
  }

  function AttrsText(s: seq<Attr>): string {
    if s == [] then "" else AttrText(s[0]) + AttrsText(s[1..])
  }

  // What stands between '<' and '>' (or '/>').
  function TagBody(n: Forest): string
    requires n.Node?
  {
    n.name + AttrsText(n.attrs) + n.tail
  }

  function EndTagText(n: Forest): string
    requires n.Node?
  {
    "</" + n.name + n.close + ">"
  }

  // The element from its '<' to its last '>', around the given content.
  function Around(n: Forest, content: string): string
    requires n.Node?
  {
    if n.empty then "<" + TagBody(n) + "/>" else "<" + TagBody(n) + ">" + content + EndTagText(n)
  }

  function Core(n: Forest): string
    requires n.Node?
  {
    Around(n, Render(n.kids))
  }

  function Render(f: Forest): string {
    match f
    case Nil => ""
    case Chunk(text, next) => text + Render(next)
    case Node(_, _, _, _, _, kids, _, next) => Around(f, Render(kids)) + Render(next)
  }

  // ---- well-formedness ----

  predicate NameChar(c: char) { !IsDelim(c) && !IsQuote(c) && c != '[' && c != '\0' }

  ghost predicate NameOk(s: string) {
    s != "" && forall i :: 0 <= i < |s| ==> NameChar(s[i])
  }

  ghost predicate Blank(s: string) { forall i :: 0 <= i < |s| ==> IsSpace(s[i]) }

  ghost predicate ValueOk(s: string, quote: char) {
    forall i :: 0 <= i < |s| ==> s[i] != quote && s[i] != '>' && s[i] != '\0'
  }

  ghost predicate AttrOk(a: Attr) {
    a.space != "" && Blank(a.space) && NameOk(a.name) && Blank(a.preEq) && Blank(a.postEq)
    && IsQuote(a.quote) && ValueOk(a.value, a.quote)
  }

  ghost predicate AttrsOk(s: seq<Attr>) {
    forall i :: 0 <= i < |s| ==> AttrOk(s[i])
  }

  // Text without '<', or exactly one comment, section, instruction or declaration.
  ghost predicate ChunkOk(text: string) {
    CString(text) && (PlainText(text) || SpecialText(text))
  }

  ghost predicate PlainText(text: string) { forall i :: 0 <= i < |text| ==> text[i] != '<' }

  ghost predicate SpecialText(text: string) {
    2 < |text| && text[0] == '<' && ParseNode(text, 0) == Special(|text|)
  }

  ghost predicate WF(f: Forest) {
    match f
    case Nil => true
    case Chunk(text, next) => ChunkOk(text) && WF(next)
    case Node(_, name, attrs, tail, empty, kids, close, next) =>
      && NameOk(name) && AttrsOk(attrs) && Blank(tail) && Blank(close)
      && (empty ==> kids.Nil? && close == "")
      && WF(kids) && WF(next)
  }

  // The first of the siblings, followed by others.
  function SetNext(f: Forest, g: Forest): Forest
    requires !f.Nil?
  {
    match f
    case Chunk(text, _) => Chunk(text, g)
    case Node(id, name, attrs, tail, empty, kids, close, _) => Node(id, name, attrs, tail, empty, kids, close, g)
  }

  function SetKids(n: Forest, g: Forest): Forest
    requires n.Node?
  {
    n.(kids := g)
  }

  // ---- offsets ----

  function FirstId(f: Forest): nat {
    match f
    case Nil => 0
    case Chunk(_, next) => FirstId(next)
    case Node(id, _, _, _, _, _, _, _) => id
  }

  function StartR(n: Forest, base: int): int
    requires n.Node?
  {
    base + 1 + |TagBody(n)| + if n.empty then 1 else 0
  }

  function EndL(n: Forest, base: int, len: int): int
    requires n.Node?
  {
    if n.empty then StartR(n, base) - 1 else StartR(n, base) + 1 + len
  }

  function EndR(n: Forest, base: int, len: int): int
    requires n.Node?
  {
    if n.empty then StartR(n, base) else EndL(n, base, len) + 2 + |n.name| + |n.close|
  }

  // The offsets of the elements of f when its text starts at base.
  function Offsets(f: Forest, base: int): OForest {
    match f
    case Nil => ONil
    case Chunk(text, next) => Offsets(next, base + |text|)
    case Node(_, _, _, _, _, kids, _, next) =>
      var len := |Render(kids)|;
      ONode(base, StartR(f, base), EndL(f, base, len), EndR(f, base, len),
            if f.empty then ONil else Offsets(kids, StartR(f, base) + 1), Offsets(next, EndR(f, base, len) + 1))
  }

  lemma AroundLength(n: Forest, content: string)
    requires n.Node?
    ensures |Around(n, content)| == EndR(n, 0, |content|) + 1
  {
  }
}

/** What the reader computes from a document: tokens, the recursive descent with its recovery from errors,
    and how many errors it notes. */
module JsonParse {
  import opened Substring
  import opened JsonValue
  import opened JsonNumber
  import opened JsonString

  datatype Features = Features(allowComments: bool, strictRoot: bool)

  // sscanf with "%lf"
  type DoubleReader = string -> Option<real>

  // ---- tokens ----

  datatype Kind = EndOfStream | ObjectBegin | ObjectEnd | ArrayBegin | ArrayEnd | StringToken | NumberToken | TrueToken
                | FalseToken | NullToken | ArraySeparator | MemberSeparator | CommentToken | ErrorToken

  datatype Token = Token(kind: Kind, start: nat, stop: nat)

  predicate IsSpace(c: char) { c == ' ' || c == '\t' || c == '\r' || c == '\n' }

  function SkipSpaces(doc: string, i: nat): (j: nat)
    requires i <= |doc|
    ensures i <= j <= |doc| && (j < |doc| ==> !IsSpace(doc[j]))
    decreases |doc| - i
  {
    if i < |doc| && IsSpace(doc[i]) then SkipSpaces(doc, i + 1) else i
  }

  predicate NumberChar(c: char) { IsDigit(c) || c == '.' || c == 'e' || c == 'E' || c == '+' || c == '-' }

  function ReadNumber(doc: string, i: nat): (j: nat)
    requires i <= |doc|
    ensures i <= j <= |doc|
    decreases |doc| - i
  {
    if i < |doc| && NumberChar(doc[i]) then ReadNumber(doc, i + 1) else i
  }

  // The '/' that ends a comment, or the end.
  function CommentEnd(doc: string, i: nat): (j: nat)
    requires i <= |doc|
    ensures i <= j <= |doc|
    decreases |doc| - i
  {
    if i == |doc| then i
    else if doc[i] == '*' && i + 1 < |doc| && doc[i + 1] == '/' then i + 1
    else CommentEnd(doc, i + 1)
  }

  // Behind the end of the line.
  function LineEnd(doc: string, i: nat): (j: nat)
    requires i <= |doc|
    ensures i <= j <= |doc|
    decreases |doc| - i
  {
    if i == |doc| then i else if doc[i] == '\r' || doc[i] == '\n' then i + 1 else LineEnd(doc, i + 1)
  }

  // readComment, behind the first '/'
  function ReadComment(doc: string, i: nat): (r: Scanned)
    requires i <= |doc|
    ensures i <= r.next <= |doc|
  {
    if i == |doc| then Scanned(false, i)
    else if doc[i] == '*' then
      var j := CommentEnd(doc, i + 1);
      if j == |doc| then Scanned(false, j) else Scanned(true, j + 1)
    else if doc[i] == '/' then Scanned(true, LineEnd(doc, i + 1))
    else Scanned(false, i + 1)
  }

  function Punctuation(c: char): Kind {
    if c == '{' then ObjectBegin else if c == '}' then ObjectEnd
    else if c == '[' then ArrayBegin else if c == ']' then ArrayEnd
    else if c == ',' then ArraySeparator else if c == ':' then MemberSeparator
    else if c == '\0' then EndOfStream else ErrorToken
  }

  function Word(doc: string, s: nat, rest: string, kind: Kind): (t: Token)
    requires s < |doc|
    ensures t.start == s < t.stop <= |doc| && (t.kind == kind || t.kind == ErrorToken)
  {
    if OccursAt(doc, s + 1, rest) then Token(kind, s, s + 1 + |rest|) else Token(ErrorToken, s, s + 1)
  }

  function ReadToken(doc: string, i: nat): (t: Token)
    requires i <= |doc|
    ensures i <= t.start <= t.stop <= |doc|
    ensures t.kind != EndOfStream ==> i < t.stop && t.start < t.stop
    ensures t.kind == StringToken ==> t.start + 2 <= t.stop
  {
    var s := SkipSpaces(doc, i);
    if s == |doc| then Token(EndOfStream, s, s) else
    var c := doc[s];
    if c == '\"' then
      var r := ReadString(doc, s + 1);
      Token(if r.ok then StringToken else ErrorToken, s, r.next)
    else if c == '/' then
      var r := ReadComment(doc, s + 1);
      Token(if r.ok then CommentToken else ErrorToken, s, r.next)
    else if IsDigit(c) || c == '-' then Token(NumberToken, s, ReadNumber(doc, s + 1))
    else if c == 't' then Word(doc, s, "rue", TrueToken)
    else if c == 'f' then Word(doc, s, "alse", FalseToken)
    else if c == 'n' then Word(doc, s, "ull", NullToken)
    else Token(Punctuation(c), s, s + 1)
  }

  // The next token that is not a comment.
  function NoComment(doc: string, i: nat): (t: Token)
    requires i <= |doc|
    ensures i <= t.start <= t.stop <= |doc| && t.kind != CommentToken
    ensures t.kind != EndOfStream ==> i < t.stop && t.start < t.stop
    ensures t.kind == StringToken ==> t.start + 2 <= t.stop
    ensures ReadToken(doc, i).stop <= t.stop
    decreases |doc| - i
  {
    var t := ReadToken(doc, i);
    if t.kind == CommentToken then NoComment(doc, t.stop) else t
  }

  // skipCommentTokens
  function FirstToken(doc: string, i: nat, f: Features): (t: Token)
    requires i <= |doc|
    ensures i <= t.start <= t.stop <= |doc|
    ensures t.kind != EndOfStream ==> i < t.stop && t.start < t.stop
    ensures t.kind == StringToken ==> t.start + 2 <= t.stop
  {
    if f.allowComments then NoComment(doc, i) else ReadToken(doc, i)
  }

  // recoverFromError: behind the next token of the given kind, or at the end.
  function Recover(doc: string, i: nat, kind: Kind): (j: nat)
    requires i <= |doc|
    ensures i <= j <= |doc|
    decreases |doc| - i
  {
    var t := ReadToken(doc, i);
    if t.kind == kind || t.kind == EndOfStream then t.stop else Recover(doc, t.stop, kind)
  }

  // ---- values ----

  // What a value handed over as a C string keeps.
  function CStr(s: string): string {
    if s == "" || s[0] == '\0' then "" else [s[0]] + CStr(s[1..])
  }

  // Whether it succeeded, what has become of the current value, the cursor, and how many errors were noted.
  datatype Parsed = Parsed(ok: bool, v: Value, next: nat, errors: nat)

  function NumberValue(s: string, cur: Value, next: nat, rd: DoubleReader): (r: Parsed)
    requires s != ""
    ensures r.next == next && (r.ok <==> r.errors == 0)
  {
    match NumberOf(s)
    case Integer(v) => Parsed(true, v, next, 0)
    case Malformed => Parsed(false, cur, next, 1)
    case Double =>
      match rd(s)
      case None => Parsed(false, cur, next, 1)
      case Some(r) => Parsed(true, Real(r), next, 0)
  }

  function StringValue(doc: string, t: Token, cur: Value): (r: Parsed)
    requires t.start + 2 <= t.stop <= |doc|
    ensures r.next == t.stop && (r.ok <==> r.errors == 0)
  {
    match DecodeFrom(doc, t.start + 1, t.stop - 1)
    case BadText => Parsed(false, cur, t.stop, 1)
    case Text(s) => Parsed(true, Str(Some(CStr(s))), t.stop, 0)
  }

  // readValue, for a value that is `cur` so far.
  function ParseValue(doc: string, i: nat, cur: Value, f: Features, rd: DoubleReader): (r: Parsed)
    requires i <= |doc|
    ensures i <= r.next <= |doc| && (r.ok ==> i < r.next) && (r.ok <==> r.errors == 0)
    decreases |doc| - i, 0
  {
    var t := FirstToken(doc, i, f);
    match t.kind
    case ObjectBegin => ParseMembers(doc, t.stop, End, "", f, rd)
    case ArrayBegin => ParseArray(doc, t.stop, f, rd)
    case NumberToken => NumberValue(doc[t.start..t.stop], cur, t.stop, rd)
    case StringToken => StringValue(doc, t, cur)
    case TrueToken => Parsed(true, Bool(true), t.stop, 0)
    case FalseToken => Parsed(true, Bool(false), t.stop, 0)
    case NullToken => Parsed(true, Null, t.stop, 0)
    case _ => Parsed(false, cur, t.stop, 1)
  }

  // The loop of readObject, with the members so far and the last name.
  function ParseMembers(doc: string, i: nat, members: Entries, name: string, f: Features, rd: DoubleReader): (r: Parsed)
    requires i <= |doc|
    ensures i <= r.next <= |doc| && (r.ok ==> i < r.next) && (r.ok <==> r.errors == 0)
    decreases |doc| - i, 2
  {
    var t := NoComment(doc, i);
    if t.kind == ObjectEnd && name == "" then Parsed(true, Obj(members), t.stop, 0)
    else if t.kind != StringToken then Parsed(false, Obj(members), Recover(doc, t.stop, ObjectEnd), 1)
    else
      match ParseMember(doc, t, members, f, rd)
      case MemberFailed(r) => r
      case Member(more, newName, next) => ParseMembersEnd(doc, next, more, newName, f, rd)
  }

  datatype Member = Member(members: Entries, name: string, next: nat) | MemberFailed(r: Parsed)

  // One member, whose name is the token t.
  function ParseMember(doc: string, t: Token, members: Entries, f: Features, rd: DoubleReader): (m: Member)
    requires t.start + 2 <= t.stop <= |doc|
    ensures m.Member? ==> t.stop < m.next <= |doc|
    ensures m.MemberFailed? ==> t.stop <= m.r.next <= |doc| && !m.r.ok && 0 < m.r.errors
    decreases |doc| - t.stop, 1
  {
    match DecodeFrom(doc, t.start + 1, t.stop - 1)
    case BadText => MemberFailed(Parsed(false, Obj(members), Recover(doc, t.stop, ObjectEnd), 1))
    case Text(name) =>
      var colon := ReadToken(doc, t.stop);
      if colon.kind != MemberSeparator then
        MemberFailed(Parsed(false, Obj(members), Recover(doc, colon.stop, ObjectEnd), 1))
      else
        var key := Name(CStr(name));
        var r := ParseValue(doc, colon.stop, Lookup(members, key), f, rd);
        var more := Put(members, key, r.v);
        if r.ok then Member(more, name, r.next)
        else MemberFailed(Parsed(false, Obj(more), Recover(doc, r.next, ObjectEnd), r.errors))
  }

  // Behind a member.
  function ParseMembersEnd(doc: string, i: nat, members: Entries, name: string, f: Features,
                           rd: DoubleReader): (r: Parsed)
    requires i <= |doc|
    ensures i <= r.next <= |doc| && (r.ok ==> i < r.next) && (r.ok <==> r.errors == 0)
    decreases |doc| - i, 3
  {
    var comma := ReadToken(doc, i);
    if comma.kind != ObjectEnd && comma.kind != ArraySeparator && comma.kind != CommentToken then
      Parsed(false, Obj(members), Recover(doc, comma.stop, ObjectEnd), 1)
    else
      var t := NoComment(doc, i);
      if t.kind == ObjectEnd then Parsed(true, Obj(members), t.stop, 0)
      else ParseMembers(doc, t.stop, members, name, f, rd)
  }

  // readArray, behind the opening bracket
  function ParseArray(doc: string, i: nat, f: Features, rd: DoubleReader): (r: Parsed)
    requires i <= |doc|
    ensures i <= r.next <= |doc| && (r.ok ==> i < r.next) && (r.ok <==> r.errors == 0)
    decreases |doc| - i, 2
  {
    var s := SkipSpaces(doc, i);
    if s < |doc| && doc[s] == ']' then Parsed(true, Arr(End), s + 1, 0) else ParseItems(doc, s, End, 0, f, rd)
  }

  // The loop of readArray.
  function ParseItems(doc: string, i: nat, items: Entries, index: nat, f: Features, rd: DoubleReader): (r: Parsed)
    requires i <= |doc|
    ensures i <= r.next <= |doc| && (r.ok ==> i < r.next) && (r.ok <==> r.errors == 0)
    decreases |doc| - i, 1
  {
    var r := ParseValue(doc, i, Lookup(items, Index(index)), f, rd);
    var more := Put(items, Index(index), r.v);
    if !r.ok then Parsed(false, Arr(more), Recover(doc, r.next, ArrayEnd), r.errors)
    else
      var t := NoComment(doc, r.next);
      if t.kind == ArrayEnd then Parsed(true, Arr(more), t.stop, 0)
      else if t.kind != ArraySeparator then Parsed(false, Arr(more), Recover(doc, t.stop, ArrayEnd), 1)
      else ParseItems(doc, t.stop, more, index + 1, f, rd)
  }

  // parse: the root value, and whether it is accepted; strictRoot adds an error of its own.
  function ParseDocument(doc: string, root: Value, f: Features, rd: DoubleReader): (r: Parsed)
    ensures r.ok <==> r.errors == 0
  {
    var r := ParseValue(doc, 0, root, f, rd);
    var next := FirstToken(doc, r.next, f).stop;
    if f.strictRoot && !r.v.Arr? && !r.v.Obj? && !r.v.Null? then Parsed(false, r.v, next, r.errors + 1)
    else Parsed(r.ok, r.v, next, r.errors)
  }
}

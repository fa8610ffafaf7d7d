/** The reader: a cursor in the document, a stack of the values being read, and the errors noted. */
module JsonReader {
  import opened Substring
  import opened JsonValue
  import opened JsonNumber
  import opened JsonString
  import opened JsonParse
  import JsonAccept

  class Reader {
    const features: Features
    const rd: DoubleReader
    var document: string
    var current: nat
    var nodes: seq<Value>
    var errors: seq<string>

    constructor (f: Features, r: DoubleReader)
      ensures features == f && rd == r && current <= |document|
    {
      features, rd := f, r;
      document, current, nodes, errors := "", 0, [], [];
    }

    // ---- the cursor ----

    // getNextChar
    method GetNextChar() returns (c: char)
      requires current <= |document|
      modifies this`current
      ensures if old(current) == |document| then c == '\0' && current == old(current)
              else c == document[old(current)] && current == old(current) + 1
    {
      if current == |document| {
        return '\0';
      }
      c := document[current];
      current := current + 1;
    }

    method SkipSpace()
      requires current <= |document|
      modifies this`current
      ensures current == SkipSpaces(document, old(current))
    {
      while current != |document|
        invariant current <= |document| && SkipSpaces(document, current) == SkipSpaces(document, old(current))
        decreases |document| - current
      {
        if IsSpace(document[current]) {
          current := current + 1;
        } else {
          break;
        }
      }
    }

    method SkipNumber()
      requires current <= |document|
      modifies this`current
      ensures current == ReadNumber(document, old(current))
    {
      while current != |document|
        invariant current <= |document| && ReadNumber(document, current) == ReadNumber(document, old(current))
        decreases |document| - current
      {
        if !NumberChar(document[current]) {
          break;
        }
        current := current + 1;
      }
    }

    // readString
    method SkipString() returns (ok: bool)
      requires current <= |document|
      modifies this`current
      ensures Scanned(ok, current) == ReadString(document, old(current))
    {
      var c := '\0';
      while current != |document|
        invariant current <= |document| && c != '\"'
                  && ReadString(document, current) == ReadString(document, old(current))
        decreases |document| - current
      {
        c := GetNextChar();
        if c == '\\' {
          var skipped := GetNextChar();
        } else if c == '\"' {
          break;
        }
      }
      ok := c == '\"';
    }

    // readCStyleComment, behind the '*'
    method SkipCStyleComment() returns (ok: bool)
      requires current <= |document|
      modifies this`current
      ensures var j := CommentEnd(document, old(current)); ok == (j != |document|) && current == if ok then j + 1 else j
    {
      while current != |document|
        invariant current <= |document| && CommentEnd(document, current) == CommentEnd(document, old(current))
        decreases |document| - current
      {
        var c := GetNextChar();
        if c == '*' && current < |document| && document[current] == '/' {
          break;
        }
      }
      var last := GetNextChar();
      ok := last == '/';
    }

    // readCppStyleComment, behind the second '/'
    method SkipLineComment()
      requires current <= |document|
      modifies this`current
      ensures current == LineEnd(document, old(current))
    {
      while current != |document|
        invariant current <= |document| && LineEnd(document, current) == LineEnd(document, old(current))
        decreases |document| - current
      {
        var c := GetNextChar();
        if c == '\r' || c == '\n' {
          break;
        }
      }
    }

    method SkipComment() returns (ok: bool)
      requires current <= |document|
      modifies this`current
      ensures Scanned(ok, current) == ReadComment(document, old(current))
    {
      var c := GetNextChar();
      if c == '*' {
        ok := SkipCStyleComment();
      } else if c == '/' {
        SkipLineComment();
        ok := true;
      } else {
        ok := false;
      }
    }

    // match
    method Match(pattern: string) returns (ok: bool)
      requires current <= |document|
      modifies this`current
      ensures ok == OccursAt(document, old(current), pattern) && current == old(current) + if ok then |pattern| else 0
    {
      if |document| - current < |pattern| {
        return false;
      }
      var index := |pattern|;
      while index > 0
        invariant 0 <= index <= |pattern| && document[current + index..current + |pattern|] == pattern[index..]
      {
        index := index - 1;
        if document[current + index] != pattern[index] {
          assert document[current..current + |pattern|][index] != pattern[index];
          return false;
        }
      }
      current := current + |pattern|;
      ok := true;
    }

    method NextToken() returns (t: Token)
      requires current <= |document|
      modifies this`current
      ensures t == ReadToken(document, old(current)) && current == t.stop
    {
      SkipSpace();
      var start := current;
      if current == |document| {
        return Token(EndOfStream, start, start);
      }
      var c := GetNextChar();
      var ok, kind := true, ErrorToken;
      if c == '\"' {
        kind := StringToken;
        ok := SkipString();
      } else if c == '/' {
        kind := CommentToken;
        ok := SkipComment();
      } else if IsDigit(c) || c == '-' {
        kind := NumberToken;
        SkipNumber();
      } else if c == 't' {
        kind := TrueToken;
        ok := Match("rue");
      } else if c == 'f' {
        kind := FalseToken;
        ok := Match("alse");
      } else if c == 'n' {
        kind := NullToken;
        ok := Match("ull");
      } else {
        kind := Punctuation(c);
      }
      t := Token(if ok then kind else ErrorToken, start, current);
    }

    method NextNoComment() returns (t: Token)
      requires current <= |document|
      modifies this`current
      ensures t == NoComment(document, old(current)) && current == t.stop
    {
      hide ReadToken;
      t := NextToken();
      while t.kind == CommentToken
        invariant current == t.stop <= |document|
        invariant NoComment(document, old(current)) == if t.kind == CommentToken then NoComment(document, t.stop) else t
        decreases |document| - current, t.kind == CommentToken
      {
        t := NextToken();
      }
    }

    method SkipCommentTokens() returns (t: Token)
      requires current <= |document|
      modifies this`current
      ensures t == FirstToken(document, old(current), features) && current == t.stop
    {
      if features.allowComments {
        t := NextNoComment();
      } else {
        t := NextToken();
      }
    }

    // ---- errors ----

    method AddError(message: string) returns (ok: bool)
      modifies this`errors
      ensures !ok && |errors| == |old(errors)| + 1
    {
      errors := errors + [message];
      ok := false;
    }

    method RecoverFromError(kind: Kind) returns (ok: bool)
      requires current <= |document|
      modifies this`current
      ensures !ok && current == Recover(document, old(current), kind)
    {
      hide ReadToken;
      while true
        invariant current <= |document| && Recover(document, current, kind) == Recover(document, old(current), kind)
        decreases |document| - current
      {
        var skip := NextToken();
        if skip.kind == kind || skip.kind == EndOfStream {
          break;
        }
      }
      ok := false;
    }

    method AddErrorAndRecover(message: string, kind: Kind) returns (ok: bool)
      requires current <= |document|
      modifies this`errors, this`current
      ensures !ok && |errors| == |old(errors)| + 1 && current == Recover(document, old(current), kind)
    {
      var added := AddError(message);
      ok := RecoverFromError(kind);
    }

    // ---- values ----

    // Whether the outcome r of a step is what the step has done since the old state.
    twostate predicate Done(ok: bool, r: Parsed)
      reads this
    {
      && ok == r.ok && current == r.next && |errors| == |old(errors)| + r.errors
      && nodes == SetTop(old(nodes), r.v)
    }

    ghost predicate Ready()
      reads this
    {
      current <= |document| && nodes != []
    }

    method SetCurrentValue(v: Value)
      requires nodes != []
      modifies this`nodes
      ensures nodes == SetTop(old(nodes), v)
    {
      nodes := nodes[..|nodes| - 1] + [v];
    }

    method DecodeDouble(t: Token) returns (ok: bool)
      requires Ready() && t.start < t.stop <= |document|
      modifies this`nodes, this`errors
      ensures match rd(document[t.start..t.stop])
              case Some(r) => ok && nodes == SetTop(old(nodes), Real(r)) && errors == old(errors)
              case None => !ok && nodes == old(nodes) && |errors| == |old(errors)| + 1
    {
      var text := document[t.start..t.stop];
      match rd(text)
      case Some(r) =>
        SetCurrentValue(Real(r));
        ok := true;
      case None =>
        ok := AddError("'" + text + "' is not a number.");
    }

    method DecodeNumber(t: Token) returns (ok: bool)
      requires Ready() && t.start < t.stop == current
      modifies this`nodes, this`errors
      ensures Done(ok, NumberValue(document[t.start..t.stop], old(nodes)[|old(nodes)| - 1], t.stop, rd))
    {
      hide Scan;
      var text := document[t.start..t.stop];
      var isDouble, inspect := false, 0;
      while inspect != |text|
        invariant 0 <= inspect <= |text| && (isDouble <==> exists i :: 0 <= i < inspect && Fractional(text, i))
        decreases |text| - inspect
      {
        isDouble := isDouble || Fractional(text, inspect);
        inspect := inspect + 1;
      }
      TopIsTop(nodes);
      if isDouble {
        ok := DecodeDouble(t);
        return;
      }
      var isNegative := text[0] == '-';
      var outcome := ScanInteger(text, if isNegative then 1 else 0, if isNegative then MIN_MAGNITUDE else MAX_UINT);
      match outcome
      case NotANumber =>
        ok := AddError("'" + text + "' is not a number.");
      case AsDouble =>
        ok := DecodeDouble(t);
      case Accepted(value) =>
        if isNegative {
          SetCurrentValue(Int(ToSigned((WIDTH - value % WIDTH) % WIDTH)));
        } else if value <= MAX_INT {
          SetCurrentValue(Int(value));
        } else {
          SetCurrentValue(UInt(value));
        }
        ok := true;
    }

    method ReadValue() returns (ok: bool)
      requires Ready()
      modifies this`current, this`nodes, this`errors
      ensures Done(ok, ParseValue(document, old(current), old(nodes)[|old(nodes)| - 1], features, rd))
      decreases |document| - current, 0
    {
      hide FirstToken, ParseMembers, ParseArray, NumberValue, DecodeFrom;
      TopIsTop(nodes);
      var t := SkipCommentTokens();
      match t.kind
      case ObjectBegin =>
        ok := ReadObject();
      case ArrayBegin =>
        ok := ReadArray();
      case NumberToken =>
        ok := DecodeNumber(t);
      case StringToken =>
        var decoded := DecodeString(document, t.start, t.stop);
        if decoded.BadText? {
          ok := AddError("Bad string");
        } else {
          SetCurrentValue(Str(Some(CStr(decoded.s))));
          ok := true;
        }
      case TrueToken =>
        SetCurrentValue(Bool(true));
        ok := true;
      case FalseToken =>
        SetCurrentValue(Bool(false));
        ok := true;
      case NullToken =>
        SetCurrentValue(Null);
        ok := true;
      case _ =>
        ok := AddError("Syntax error: value, object or array expected.");
    }

    // The value at `key` of the current value is made current, read, and left. A reference into the map is
    // a value here that is written back.
    method ReadInto(key: Key) returns (ok: bool)
      requires Ready() && Container(nodes[|nodes| - 1])
      modifies this`current, this`nodes, this`errors
      ensures var top := old(nodes)[|old(nodes)| - 1];
              var r := ParseValue(document, old(current), Lookup(EntriesOf(top), key), features, rd);
              && ok == r.ok && current == r.next && |errors| == |old(errors)| + r.errors
              && nodes == SetTop(old(nodes), WithEntries(top, Put(EntriesOf(top), key, r.v)))
      decreases |document| - current, 1
    {
      hide ParseValue;
      ghost var was := nodes;
      var e := EntriesOf(nodes[|nodes| - 1]);
      nodes := SetTop(nodes, WithEntries(nodes[|nodes| - 1], Put(e, key, Lookup(e, key))));
      nodes := nodes + [Lookup(e, key)];
      ghost var inner := nodes;
      ok := ReadValue();
      var v := nodes[|nodes| - 1];
      nodes := nodes[..|nodes| - 1];
      assert nodes == inner[..|inner| - 1];
      PutTwice(e, key, Lookup(e, key), v);
      var top := nodes[|nodes| - 1];
      nodes := SetTop(nodes, WithEntries(top, Put(EntriesOf(top), key, v)));
    }

    // The part of readObject between the name and the separator.
    method ReadMember(t: Token, ghost members: Entries) returns (ok: bool, name: string)
      requires Ready() && t.start + 2 <= t.stop == current && nodes[|nodes| - 1] == Obj(members)
      modifies this`current, this`nodes, this`errors
      ensures match ParseMember(document, t, members, features, rd)
              case MemberFailed(r) => !ok && Done(ok, r)
              case Member(more, n, next) =>
                ok && name == n && current == next && |errors| == |old(errors)|
                  && nodes == SetTop(old(nodes), Obj(more))
      decreases |document| - current, 2
    {
      hide ParseValue, NoComment, ReadToken, DecodeFrom, Recover;
      TopIsTop(nodes);
      name := "";
      var decoded := DecodeString(document, t.start, t.stop);
      if decoded.BadText? {
        var added := AddError("Bad string");
        ok := RecoverFromError(ObjectEnd);
        return;
      }
      name := decoded.s;
      var colon := NextToken();
      if colon.kind != MemberSeparator {
        ok := AddErrorAndRecover("Missing ':' after object member name", ObjectEnd);
        return;
      }
      ok := ReadInto(Name(CStr(name)));
      if !ok {
        ok := RecoverFromError(ObjectEnd);
      }
    }

    // The part of readObject behind a member.
    method ReadSeparator() returns (ok: bool, done: bool)
      requires Ready()
      modifies this`current, this`errors
      ensures var c, t := ReadToken(document, old(current)), NoComment(document, old(current));
              if c.kind != ObjectEnd && c.kind != ArraySeparator && c.kind != CommentToken then
                !ok && |errors| == |old(errors)| + 1 && current == Recover(document, c.stop, ObjectEnd)
              else ok && done == (t.kind == ObjectEnd) && errors == old(errors) && old(current) < current == t.stop
    {
      hide NoComment, ReadToken, Recover;
      done := false;
      ghost var from := current;
      var comma := NextToken();
      if comma.kind != ObjectEnd && comma.kind != ArraySeparator && comma.kind != CommentToken {
        ok := AddErrorAndRecover("Missing ',' or '}' in object declaration", ObjectEnd);
        return;
      }
      NoCommentStep(document, from);
      if comma.kind == CommentToken {
        comma := NextNoComment();
      }
      ok, done := true, comma.kind == ObjectEnd;
    }

    method ReadObject() returns (ok: bool)
      requires Ready()
      modifies this`current, this`nodes, this`errors
      ensures Done(ok, ParseMembers(document, old(current), End, "", features, rd))
      decreases |document| - current, 3
    {
      hide ParseMember, NoComment, ReadToken, Recover, ParseMembers, ParseMembersEnd;
      SetCurrentValue(Obj(End));
      var name := "";
      ghost var members := End;
      while true
        invariant Ready() && current >= old(current) && nodes == SetTop(old(nodes), Obj(members))
                  && |errors| == |old(errors)|
        invariant ParseMembers(document, current, members, name, features, rd)
                    == ParseMembers(document, old(current), End, "", features, rd)
        decreases |document| - current
      {
        MembersStep(document, current, members, name, features, rd);
        var t := NextNoComment();
        if t.kind == ObjectEnd && name == "" {
          return true;
        }
        if t.kind != StringToken {
          break;
        }
        ok, name := ReadMember(t, members);
        if !ok {
          return;
        }
        members := EntriesOf(nodes[|nodes| - 1]);
        MembersEndStep(document, current, members, name, features, rd);
        var done;
        ok, done := ReadSeparator();
        if !ok || done {
          return;
        }
      }
      ok := AddErrorAndRecover("Missing '}' or object member name", ObjectEnd);
    }

    method ReadArray() returns (ok: bool)
      requires Ready()
      modifies this`current, this`nodes, this`errors
      ensures Done(ok, ParseArray(document, old(current), features, rd))
      decreases |document| - current, 3
    {
      hide ParseValue, NoComment, ReadToken, DecodeFrom, Recover;
      SetCurrentValue(Arr(End));
      SkipSpace();
      if current < |document| && document[current] == ']' {
        EndOfArray(document, current);
        var endArray := NextToken();
        return true;
      }
      var index := 0;
      ghost var items, start := End, current;
      while true
        invariant Ready() && current >= old(current) && nodes == SetTop(old(nodes), Arr(items))
                  && |errors| == |old(errors)|
        invariant ParseItems(document, current, items, index, features, rd)
                    == ParseItems(document, start, End, 0, features, rd)
        decreases |document| - current
      {
        ok := ReadInto(Index(index));
        items := EntriesOf(nodes[|nodes| - 1]);
        index := index + 1;
        if !ok {
          ok := RecoverFromError(ArrayEnd);
          return;
        }
        var t := NextNoComment();
        if t.kind != ArraySeparator && t.kind != ArrayEnd {
          ok := AddErrorAndRecover("Missing ',' or ']' in array declaration", ArrayEnd);
          return;
        }
        if t.kind == ArrayEnd {
          break;
        }
      }
      ok := true;
    }

    // parse: the root comes in with a value and goes out with what was read.
    method Parse(doc: string, root: Value) returns (ok: bool, v: Value)
      modifies this
      ensures var r := ParseDocument(doc, root, features, rd);
              ok == r.ok && v == r.v && |errors| == r.errors && current == r.next
      ensures document == doc && current <= |document| && nodes == [v]
      ensures ok <==> errors == []
      ensures forall w :: JsonAccept.IsTextOf(doc, w, features, rd) <==> ok && w == v
    {
      hide ParseValue, FirstToken, JsonAccept.IsTextOf;
      ghost var r := ParseDocument(doc, root, features, rd);
      forall w ensures r.ok && r.v == w <==> JsonAccept.IsTextOf(doc, w, features, rd) {
        JsonAccept.AcceptedExactly(doc, w, root, features, rd);
      }
      document := doc;
      current := 0;
      errors := [];
      nodes := [root];
      ok := ReadValue();
      v := nodes[0];
      var t := SkipCommentTokens();
      if features.strictRoot {
        if !v.Arr? && !v.Obj? && !v.Null? {
          ok := AddError("A valid JSON document must be either an array or an object value.");
        }
      }
    }
  }

  predicate Container(v: Value) { v.Arr? || v.Obj? }

  function EntriesOf(v: Value): Entries
    requires Container(v)
  {
    if v.Arr? then v.items else v.members
  }

  function WithEntries(v: Value, e: Entries): Value
    requires Container(v)
  {
    if v.Arr? then Arr(e) else Obj(e)
  }

  lemma {:induction false} PutTwice(e: Entries, k: Key, v: Value, w: Value)
    ensures Put(Put(e, k, v), k, w) == Put(e, k, w)
  {
    KeyLessTotal(k, k);
    if e.Entry? && !KeyLess(k, e.key) && e.key != k {
      PutTwice(e.rest, k, v, w);
    }
  }

  lemma MembersStep(doc: string, i: nat, members: Entries, name: string, f: Features, rd: DoubleReader)
    requires i <= |doc|
    ensures var t, r := NoComment(doc, i), ParseMembers(doc, i, members, name, f, rd);
            && (t.kind == ObjectEnd && name == "" ==> r == Parsed(true, Obj(members), t.stop, 0))
            && (!(t.kind == ObjectEnd && name == "") && t.kind != StringToken ==>
                  r == Parsed(false, Obj(members), Recover(doc, t.stop, ObjectEnd), 1))
            && (t.kind == StringToken ==>
                  match ParseMember(doc, t, members, f, rd)
                  case MemberFailed(p) => r == p
                  case Member(more, n, next) => r == ParseMembersEnd(doc, next, more, n, f, rd))
  {
    hide NoComment, ParseMember, ParseMembersEnd, Recover;
  }

  lemma MembersEndStep(doc: string, i: nat, members: Entries, name: string, f: Features, rd: DoubleReader)
    requires i <= |doc|
    ensures var c, t, r := ReadToken(doc, i), NoComment(doc, i), ParseMembersEnd(doc, i, members, name, f, rd);
            if c.kind != ObjectEnd && c.kind != ArraySeparator && c.kind != CommentToken then
              r == Parsed(false, Obj(members), Recover(doc, c.stop, ObjectEnd), 1)
            else if t.kind == ObjectEnd then r == Parsed(true, Obj(members), t.stop, 0)
            else r == ParseMembers(doc, t.stop, members, name, f, rd)
  {
    hide NoComment, ReadToken, ParseMembers, Recover;
  }

  lemma NoCommentStep(doc: string, i: nat)
    requires i <= |doc|
    ensures var t := ReadToken(doc, i);
            NoComment(doc, i) == if t.kind == CommentToken then NoComment(doc, t.stop) else t
  {
    hide ReadToken;
  }

  lemma EndOfArray(doc: string, i: nat)
    requires i < |doc| && doc[i] == ']'
    ensures ReadToken(doc, i) == Token(ArrayEnd, i, i + 1)
  {
    assert SkipSpaces(doc, i) == i;
  }

  // The stack with another value on top.
  function SetTop(nodes: seq<Value>, v: Value): seq<Value> {
    if nodes == [] then [] else nodes[..|nodes| - 1] + [v]
  }

  lemma TopIsTop(nodes: seq<Value>)
    requires nodes != []
    ensures SetTop(nodes, nodes[|nodes| - 1]) == nodes
  {
  }
}

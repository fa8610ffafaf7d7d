/** Reading back what the compact printer prints. */
module JsonRoundTrip {
  import opened Substring
  import opened JsonValue
  import opened JsonNumber
  import opened JsonString
  import opened JsonParse
  import opened JsonFast

  // ---- the values that come back ----

  // Integers of 64 bits, strings without NUL, no reals.
  predicate Plain(v: Value) {
    match v
    case Real(_) => false
    case Int(i) => -MIN_MAGNITUDE <= i <= MAX_UINT
    case UInt(u) => 0 <= u <= MAX_UINT
    case Str(s) => s.Some? && NulFree(s.value) && ByteString(s.value)
    case Arr(items) => EntriesPlain(items)
    case Obj(members) => EntriesPlain(members) && AllNames(members) && Sorted(members)
    case _ => true
  }

  predicate EntriesPlain(e: Entries) {
    e.Entry? ==> Plain(e.val) && EntriesPlain(e.rest)
  }

  lemma {:induction false} PlainWritable(v: Value)
    requires Plain(v)
    ensures Writable(v)
    decreases v
  {
    match v
    case Arr(items) => EntriesPlainWritable(items);
    case Obj(members) => EntriesPlainWritable(members);
    case _ =>
  }

  lemma {:induction false} EntriesPlainWritable(e: Entries)
    requires EntriesPlain(e)
    ensures EntriesWritable(e)
    decreases e
  {
    if e.Entry? {
      PlainWritable(e.val);
      EntriesPlainWritable(e.rest);
    }
  }

  lemma {:induction false} LookupPlain(e: Entries, k: Key)
    requires EntriesPlain(e)
    ensures Plain(Lookup(e, k)) && Writable(Lookup(e, k)) && Size(Lookup(e, k)) <= EntriesSize(e)
  {
    if e.Entry? {
      LookupPlain(e.rest, k);
      PlainWritable(e.val);
    }
  }

  // The value as it comes back: integers tagged by their size, arrays without gaps.
  function Normal(v: Value): Value
    decreases Size(v), 0
  {
    match v
    case Int(i) => Tagged(i)
    case UInt(u) => Tagged(u)
    case Arr(items) => Arr(Dense(items, ArraySize(items)))
    case Obj(members) => Obj(NormalMembers(members))
    case _ => v
  }

  // The first n elements.
  function Dense(items: Entries, n: nat): Entries
    decreases EntriesSize(items), n
  {
    if n == 0 then End else
    LookupFits(items, Index(n - 1));
    Append(Dense(items, n - 1), Entry(Index(n - 1), Normal(Lookup(items, Index(n - 1))), End))
  }

  function NormalMembers(e: Entries): Entries
    decreases EntriesSize(e), 0
  {
    if e.End? then End else Entry(e.key, Normal(e.val), NormalMembers(e.rest))
  }

  lemma {:induction false} DenseBefore(items: Entries, n: nat)
    ensures Before(Dense(items, n), Index(n)) && Lookup(Dense(items, n), Index(n)) == Null
    ensures forall v :: Put(Dense(items, n), Index(n), v) == Append(Dense(items, n), Entry(Index(n), v, End))
    decreases n
  {
    if n > 0 {
      DenseBefore(items, n - 1);
      BeforeAppend(Dense(items, n - 1), Index(n - 1), Normal(Lookup(items, Index(n - 1))), Index(n));
    }
    forall v ensures Put(Dense(items, n), Index(n), v) == Append(Dense(items, n), Entry(Index(n), v, End)) {
      PutLast(Dense(items, n), Index(n), v);
    }
    PutLast(Dense(items, n), Index(n), Null);
  }

  // ---- tokens of the printed text ----

  // A token begins right here.
  predicate Begins(c: char) { !IsSpace(c) && c != '/' }

  lemma TokenHere(doc: string, i: nat, f: Features)
    requires i < |doc| && Begins(doc[i])
    ensures FirstToken(doc, i, f) == ReadToken(doc, i) == NoComment(doc, i) && ReadToken(doc, i).start == i
  {
    assert SkipSpaces(doc, i) == i;
  }

  lemma OneCharToken(doc: string, i: nat, c: char)
    requires OccursAt(doc, i, [c]) && (c == '{' || c == '}' || c == '[' || c == ']' || c == ',' || c == ':')
    ensures i < |doc| && doc[i] == c && Begins(c)
            && ReadToken(doc, i) == NoComment(doc, i) == Token(Punctuation(c), i, i + 1)
    ensures SkipSpaces(doc, i) == i
  {
    hide OccursAt, Word, ReadString, ReadComment, ReadNumber;
    OccursChar(doc, i, [c], 0);
    assert SkipSpaces(doc, i) == i;
  }

  lemma SpaceSkipped(doc: string, i: nat, f: Features)
    requires i < |doc| && doc[i] == ' '
    ensures FirstToken(doc, i, f) == FirstToken(doc, i + 1, f)
  {
    assert SkipSpaces(doc, i) == SkipSpaces(doc, i + 1);
    assert ReadToken(doc, i) == ReadToken(doc, i + 1);
  }

  // readValue depends on where it starts only through its first token.
  lemma ValueByToken(doc: string, i: nat, j: nat, cur: Value, f: Features, rd: DoubleReader)
    requires i <= |doc| && j <= |doc| && FirstToken(doc, i, f) == FirstToken(doc, j, f)
    ensures ParseValue(doc, i, cur, f, rd) == ParseValue(doc, j, cur, f, rd)
  {
    hide FirstToken, ParseMembers, ParseArray, NumberValue, StringValue;
  }

  lemma WordRead(doc: string, i: nat, w: string, f: Features)
    requires w == "null" || w == "true" || w == "false"
    requires OccursAt(doc, i, w)
    ensures var kind := if w == "null" then NullToken else if w == "true" then TrueToken else FalseToken;
            FirstToken(doc, i, f) == Token(kind, i, i + |w|)
  {
    var rest := w[1..];
    assert w == [w[0]] + rest;
    OccursSplit(doc, i, [w[0]], rest);
    OccursChar(doc, i, w, 0);
    TokenHere(doc, i, f);
    assert rest == if w == "null" then "ull" else if w == "true" then "rue" else "alse";
    assert SkipSpaces(doc, i) == i;
  }

  lemma {:induction false} NumberStops(doc: string, i: nat, s: string)
    requires OccursAt(doc, i, s) && i + |s| < |doc| && !NumberChar(doc[i + |s|])
    requires forall k :: 0 <= k < |s| ==> NumberChar(s[k])
    ensures ReadNumber(doc, i) == i + |s|
    decreases |s|
  {
    if s != "" {
      assert s == [s[0]] + s[1..];
      OccursSplit(doc, i, [s[0]], s[1..]);
      OccursChar(doc, i, s, 0);
      NumberStops(doc, i + 1, s[1..]);
    }
  }

  lemma IntTextShape(n: int)
    ensures var s := IntText(n);
            s != "" && (IsDigit(s[0]) || s[0] == '-') && forall k :: 0 <= k < |s| ==> NumberChar(s[k])
  {
    var d := Digits(if n < 0 then -n else n);
    var s := IntText(n);
    forall k | 0 <= k < |s| ensures NumberChar(s[k]) {
      assert n >= 0 ==> s[k] == d[k];
      assert n < 0 && 0 < k ==> s[k] == d[k - 1];
    }
  }

  lemma NumberRead(doc: string, i: nat, n: int, cur: Value, f: Features, rd: DoubleReader)
    requires -MIN_MAGNITUDE <= n <= MAX_UINT && OccursAt(doc, i, IntText(n))
    requires i + |IntText(n)| < |doc| && !NumberChar(doc[i + |IntText(n)|])
    ensures ParseValue(doc, i, cur, f, rd) == Parsed(true, Tagged(n), i + |IntText(n)|, 0)
  {
    hide IntText, NumberOf, FirstToken;
    var s := IntText(n);
    IntTextShape(n);
    OccursChar(doc, i, s, 0);
    TokenHere(doc, i, f);
    OccursSplit(doc, i, [s[0]], s[1..]);
    assert s == [s[0]] + s[1..];
    NumberStops(doc, i + 1, s[1..]);
    NumberTokenHere(doc, i);
    IntegerRoundTrip(n);
  }

  lemma NumberTokenHere(doc: string, i: nat)
    requires i < |doc| && (IsDigit(doc[i]) || doc[i] == '-')
    ensures ReadToken(doc, i) == Token(NumberToken, i, ReadNumber(doc, i + 1))
  {
    assert SkipSpaces(doc, i) == i;
  }

  lemma QuotedToken(doc: string, i: nat, s: string)
    requires NulFree(s) && ByteString(s) && OccursAt(doc, i, Quoted(s))
    ensures i < |doc| && doc[i] == '\"' && Begins(doc[i]) && i + |Quoted(s)| <= |doc|
    ensures ReadToken(doc, i) == NoComment(doc, i) == Token(StringToken, i, i + |Quoted(s)|)
    ensures DecodeFrom(doc, i + 1, i + |Quoted(s)| - 1) == Text(s) && CStr(s) == s
  {
    hide ReadString, DecodeFrom, Escaped, OccursAt, ReadToken;
    assert Quoted(s) == "\"" + (Escaped(s) + "\"");
    OccursSplit(doc, i, "\"", Escaped(s) + "\"");
    OccursChar(doc, i, "\"", 0);
    OccursSplit(doc, i + 1, Escaped(s), "\"");
    QuotedScanned(doc, i + 1, s);
    UnquoteInverts(doc, i + 1, s);
    CStrWhole(s);
    StringTokenHere(doc, i);
  }

  lemma StringTokenHere(doc: string, i: nat)
    requires i < |doc| && doc[i] == '\"' && ReadString(doc, i + 1).ok
    ensures ReadToken(doc, i) == NoComment(doc, i) == Token(StringToken, i, ReadString(doc, i + 1).next)
  {
    hide ReadString;
    assert SkipSpaces(doc, i) == i;
  }

  lemma {:induction false} CStrWhole(s: string)
    requires NulFree(s)
    ensures CStr(s) == s
  {
    if s != "" {
      CStrWhole(s[1..]);
      assert s == [s[0]] + s[1..];
    }
  }

  // ---- the whole value ----

  // The first character of a printed value; it ends no container.
  lemma FastStarts(v: Value, st: Style)
    requires Plain(v) && Writable(v)
    ensures var s := Fast(v, st); s != "" && Begins(s[0]) && s[0] != ']' && s[0] != '}'
  {
    match v
    case Int(i) => IntTextShape(i);
    case UInt(u) => IntTextShape(u);
    case _ =>
  }

  ghost predicate Ended(doc: string, j: nat) { j < |doc| && !NumberChar(doc[j]) }

  // A printed value, followed by something that cannot continue a number, is read back in its normal form.
  lemma {:induction false} ValueReadBack(doc: string, i: nat, v: Value, st: Style, cur: Value, f: Features,
                                         rd: DoubleReader)
    requires Plain(v) && Writable(v) && OccursAt(doc, i, Fast(v, st)) && Ended(doc, i + |Fast(v, st)|)
    ensures i <= |doc| && ParseValue(doc, i, cur, f, rd) == Parsed(true, Normal(v), i + |Fast(v, st)|, 0)
    decreases Size(v), 0
  {
    hide FirstToken, ParseMembers, ParseArray, NumberValue, OccursAt, FastItems, FastMembers, DecodeFrom, Dense,
         NormalMembers, Quoted, Tagged, IntText;
    FastStarts(v, st);
    OccursChar(doc, i, Fast(v, st), 0);
    match v
    case Null => WordRead(doc, i, "null", f);
    case Bool(b) => WordRead(doc, i, BoolText(b), f);
    case Int(n) => NumberRead(doc, i, n, cur, f, rd);
    case UInt(n) => NumberRead(doc, i, n, cur, f, rd);
    case Str(s) =>
      QuotedToken(doc, i, s.value);
      TokenHere(doc, i, f);
    case Arr(items) =>
      var t := FastItems(items, 0, ArraySize(items), st) + "]";
      assert Fast(v, st) == "[" + t;
      OccursSplit(doc, i, "[", t);
      OneCharToken(doc, i, '[');
      TokenHere(doc, i, f);
      ArrayReadBack(doc, i + 1, items, st, f, rd);
    case Obj(members) =>
      var t := FastMembers(members, st) + "}";
      assert Fast(v, st) == "{" + t;
      OccursSplit(doc, i, "{", t);
      OneCharToken(doc, i, '{');
      TokenHere(doc, i, f);
      ObjectReadBack(doc, i + 1, members, st, f, rd);
  }

  lemma {:induction false} ArrayReadBack(doc: string, i: nat, items: Entries, st: Style, f: Features, rd: DoubleReader)
    requires EntriesPlain(items) && EntriesWritable(items)
    requires OccursAt(doc, i, FastItems(items, 0, ArraySize(items), st) + "]")
    ensures i <= |doc|
    ensures var size := ArraySize(items);
            ParseArray(doc, i, f, rd)
            == Parsed(true, Arr(Dense(items, size)), i + |FastItems(items, 0, size, st)| + 1, 0)
    decreases EntriesSize(items), 2
  {
    hide ParseValue, ParseItems, OccursAt, Fast, FastItems, Dense;
    var size := ArraySize(items);
    NothingToRead(items, st);
    if size == 0 {
      assert "" + "]" == "]";
      OneCharToken(doc, i, ']');
    } else {
      LookupPlain(items, Index(0));
      FastStarts(Lookup(items, Index(0)), st);
      ItemsStart(items, size, st);
      var t := FastItems(items, 0, size, st) + "]";
      OccursChar(doc, i, t, 0);
      assert SkipSpaces(doc, i) == i;
      ItemsReadBack(doc, i, items, 0, size, st, f, rd);
    }
  }

  lemma NothingToRead(items: Entries, st: Style)
    requires EntriesWritable(items)
    ensures FastItems(items, 0, 0, st) == "" && Dense(items, 0) == End
  {
  }

  lemma ItemsStart(items: Entries, size: nat, st: Style)
    requires EntriesWritable(items) && 0 < size && Writable(Lookup(items, Index(0)))
    requires Fast(Lookup(items, Index(0)), st) != ""
    ensures FastItems(items, 0, size, st) != ""
            && FastItems(items, 0, size, st)[0] == Fast(Lookup(items, Index(0)), st)[0]
  {
    hide Fast;
  }

  lemma ItemsUnfold(items: Entries, index: nat, size: nat, st: Style)
    requires EntriesWritable(items) && index < size && Writable(Lookup(items, Index(index)))
    ensures FastItems(items, index, size, st)
         == Fast(Lookup(items, Index(index)), st)
             + (if index + 1 == size then "" else "," + FastItems(items, index + 1, size, st))
    ensures Dense(items, index + 1)
              == Append(Dense(items, index), Entry(Index(index), Normal(Lookup(items, Index(index))), End))
  {
    hide Fast, Normal;
    var s := Fast(Lookup(items, Index(index)), st);
    assert s + "" == s;
  }

  lemma ItemHere(doc: string, i: nat, s: string, tail: string, close: string)
    requires OccursAt(doc, i, s + tail + close) && (tail == "" || tail[0] == ',') && (close == "]" || close == "}")
    ensures OccursAt(doc, i, s) && OccursAt(doc, i + |s|, tail + close) && Ended(doc, i + |s|)
  {
    hide OccursAt, NumberChar;
    Regrouped(s, tail, close);
    OccursSplit(doc, i, s, tail + close);
    RestStarts(doc, i + |s|, tail + close);
  }

  lemma Regrouped(a: string, b: string, c: string)
    ensures a + b + c == a + (b + c)
  {
  }

  lemma MorePlaces(doc: string, j: nat, t: string, end: string)
    requires OccursAt(doc, j, "," + t + end)
    ensures OccursAt(doc, j, ",") && OccursAt(doc, j + 1, t + end)
  {
    hide OccursAt;
    Regrouped(",", t, end);
    OccursSplit(doc, j, ",", t + end);
  }

  // One round of the loop of readArray.
  lemma OneItemStep(doc: string, i: nat, items: Entries, index: nat, f: Features, rd: DoubleReader)
    requires i <= |doc| && ParseValue(doc, i, Lookup(items, Index(index)), f, rd).ok
    ensures var r := ParseValue(doc, i, Lookup(items, Index(index)), f, rd);
            var t := NoComment(doc, r.next);
            var more := Put(items, Index(index), r.v);
            && (t.kind == ArrayEnd ==> ParseItems(doc, i, items, index, f, rd) == Parsed(true, Arr(more), t.stop, 0))
            && (t.kind == ArraySeparator ==>
                ParseItems(doc, i, items, index, f, rd) == ParseItems(doc, t.stop, more, index + 1, f, rd))
  {
    hide ParseValue, NoComment, Put, Recover;
  }

  // One round of the loop of readObject.
  lemma OneMemberStep(doc: string, i: nat, members: Entries, name: string, f: Features, rd: DoubleReader)
    requires i <= |doc| && NoComment(doc, i).kind == StringToken
             && ParseMember(doc, NoComment(doc, i), members, f, rd).Member?
    ensures var m := ParseMember(doc, NoComment(doc, i), members, f, rd);
            var t := NoComment(doc, m.next);
            ReadToken(doc, m.next) == t ==>
              && (t.kind == ObjectEnd ==>
                    ParseMembers(doc, i, members, name, f, rd) == Parsed(true, Obj(m.members), t.stop, 0))
              && (t.kind == ArraySeparator ==>
                    ParseMembers(doc, i, members, name, f, rd) == ParseMembers(doc, t.stop, m.members, m.name, f, rd))
  {
    hide ParseMember, NoComment, Recover;
  }

  lemma MembersJoin(acc: Entries, k: Key, v: Value, more: Entries)
    ensures Append(Append(acc, Entry(k, v, End)), more) == Append(acc, Entry(k, v, more))
  {
    AppendAssoc(acc, Entry(k, v, End), more);
  }

  // The loop of readArray from element index on.
  lemma {:induction false} ItemsReadBack(doc: string, i: nat, items: Entries, index: nat, size: nat, st: Style,
                                         f: Features, rd: DoubleReader)
    requires EntriesPlain(items) && EntriesWritable(items) && index < size
    requires OccursAt(doc, i, FastItems(items, index, size, st) + "]")
    ensures i <= |doc|
    ensures ParseItems(doc, i, Dense(items, index), index, f, rd)
         == Parsed(true, Arr(Dense(items, size)), i + |FastItems(items, index, size, st)| + 1, 0)
    decreases EntriesSize(items), 1, size - index
  {
    hide ParseValue, ParseItems, OccursAt, Fast, FastItems, Dense, NoComment, ReadToken, Put, Normal, FirstToken,
         Append;
    LookupPlain(items, Index(index));
    var v := Lookup(items, Index(index));
    var s := Fast(v, st);
    ItemsUnfold(items, index, size, st);
    DenseBefore(items, index);
    var tail := if index + 1 == size then "" else "," + FastItems(items, index + 1, size, st);
    ItemHere(doc, i, s, tail, "]");
    ValueReadBack(doc, i, v, st, Null, f, rd);
    OneItemStep(doc, i, Dense(items, index), index, f, rd);
    if index + 1 == size {
      assert tail + "]" == "]";
      OneCharToken(doc, i + |s|, ']');
    } else {
      MorePlaces(doc, i + |s|, FastItems(items, index + 1, size, st), "]");
      OneCharToken(doc, i + |s|, ',');
      ItemsReadBack(doc, i + |s| + 1, items, index + 1, size, st, f, rd);
    }
  }

  lemma {:induction false} ObjectReadBack(doc: string, i: nat, members: Entries, st: Style, f: Features,
                                          rd: DoubleReader)
    requires EntriesPlain(members) && EntriesWritable(members) && AllNames(members) && Sorted(members)
    requires OccursAt(doc, i, FastMembers(members, st) + "}")
    ensures i <= |doc|
    ensures ParseMembers(doc, i, End, "", f, rd)
              == Parsed(true, Obj(NormalMembers(members)), i + |FastMembers(members, st)| + 1, 0)
    decreases EntriesSize(members), 2
  {
    hide OccursAt, Fast, NoComment, ReadToken, ParseMember, ParseMembersEnd, Normal;
    if members.End? {
      assert FastMembers(members, st) + "}" == "}";
      OneCharToken(doc, i, '}');
    } else {
      MembersReadBack(doc, i, members, End, "", st, f, rd);
    }
  }

  lemma MembersUnfold(e: Entries, st: Style)
    requires EntriesWritable(e) && e.Entry? && e.key.Name?
    ensures Writable(e.val) && EntriesWritable(e.rest)
    ensures var more := if e.rest.End? then "" else "," + FastMembers(e.rest, st);
            var sp := if st.yaml then " " else "";
            && |FastMembers(e, st)| == |Quoted(e.key.name)| + 1 + |sp| + |Fast(e.val, st)| + |more|
            && FastMembers(e, st) + "}" == Quoted(e.key.name) + (":" + (sp + (Fast(e.val, st) + (more + "}"))))
    ensures NormalMembers(e) == Entry(e.key, Normal(e.val), NormalMembers(e.rest))
  {
    hide Fast, Normal, Quoted, Colon;
    MembersStep(e, st);
    ColonText(st);
    var more := if e.rest.End? then "" else "," + FastMembers(e.rest, st);
    MemberText(Quoted(e.key.name), if st.yaml then " " else "", Fast(e.val, st), more);
  }

  lemma ColonText(st: Style)
    ensures Colon(st) == ":" + (if st.yaml then " " else "")
  {
  }

  lemma MemberText(q: string, sp: string, v: string, more: string)
    ensures q + ((":" + sp) + v) + more + "}" == q + (":" + (sp + (v + (more + "}"))))
  {
    Regrouped(":", sp, v);
    Regrouped(q, ":" + (sp + v), more);
    Regrouped(q, (":" + (sp + v)) + more, "}");
    assert (":" + (sp + v)) + more + "}" == ":" + (sp + (v + (more + "}")));
  }

  // The loop of readObject from a member on, with the members before it read.
  lemma {:induction false} MembersReadBack(doc: string, i: nat, e: Entries, acc: Entries, name: string, st: Style,
                                           f: Features, rd: DoubleReader)
    requires e.Entry? && EntriesPlain(e) && EntriesWritable(e) && AllNames(e) && Sorted(e) && Before(acc, e.key)
    requires OccursAt(doc, i, FastMembers(e, st) + "}")
    ensures i <= |doc|
    ensures ParseMembers(doc, i, acc, name, f, rd)
              == Parsed(true, Obj(Append(acc, NormalMembers(e))), i + |FastMembers(e, st)| + 1, 0)
    decreases EntriesSize(e), 1
  {
    hide ParseValue, ParseMembers, OccursAt, Fast, FastMembers, NoComment, ReadToken, ParseMember, Normal,
         NormalMembers, Quoted, FirstToken, Append;
    MembersUnfold(e, st);
    MemberReadBack(doc, i, e, acc, st, f, rd);
    var tail := if e.rest.End? then "" else "," + FastMembers(e.rest, st);
    var j := i + |FastMembers(e, st)| - |tail|;
    OneMemberStep(doc, i, acc, name, f, rd);
    MembersJoin(acc, e.key, Normal(e.val), NormalMembers(e.rest));
    if e.rest.End? {
      assert tail + "}" == "}";
      OneCharToken(doc, j, '}');
      NormalNothing();
    } else {
      MorePlaces(doc, j, FastMembers(e.rest, st), "}");
      OneCharToken(doc, j, ',');
      BeforeAppend(acc, e.key, Normal(e.val), e.rest.key);
      MembersReadBack(doc, j + 1, e.rest, Append(acc, Entry(e.key, Normal(e.val), End)), e.key.name, st, f, rd);
    }
  }

  lemma NormalNothing()
    ensures NormalMembers(End) == End
  {
  }

  // One member, up to what follows its value.
  lemma {:induction false} MemberReadBack(doc: string, i: nat, e: Entries, acc: Entries, st: Style, f: Features,
                                          rd: DoubleReader)
    requires e.Entry? && EntriesPlain(e) && EntriesWritable(e) && AllNames(e) && Before(acc, e.key)
    requires OccursAt(doc, i, FastMembers(e, st) + "}")
    ensures var tail := if e.rest.End? then "" else "," + FastMembers(e.rest, st);
            var j := i + |FastMembers(e, st)| - |tail|;
            var t := NoComment(doc, i);
            && i <= j && OccursAt(doc, j, tail + "}") && t.kind == StringToken
            && ParseMember(doc, t, acc, f, rd) == Member(Append(acc, Entry(e.key, Normal(e.val), End)), e.key.name, j)
    ensures i <= |doc|
    decreases EntriesSize(e), 0
  {
    hide ParseValue, OccursAt, Fast, FastMembers, NoComment, ReadToken, Normal, NormalMembers, Quoted, FirstToken,
         Recover, DecodeFrom, Put, ParseMember, NulFree, ByteString, Sorted, Before;
    MembersUnfold(e, st);
    var tail := if e.rest.End? then "" else "," + FastMembers(e.rest, st);
    var q, sp, v := Quoted(e.key.name), if st.yaml then " " else "", Fast(e.val, st);
    MemberPlaces(doc, i, q, sp, v, tail + "}");
    QuotedToken(doc, i, e.key.name);
    QuotedLength(e.key.name);
    OneCharToken(doc, i + |q|, ':');
    var k := i + |q| + 1;
    ValueReadBack(doc, k + |sp|, e.val, st, Null, f, rd);
    AfterColon(doc, k, sp, Null, f, rd);
    PutLast(acc, e.key, Normal(e.val));
    MemberParsed(doc, Token(StringToken, i, i + |q|), acc, e.key.name, f, rd);
  }

  lemma MemberPlaces(doc: string, i: nat, q: string, sp: string, v: string, rest: string)
    requires OccursAt(doc, i, q + (":" + (sp + (v + rest)))) && rest != ""
    requires rest[0] == '}' || rest[0] == ',' || rest[0] == ']' || rest[0] == '\n'
    ensures OccursAt(doc, i, q) && OccursAt(doc, i + |q|, ":") && OccursAt(doc, i + |q| + 1, sp)
    ensures OccursAt(doc, i + |q| + 1 + |sp|, v) && OccursAt(doc, i + |q| + 1 + |sp| + |v|, rest)
    ensures Ended(doc, i + |q| + 1 + |sp| + |v|) && i <= |doc|
  {
    hide OccursAt, NumberChar;
    OccursSplit(doc, i, q, ":" + (sp + (v + rest)));
    OccursSplit(doc, i + |q|, ":", sp + (v + rest));
    OccursSplit(doc, i + |q| + 1, sp, v + rest);
    OccursSplit(doc, i + |q| + 1 + |sp|, v, rest);
    OccursChar(doc, i + |q|, ":", 0);
    RestStarts(doc, i + |q| + 1 + |sp| + |v|, rest);
  }

  // The blank that YAML wants behind a colon is skipped.
  lemma AfterColon(doc: string, k: nat, sp: string, cur: Value, f: Features, rd: DoubleReader)
    requires OccursAt(doc, k, sp) && (sp == "" || sp == " ")
    ensures k + |sp| <= |doc| && ParseValue(doc, k, cur, f, rd) == ParseValue(doc, k + |sp|, cur, f, rd)
  {
    hide ParseValue, FirstToken;
    if sp == " " {
      OccursChar(doc, k, sp, 0);
      SpaceSkipped(doc, k, f);
      ValueByToken(doc, k, k + 1, cur, f, rd);
    }
  }

  lemma MemberParsed(doc: string, t: Token, acc: Entries, name: string, f: Features, rd: DoubleReader)
    requires t.start + 2 <= t.stop <= |doc| && DecodeFrom(doc, t.start + 1, t.stop - 1) == Text(name)
             && CStr(name) == name
    requires ReadToken(doc, t.stop).kind == MemberSeparator
    requires Lookup(acc, Name(name)) == Null && ParseValue(doc, ReadToken(doc, t.stop).stop, Null, f, rd).ok
    ensures var r := ParseValue(doc, ReadToken(doc, t.stop).stop, Null, f, rd);
            ParseMember(doc, t, acc, f, rd) == Member(Put(acc, Name(name), r.v), name, r.next)
  {
    hide ParseValue, ReadToken, DecodeFrom, Put;
  }

  lemma QuotedLength(s: string)
    ensures 2 <= |Quoted(s)|
  {
  }

  lemma RestStarts(doc: string, j: nat, rest: string)
    requires OccursAt(doc, j, rest) && rest != ""
             && (rest[0] == '}' || rest[0] == ',' || rest[0] == ']' || rest[0] == '\n')
    ensures Ended(doc, j)
  {
    OccursChar(doc, j, rest, 0);
  }

  // ---- the document ----

  predicate RootAllowed(v: Value, f: Features) {
    f.strictRoot ==> v.Arr? || v.Obj? || v.Null?
  }

  // Reading what the compact printer wrote: no error, but for a root that strictRoot does not allow,
  // and the value up to the tags of integers and the gaps of arrays.
  lemma WrittenReadsBack(v: Value, st: Style, root: Value, f: Features, rd: DoubleReader)
    requires Plain(v)
    ensures Writable(v)
    ensures var doc := Fast(v, st) + "\n";
            ParseDocument(doc, root, f, rd)
                == Parsed(RootAllowed(v, f), Normal(v), |doc|, if RootAllowed(v, f) then 0 else 1)
  {
    hide Fast, ParseValue, FirstToken, Dense, NormalMembers;
    PlainWritable(v);
    var s := Fast(v, st);
    var doc := s + "\n";
    OccursMiddle("", s, "\n");
    assert doc == "" + s + "\n";
    assert doc[|s|] == '\n';
    ValueReadBack(doc, 0, v, st, root, f, rd);
    OnlyBlankLeft(doc, |s|, f);
  }

  lemma OnlyBlankLeft(doc: string, i: nat, f: Features)
    requires i + 1 == |doc| && doc[i] == '\n'
    ensures FirstToken(doc, i, f).stop == |doc|
  {
    assert SkipSpaces(doc, i + 1) == i + 1;
  }

  // ---- values that only differ in tags and gaps ----

  predicate Alike(v: Value, w: Value)
    decreases Size(v), 0
  {
    match v
    case Int(i) => w == Int(i) || w == UInt(i)
    case UInt(u) => w == Int(u) || w == UInt(u)
    case Arr(items) => w.Arr? && ArraySize(w.items) == ArraySize(items) && ItemsAlike(items, w.items, ArraySize(items))
    case Obj(members) => w.Obj? && MembersAlike(members, w.members)
    case _ => w == v
  }

  // The first n elements are, absent ones counting as null.
  predicate ItemsAlike(a: Entries, b: Entries, n: nat)
    decreases EntriesSize(a), n
  {
    n == 0 || (LookupFits(a, Index(n - 1)); Alike(Lookup(a, Index(n - 1)), Lookup(b, Index(n - 1)))
        && ItemsAlike(a, b, n - 1))
  }

  predicate MembersAlike(a: Entries, b: Entries)
    decreases EntriesSize(a), 0
  {
    if a.End? || b.End? then a == b else a.key == b.key && Alike(a.val, b.val) && MembersAlike(a.rest, b.rest)
  }

  lemma {:induction false} ItemAlike(a: Entries, b: Entries, n: nat, i: nat)
    requires ItemsAlike(a, b, n) && i < n
    ensures Size(Lookup(a, Index(i))) <= EntriesSize(a) && Alike(Lookup(a, Index(i)), Lookup(b, Index(i)))
    decreases n
  {
    hide Alike, Lookup;
    LookupFits(a, Index(i));
    if i < n - 1 {
      ItemAlike(a, b, n - 1, i);
    }
  }

  // Such values print alike.
  lemma {:induction false} AlikePrinted(v: Value, w: Value, st: Style)
    requires Writable(v) && Writable(w) && Alike(v, w)
    ensures Fast(v, st) == Fast(w, st)
    decreases Size(v), 0
  {
    hide FastItems, FastMembers, ItemsAlike, MembersAlike;
    match v
    case Arr(items) => ItemsPrintedAlike(items, w.items, 0, ArraySize(items), st);
    case Obj(members) => MembersPrintedAlike(members, w.members, st);
    case _ =>
  }

  lemma {:induction false} ItemsPrintedAlike(a: Entries, b: Entries, index: nat, size: nat, st: Style)
    requires EntriesWritable(a) && EntriesWritable(b) && ItemsAlike(a, b, size) && index <= size
    ensures FastItems(a, index, size, st) == FastItems(b, index, size, st)
    decreases EntriesSize(a), 1, size - index
  {
    hide Fast, Alike, Lookup, ItemsAlike;
    if index < size {
      ItemAlike(a, b, size, index);
      LookupFits(a, Index(index));
      LookupFits(b, Index(index));
      AlikePrinted(Lookup(a, Index(index)), Lookup(b, Index(index)), st);
      ItemsPrintedAlike(a, b, index + 1, size, st);
    }
  }

  lemma {:induction false} MembersPrintedAlike(a: Entries, b: Entries, st: Style)
    requires EntriesWritable(a) && EntriesWritable(b) && MembersAlike(a, b)
    ensures FastMembers(a, st) == FastMembers(b, st)
    decreases EntriesSize(a), 0
  {
    hide Fast, Alike, KeyText, Colon;
    if a.Entry? {
      AlikePrinted(a.val, b.val, st);
      MembersPrintedAlike(a.rest, b.rest, st);
    }
  }

  // The normal form is alike, and can be printed and read in turn.
  lemma {:induction false} NormalAlike(v: Value)
    requires Plain(v)
    ensures Alike(v, Normal(v)) && Plain(Normal(v)) && WellFormed(Normal(v))
    decreases Size(v), 0
  {
    hide Dense, NormalMembers, ItemsAlike, MembersAlike;
    match v
    case Arr(items) => DenseAlike(items, ArraySize(items));
    case Obj(members) => MembersNormalAlike(members);
    case _ =>
  }

  lemma {:induction false} AddLast(e: Entries, n: nat, v: Value)
    requires Before(e, Index(n)) && Sorted(e) && AllIndices(e) && EntriesWellFormed(e) && EntriesPlain(e)
             && WellFormed(v) && Plain(v)
    ensures var g := Append(e, Entry(Index(n), v, End));
            Sorted(g) && AllIndices(g) && EntriesWellFormed(g) && EntriesPlain(g) && ArraySize(g) == n + 1
            && Lookup(g, Index(n)) == v && forall i: nat :: i < n ==> Lookup(g, Index(i)) == Lookup(e, Index(i))
  {
    hide WellFormed, Plain;
    if e.Entry? {
      AddLast(e.rest, n, v);
    }
  }

  lemma {:induction false} DenseAlike(items: Entries, n: nat)
    requires EntriesPlain(items)
    ensures var g := Dense(items, n);
            && ItemsAlike(items, g, n) && ArraySize(g) == n && Sorted(g) && AllIndices(g) && EntriesWellFormed(g)
              && EntriesPlain(g)
    decreases EntriesSize(items), n
  {
    hide Alike, Plain, WellFormed, Normal;
    if n > 0 {
      var v := Lookup(items, Index(n - 1));
      LookupFits(items, Index(n - 1));
      LookupPlain(items, Index(n - 1));
      DenseAlike(items, n - 1);
      DenseBefore(items, n - 1);
      NormalAlike(v);
      AddLast(Dense(items, n - 1), n - 1, Normal(v));
      ItemsAlikeBelow(items, Dense(items, n - 1), Dense(items, n), n - 1);
    }
  }

  lemma {:induction false} ItemsAlikeBelow(items: Entries, a: Entries, b: Entries, n: nat)
    requires ItemsAlike(items, a, n) && forall i: nat :: i < n ==> Lookup(b, Index(i)) == Lookup(a, Index(i))
    ensures ItemsAlike(items, b, n)
  {
    hide Alike, Lookup;
    if n > 0 {
      ItemsAlikeBelow(items, a, b, n - 1);
    }
  }

  lemma {:induction false} MembersNormalAlike(e: Entries)
    requires EntriesPlain(e) && AllNames(e) && Sorted(e)
    ensures var g := NormalMembers(e);
            && MembersAlike(e, g) && EntriesPlain(g) && AllNames(g) && Sorted(g) && EntriesWellFormed(g)
    decreases EntriesSize(e), 0
  {
    hide Alike, Plain, WellFormed, Normal;
    if e.Entry? {
      NormalAlike(e.val);
      MembersNormalAlike(e.rest);
    }
  }

  // Writing, reading and writing again gives the first text.
  lemma WriteReadWrite(v: Value, st: Style, root: Value, f: Features, rd: DoubleReader)
    requires Plain(v)
    ensures Writable(v)
    ensures var w := ParseDocument(Fast(v, st) + "\n", root, f, rd).v;
            Alike(v, w) && Writable(w) && WellFormed(w) && Fast(w, st) == Fast(v, st)
  {
    hide Fast, ParseDocument, Normal, Alike;
    WrittenReadsBack(v, st, root, f, rd);
    NormalAlike(v);
    PlainWritable(Normal(v));
    AlikePrinted(v, Normal(v), st);
  }

  // Two values print alike exactly when they have the same normal form.
  lemma SameTextSameValue(v: Value, w: Value, st: Style)
    requires Plain(v) && Plain(w)
    ensures Writable(v) && Writable(w)
    ensures Fast(v, st) == Fast(w, st) <==> Normal(v) == Normal(w)
  {
    hide Fast, ParseDocument, Normal, Alike;
    var f, rd := Features(true, false), (s: string) => None;
    WrittenReadsBack(v, st, Null, f, rd);
    WrittenReadsBack(w, st, Null, f, rd);
    NormalAlike(v);
    NormalAlike(w);
    PlainWritable(Normal(v));
    PlainWritable(Normal(w));
    AlikePrinted(v, Normal(v), st);
    AlikePrinted(w, Normal(w), st);
  }
}

/** Reading back what the line-breaking printer prints. */
module JsonStyledBack {
  import opened Substring
  import opened JsonValue
  import opened JsonString
  import opened JsonParse
  import opened JsonFast
  import opened JsonRoundTrip
  import opened JsonStyled
  import opened JsonStyledWriter

  lemma {:induction false} GapSkipped(doc: string, i: nat, g: string, f: Features)
    requires OccursAt(doc, i, g) && Blank(g)
    ensures i + |g| <= |doc| && SkipSpaces(doc, i) == SkipSpaces(doc, i + |g|)
    ensures ReadToken(doc, i) == ReadToken(doc, i + |g|) && NoComment(doc, i) == NoComment(doc, i + |g|)
    ensures FirstToken(doc, i, f) == FirstToken(doc, i + |g|, f)
    decreases |g|
  {
    hide OccursAt, SkipSpaces, ReadToken, NoComment, IsSpace;
    if g == "" {
      OccursWithin(doc, i, g);
    } else {
      assert g == [g[0]] + g[1..];
      OccursChar(doc, i, g, 0);
      OccursSplit(doc, i, [g[0]], g[1..]);
      GapSkipped(doc, i + 1, g[1..], f);
      OneSkipped(doc, i);
    }
  }

  lemma OneSkipped(doc: string, i: nat)
    requires i < |doc| && IsSpace(doc[i])
    ensures SkipSpaces(doc, i) == SkipSpaces(doc, i + 1) && ReadToken(doc, i) == ReadToken(doc, i + 1)
    ensures NoComment(doc, i) == NoComment(doc, i + 1)
  {
    assert SkipSpaces(doc, i) == SkipSpaces(doc, i + 1);
    assert ReadToken(doc, i) == ReadToken(doc, i + 1);
  }

  // The first character of a value; it ends no container.
  lemma StyledStarts(v: Value, ind: string, st: Style)
    requires Plain(v) && Writable(v)
    ensures var s := Styled(v, ind, st); s != "" && Begins(s[0]) && s[0] != ']' && s[0] != '}'
  {
    hide Fast, StyledItems, StyledMembers, AnyNested;
    if !v.Arr? && !v.Obj? {
      FastStarts(v, st);
    }
  }

  // A styled value, followed by something that cannot continue a number, is read back in its normal form.
  lemma {:induction false} StyledReadBack(doc: string, i: nat, v: Value, ind: string, st: Style, cur: Value,
                                          f: Features, rd: DoubleReader)
    requires Plain(v) && Writable(v) && Blank(ind) && OccursAt(doc, i, Styled(v, ind, st))
             && Ended(doc, i + |Styled(v, ind, st)|)
    ensures i <= |doc| && ParseValue(doc, i, cur, f, rd) == Parsed(true, Normal(v), i + |Styled(v, ind, st)|, 0)
    decreases Size(v), 0
  {
    hide FirstToken, ParseMembers, ParseArray, NumberValue, StringValue, OccursAt, Fast, FastItems, FastMembers, Dense,
         NormalMembers, StyledItems, StyledMembers, AnyNested;
    if !Nested(v) {
      FlatStyled(v, ind, st);
      ValueReadBack(doc, i, v, st, cur, f, rd);
    } else if v.Arr? {
      var size, deeper := ArraySize(v.items), ind + INDENT;
      if Styled(v, ind, st) == "[" + (StyledItems(v.items, 0, size, " ", ind, st) + " ]") {
        assert " " + "]" == " ]";
        BracketReadBack(doc, i, v.items, " ", ind, " ", st, f, rd);
      } else {
        assert ("\n" + ind) + "]" == "\n" + ind + "]";
        BracketReadBack(doc, i, v.items, "\n" + deeper, deeper, "\n" + ind, st, f, rd);
      }
      OneCharToken(doc, i, '[');
      TokenHere(doc, i, f);
    } else {
      var deeper := ind + INDENT;
      var t := StyledMembers(v.members, deeper, st) + (("\n" + ind) + "}");
      assert ("\n" + ind) + "}" == "\n" + ind + "}";
      assert Styled(v, ind, st) == "{" + t;
      OccursSplit(doc, i, "{", t);
      OneCharToken(doc, i, '{');
      TokenHere(doc, i, f);
      MembersBack(doc, i + 1, v.members, End, "", deeper, "\n" + ind, st, f, rd);
    }
  }

  // From the opening bracket of an array that is not empty.
  lemma {:induction false} BracketReadBack(doc: string, i: nat, items: Entries, gap: string, ind: string, post: string,
                                           st: Style, f: Features, rd: DoubleReader)
    requires EntriesPlain(items) && EntriesWritable(items) && ArraySize(items) > 0
    requires Blank(ind) && Blank(gap) && Blank(post) && post != ""
    requires OccursAt(doc, i, "[" + (StyledItems(items, 0, ArraySize(items), gap, ind, st) + (post + "]")))
    ensures i + 1 <= |doc| && OccursAt(doc, i, "[")
    ensures ParseArray(doc, i + 1, f, rd)
         == Parsed(true, Arr(Dense(items, ArraySize(items))), i + 1
             + |StyledItems(items, 0, ArraySize(items), gap, ind, st)| + |post| + 1, 0)
    decreases EntriesSize(items), 2
  {
    hide ParseValue, ParseItems, OccursAt, Styled, StyledItems, Dense, Normal, FirstToken, NoComment, ReadToken;
    var size := ArraySize(items);
    var t := StyledItems(items, 0, size, gap, ind, st) + (post + "]");
    OccursSplit(doc, i, "[", t);
    FirstItemStarts(doc, i + 1, items, gap, ind, post, st, f);
    DenseNothing(items);
    ItemsBack(doc, i + 1, items, 0, size, gap, ind, post, st, f, rd);
    ItemsByToken(doc, i + 1, i + 1 + |gap|, End, 0, f, rd);
  }

  lemma FirstItemStarts(doc: string, i: nat, items: Entries, gap: string, ind: string, post: string, st: Style,
                        f: Features)
    requires EntriesPlain(items) && EntriesWritable(items) && ArraySize(items) > 0 && Blank(gap)
    requires OccursAt(doc, i, StyledItems(items, 0, ArraySize(items), gap, ind, st) + (post + "]"))
    ensures SkipSpaces(doc, i) == i + |gap| < |doc| && doc[i + |gap|] != ']'
    ensures FirstToken(doc, i, f) == FirstToken(doc, i + |gap|, f)
  {
    hide OccursAt, Styled, StyledItems, FirstToken, NoComment, ReadToken, Blank, EntriesPlain, EntriesWritable;
    var size := ArraySize(items);
    LookupPlain(items, Index(0));
    var v := Lookup(items, Index(0));
    var s := Styled(v, ind, st);
    StyledStarts(v, ind, st);
    StyledItemsStep(items, 0, size, gap, ind, st);
    var tail := if size == 1 then "" else "," + StyledItems(items, 1, size, gap, ind, st);
    var more := tail + (post + "]");
    Regrouped(gap, s + tail, post + "]");
    Regrouped(s, tail, post + "]");
    OccursSplit(doc, i, gap, s + more);
    OccursChar(doc, i + |gap|, s + more, 0);
    GapSkipped(doc, i, gap, f);
    assert SkipSpaces(doc, i + |gap|) == i + |gap|;
  }

  lemma DenseNothing(items: Entries)
    ensures Dense(items, 0) == End
  {
  }

  lemma ItemsByToken(doc: string, i: nat, j: nat, items: Entries, index: nat, f: Features, rd: DoubleReader)
    requires i <= |doc| && j <= |doc| && FirstToken(doc, i, f) == FirstToken(doc, j, f)
    ensures ParseItems(doc, i, items, index, f, rd) == ParseItems(doc, j, items, index, f, rd)
  {
    hide ParseValue, NoComment, FirstToken, Recover, Put;
    ValueByToken(doc, i, j, Lookup(items, Index(index)), f, rd);
  }

  // The loop of readArray from the gap before element index on.
  lemma {:induction false} ItemsBack(doc: string, i: nat, items: Entries, index: nat, size: nat, gap: string,
                                     ind: string, post: string, st: Style, f: Features, rd: DoubleReader)
    requires EntriesPlain(items) && EntriesWritable(items) && index < size
    requires Blank(ind) && Blank(gap) && Blank(post) && post != ""
    requires OccursAt(doc, i, StyledItems(items, index, size, gap, ind, st) + (post + "]"))
    ensures i <= |doc|
    ensures ParseItems(doc, i, Dense(items, index), index, f, rd)
         == Parsed(true, Arr(Dense(items, size)), i + |StyledItems(items, index, size, gap, ind, st)| + |post| + 1, 0)
    decreases EntriesSize(items), 1, size - index
  {
    hide ParseValue, ParseItems, OccursAt, Styled, Fast, FastItems, StyledItems, Dense, NoComment, ReadToken, Put,
         Normal, FirstToken, Blank, Append;
    LookupPlain(items, Index(index));
    var v := Lookup(items, Index(index));
    var s := Styled(v, ind, st);
    StyledItemsStep(items, index, size, gap, ind, st);
    ItemsUnfold(items, index, size, st);
    DenseBefore(items, index);
    var tail := if index + 1 == size then "" else "," + StyledItems(items, index + 1, size, gap, ind, st);
    ItemPlaces(doc, i, gap, s, tail, post, f);
    var j := i + |gap|;
    StyledReadBack(doc, j, v, ind, st, Null, f, rd);
    ItemsByToken(doc, i, j, Dense(items, index), index, f, rd);
    OneItemStep(doc, j, Dense(items, index), index, f, rd);
    if index + 1 == size {
      LastPlaces(doc, j + |s|, post, "]", f);
      OneCharToken(doc, j + |s| + |post|, ']');
    } else {
      var t := StyledItems(items, index + 1, size, gap, ind, st);
      MorePlaces(doc, j + |s|, t, post + "]");
      OneCharToken(doc, j + |s|, ',');
      ItemsBack(doc, j + |s| + 1, items, index + 1, size, gap, ind, post, st, f, rd);
    }
  }

  lemma ItemPlaces(doc: string, i: nat, gap: string, s: string, tail: string, post: string, f: Features)
    requires Blank(gap) && Blank(post) && post != "" && (tail == "" || tail[0] == ',')
    requires OccursAt(doc, i, gap + (s + tail) + (post + "]"))
    ensures i + |gap| <= |doc| && OccursAt(doc, i + |gap|, s) && OccursAt(doc, i + |gap| + |s|, tail + (post + "]"))
    ensures Ended(doc, i + |gap| + |s|) && FirstToken(doc, i, f) == FirstToken(doc, i + |gap|, f)
  {
    hide OccursAt, FirstToken, Blank, NumberChar;
    var more := tail + (post + "]");
    Regrouped(gap, s + tail, post + "]");
    Regrouped(s, tail, post + "]");
    OccursSplit(doc, i, gap, s + more);
    GapSkipped(doc, i, gap, f);
    OccursSplit(doc, i + |gap|, s, more);
    RestEnds(doc, i + |gap| + |s|, tail, post, "]");
  }

  lemma LastPlaces(doc: string, j: nat, post: string, close: string, f: Features)
    requires Blank(post) && OccursAt(doc, j, "" + (post + close))
    ensures j + |post| <= |doc| && OccursAt(doc, j + |post|, close)
    ensures ReadToken(doc, j) == ReadToken(doc, j + |post|) && NoComment(doc, j) == NoComment(doc, j + |post|)
  {
    hide OccursAt, ReadToken, NoComment, Blank;
    assert "" + (post + close) == post + close;
    OccursSplit(doc, j, post, close);
    GapSkipped(doc, j, post, f);
  }

  // What follows a value does not continue it.
  lemma RestEnds(doc: string, j: nat, tail: string, post: string, close: string)
    requires OccursAt(doc, j, tail + (post + close)) && Blank(post) && post != "" && (tail == "" || tail[0] == ',')
    ensures Ended(doc, j)
  {
    hide OccursAt;
    OccursChar(doc, j, tail + (post + close), 0);
    assert (tail + (post + close))[0] == if tail == "" then post[0] else tail[0];
  }

  lemma StyledMembersUnfold(e: Entries, ind: string, st: Style, end: string)
    requires EntriesWritable(e) && e.Entry? && e.key.Name?
    ensures Writable(e.val) && EntriesWritable(e.rest)
    ensures var more := if e.rest.End? then "" else "," + StyledMembers(e.rest, ind, st);
            && |StyledMembers(e, ind, st)|
                == |"\n" + ind| + |Quoted(e.key.name)| + 3 + |Styled(e.val, ind, st)| + |more|
            && StyledMembers(e, ind, st) + end
                == ("\n" + ind) + (Quoted(e.key.name) + (" " + (":" + (" " + (Styled(e.val, ind, st) + (more + end))))))
    ensures NormalMembers(e) == Entry(e.key, Normal(e.val), NormalMembers(e.rest))
  {
    hide Styled, Quoted, Normal;
    StyledMembersStep(e, ind, st);
    var g, q, s := "\n" + ind, Quoted(e.key.name), Styled(e.val, ind, st);
    var more := if e.rest.End? then "" else "," + StyledMembers(e.rest, ind, st);
    assert g + (q + (" : " + s)) + more + end == g + (q + (" : " + (s + (more + end))));
    ColonSpread(s + (more + end));
  }

  lemma ColonSpread(s: string)
    ensures " : " + s == " " + (":" + (" " + s))
  {
  }

  // The loop of readObject from the gap before a member on, with the members before it read.
  lemma {:induction false} MembersBack(doc: string, i: nat, e: Entries, acc: Entries, name: string, ind: string,
                                       post: string, st: Style, f: Features, rd: DoubleReader)
    requires e.Entry? && EntriesPlain(e) && EntriesWritable(e) && AllNames(e) && Sorted(e) && Before(acc, e.key)
    requires Blank(ind) && Blank(post) && post != ""
    requires OccursAt(doc, i, StyledMembers(e, ind, st) + (post + "}"))
    ensures i <= |doc|
    ensures ParseMembers(doc, i, acc, name, f, rd)
         == Parsed(true, Obj(Append(acc, NormalMembers(e))), i + |StyledMembers(e, ind, st)| + |post| + 1, 0)
    decreases EntriesSize(e), 1
  {
    hide ParseValue, ParseMembers, OccursAt, Styled, Fast, FastMembers, StyledMembers, NoComment, ReadToken,
         ParseMember, Normal, NormalMembers, Quoted, FirstToken, Blank, Append;
    StyledMembersUnfold(e, ind, st, post + "}");
    MemberBack(doc, i, e, acc, ind, post, st, f, rd);
    OneMemberStep(doc, i, acc, name, f, rd);
    var tail := if e.rest.End? then "" else "," + StyledMembers(e.rest, ind, st);
    var j := i + |StyledMembers(e, ind, st)| - |tail|;
    var last := Entry(e.key, Normal(e.val), End);
    MembersJoin(acc, e.key, Normal(e.val), NormalMembers(e.rest));
    if e.rest.End? {
      LastPlaces(doc, j, post, "}", f);
      OneCharToken(doc, j + |post|, '}');
      NormalNothing();
    } else {
      MorePlaces(doc, j, StyledMembers(e.rest, ind, st), post + "}");
      OneCharToken(doc, j, ',');
      BeforeAppend(acc, e.key, Normal(e.val), e.rest.key);
      MembersBack(doc, j + 1, e.rest, Append(acc, last), e.key.name, ind, post, st, f, rd);
    }
  }

  // One member, up to what follows its value.
  lemma {:induction false} MemberBack(doc: string, i: nat, e: Entries, acc: Entries, ind: string, post: string,
                                      st: Style, f: Features, rd: DoubleReader)
    requires e.Entry? && EntriesPlain(e) && EntriesWritable(e) && AllNames(e) && Before(acc, e.key)
    requires Blank(ind) && Blank(post) && post != ""
    requires OccursAt(doc, i, StyledMembers(e, ind, st) + (post + "}"))
    ensures var tail := if e.rest.End? then "" else "," + StyledMembers(e.rest, ind, st);
            var j := i + |StyledMembers(e, ind, st)| - |tail|;
            var t := NoComment(doc, i);
            && i <= j && OccursAt(doc, j, tail + (post + "}")) && t.kind == StringToken
            && ParseMember(doc, t, acc, f, rd) == Member(Append(acc, Entry(e.key, Normal(e.val), End)), e.key.name, j)
    ensures i <= |doc|
    decreases EntriesSize(e), 0
  {
    hide ParseValue, OccursAt, Styled, Fast, FastMembers, StyledMembers, NoComment, ReadToken, Normal, NormalMembers,
         Quoted, FirstToken, Recover, DecodeFrom, Put, ParseMember, NulFree, ByteString, Sorted, Before, Blank, Append,
         NumberChar;
    var end := post + "}";
    StyledMembersUnfold(e, ind, st, end);
    var tail := if e.rest.End? then "" else "," + StyledMembers(e.rest, ind, st);
    var g, q, s := "\n" + ind, Quoted(e.key.name), Styled(e.val, ind, st);
    MemberSpread(doc, i, g, q, s, tail + end);
    RestEnds(doc, i + |g| + |q| + 3 + |s|, tail, post, "}");
    BlankLine(ind);
    var k := i + |g|;
    NameAndColon(doc, i, g, e.key.name);
    StyledReadBack(doc, k + |q| + 3, e.val, ind, st, Null, f, rd);
    AfterColon(doc, k + |q| + 2, " ", Null, f, rd);
    PutLast(acc, e.key, Normal(e.val));
    MemberParsed(doc, Token(StringToken, k, k + |q|), acc, e.key.name, f, rd);
  }

  // A name and the colon behind it.
  lemma NameAndColon(doc: string, i: nat, g: string, name: string)
    requires Blank(g) && NulFree(name) && ByteString(name)
    requires OccursAt(doc, i, g) && OccursAt(doc, i + |g|, Quoted(name)) && OccursAt(doc, i + |g| + |Quoted(name)|, " ")
    requires OccursAt(doc, i + |g| + |Quoted(name)| + 1, ":")
    ensures var k := i + |g|; var c := k + |Quoted(name)|;
            && k + 2 <= c && c + 2 <= |doc| && NoComment(doc, i) == Token(StringToken, k, c)
            && DecodeFrom(doc, k + 1, c - 1) == Text(name) && CStr(name) == name
            && ReadToken(doc, c) == Token(MemberSeparator, c + 1, c + 2)
  {
    hide OccursAt, NoComment, ReadToken, Quoted, FirstToken, DecodeFrom, NulFree, ByteString, Blank;
    var f := Features(true, true);
    var k, q := i + |g|, Quoted(name);
    GapSkipped(doc, i, g, f);
    QuotedToken(doc, k, name);
    QuotedLength(name);
    BlankLine("");
    GapSkipped(doc, k + |q|, " ", f);
    OneCharToken(doc, k + |q| + 1, ':');
  }

  lemma BlankLine(ind: string)
    requires Blank(ind)
    ensures Blank("\n" + ind) && Blank(" ") && Blank("")
  {
  }

  lemma MemberSpread(doc: string, i: nat, g: string, q: string, s: string, rest: string)
    requires OccursAt(doc, i, g + (q + (" " + (":" + (" " + (s + rest))))))
    ensures OccursAt(doc, i, g) && OccursAt(doc, i + |g|, q) && OccursAt(doc, i + |g| + |q|, " ")
    ensures OccursAt(doc, i + |g| + |q| + 1, ":") && OccursAt(doc, i + |g| + |q| + 2, " ")
    ensures OccursAt(doc, i + |g| + |q| + 3, s) && OccursAt(doc, i + |g| + |q| + 3 + |s|, rest)
  {
    hide OccursAt;
    OccursSplit(doc, i, g, q + (" " + (":" + (" " + (s + rest)))));
    var k := i + |g|;
    OccursSplit(doc, k, q, " " + (":" + (" " + (s + rest))));
    OccursSplit(doc, k + |q|, " ", ":" + (" " + (s + rest)));
    OccursSplit(doc, k + |q| + 1, ":", " " + (s + rest));
    OccursSplit(doc, k + |q| + 2, " ", s + rest);
    OccursSplit(doc, k + |q| + 3, s, rest);
  }

  // What either printer wrote reads back as the same value.
  lemma StyledReadsBack(v: Value, st: Style, root: Value, f: Features, rd: DoubleReader)
    requires Plain(v)
    ensures Writable(v)
    ensures var doc := Styled(v, "", st) + "\n";
            ParseDocument(doc, root, f, rd)
                == Parsed(RootAllowed(v, f), Normal(v), |doc|, if RootAllowed(v, f) then 0 else 1)
    ensures ParseDocument(Styled(v, "", st) + "\n", root, f, rd).v == ParseDocument(Fast(v, st) + "\n", root, f, rd).v
  {
    hide Fast, Styled, ParseValue, FirstToken, Dense, NormalMembers;
    PlainWritable(v);
    WrittenReadsBack(v, st, root, f, rd);
    var s := Styled(v, "", st);
    var doc := s + "\n";
    OccursMiddle("", s, "\n");
    assert doc == "" + s + "\n";
    assert doc[|s|] == '\n';
    StyledReadBack(doc, 0, v, "", st, root, f, rd);
    OnlyBlankLeft(doc, |s|, f);
  }
}

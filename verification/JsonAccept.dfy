/** Whatever the reader accepts is a text of the grammar, and the value is the one that the text spells. */
module JsonAccept {
  import opened Substring
  import opened JsonValue
  import opened JsonNumber
  import opened JsonString
  import opened JsonParse
  import opened JsonRoundTrip
  import opened JsonGaps
  import opened JsonText

  lemma OccursJoin(doc: string, i: nat, a: string, b: string)
    requires OccursAt(doc, i, a) && OccursAt(doc, i + |a|, b)
    ensures OccursAt(doc, i, a + b)
  {
    assert doc[i..i + |a + b|] == doc[i..i + |a|] + doc[i + |a|..i + |a| + |b|];
  }

  lemma OccursCut(doc: string, i: nat, j: nat)
    requires i <= j <= |doc|
    ensures OccursAt(doc, i, doc[i..j]) && |doc[i..j]| == j - i
  {
  }

  // ---- strings ----

  lemma HexTaken(doc: string, i: nat, end: nat)
    requires i + 2 <= end <= |doc| && doc[i] == '\\' && doc[i + 1] == 'u' && UnicodeEscape(doc, i + 2, end).Point?
    ensures i + 6 <= end
    ensures var w := doc[i + 2..i + 6];
            && HexWord(w) && Unit(w) == UnicodeEscape(doc, i + 2, end).cp && OccursAt(doc, i, "\\u" + w)
  {
    hide IsHex, HexValue;
    var w := doc[i + 2..i + 6];
    assert doc[i..i + 6] == "\\u" + w;
  }

  lemma FirstPiece(doc: string, i: nat, end: nat) returns (p: Piece)
    requires i < end < |doc| && ReadString(doc, i) == Scanned(true, end + 1) && DecodeFrom(doc, i, end).Text?
    ensures PieceOk(p) && OccursAt(doc, i, PieceText(p)) && i + |PieceText(p)| <= end
  {
    hide UnicodeEscape, Utf8, HexWord, Unit;
    if doc[i] != '\\' {
      assert doc[i] != '\"';
      assert doc[i..i + 1] == [doc[i]];
      return Raw(doc[i]);
    }
    assert ReadString(doc, i) == ReadString(doc, i + 2) && i + 2 <= end;
    if doc[i + 1] != 'u' {
      assert doc[i..i + 2] == "\\" + [doc[i + 1]];
      LetterIs(doc[i + 1]);
      return Short(doc[i + 1]);
    }
    var h := doc[i + 2..i + 6];
    HexTaken(doc, i, end);
    WordIsFour(h);
    if High(Unit(h)) {
      var w := doc[i + 8..i + 12];
      HexTaken(doc, i + 6, end);
      WordIsFour(w);
      OccursJoin(doc, i, "\\u" + h, "\\u" + w);
      assert ("\\u" + h) + ("\\u" + w) == "\\u" + (h + ("\\u" + w));
      p := if Low(Unit(w)) then Piece.Pair(h, w) else HighWithAny(h, w);
    } else {
      p := if Low(Unit(h)) then LoneLow(h) else Single(h);
    }
  }

  lemma {:induction false} PiecesSpelled(doc: string, i: nat, end: nat) returns (ps: seq<Piece>)
    requires i <= end < |doc| && ReadString(doc, i) == Scanned(true, end + 1) && DecodeFrom(doc, i, end).Text?
    ensures PiecesOk(ps) && PiecesText(ps) == doc[i..end] && DecodeFrom(doc, i, end) == Text(Says(ps))
    decreases end - i
  {
    hide PieceOk, PieceText, PieceSays, ReadString, DecodeFrom, OccursAt;
    if i == end {
      EscapedStep(doc, i, "");
      return [];
    }
    var p := FirstPiece(doc, i, end);
    var k := i + |PieceText(p)|;
    PieceScanned(doc, i, p);
    PieceRead(doc, i, end, p);
    var rest := PiecesSpelled(doc, k, end);
    ps := [p] + rest;
    assert ps[1..] == rest;
    TextIsCut(doc, i, PieceText(p));
    assert doc[i..k] + doc[k..end] == doc[i..end];
  }

  lemma TextIsCut(doc: string, i: nat, s: string)
    requires OccursAt(doc, i, s)
    ensures i + |s| <= |doc| && doc[i..i + |s|] == s
  {
  }

  // A string token that decodes.
  lemma StringSpelled(doc: string, i: nat) returns (ps: seq<Piece>)
    requires i < |doc| && doc[i] == '\"' && ReadString(doc, i + 1).ok
    requires DecodeFrom(doc, i + 1, ReadString(doc, i + 1).next - 1).Text?
    ensures PiecesOk(ps) && OccursAt(doc, i, InMarks(ps)) && i + |InMarks(ps)| == ReadString(doc, i + 1).next
    ensures DecodeFrom(doc, i + 1, ReadString(doc, i + 1).next - 1) == Text(Says(ps))
  {
    hide ReadString, DecodeFrom, Scannable, PiecesText, PiecesOk, Says, OccursAt;
    var n := ReadString(doc, i + 1).next;
    BodySpelled(doc, i + 1);
    ps := PiecesSpelled(doc, i + 1, n - 1);
    MarksTaken(doc, i, n);
  }

  lemma MarksTaken(doc: string, i: nat, n: nat)
    requires i + 2 <= n <= |doc| && doc[i] == '\"' && doc[n - 1] == '\"'
    ensures var s := "\"" + (doc[i + 1..n - 1] + "\""); OccursAt(doc, i, s) && i + |s| == n
  {
    assert doc[i..n] == "\"" + (doc[i + 1..n - 1] + "\"");
  }

  // ---- numbers ----

  lemma {:induction false} NoSigns(s: string)
    requires NumberShape(s) && !IsDouble(s)
    ensures forall k :: 0 <= k < |s| ==> IsDigit(s[k]) || (k == 0 && s[k] == '-')
  {
    forall k | 0 <= k < |s| ensures IsDigit(s[k]) || (k == 0 && s[k] == '-') {
      assert !Fractional(s, k);
      assert s[k] in NUMBER_CHARS;
    }
  }

  // A number word that the reader gets a value from.
  lemma NumberSpelled(s: string, comments: bool, rd: DoubleReader) returns (j: Json)
    requires NumberShape(s) && !NumberOf(s).Malformed? && (NumberOf(s).Double? ==> rd(s).Some?)
    ensures IsNumber(j) && JsonOk(j, comments, rd) && Spelling(j) == s
  {
    hide Scan, Decimal, NumberOf, Missed, IsDouble, NumberShape, ForDoubles, Numeral, Limit;
    if IsDouble(s) {
      DoubleWord(s);
      return Fraction(s);
    }
    var negative, digits := DigitsOf(s);
    if digits == "" {
      return LoneMinus;
    }
    j := WholeSpelled(s, negative, digits, comments, rd);
  }

  lemma DoubleWord(s: string)
    requires NumberShape(s) && IsDouble(s)
    ensures ForDoubles(s) && NumberOf(s).Double?
  {
    hide Scan, Decimal, Missed;
    var i :| 0 <= i < |s| && Fractional(s, i);
    assert s[i] in ".eE+" || (0 < i && s[i] == '-');
    DoublesRead(s);
  }

  lemma DigitsOf(s: string) returns (negative: bool, digits: string)
    requires NumberShape(s) && !IsDouble(s)
    ensures s == Numeral(negative, digits) && AllDigits(digits) && (digits == "" ==> s == "-")
  {
    hide IsDouble;
    NoSigns(s);
    negative := s[0] == '-';
    digits := if negative then s[1..] else s;
  }

  lemma WholeSpelled(s: string, negative: bool, digits: string, comments: bool, rd: DoubleReader) returns (j: Json)
    requires s == Numeral(negative, digits) && AllDigits(digits) && digits != "" && NumberShape(s)
    requires NumberOf(s).Double? ==> rd(s).Some?
    ensures IsNumber(j) && JsonOk(j, comments, rd) && Spelling(j) == s
  {
    hide Scan, Decimal, NumberOf, Missed, NumberShape, Numeral, Limit;
    NumberExact(negative, digits);
    if Decimal(digits) <= Limit(negative) {
      j := Whole(negative, digits);
    } else if Missed(digits, Limit(negative)) {
      j := Wrapped(negative, digits);
    } else {
      assert ForDoubles(s);
      j := Fraction(s);
    }
  }

  // ---- tokens ----

  lemma FirstGap(doc: string, i: nat, f: Features)
    requires i <= |doc| && FirstToken(doc, i, f).start < |doc| && FirstToken(doc, i, f).kind != CommentToken
    ensures var t := FirstToken(doc, i, f);
            IsGap(doc[i..t.start], f.allowComments) && ReadToken(doc, t.start) == t && doc[t.start] !in WHITE
  {
    hide ReadToken, NoComment, IsGap;
    if f.allowComments {
      GapSpelled(doc, i);
    } else {
      TokenStarts(doc, i);
      WhiteSpelled(doc, i);
    }
  }

  // What stands at a token of each kind.
  lemma TokenIs(doc: string, s: nat)
    requires s < |doc| && ReadToken(doc, s).start == s
    ensures var t := ReadToken(doc, s);
            && (t.kind == ObjectBegin ==> OccursAt(doc, s, "{") && t.stop == s + 1)
            && (t.kind == ObjectEnd ==> OccursAt(doc, s, "}") && t.stop == s + 1)
            && (t.kind == ArrayBegin ==> OccursAt(doc, s, "[") && t.stop == s + 1)
            && (t.kind == ArrayEnd ==> OccursAt(doc, s, "]") && t.stop == s + 1)
            && (t.kind == ArraySeparator ==> OccursAt(doc, s, ",") && t.stop == s + 1)
            && (t.kind == MemberSeparator ==> OccursAt(doc, s, ":") && t.stop == s + 1)
  {
    hide ReadString, ReadComment, ReadNumber, Word;
    assert doc[s..s + 1] == [doc[s]];
    WordKinds(doc, s);
  }

  lemma WordKinds(doc: string, s: nat)
    requires s < |doc|
    ensures Word(doc, s, "rue", TrueToken).kind == TrueToken || Word(doc, s, "rue", TrueToken).kind == ErrorToken
    ensures Word(doc, s, "alse", FalseToken).kind == FalseToken || Word(doc, s, "alse", FalseToken).kind == ErrorToken
    ensures Word(doc, s, "ull", NullToken).kind == NullToken || Word(doc, s, "ull", NullToken).kind == ErrorToken
  {
  }

  lemma WordTaken(doc: string, s: nat, rest: string, kind: Kind)
    requires s < |doc| && Word(doc, s, rest, kind).kind != ErrorToken
    ensures OccursAt(doc, s, [doc[s]] + rest) && Word(doc, s, rest, kind).stop == s + 1 + |rest|
  {
    assert doc[s..s + 1 + |rest|] == [doc[s]] + doc[s + 1..s + 1 + |rest|];
  }

  lemma WordIs(doc: string, s: nat)
    requires s < |doc| && ReadToken(doc, s).start == s
    ensures var t := ReadToken(doc, s);
            && (t.kind == TrueToken ==> OccursAt(doc, s, "true") && t.stop == s + 4)
            && (t.kind == FalseToken ==> OccursAt(doc, s, "false") && t.stop == s + 5)
            && (t.kind == NullToken ==> OccursAt(doc, s, "null") && t.stop == s + 4)
  {
    hide ReadString, ReadComment, ReadNumber, Word, OccursAt;
    var t := ReadToken(doc, s);
    WordKinds(doc, s);
    if t.kind == TrueToken {
      WordTaken(doc, s, "rue", TrueToken);
      assert ['t'] + "rue" == "true";
    } else if t.kind == FalseToken {
      WordTaken(doc, s, "alse", FalseToken);
      assert ['f'] + "alse" == "false";
    } else if t.kind == NullToken {
      WordTaken(doc, s, "ull", NullToken);
      assert ['n'] + "ull" == "null";
    }
  }

  lemma TokenFrom(doc: string, s: nat)
    requires s < |doc| && ReadToken(doc, s).start == s
    ensures var t := ReadToken(doc, s);
            && (t.kind == StringToken ==> doc[s] == '\"' && ReadString(doc, s + 1) == Scanned(true, t.stop))
            && (t.kind == NumberToken ==> (IsDigit(doc[s]) || doc[s] == '-') && ReadNumber(doc, s + 1) == t.stop)
  {
    hide ReadString, ReadComment, ReadNumber, Word;
    WordKinds(doc, s);
  }

  lemma NumberIs(doc: string, s: nat)
    requires s < |doc| && ReadToken(doc, s).start == s && ReadToken(doc, s).kind == NumberToken
    ensures var t := ReadToken(doc, s); NumberShape(doc[s..t.stop]) && NumberEnds(doc, t.stop)
  {
    hide ReadToken, ReadNumber, NumberShape;
    TokenFrom(doc, s);
    NumberSpan(doc, s + 1);
    ShapeOfSpan(doc, s, ReadToken(doc, s).stop);
  }

  // ---- values ----

  lemma LeafSpelled(doc: string, s: nat, cur: Value, f: Features, rd: DoubleReader) returns (j: Json)
    requires s < |doc| && ReadToken(doc, s).start == s && FirstToken(doc, s, f) == ReadToken(doc, s)
    requires ParseValue(doc, s, cur, f, rd).ok
    requires ReadToken(doc, s).kind != ObjectBegin && ReadToken(doc, s).kind != ArrayBegin
    ensures var r := ParseValue(doc, s, cur, f, rd);
            && JsonOk(j, f.allowComments, rd) && OccursAt(doc, s, Spelling(j)) && r.next == s + |Spelling(j)|
            && (IsNumber(j) ==> NumberEnds(doc, r.next))
  {
    hide ReadToken, FirstToken, ReadString, DecodeFrom, NumberOf, NumberShape, NumberEnds, OccursAt, InMarks;
    var t := ReadToken(doc, s);
    WordIs(doc, s);
    TokenFrom(doc, s);
    if t.kind == NullToken {
      j := NullWord;
    } else if t.kind == TrueToken {
      j := BoolWord(true);
    } else if t.kind == FalseToken {
      j := BoolWord(false);
    } else if t.kind == StringToken {
      var ps := StringSpelled(doc, s);
      j := InQuotes(ps);
    } else {
      NumberIs(doc, s);
      OccursCut(doc, s, t.stop);
      j := NumberSpelled(doc[s..t.stop], f.allowComments, rd);
    }
  }

  // Whatever the reader accepts as a value, from any place in a document.
  lemma {:induction false} ValueSpelled(doc: string, i: nat, cur: Value, f: Features, rd: DoubleReader)
    returns (gap: string, j: Json)
    requires i <= |doc| && ParseValue(doc, i, cur, f, rd).ok
    ensures var r := ParseValue(doc, i, cur, f, rd);
            && IsGap(gap, f.allowComments) && JsonOk(j, f.allowComments, rd) && OccursAt(doc, i, gap)
            && OccursAt(doc, i + |gap|, Spelling(j)) && r.next == i + |gap| + |Spelling(j)| && r.v == Meaning(j, rd)
            && (IsNumber(j) ==> NumberEnds(doc, r.next))
    decreases |doc| - i, 0
  {
    hide ReadToken, NoComment, FirstToken, IsGap, OccursAt, ParseMembers, ParseArray, NumberEnds, Meaning, JsonOk,
         Spelling, ItemsText, MembersText, ItemsOk, MembersOk, ParseValue;
    var t := TokenAhead(doc, i, cur, f, rd);
    gap := doc[i..t.start];
    if t.kind == ObjectBegin {
      var g, m := MembersSpelled(doc, t.stop, End, "", f, rd);
      j := RecordOf(g, m, f.allowComments, rd);
      OccursJoin(doc, t.start, "{", g + (MembersText(m) + "}"));
    } else if t.kind == ArrayBegin {
      var g, e := ListSpelled(doc, t.stop, f, rd);
      j := ListOf(g, e, f.allowComments, rd);
      OccursJoin(doc, t.start, "[", g + (ItemsText(e) + "]"));
    } else {
      j := LeafSpelled(doc, t.start, cur, f, rd);
    }
    JsonRead(doc, t.start, j, cur, f, rd);
  }

  // The gap in front of a value that is accepted, and its first token.
  lemma TokenAhead(doc: string, i: nat, cur: Value, f: Features, rd: DoubleReader) returns (t: Token)
    requires i <= |doc| && ParseValue(doc, i, cur, f, rd).ok
    ensures t == FirstToken(doc, i, f) && t.start < |doc| && IsGap(doc[i..t.start], f.allowComments)
    ensures OccursAt(doc, i, doc[i..t.start]) && i + |doc[i..t.start]| == t.start
    ensures ReadToken(doc, t.start) == FirstToken(doc, t.start, f) == t
    ensures ParseValue(doc, i, cur, f, rd) == ParseValue(doc, t.start, cur, f, rd)
    ensures t.kind == ObjectBegin ==>
              && OccursAt(doc, t.start, "{") && t.stop == t.start + 1
              && ParseValue(doc, i, cur, f, rd) == ParseMembers(doc, t.stop, End, "", f, rd)
    ensures t.kind == ArrayBegin ==>
              && OccursAt(doc, t.start, "[") && t.stop == t.start + 1
              && ParseValue(doc, i, cur, f, rd) == ParseArray(doc, t.stop, f, rd)
  {
    hide ReadToken, NoComment, FirstToken, IsGap, OccursAt, ParseMembers, ParseArray, NumberValue, StringValue;
    t := FirstToken(doc, i, f);
    StartsInside(doc, i, f);
    FirstGap(doc, i, f);
    OccursCut(doc, i, t.start);
    TokenIs(doc, t.start);
    FirstAgain(doc, t.start, f);
    ValueByToken(doc, i, t.start, cur, f, rd);
  }

  lemma RecordOf(gap: string, e: Members, comments: bool, rd: DoubleReader) returns (j: Json)
    requires IsGap(gap, true) && !e.Trailing? && MembersOk(e, comments, rd)
    ensures JsonOk(j, comments, rd) && !IsNumber(j) && Spelling(j) == "{" + (gap + (MembersText(e) + "}"))
  {
    j := Record(gap, e);
  }

  lemma ListOf(gap: string, e: Items, comments: bool, rd: DoubleReader) returns (j: Json)
    requires IsGap(gap, comments && e.Item?) && ItemsOk(e, comments, rd)
    ensures JsonOk(j, comments, rd) && !IsNumber(j) && Spelling(j) == "[" + (gap + (ItemsText(e) + "]"))
  {
    j := List(gap, e);
  }

  lemma StartsInside(doc: string, i: nat, f: Features)
    requires i <= |doc|
    ensures var t := FirstToken(doc, i, f); t.kind != EndOfStream && t.kind != CommentToken ==> t.start < |doc|
  {
  }

  lemma FirstAgain(doc: string, s: nat, f: Features)
    requires s < |doc| && ReadToken(doc, s).start == s && ReadToken(doc, s).kind != CommentToken
    ensures FirstToken(doc, s, f) == ReadToken(doc, s)
  {
    hide ReadToken;
  }

  lemma {:induction false} ListSpelled(doc: string, i: nat, f: Features, rd: DoubleReader)
    returns (gap: string, e: Items)
    requires i <= |doc| && ParseArray(doc, i, f, rd).ok
    ensures var r := ParseArray(doc, i, f, rd);
            && IsGap(gap, f.allowComments && e.Item?) && ItemsOk(e, f.allowComments, rd)
            && OccursAt(doc, i, gap + (ItemsText(e) + "]")) && r.next == i + |gap| + |ItemsText(e)| + 1
    decreases |doc| - i, 2
  {
    hide ParseItems, OccursAt, IsGap, Spelling, JsonOk;
    var s := SkipSpaces(doc, i);
    WhiteSpelled(doc, i);
    OccursCut(doc, i, s);
    var white := doc[i..s];
    if s < |doc| && doc[s] == ']' {
      OneCharAt(doc, s);
      OccursJoin(doc, i, white, "]");
      assert "" + "]" == "]";
      return white, NoItems;
    }
    var g;
    g, e := ItemsSpelled(doc, s, End, 0, f, rd);
    gap := white + g;
    WhiteIsGap(white, f.allowComments);
    GapJoin(white, g, f.allowComments);
    OccursJoin(doc, i, white, g + (ItemsText(e) + "]"));
    assert gap + (ItemsText(e) + "]") == white + (g + (ItemsText(e) + "]"));
  }

  lemma OneCharAt(doc: string, s: nat)
    requires s < |doc|
    ensures OccursAt(doc, s, [doc[s]])
  {
  }

  lemma ItemsStep(doc: string, i: nat, items: Entries, index: nat, f: Features, rd: DoubleReader)
    requires i <= |doc| && ParseItems(doc, i, items, index, f, rd).ok
    ensures var r := ParseValue(doc, i, Lookup(items, Index(index)), f, rd);
            && r.ok
            && var t := NoComment(doc, r.next); var more := Put(items, Index(index), r.v);
               && (t.kind == ArrayEnd || t.kind == ArraySeparator)
               && ParseItems(doc, i, items, index, f, rd)
                  == if t.kind == ArrayEnd then Parsed(true, Arr(more), t.stop, 0)
                     else ParseItems(doc, t.stop, more, index + 1, f, rd)
  {
    hide ParseValue, NoComment, Recover, Put;
  }

  lemma {:induction false} ItemsSpelled(doc: string, i: nat, items: Entries, index: nat, f: Features, rd: DoubleReader)
    returns (gap: string, e: Items)
    requires i <= |doc| && ParseItems(doc, i, items, index, f, rd).ok
    ensures var r := ParseItems(doc, i, items, index, f, rd);
            && e.Item? && IsGap(gap, f.allowComments) && ItemsOk(e, f.allowComments, rd)
            && OccursAt(doc, i, gap + (ItemsText(e) + "]")) && r.next == i + |gap| + |ItemsText(e)| + 1
    decreases |doc| - i, 1
  {
    hide ParseValue, ParseItems, NoComment, ReadToken, OccursAt, IsGap, Spelling, JsonOk, NumberEnds, Meaning, Put,
         Lookup;
    ItemsStep(doc, i, items, index, f, rd);
    var j;
    gap, j := ValueSpelled(doc, i, Lookup(items, Index(index)), f, rd);
    var r := ParseValue(doc, i, Lookup(items, Index(index)), f, rd);
    var t := NoComment(doc, r.next);
    InsideKind(doc, r.next);
    GapSpelled(doc, r.next);
    TokenIs(doc, t.start);
    var post := doc[r.next..t.start];
    OccursCut(doc, r.next, t.start);
    var more, rest, g2 := "", NoItems, "";
    if t.kind == ArraySeparator {
      g2, rest := ItemsSpelled(doc, t.stop, Put(items, Index(index), r.v), index + 1, f, rd);
      more := "," + (g2 + ItemsText(rest));
      OccursJoin(doc, t.start, ",", g2 + (ItemsText(rest) + "]"));
      assert more + "]" == "," + (g2 + (ItemsText(rest) + "]"));
    } else {
      assert more + "]" == "]";
      NoGap(f.allowComments);
    }
    e := Item(j, post, g2, rest);
    ItemWhole(doc, i, gap, Spelling(j), post, more);
    assert MoreItems(e) == more;
  }

  lemma ItemWhole(doc: string, i: nat, gap: string, s: string, post: string, more: string)
    requires OccursAt(doc, i, gap) && OccursAt(doc, i + |gap|, s) && OccursAt(doc, i + |gap| + |s|, post)
    requires OccursAt(doc, i + |gap| + |s| + |post|, more + "]")
    ensures OccursAt(doc, i, gap + (s + (post + more) + "]"))
  {
    hide OccursAt;
    OccursJoin(doc, i + |gap| + |s|, post, more + "]");
    OccursJoin(doc, i + |gap|, s, post + (more + "]"));
    OccursJoin(doc, i, gap, s + (post + (more + "]")));
    Associated(s, post, more, "]");
  }

  lemma NoGap(comments: bool)
    ensures IsGap("", comments)
  {
  }

  lemma InsideKind(doc: string, i: nat)
    requires i <= |doc|
    ensures var t := NoComment(doc, i); t.kind != EndOfStream ==> t.start < |doc|
  {
  }

  // ---- members ----

  lemma MembersStep(doc: string, i: nat, acc: Entries, name: string, f: Features, rd: DoubleReader)
    requires i <= |doc| && ParseMembers(doc, i, acc, name, f, rd).ok
    ensures var t := NoComment(doc, i); var r := ParseMembers(doc, i, acc, name, f, rd);
            if t.kind == ObjectEnd && name == "" then r == Parsed(true, Obj(acc), t.stop, 0)
            else
              && t.kind == StringToken && ParseMember(doc, t, acc, f, rd).Member?
              && var m := ParseMember(doc, t, acc, f, rd);
                 var first, u := ReadToken(doc, m.next), NoComment(doc, m.next);
                 && (first.kind == ObjectEnd || first.kind == ArraySeparator || first.kind == CommentToken)
                 && r == if u.kind == ObjectEnd then Parsed(true, Obj(m.members), u.stop, 0)
                         else ParseMembers(doc, u.stop, m.members, m.name, f, rd)
  {
    hide ParseMember, NoComment, ReadToken, Recover;
  }

  lemma MemberStep(doc: string, t: Token, acc: Entries, f: Features, rd: DoubleReader)
    requires t.start + 2 <= t.stop <= |doc| && ParseMember(doc, t, acc, f, rd).Member?
    ensures DecodeFrom(doc, t.start + 1, t.stop - 1).Text?
    ensures var name := DecodeFrom(doc, t.start + 1, t.stop - 1).s; var colon := ReadToken(doc, t.stop);
            && colon.kind == MemberSeparator
            && var r := ParseValue(doc, colon.stop, Lookup(acc, Name(CStr(name))), f, rd);
               r.ok && ParseMember(doc, t, acc, f, rd) == Member(Put(acc, Name(CStr(name)), r.v), name, r.next)
  {
    hide DecodeFrom, ReadToken, ParseValue, CStr, Recover;
  }

  // One member, from its name to the end of its value.
  lemma {:induction false} MemberSpelled(doc: string, t: Token, acc: Entries, f: Features, rd: DoubleReader)
    returns (name: seq<Piece>, before: string, after: string, val: Json)
    requires t.start + 2 <= t.stop <= |doc| && ReadToken(doc, t.start) == t && t.kind == StringToken
    requires ParseMember(doc, t, acc, f, rd).Member?
    ensures PiecesOk(name) && IsGap(before, false) && IsGap(after, f.allowComments) && JsonOk(val, f.allowComments, rd)
    ensures var m := ParseMember(doc, t, acc, f, rd);
            var s := InMarks(name) + (before + (":" + (after + Spelling(val))));
            && OccursAt(doc, t.start, s) && m.next == t.start + |s| && m.name == Says(name)
    decreases |doc| - t.stop, 1
  {
    hide ParseValue, ReadToken, OccursAt, IsGap, Spelling, JsonOk, NumberEnds, Meaning, Put, Lookup, ReadString,
         DecodeFrom, CStr, ParseMember, InMarks, PiecesOk, Says;
    MemberStep(doc, t, acc, f, rd);
    TokenFrom(doc, t.start);
    name := StringSpelled(doc, t.start);
    var colon := ReadToken(doc, t.stop);
    TokenStarts(doc, t.stop);
    WhiteSpelled(doc, t.stop);
    ColonInside(doc, t.stop);
    TokenIs(doc, colon.start);
    before := doc[t.stop..colon.start];
    OccursCut(doc, t.stop, colon.start);
    var key := Name(CStr(DecodeFrom(doc, t.start + 1, t.stop - 1).s));
    after, val := ValueSpelled(doc, colon.stop, Lookup(acc, key), f, rd);
    OccursJoin(doc, colon.stop, after, Spelling(val));
    OccursJoin(doc, colon.start, ":", after + Spelling(val));
    OccursJoin(doc, t.stop, before, ":" + (after + Spelling(val)));
    OccursJoin(doc, t.start, InMarks(name), before + (":" + (after + Spelling(val))));
  }

  lemma ColonInside(doc: string, i: nat)
    requires i <= |doc|
    ensures ReadToken(doc, i).kind != EndOfStream ==> ReadToken(doc, i).start < |doc|
  {
  }

  lemma {:induction false} MembersSpelled(doc: string, i: nat, acc: Entries, name: string, f: Features,
                                          rd: DoubleReader)
    returns (gap: string, e: Members)
    requires i <= |doc| && ParseMembers(doc, i, acc, name, f, rd).ok
    ensures var r := ParseMembers(doc, i, acc, name, f, rd);
            && !e.Trailing? && (e.NoMembers? ==> name == "") && IsGap(gap, true) && MembersOk(e, f.allowComments, rd)
            && OccursAt(doc, i, gap + (MembersText(e) + "}")) && r.next == i + |gap| + |MembersText(e)| + 1
    decreases |doc| - i, 2
  {
    hide ParseMembers, ParseMember, NoComment, ReadToken, OccursAt, IsGap, Spelling, JsonOk, Meaning, InMarks, PiecesOk,
         Says, MembersText, MembersOk;
    MembersStep(doc, i, acc, name, f, rd);
    var t := NoComment(doc, i);
    InsideKind(doc, i);
    GapSpelled(doc, i);
    TokenIs(doc, t.start);
    gap := doc[i..t.start];
    OccursCut(doc, i, t.start);
    if t.kind == ObjectEnd && name == "" {
      e := NoMembers;
      NothingSpelled(f.allowComments, rd);
      assert "" + "}" == "}";
      OccursJoin(doc, i, gap, "}");
      return;
    }
    var key, before, after, val := MemberSpelled(doc, t, acc, f, rd);
    var m := ParseMember(doc, t, acc, f, rd);
    var head := InMarks(key) + (before + (":" + (after + Spelling(val))));
    var post, sep, g2, rest := BehindSpelled(doc, m.next, m.members, m.name, f, rd);
    e := Named(key, before, after, val, post, sep, g2, rest);
    MembersWhole(e, f.allowComments, rd);
    OccursJoin(doc, t.start, head, post + (MoreMembers(e) + "}"));
    OccursJoin(doc, i, gap, MembersText(e) + "}");
  }

  lemma NothingSpelled(comments: bool, rd: DoubleReader)
    ensures MembersOk(NoMembers, comments, rd) && MembersText(NoMembers) == ""
  {
  }

  lemma MembersWhole(e: Members, comments: bool, rd: DoubleReader)
    requires e.Named? && PiecesOk(e.name) && IsGap(e.before, false) && IsGap(e.after, comments)
    requires JsonOk(e.val, comments, rd) && IsGap(e.post, true) && IsGap(e.gap, true) && MembersOk(e.rest, comments, rd)
    requires (e.rest.Trailing? ==> Says(e.name) == "") && (!e.rest.NoMembers? ==> SepOk(e.sep, e.post))
    ensures MembersOk(e, comments, rd)
    ensures var head := InMarks(e.name) + (e.before + (":" + (e.after + Spelling(e.val))));
            MembersText(e) + "}" == head + (e.post + (MoreMembers(e) + "}"))
  {
    hide JsonOk, IsGap, Spelling, PiecesOk, Says, InMarks, SepOk, MoreMembers;
    var q, s, rest := InMarks(e.name), Spelling(e.val), e.post + MoreMembers(e);
    assert q + (e.before + (":" + (e.after + (s + rest)))) == q + (e.before + (":" + (e.after + s))) + rest;
  }

  // What follows the value of a member, up to the closing brace.
  lemma {:induction false} BehindSpelled(doc: string, i: nat, acc: Entries, name: string, f: Features,
                                         rd: DoubleReader)
    returns (post: string, sep: Separator, gap: string, rest: Members)
    requires i <= |doc|
    requires var first, u := ReadToken(doc, i), NoComment(doc, i);
             && (first.kind == ObjectEnd || first.kind == ArraySeparator || first.kind == CommentToken)
             && (u.kind == ObjectEnd || ParseMembers(doc, u.stop, acc, name, f, rd).ok)
    ensures IsGap(post, true) && IsGap(gap, true) && MembersOk(rest, f.allowComments, rd)
    ensures (rest.Trailing? ==> name == "") && (!rest.NoMembers? ==> SepOk(sep, post))
    ensures var u := NoComment(doc, i);
            var more := if rest.NoMembers? then "" else SepText(sep) + (gap + MembersText(rest));
            var end := if u.kind == ObjectEnd then u.stop else ParseMembers(doc, u.stop, acc, name, f, rd).next;
            OccursAt(doc, i, post + (more + "}")) && end == i + |post| + |more| + 1
    decreases |doc| - i, 1
  {
    hide ParseMembers, NoComment, ReadToken, OccursAt, IsGap, MembersText, MembersOk, IsStray;
    var u := NoComment(doc, i);
    UseInside(doc, i, acc, name, f, rd);
    GapSpelled(doc, i);
    FirstOrNot(doc, i);
    TokenIs(doc, u.start);
    post := doc[i..u.start];
    OccursCut(doc, i, u.start);
    sep, gap, rest := Comma, "", NoMembers;
    NothingSpelled(f.allowComments, rd);
    NoGap(true);
    if u.kind == ObjectEnd {
      assert "" + "}" == "}";
      OccursJoin(doc, i, post, "}");
      return;
    }
    gap, rest := MembersSpelled(doc, u.stop, acc, name, f, rd);
    if rest.NoMembers? {
      rest := Trailing;
      TrailingSpelled(f.allowComments, rd);
    }
    if u.kind != ArraySeparator {
      StraySpelled(doc, u.start);
      sep := Stray(doc[u.start..u.stop]);
      OccursCut(doc, u.start, u.stop);
    }
    SeparatorWhole(doc, i, post, SepText(sep), gap, MembersText(rest));
  }

  lemma SeparatorWhole(doc: string, i: nat, post: string, sep: string, gap: string, t: string)
    requires OccursAt(doc, i, post) && OccursAt(doc, i + |post|, sep)
    requires OccursAt(doc, i + |post| + |sep|, gap + (t + "}"))
    ensures OccursAt(doc, i, post + (sep + (gap + t) + "}"))
  {
    hide OccursAt;
    OccursJoin(doc, i + |post|, sep, gap + (t + "}"));
    OccursJoin(doc, i, post, sep + (gap + (t + "}")));
    assert sep + (gap + t) + "}" == sep + (gap + (t + "}"));
  }

  lemma TrailingSpelled(comments: bool, rd: DoubleReader)
    ensures MembersOk(Trailing, comments, rd) && MembersText(Trailing) == "" == MembersText(NoMembers)
  {
  }

  lemma UseInside(doc: string, i: nat, acc: Entries, name: string, f: Features, rd: DoubleReader)
    requires i <= |doc|
    requires var u := NoComment(doc, i); u.kind == ObjectEnd || ParseMembers(doc, u.stop, acc, name, f, rd).ok
    ensures var u := NoComment(doc, i); u.start < |doc| && (u.kind != ObjectEnd ==> u.stop < |doc|) && i < u.stop
  {
    hide ParseMembers;
  }

  lemma FirstOrNot(doc: string, i: nat)
    requires i <= |doc|
    ensures ReadToken(doc, i).kind != CommentToken ==> NoComment(doc, i) == ReadToken(doc, i)
  {
    hide ReadToken;
  }

  // ---- acceptance ----

  // What a value's text needs behind it: a number must end there.
  ghost predicate GoesOn(j: Json, back: string) {
    IsNumber(j) && back != "" ==> back[0] !in NUMBER_CHARS
  }

  // The document begins with a gap and the text of a value v that the root may have.
  ghost predicate IsTextOf(doc: string, v: Value, f: Features, rd: DoubleReader) {
    && RootAllowed(v, f)
    && exists front, j, back ::
         doc == front + Spelling(j) + back && IsGap(front, f.allowComments) && JsonOk(j, f.allowComments, rd)
         && GoesOn(j, back) && Meaning(j, rd) == v
  }

  // A document is accepted with a value exactly when it is a text of that value; what stands behind the text does not
  // matter.
  lemma AcceptedExactly(doc: string, v: Value, root: Value, f: Features, rd: DoubleReader)
    ensures var r := ParseDocument(doc, root, f, rd); r.ok && r.v == v <==> IsTextOf(doc, v, f, rd)
  {
    hide ParseValue, FirstToken, IsGap, JsonOk, Spelling, Meaning, NumberEnds, OccursAt;
    var r := ParseDocument(doc, root, f, rd);
    if r.ok {
      var front, j := ValueSpelled(doc, 0, root, f, rd);
      var n := ParseValue(doc, 0, root, f, rd).next;
      OccursJoin(doc, 0, front, Spelling(j));
      TextIsCut(doc, 0, front + Spelling(j));
      assert doc == front + Spelling(j) + doc[n..];
      EndsAre(doc, n, j);
    }
    if IsTextOf(doc, v, f, rd) {
      var front, j, back :|
        doc == front + Spelling(j) + back && IsGap(front, f.allowComments) && JsonOk(j, f.allowComments, rd)
        && GoesOn(j, back) && Meaning(j, rd) == v;
      EndsAre(doc, |front + Spelling(j)|, j);
      assert doc[|front + Spelling(j)|..] == back;
      TextAt(j, front, back, root, f, rd);
    }
  }

  lemma EndsAre(doc: string, n: nat, j: Json)
    requires n <= |doc|
    ensures GoesOn(j, doc[n..]) <==> (IsNumber(j) ==> NumberEnds(doc, n))
  {
  }
}

/** The texts that the reader accepts, as a grammar: gaps between the tokens, strings as raw bytes, two-character
    escapes and \u escapes in any mix, and what the reader lets pass beyond JSON, by its own constructors.  The reader
    gives the value that such a text spells. */
module JsonText {
  import opened Substring
  import opened JsonValue
  import opened JsonNumber
  import opened JsonString
  import opened JsonParse
  import opened JsonRoundTrip
  import opened JsonGaps
  import opened JsonStyledBack

  // ---- strings ----

  // How one character or code point is written.  Beyond JSON: a low surrogate alone, and a high one with any other
  // unit behind it.
  datatype Piece =
    | Raw(c: char)
    | Short(c: char)
    | Single(word: string)
    | Pair(high: string, low: string)
    | LoneLow(word: string)
    | HighWithAny(high: string, word: string)

  predicate PieceOk(p: Piece) {
    match p
    case Raw(c) => c != '\"' && c != '\\'
    case Short(c) => Letter(c) != ""
    case Single(w) => HexWord(w) && !High(Unit(w)) && !Low(Unit(w))
    case Pair(h, l) => HexWord(h) && HexWord(l) && High(Unit(h)) && Low(Unit(l))
    case LoneLow(w) => HexWord(w) && Low(Unit(w))
    case HighWithAny(h, w) => HexWord(h) && HexWord(w) && High(Unit(h)) && !Low(Unit(w))
  }

  predicate PiecesOk(ps: seq<Piece>) { forall k :: 0 <= k < |ps| ==> PieceOk(ps[k]) }

  function PieceText(p: Piece): (s: string)
    ensures s != ""
  {
    match p
    case Raw(c) => [c]
    case Short(c) => "\\" + [c]
    case Single(w) => "\\u" + w
    case Pair(h, l) => "\\u" + (h + ("\\u" + l))
    case LoneLow(w) => "\\u" + w
    case HighWithAny(h, w) => "\\u" + (h + ("\\u" + w))
  }

  // What the letter behind a backslash stands for: section 7 of RFC 8259.
  function Letter(c: char): string {
    if c == '\"' || c == '\\' || c == '/' then [c]
    else if c == 'b' then [8 as char]
    else if c == 'f' then [12 as char]
    else if c == 'n' then [10 as char]
    else if c == 'r' then [13 as char]
    else if c == 't' then [9 as char]
    else ""
  }

  lemma LetterIs(c: char)
    ensures Simple(c) == Letter(c)
  {
  }

  // What it stands for, as bytes.
  function PieceSays(p: Piece): string
    requires PieceOk(p)
  {
    match p
    case Raw(c) => [c]
    case Short(c) => Letter(c)
    case Single(w) => Utf8(Unit(w))
    case Pair(h, l) => Utf8(0x1_0000 + (Unit(h) - 0xD800) * 0x400 + (Unit(l) - 0xDC00))
    case LoneLow(w) => Utf8(Unit(w))
    case HighWithAny(h, w) => Utf8(0x1_0000 + (Unit(h) - 0xD800) * 0x400 + Unit(w) % 0x400)
  }

  function PiecesText(ps: seq<Piece>): string {
    if ps == [] then "" else PieceText(ps[0]) + PiecesText(ps[1..])
  }

  function Says(ps: seq<Piece>): string
    requires PiecesOk(ps)
  {
    if ps == [] then "" else PieceSays(ps[0]) + Says(ps[1..])
  }

  function InMarks(ps: seq<Piece>): string {
    "\"" + (PiecesText(ps) + "\"")
  }

  lemma PieceRead(doc: string, i: nat, end: nat, p: Piece)
    requires PieceOk(p) && OccursAt(doc, i, PieceText(p)) && i + |PieceText(p)| <= end <= |doc|
    ensures DecodeFrom(doc, i, end) == Prepend(PieceSays(p), DecodeFrom(doc, i + |PieceText(p)|, end))
  {
    hide OccursAt, UnicodeEscape, Utf8, HexWord, Unit;
    match p
    case Raw(c) => OccursChar(doc, i, [c], 0);
    case Short(c) =>
      LetterIs(c);
      OccursChar(doc, i, PieceText(p), 0);
      OccursChar(doc, i, PieceText(p), 1);
    case Single(w) => UnitRead(doc, i, end, w);
    case LoneLow(w) => UnitRead(doc, i, end, w);
    case Pair(h, l) =>
      UnitsRead(doc, i, end, h, l);
      PairMerged(Unit(h), Unit(l));
    case HighWithAny(h, w) =>
      UnitsRead(doc, i, end, h, w);
      AnyMerged(Unit(h), Unit(w));
  }

  lemma AnyMerged(hi: nat, u: nat)
    requires High(hi)
    ensures Merged(hi, u) == 0x1_0000 + (hi - 0xD800) * 0x400 + u % 0x400
  {
  }

  lemma UnitRead(doc: string, i: nat, end: nat, w: string)
    requires HexWord(w) && !High(Unit(w)) && OccursAt(doc, i, "\\u" + w) && i + 2 + |w| <= end <= |doc|
    ensures |w| == 4 && DecodeFrom(doc, i, end) == Prepend(Utf8(Unit(w)), DecodeFrom(doc, i + 6, end))
  {
    hide OccursAt, UnicodeEscape, Utf8, HexWord, Unit;
    WordIsFour(w);
    assert w + "" == w;
    HexWordRead(doc, i, end, w, "");
  }

  lemma UnitsRead(doc: string, i: nat, end: nat, h: string, w: string)
    requires HexWord(h) && HexWord(w) && High(Unit(h)) && OccursAt(doc, i, "\\u" + (h + ("\\u" + w)))
    requires i + 4 + |h| + |w| <= end <= |doc|
    ensures |h| == |w| == 4
    ensures DecodeFrom(doc, i, end) == Prepend(Utf8(Merged(Unit(h), Unit(w))), DecodeFrom(doc, i + 12, end))
  {
    hide OccursAt, UnicodeEscape, Utf8, HexWord, Unit;
    WordIsFour(h);
    WordIsFour(w);
    assert w + "" == w;
    HexWordRead(doc, i, end, h, "\\u" + w);
    HexWordRead(doc, i + 6, end, w, "");
  }

  lemma WordIsFour(h: string)
    requires HexWord(h)
    ensures |h| == 4
  {
  }

  lemma WordScanned(doc: string, i: nat, h: string)
    requires HexWord(h) && OccursAt(doc, i, "\\u" + h)
    ensures |h| == 4 && i + 6 <= |doc| && ReadString(doc, i) == ReadString(doc, i + 6)
  {
    hide OccursAt, IsHex;
    OccursWithin(doc, i, "\\u" + h);
    OccursSplit(doc, i, "\\u", h);
    OccursChar(doc, i, "\\u", 0);
    forall k | 0 <= k < 4 ensures doc[i + 2 + k] == h[k] && h[k] != '\"' && h[k] != '\\' {
      OccursChar(doc, i + 2, h, k);
      HexIsPlain(h[k]);
    }
    assert doc[i + 2] == h[0] && doc[i + 3] == h[1] && doc[i + 4] == h[2] && doc[i + 5] == h[3];
    assert ReadString(doc, i + 2) == ReadString(doc, i + 3) == ReadString(doc, i + 4);
    assert ReadString(doc, i + 4) == ReadString(doc, i + 5) == ReadString(doc, i + 6);
  }

  lemma HexIsPlain(c: char)
    requires IsHex(c)
    ensures c != '\"' && c != '\\'
  {
  }

  lemma PieceScanned(doc: string, i: nat, p: Piece)
    requires PieceOk(p) && OccursAt(doc, i, PieceText(p))
    ensures i + |PieceText(p)| <= |doc| && ReadString(doc, i) == ReadString(doc, i + |PieceText(p)|)
  {
    hide OccursAt, HexWord, Unit;
    OccursWithin(doc, i, PieceText(p));
    OccursChar(doc, i, PieceText(p), 0);
    match p
    case Raw(c) =>
    case Short(c) =>
    case Single(w) => WordScanned(doc, i, w);
    case LoneLow(w) => WordScanned(doc, i, w);
    case Pair(h, l) => WordsScanned(doc, i, h, l);
    case HighWithAny(h, w) => WordsScanned(doc, i, h, w);
  }

  lemma WordsScanned(doc: string, i: nat, h: string, w: string)
    requires HexWord(h) && HexWord(w) && OccursAt(doc, i, "\\u" + (h + ("\\u" + w)))
    ensures |h| == |w| == 4 && i + 12 <= |doc| && ReadString(doc, i) == ReadString(doc, i + 12)
  {
    hide OccursAt, HexWord;
    WordIsFour(h);
    WordIsFour(w);
    assert "\\u" + (h + ("\\u" + w)) == ("\\u" + h) + ("\\u" + w);
    OccursSplit(doc, i, "\\u" + h, "\\u" + w);
    WordScanned(doc, i, h);
    WordScanned(doc, i + 6, w);
  }

  lemma {:induction false} PiecesScanned(doc: string, i: nat, ps: seq<Piece>)
    requires PiecesOk(ps) && OccursAt(doc, i, PiecesText(ps) + "\"")
    ensures i + |PiecesText(ps)| + 1 <= |doc| && ReadString(doc, i) == Scanned(true, i + |PiecesText(ps)| + 1)
    decreases |ps|
  {
    hide OccursAt, PieceText, PieceOk;
    if ps == [] {
      assert PiecesText(ps) + "\"" == "\"";
      OccursChar(doc, i, "\"", 0);
    } else {
      assert PiecesText(ps) + "\"" == PieceText(ps[0]) + (PiecesText(ps[1..]) + "\"");
      OccursSplit(doc, i, PieceText(ps[0]), PiecesText(ps[1..]) + "\"");
      PieceScanned(doc, i, ps[0]);
      PiecesScanned(doc, i + |PieceText(ps[0])|, ps[1..]);
    }
  }

  lemma {:induction false} PiecesRead(doc: string, i: nat, ps: seq<Piece>)
    requires PiecesOk(ps) && OccursAt(doc, i, PiecesText(ps))
    ensures i + |PiecesText(ps)| <= |doc| && DecodeFrom(doc, i, i + |PiecesText(ps)|) == Text(Says(ps))
    decreases |ps|
  {
    hide OccursAt, PieceText, PieceOk, PieceSays, DecodeFrom;
    OccursWithin(doc, i, PiecesText(ps));
    if ps == [] {
      EscapedStep(doc, i, "");
    } else {
      OccursSplit(doc, i, PieceText(ps[0]), PiecesText(ps[1..]));
      PiecesRead(doc, i + |PieceText(ps[0])|, ps[1..]);
      PieceRead(doc, i, i + |PiecesText(ps)|, ps[0]);
    }
  }

  // Any spelling of a string is one token, which is decoded to what it says.
  lemma StringRead(doc: string, i: nat, ps: seq<Piece>)
    requires PiecesOk(ps) && OccursAt(doc, i, InMarks(ps))
    ensures var end := i + |InMarks(ps)|;
            && i + 2 <= end <= |doc| && doc[i] == '\"'
            && ReadToken(doc, i) == NoComment(doc, i) == Token(StringToken, i, end)
            && DecodeFrom(doc, i + 1, end - 1) == Text(Says(ps))
  {
    hide OccursAt, ReadToken, NoComment, DecodeFrom, ReadString, PiecesText, PiecesOk, Says;
    MarksAround(doc, i, PiecesText(ps), InMarks(ps));
    PiecesScanned(doc, i + 1, ps);
    PiecesRead(doc, i + 1, ps);
    StringTokenHere(doc, i);
  }

  lemma MarksAround(doc: string, i: nat, s: string, q: string)
    requires q == "\"" + (s + "\"") && OccursAt(doc, i, q)
    ensures |q| == |s| + 2 && i + |q| <= |doc| && doc[i] == '\"'
    ensures OccursAt(doc, i + 1, s + "\"") && OccursAt(doc, i + 1, s)
  {
    hide OccursAt;
    OccursWithin(doc, i, q);
    OccursSplit(doc, i, "\"", s + "\"");
    OccursChar(doc, i, "\"", 0);
    OccursSplit(doc, i + 1, s, "\"");
  }

  // ---- values ----

  // A list or record begins with the gap behind its bracket.  Beyond JSON: digits behind a leading zero, integers
  // whose size the reader mistakes, other words that the reader of doubles takes, and a minus sign alone.
  datatype Json =
    | NullWord
    | BoolWord(b: bool)
    | Whole(negative: bool, digits: string)
    | Wrapped(negative: bool, digits: string)
    | Fraction(s: string)
    | LoneMinus
    | InQuotes(pieces: seq<Piece>)
    | List(gap: string, items: Items)
    | Record(gap: string, members: Members)

  // A value with the gap behind it; `gap` is the one behind the comma, where more follow.
  datatype Items = NoItems | Item(val: Json, post: string, gap: string, rest: Items)

  // Gaps also stand on both sides of the colon.  Beyond JSON: a separator with the brace behind it, and behind a
  // comment any one token for the comma.
  datatype Members =
    | NoMembers
    | Trailing
    | Named(name: seq<Piece>, before: string, after: string, val: Json, post: string, sep: Separator, gap: string,
            rest: Members)

  datatype Separator = Comma | Stray(token: string)

  function SepText(s: Separator): string {
    if s.Comma? then "," else s.token
  }

  // Whether comments count as gaps in front of values, and the reader of doubles.
  ghost predicate JsonOk(j: Json, comments: bool, rd: DoubleReader) {
    match j
    case NullWord => true
    case BoolWord(_) => true
    case Whole(negative, digits) => AllDigits(digits) && digits != "" && Decimal(digits) <= Limit(negative)
    case Wrapped(negative, digits) => AllDigits(digits) && digits != "" && Missed(digits, Limit(negative))
    case Fraction(s) => NumberShape(s) && ForDoubles(s) && rd(s).Some?
    case LoneMinus => true
    case InQuotes(ps) => PiecesOk(ps)
    case List(gap, items) => IsGap(gap, comments && items.Item?) && ItemsOk(items, comments, rd)
    case Record(gap, members) => IsGap(gap, true) && !members.Trailing? && MembersOk(members, comments, rd)
  }

  // A point, an exponent, a sign inside, or too large an integer.
  ghost predicate ForDoubles(s: string) {
    || (exists i :: 0 <= i < |s| && (s[i] in ".eE+" || (0 < i && s[i] == '-')))
    || (exists negative, digits :: s == Numeral(negative, digits) && AllDigits(digits) && digits != ""
          && Decimal(digits) > Limit(negative) && !Missed(digits, Limit(negative)))
  }

  ghost predicate ItemsOk(e: Items, comments: bool, rd: DoubleReader) {
    e.Item? ==>
      && JsonOk(e.val, comments, rd) && IsGap(e.post, true) && IsGap(e.gap, comments) && ItemsOk(e.rest, comments, rd)
  }

  ghost predicate MembersOk(e: Members, comments: bool, rd: DoubleReader) {
    e.Named? ==>
      && PiecesOk(e.name) && IsGap(e.before, false) && IsGap(e.after, comments) && JsonOk(e.val, comments, rd)
      && IsGap(e.post, true) && IsGap(e.gap, true) && MembersOk(e.rest, comments, rd)
      && (e.rest.Trailing? ==> Says(e.name) == "") && (!e.rest.NoMembers? ==> SepOk(e.sep, e.post))
  }

  ghost predicate SepOk(s: Separator, post: string) {
    s.Stray? ==> IsStray(s.token) && !IsGap(post, false)
  }

  function Spelling(j: Json): string {
    match j
    case NullWord => "null"
    case BoolWord(b) => if b then "true" else "false"
    case Whole(negative, digits) => Numeral(negative, digits)
    case Wrapped(negative, digits) => Numeral(negative, digits)
    case Fraction(s) => s
    case LoneMinus => "-"
    case InQuotes(ps) => InMarks(ps)
    case List(gap, items) => "[" + (gap + (ItemsText(items) + "]"))
    case Record(gap, members) => "{" + (gap + (MembersText(members) + "}"))
  }

  function ItemsText(e: Items): string
    decreases e, 1
  {
    if e.NoItems? then "" else Spelling(e.val) + (e.post + MoreItems(e))
  }

  function MoreItems(e: Items): string
    requires e.Item?
    decreases e, 0
  {
    if e.rest.NoItems? then "" else "," + (e.gap + ItemsText(e.rest))
  }

  function MembersText(e: Members): string
    decreases e, 1
  {
    if !e.Named? then ""
    else InMarks(e.name) + (e.before + (":" + (e.after + (Spelling(e.val) + (e.post + MoreMembers(e))))))
  }

  function MoreMembers(e: Members): string
    requires e.Named?
    decreases e, 0
  {
    if e.rest.NoMembers? then "" else SepText(e.sep) + (e.gap + MembersText(e.rest))
  }

  // The value that a text stands for.
  ghost function Meaning(j: Json, rd: DoubleReader): Value {
    match j
    case NullWord => Null
    case BoolWord(b) => Bool(b)
    case Whole(negative, digits) => WholeValue(negative, digits)
    case Wrapped(negative, digits) => WrappedValue(negative, digits)
    case Fraction(s) => if rd(s).Some? then Real(rd(s).value) else Null
    case LoneMinus => Int(0)
    case InQuotes(ps) => if PiecesOk(ps) then Str(Some(CStr(Says(ps)))) else Null
    case List(_, items) => Arr(ItemsMean(items, 0, rd))
    case Record(_, members) => Obj(MembersMean(members, End, rd))
  }

  ghost function WholeValue(negative: bool, digits: string): Value {
    if !AllDigits(digits) then Null else Tagged(if negative then 0 - Decimal(digits) else Decimal(digits))
  }

  // What is left of it in 64 bits.
  ghost function WrappedValue(negative: bool, digits: string): Value {
    if !AllDigits(digits) then Null
    else if negative then Int(ToSigned((WIDTH - Decimal(digits) % WIDTH) % WIDTH))
    else Tagged(Decimal(digits) % WIDTH)
  }

  // Elements in order, from an index on.
  ghost function ItemsMean(e: Items, index: nat, rd: DoubleReader): Entries {
    if e.NoItems? then End else Entry(Index(index), Meaning(e.val, rd), ItemsMean(e.rest, index + 1, rd))
  }

  // Members assigned one after the other.
  ghost function MembersMean(e: Members, acc: Entries, rd: DoubleReader): Entries
    decreases e
  {
    if !e.Named? then acc else MembersMean(e.rest, Put(acc, KeyOf(e), Meaning(e.val, rd)), rd)
  }

  ghost function KeyOf(e: Members): Key
    requires e.Named?
  {
    Name(if PiecesOk(e.name) then CStr(Says(e.name)) else "")
  }

  // The last member of a name.
  ghost function LastNamed(e: Members, k: Key, rd: DoubleReader): Option<Value> {
    if !e.Named? then None
    else if LastNamed(e.rest, k, rd).Some? then LastNamed(e.rest, k, rd)
    else if KeyOf(e) == k then Some(Meaning(e.val, rd))
    else None
  }

  // Of members with the same name the last one stays, and the others are there.
  lemma {:induction false} LastNamedStays(e: Members, acc: Entries, k: Key, rd: DoubleReader)
    requires Sorted(acc)
    ensures Sorted(MembersMean(e, acc, rd))
    ensures Lookup(MembersMean(e, acc, rd), k)
            == match LastNamed(e, k, rd) case Some(v) => v case None => Lookup(acc, k)
    decreases e
  {
    hide Meaning, KeyOf;
    if e.Named? {
      PutSorted(acc, KeyOf(e), Meaning(e.val, rd));
      PutLookup(acc, KeyOf(e), Meaning(e.val, rd), k);
      LastNamedStays(e.rest, Put(acc, KeyOf(e), Meaning(e.val, rd)), k, rd);
    }
  }

  // ---- reading ----

  // Nothing that could continue a number.
  ghost predicate NumberEnds(doc: string, i: nat) { i < |doc| ==> doc[i] !in NUMBER_CHARS }

  predicate IsNumber(j: Json) { j.Whole? || j.Wrapped? || j.Fraction? || j.LoneMinus? }

  lemma NumberStarts(s: string)
    requires NumberShape(s)
    ensures s != "" && Begins(s[0]) && s[0] != ']' && s[0] != '}'
  {
  }

  lemma {:induction false} JsonStarts(j: Json, comments: bool, rd: DoubleReader)
    requires JsonOk(j, comments, rd)
    ensures var s := Spelling(j); s != "" && Begins(s[0]) && s[0] != ']' && s[0] != '}'
  {
    hide NumberShape, ForDoubles, IsGap, ItemsText, MembersText, PiecesText, Begins;
    match j
    case Whole(negative, digits) =>
      WholeShape(negative, digits);
      NumberStarts(Spelling(j));
    case Wrapped(negative, digits) =>
      WholeShape(negative, digits);
      NumberStarts(Spelling(j));
    case Fraction(s) => NumberStarts(s);
    case _ => OtherStarts(j);
  }

  lemma OtherStarts(j: Json)
    requires !j.Whole? && !j.Wrapped? && !j.Fraction?
    ensures var s := Spelling(j); s != "" && Begins(s[0]) && s[0] != ']' && s[0] != '}'
  {
  }

  lemma WholeShape(negative: bool, digits: string)
    requires AllDigits(digits) && digits != ""
    ensures NumberShape(Numeral(negative, digits))
  {
    var s := Numeral(negative, digits);
    assert IsDigit(digits[0]);
    forall k | 0 <= k < |s| ensures s[k] in NUMBER_CHARS {
      assert negative && 0 < k ==> s[k] == digits[k - 1];
      assert IsDigit(s[k]) || s[k] == '-';
    }
  }

  // What the reader makes of a number word.
  lemma NumberMeans(j: Json, comments: bool, rd: DoubleReader)
    requires IsNumber(j) && JsonOk(j, comments, rd)
    ensures var s := Spelling(j);
            && NumberShape(s)
            && (NumberOf(s) == Integer(Meaning(j, rd))
                || (NumberOf(s).Double? && rd(s).Some? && Real(rd(s).value) == Meaning(j, rd)))
  {
    hide Scan, NumberOf, NumberShape, ForDoubles, WholeValue, WrappedValue, Decimal, Numeral, Missed;
    match j
    case Whole(negative, digits) =>
      WholeShape(negative, digits);
      WholeRead(negative, digits);
    case Wrapped(negative, digits) =>
      WholeShape(negative, digits);
      WrappedRead(negative, digits);
    case Fraction(s) => DoublesRead(s);
    case LoneMinus => MinusRead();
    case _ =>
  }

  lemma WholeRead(negative: bool, digits: string)
    requires AllDigits(digits) && digits != "" && Decimal(digits) <= Limit(negative)
    ensures NumberOf(Numeral(negative, digits)) == Integer(WholeValue(negative, digits))
  {
    hide Decimal, NumberOf, Numeral, Missed;
    NumberExact(negative, digits);
  }

  lemma MinusRead()
    ensures NumberShape("-") && NumberOf("-") == Integer(Int(0))
  {
    assert !Fractional("-", 0);
    assert Scan("-", 1, 0, MIN_MAGNITUDE) == Accepted(0);
  }

  lemma WrappedRead(negative: bool, digits: string)
    requires AllDigits(digits) && digits != "" && Missed(digits, Limit(negative))
    ensures NumberOf(Numeral(negative, digits)) == Integer(WrappedValue(negative, digits))
  {
    hide Decimal, IsDouble, Scan;
    NumeralIsPlain(negative, digits);
    if negative {
      ScanShift(Numeral(negative, digits), digits, 0, 0, MIN_MAGNITUDE);
    }
    ScanExact(digits, Limit(negative));
  }

  lemma DoublesRead(s: string)
    requires NumberShape(s) && ForDoubles(s)
    ensures NumberOf(s).Double?
  {
    hide Scan, Decimal;
    if i :| 0 <= i < |s| && (s[i] in ".eE+" || (0 < i && s[i] == '-')) {
      assert Fractional(s, i);
    } else {
      var negative, digits :| s == Numeral(negative, digits) && AllDigits(digits) && digits != ""
                              && Decimal(digits) > Limit(negative) && !Missed(digits, Limit(negative));
      NumberExact(negative, digits);
    }
  }

  // A number of section 6 of RFC 8259 in its parts: sign, digits, fraction and exponent.
  function NumberText(negative: bool, whole: string, fraction: string, exponent: string): string {
    (if negative then "-" else "") + (whole + (fraction + exponent))
  }

  predicate FractionOk(s: string) { s == "" || (2 <= |s| && s[0] == '.' && AllDigits(s[1..])) }

  predicate ExponentOk(s: string) {
    s == "" || (2 <= |s| && s[0] in "eE" && (AllDigits(s[1..]) || (3 <= |s| && s[1] in "+-" && AllDigits(s[2..]))))
  }

  // Those with a fraction or an exponent are left to the reader of doubles.
  lemma FractionsForDoubles(negative: bool, whole: string, fraction: string, exponent: string, comments: bool,
                            rd: DoubleReader)
    requires AllDigits(whole) && whole != "" && FractionOk(fraction) && ExponentOk(exponent)
    requires fraction + exponent != ""
    ensures var s := NumberText(negative, whole, fraction, exponent);
            NumberShape(s) && NumberOf(s).Double? && (rd(s).Some? ==> JsonOk(Fraction(s), comments, rd))
  {
    hide IsDouble, NumberOf, FractionOk, ExponentOk, NumberShape, ForDoubles;
    var sign, tail := if negative then "-" else "", fraction + exponent;
    FractionShape(fraction);
    ExponentShape(exponent);
    DigitsShape(whole);
    ShapesJoin(fraction, exponent);
    ShapesJoin(whole, tail);
    ShapesJoin(sign, whole + tail);
    var s := sign + (whole + tail);
    MarkInside(sign, whole, tail, s);
    DoublesRead(s);
  }

  ghost predicate AllNumberChars(s: string) { forall k :: 0 <= k < |s| ==> s[k] in NUMBER_CHARS }

  lemma ShapesJoin(a: string, b: string)
    requires AllNumberChars(a) && AllNumberChars(b)
    ensures AllNumberChars(a + b)
  {
  }

  lemma MarkInside(sign: string, whole: string, tail: string, s: string)
    requires s == sign + (whole + tail) && AllNumberChars(s) && (sign == "" || sign == "-") && AllDigits(whole)
    requires whole != "" && tail != "" && tail[0] in ".eE"
    ensures NumberShape(s) && ForDoubles(s)
  {
    assert s[0] == if sign == "" then whole[0] else '-';
    assert IsDigit(whole[0]);
    var i := |sign| + |whole|;
    assert s[i] == tail[0] && s[i] in ".eE+";
  }

  lemma DigitsShape(s: string)
    requires AllDigits(s)
    ensures AllNumberChars(s)
  {
    forall k | 0 <= k < |s| ensures s[k] in NUMBER_CHARS {
      assert IsDigit(s[k]);
    }
  }

  lemma FractionShape(s: string)
    requires FractionOk(s)
    ensures AllNumberChars(s)
    ensures s != "" ==> s[0] == '.'
  {
    if s != "" {
      DigitsShape(s[1..]);
      assert forall k :: 1 <= k < |s| ==> s[k] == s[1..][k - 1];
    }
  }

  lemma ExponentShape(s: string)
    requires ExponentOk(s)
    ensures AllNumberChars(s)
    ensures s != "" ==> s[0] in "eE"
  {
    if s != "" {
      var n := if AllDigits(s[1..]) then 1 else 2;
      DigitsShape(s[n..]);
      assert forall k :: n <= k < |s| ==> s[k] == s[n..][k - n];
    }
  }

  lemma NumberLeafRead(doc: string, i: nat, j: Json, cur: Value, f: Features, rd: DoubleReader)
    requires IsNumber(j) && JsonOk(j, f.allowComments, rd)
    requires OccursAt(doc, i, Spelling(j)) && NumberEnds(doc, i + |Spelling(j)|)
    ensures i <= |doc| && ParseValue(doc, i, cur, f, rd) == Parsed(true, Meaning(j, rd), i + |Spelling(j)|, 0)
  {
    hide OccursAt, Spelling, JsonOk, Meaning, ReadToken, NoComment, NumberOf, NumberShape;
    NumberMeans(j, f.allowComments, rd);
    NumberTokenRun(doc, i, Spelling(j));
  }

  // The text of a value at any place in a document is read as that value without an error.
  lemma {:induction false} JsonRead(doc: string, i: nat, j: Json, cur: Value, f: Features, rd: DoubleReader)
    requires JsonOk(j, f.allowComments, rd) && OccursAt(doc, i, Spelling(j))
    requires IsNumber(j) ==> NumberEnds(doc, i + |Spelling(j)|)
    ensures i <= |doc| && ParseValue(doc, i, cur, f, rd) == Parsed(true, Meaning(j, rd), i + |Spelling(j)|, 0)
    decreases j
  {
    hide FirstToken, ParseMembers, ParseArray, OccursAt, DecodeFrom, ItemsText, MembersText, Numeral, NumberOf, InMarks,
         IsGap, Says, NumberChar, ItemsMean, MembersMean, NumberValue, NumberEnds, ReadToken, NoComment, NumberShape,
         ForDoubles, WholeValue, WrappedValue;
    OccursWithin(doc, i, Spelling(j));
    match j
    case NullWord => WordRead(doc, i, "null", f);
    case BoolWord(b) => WordRead(doc, i, Spelling(j), f);
    case InQuotes(ps) =>
      StringRead(doc, i, ps);
      TokenHere(doc, i, f);
    case List(gap, items) =>
      OccursSplit(doc, i, "[", gap + (ItemsText(items) + "]"));
      OneCharToken(doc, i, '[');
      TokenHere(doc, i, f);
      ListRead(doc, i + 1, gap, items, f, rd);
    case Record(gap, members) =>
      OccursSplit(doc, i, "{", gap + (MembersText(members) + "}"));
      OneCharToken(doc, i, '{');
      TokenHere(doc, i, f);
      RecordRead(doc, i + 1, gap, members, f, rd);
    case _ => NumberLeafRead(doc, i, j, cur, f, rd);
  }

  // Behind a gap the text does not go on with a closing bracket unless the next token is one.
  lemma {:induction false} GapHead(doc: string, i: nat, g: string, comments: bool)
    requires IsGap(g, comments) && OccursAt(doc, i, g) && i + |g| < |doc|
    requires doc[i + |g|] !in WHITE && doc[i + |g|] != ']'
    ensures var s := SkipSpaces(doc, i); s < |doc| && doc[s] != ']'
    decreases |g|
  {
    hide OccursAt;
    if g == "" {
      assert SkipSpaces(doc, i) == i;
    } else {
      OccursChar(doc, i, g, 0);
      if g[0] in WHITE {
        assert g == [g[0]] + g[1..];
        OccursSplit(doc, i, [g[0]], g[1..]);
        WhiteGapRest(g, comments);
        GapHead(doc, i + 1, g[1..], comments);
      } else {
        GapStarts(g, comments);
        assert SkipSpaces(doc, i) == i;
      }
    }
  }

  lemma WhiteGapRest(g: string, comments: bool)
    requires IsGap(g, comments) && g != "" && g[0] in WHITE
    ensures IsGap(g[1..], comments)
  {
    if !IsGap(g[1..], comments) {
      var k :| 0 < k <= |g| && IsComment(g[..k]) && IsGap(g[k..], comments);
      CommentLong(g[..k]);
    }
  }

  lemma SkippedSame(doc: string, i: nat, f: Features)
    requires i <= |doc|
    ensures FirstToken(doc, i, f) == FirstToken(doc, SkipSpaces(doc, i), f)
  {
    hide ReadToken, SkipSpaces;
    TokenStarts(doc, i);
    EndSkipped(doc, i);
  }

  lemma EndSkipped(doc: string, i: nat)
    requires i <= |doc|
    ensures SkipSpaces(doc, i) == |doc| ==> ReadToken(doc, i) == ReadToken(doc, |doc|)
  {
    assert SkipSpaces(doc, |doc|) == |doc|;
  }

  lemma {:induction false} ListRead(doc: string, i: nat, gap: string, items: Items, f: Features, rd: DoubleReader)
    requires IsGap(gap, f.allowComments && items.Item?) && ItemsOk(items, f.allowComments, rd)
    requires OccursAt(doc, i, gap + (ItemsText(items) + "]"))
    ensures i <= |doc|
    ensures ParseArray(doc, i, f, rd)
            == Parsed(true, Arr(ItemsMean(items, 0, rd)), i + |gap| + |ItemsText(items)| + 1, 0)
    decreases items, 1
  {
    hide ParseValue, ParseItems, OccursAt, Spelling, IsGap, JsonOk, Meaning, FirstToken;
    var t := ItemsText(items) + "]";
    OccursSplit(doc, i, gap, t);
    var s := i + |gap|;
    OccursChar(doc, s, t, 0);
    if items.NoItems? {
      GapRead(doc, i, gap, false);
      assert t == "]";
      assert SkipSpaces(doc, s) == s;
    } else {
      JsonStarts(items.val, f.allowComments, rd);
      assert t[0] == Spelling(items.val)[0];
      WhiteIsSpace(t[0]);
      GapHead(doc, i, gap, f.allowComments);
      GapByFeatures(doc, i, gap, f);
      SkippedSame(doc, i, f);
      ItemsByToken(doc, SkipSpaces(doc, i), s, End, 0, f, rd);
      ItemsRead(doc, s, items, 0, End, f, rd);
    }
  }

  // From an element on, with those before it read.
  lemma {:induction false} ItemsRead(doc: string, i: nat, e: Items, index: nat, acc: Entries, f: Features,
                                     rd: DoubleReader)
    requires e.Item? && ItemsOk(e, f.allowComments, rd) && Before(acc, Index(index))
    requires OccursAt(doc, i, ItemsText(e) + "]")
    ensures i <= |doc|
    ensures ParseItems(doc, i, acc, index, f, rd)
            == Parsed(true, Arr(Append(acc, ItemsMean(e, index, rd))), i + |ItemsText(e)| + 1, 0)
    decreases e, 0
  {
    hide ParseValue, ParseItems, OccursAt, Spelling, IsGap, JsonOk, Meaning, NumberChar, NoComment, ReadToken, Put,
         FirstToken, Append, ItemsMean, ItemsText, Lookup, Before, NumberEnds;
    var s, v, more := Spelling(e.val), Meaning(e.val, rd), MoreItems(e);
    ItemsNext(e, index, acc, f.allowComments, rd);
    BehindValue(doc, i, s, e.post, more, "]");
    JsonRead(doc, i, e.val, Lookup(acc, Index(index)), f, rd);
    OneItemStep(doc, i, acc, index, f, rd);
    PutLast(acc, Index(index), v);
    var k := i + |s| + |e.post|;
    if e.rest.NoItems? {
      assert more + "]" == "]";
      OneCharToken(doc, k, ']');
    } else {
      BehindComma(doc, k, e.gap, ItemsText(e.rest), "]", f);
      ItemsByToken(doc, k + 1, k + 1 + |e.gap|, Append(acc, Entry(Index(index), v, End)), index + 1, f, rd);
      ItemsRead(doc, k + 1 + |e.gap|, e.rest, index + 1, Append(acc, Entry(Index(index), v, End)), f, rd);
    }
  }

  lemma ItemsNext(e: Items, index: nat, acc: Entries, comments: bool, rd: DoubleReader)
    requires e.Item? && ItemsOk(e, comments, rd) && Before(acc, Index(index))
    ensures ItemsText(e) == Spelling(e.val) + (e.post + MoreItems(e))
    ensures var more := Append(acc, Entry(Index(index), Meaning(e.val, rd), End));
            && Append(acc, ItemsMean(e, index, rd)) == Append(more, ItemsMean(e.rest, index + 1, rd))
            && Before(more, Index(index + 1)) && (e.rest.NoItems? ==> Append(acc, ItemsMean(e, index, rd)) == more)
  {
    hide Meaning, JsonOk, Spelling, IsGap;
    var v := Meaning(e.val, rd);
    AppendAssoc(acc, Entry(Index(index), v, End), ItemsMean(e.rest, index + 1, rd));
    AppendOne(Index(index), v, ItemsMean(e.rest, index + 1, rd));
    BeforeAppend(acc, Index(index), v, Index(index + 1));
  }

  lemma AppendOne(k: Key, v: Value, more: Entries)
    ensures Append(Entry(k, v, End), more) == Entry(k, v, more)
  {
  }

  // What follows a value is a gap and then a separator or the closing bracket.
  lemma BehindValue(doc: string, i: nat, s: string, post: string, more: string, close: string)
    requires IsGap(post, true) && (close == "]" || close == "}")
    requires more == "" || more[0] == ',' || !IsGap(post, false)
    requires OccursAt(doc, i, s + (post + more) + close)
    ensures OccursAt(doc, i, s) && OccursAt(doc, i + |s| + |post|, more + close) && NumberEnds(doc, i + |s|)
    ensures i + |s| + |post| < |doc|
    ensures NoComment(doc, i + |s|) == NoComment(doc, i + |s| + |post|)
    ensures IsGap(post, false) ==> ReadToken(doc, i + |s|) == ReadToken(doc, i + |s| + |post|)
    ensures !IsGap(post, false) ==> ReadToken(doc, i + |s|).kind == CommentToken
  {
    hide OccursAt, ReadToken, NoComment, FirstToken, IsGap, NumberEnds;
    var rest := more + close;
    Associated(s, post, more, close);
    EmptyGap();
    ValuePlaces(doc, i, s, post, rest);
    GapRead(doc, i + |s|, post, true);
    if IsGap(post, false) {
      GapRead(doc, i + |s|, post, false);
      assert rest[0] == if more == "" then close[0] else ',';
    }
    NoNumberBehind(doc, i + |s|, post, rest);
  }

  lemma EmptyGap()
    ensures IsGap("", false)
  {
  }

  lemma ValuePlaces(doc: string, i: nat, s: string, post: string, rest: string)
    requires OccursAt(doc, i, s + (post + rest)) && rest != ""
    ensures OccursAt(doc, i, s) && OccursAt(doc, i + |s|, post) && OccursAt(doc, i + |s|, post + rest)
    ensures OccursAt(doc, i + |s| + |post|, rest) && i + |s| + |post| < |doc|
  {
    hide OccursAt;
    OccursSplit(doc, i, s, post + rest);
    OccursSplit(doc, i + |s|, post, rest);
    OccursChar(doc, i + |s| + |post|, rest, 0);
  }

  lemma Associated(a: string, b: string, c: string, d: string)
    ensures a + (b + c) + d == a + (b + (c + d))
  {
  }

  lemma NoNumberBehind(doc: string, i: nat, post: string, rest: string)
    requires IsGap(post, true) && OccursAt(doc, i, post + rest)
    requires rest != "" && (post != "" || rest[0] == ',' || rest[0] == ']' || rest[0] == '}')
    ensures NumberEnds(doc, i)
  {
    hide IsGap;
    OccursChar(doc, i, post + rest, 0);
    assert (post + rest)[0] == if post == "" then rest[0] else post[0];
    if post != "" {
      GapStarts(post, true);
    }
  }

  lemma BehindComma(doc: string, k: nat, gap: string, t: string, close: string, f: Features)
    requires IsGap(gap, f.allowComments) && OccursAt(doc, k, "," + (gap + t) + close)
    ensures k + 1 + |gap| <= |doc| && OccursAt(doc, k + 1 + |gap|, t + close)
    ensures ReadToken(doc, k) == NoComment(doc, k) == Token(ArraySeparator, k, k + 1)
    ensures FirstToken(doc, k + 1, f) == FirstToken(doc, k + 1 + |gap|, f)
  {
    hide OccursAt, ReadToken, NoComment, FirstToken, IsGap;
    assert "," + (gap + t) + close == "," + (gap + (t + close));
    OccursSplit(doc, k, ",", gap + (t + close));
    OneCharToken(doc, k, ',');
    OccursSplit(doc, k + 1, gap, t + close);
    GapByFeatures(doc, k + 1, gap, f);
  }

  lemma {:induction false} RecordRead(doc: string, i: nat, gap: string, members: Members, f: Features, rd: DoubleReader)
    requires IsGap(gap, true) && !members.Trailing? && MembersOk(members, f.allowComments, rd)
    requires OccursAt(doc, i, gap + (MembersText(members) + "}"))
    ensures i <= |doc|
    ensures ParseMembers(doc, i, End, "", f, rd)
            == Parsed(true, Obj(MembersMean(members, End, rd)), i + |gap| + |MembersText(members)| + 1, 0)
    decreases members, 3
  {
    hide ParseMembers, OccursAt, Spelling, IsGap, JsonOk, Meaning, NoComment, ReadToken, InMarks, FirstToken;
    var t := MembersText(members) + "}";
    OccursSplit(doc, i, gap, t);
    GapRead(doc, i, gap, true);
    MembersByToken(doc, i, i + |gap|, End, "", f, rd);
    if members.NoMembers? {
      assert t == "}";
      OneCharToken(doc, i + |gap|, '}');
      NothingInside(doc, i + |gap|, End, f, rd);
    } else {
      MembersRead(doc, i + |gap|, members, End, "", f, rd);
    }
  }

  lemma NothingInside(doc: string, i: nat, acc: Entries, f: Features, rd: DoubleReader)
    requires i <= |doc| && NoComment(doc, i).kind == ObjectEnd
    ensures ParseMembers(doc, i, acc, "", f, rd) == Parsed(true, Obj(acc), NoComment(doc, i).stop, 0)
  {
    hide NoComment, ParseMember, Recover;
  }

  lemma MembersByToken(doc: string, i: nat, j: nat, acc: Entries, name: string, f: Features, rd: DoubleReader)
    requires i <= |doc| && j <= |doc| && NoComment(doc, i) == NoComment(doc, j)
    ensures ParseMembers(doc, i, acc, name, f, rd) == ParseMembers(doc, j, acc, name, f, rd)
  {
    hide NoComment, ParseMember, Recover, ParseMembersEnd;
  }

  // One member and what follows it, as the loop of readObject takes it.
  lemma MemberThen(doc: string, i: nat, acc: Entries, name: string, f: Features, rd: DoubleReader)
    requires i <= |doc| && NoComment(doc, i).kind == StringToken
             && ParseMember(doc, NoComment(doc, i), acc, f, rd).Member?
    ensures var m := ParseMember(doc, NoComment(doc, i), acc, f, rd);
            var first, t := ReadToken(doc, m.next), NoComment(doc, m.next);
            (first.kind == ObjectEnd || first.kind == ArraySeparator || first.kind == CommentToken) ==>
              ParseMembers(doc, i, acc, name, f, rd)
              == if t.kind == ObjectEnd then Parsed(true, Obj(m.members), t.stop, 0)
                 else ParseMembers(doc, t.stop, m.members, m.name, f, rd)
  {
    hide ParseMember, NoComment, ReadToken, Recover;
  }

  // From a member on, with those before it read.
  lemma {:induction false} MembersRead(doc: string, i: nat, e: Members, acc: Entries, name: string, f: Features,
                                       rd: DoubleReader)
    requires e.Named? && MembersOk(e, f.allowComments, rd) && OccursAt(doc, i, MembersText(e) + "}")
    ensures i <= |doc|
    ensures ParseMembers(doc, i, acc, name, f, rd)
            == Parsed(true, Obj(MembersMean(e, acc, rd)), i + |MembersText(e)| + 1, 0)
    decreases e, 2
  {
    hide ParseMembers, OccursAt, Spelling, IsGap, JsonOk, Meaning, NumberChar, NoComment, ReadToken, Put, FirstToken,
         InMarks, ParseMember, MembersText, MembersMean, MembersOk, Says, PiecesOk, KeyOf, SepText, SepOk, MoreMembers;
    MeansNext(e, acc, f.allowComments, rd);
    var k := i + |MembersText(e)| - |MoreMembers(e)|;
    var next := Put(acc, KeyOf(e), Meaning(e.val, rd));
    MemberPassed(doc, i, e, acc, name, f, rd);
    if e.rest.NoMembers? {
      assert "" + "}" == "}";
      OneCharToken(doc, k, '}');
    } else {
      BehindSeparator(doc, k, e);
      var n := k + |SepText(e.sep)|;
      MembersByToken(doc, n, n + |e.gap|, next, Says(e.name), f, rd);
      if e.rest.Trailing? {
        assert "" + "}" == "}";
        OneCharToken(doc, n + |e.gap|, '}');
        NothingInside(doc, n + |e.gap|, next, f, rd);
      } else {
        MembersRead(doc, n + |e.gap|, e.rest, next, Says(e.name), f, rd);
      }
    }
  }

  // Past one member and the gap behind it.
  lemma {:induction false} MemberPassed(doc: string, i: nat, e: Members, acc: Entries, name: string, f: Features,
                                        rd: DoubleReader)
    requires e.Named? && MembersOk(e, f.allowComments, rd) && OccursAt(doc, i, MembersText(e) + "}")
    ensures i <= |doc|
    ensures var k := i + |MembersText(e)| - |MoreMembers(e)|; var next := Put(acc, KeyOf(e), Meaning(e.val, rd));
            && i <= k < |doc| && OccursAt(doc, k, MoreMembers(e) + "}")
            && var t := NoComment(doc, k);
               (ReadToken(doc, k).kind == ObjectEnd || ReadToken(doc, k).kind == ArraySeparator
                || !IsGap(e.post, false)) ==>
                 ParseMembers(doc, i, acc, name, f, rd)
                 == if t.kind == ObjectEnd then Parsed(true, Obj(next), t.stop, 0)
                    else ParseMembers(doc, t.stop, next, Says(e.name), f, rd)
    decreases e, 1
  {
    hide ParseMembers, OccursAt, Spelling, IsGap, JsonOk, Meaning, NumberChar, NoComment, ReadToken, Put, FirstToken,
         InMarks, ParseMember, MembersText, MembersMean, MembersOk, Says, PiecesOk, KeyOf, SepText, SepOk, MoreMembers;
    MeansNext(e, acc, f.allowComments, rd);
    MemberRead(doc, i, e, acc, f, rd);
    MemberThen(doc, i, acc, name, f, rd);
  }

  lemma MeansNext(e: Members, acc: Entries, comments: bool, rd: DoubleReader)
    requires e.Named? && MembersOk(e, comments, rd)
    ensures PiecesOk(e.name) && JsonOk(e.val, comments, rd) && MembersOk(e.rest, comments, rd)
    ensures IsGap(e.gap, true) && IsGap(e.post, true) && IsGap(e.after, comments) && IsGap(e.before, false)
    ensures MoreMembers(e) == "" || MoreMembers(e)[0] == ',' || !IsGap(e.post, false)
    ensures e.rest.NoMembers? ==> MoreMembers(e) == ""
    ensures !e.rest.NoMembers? ==> SepOk(e.sep, e.post) && (e.sep.Comma? || !IsGap(e.post, false))
    ensures e.rest.Trailing? ==> Says(e.name) == "" && MembersText(e.rest) == ""
    ensures MembersMean(e, acc, rd) == MembersMean(e.rest, Put(acc, KeyOf(e), Meaning(e.val, rd)), rd)
    ensures !e.rest.Named? ==> MembersMean(e.rest, Put(acc, KeyOf(e), Meaning(e.val, rd)), rd)
                               == Put(acc, KeyOf(e), Meaning(e.val, rd))
  {
    hide Meaning, JsonOk, Put, IsGap, IsStray;
  }

  lemma BehindSeparator(doc: string, k: nat, e: Members)
    requires e.Named? && !e.rest.NoMembers? && SepOk(e.sep, e.post) && IsGap(e.gap, true)
    requires OccursAt(doc, k, MoreMembers(e) + "}")
    ensures |MoreMembers(e)| == |SepText(e.sep)| + |e.gap| + |MembersText(e.rest)|
    ensures var n := k + |SepText(e.sep)|;
            && n + |e.gap| <= |doc| && OccursAt(doc, n + |e.gap|, MembersText(e.rest) + "}")
            && NoComment(doc, n) == NoComment(doc, n + |e.gap|)
            && NoComment(doc, k) == ReadToken(doc, k) && ReadToken(doc, k).stop == n
            && ReadToken(doc, k).kind != ObjectEnd && (e.sep.Comma? ==> ReadToken(doc, k).kind == ArraySeparator)
  {
    hide OccursAt, ReadToken, NoComment, IsGap, IsStray, MembersText;
    var s, t := SepText(e.sep), MembersText(e.rest) + "}";
    assert s + (e.gap + MembersText(e.rest)) + "}" == s + (e.gap + t);
    OccursSplit(doc, k, s, e.gap + t);
    OccursSplit(doc, k + |s|, e.gap, t);
    GapRead(doc, k + |s|, e.gap, true);
    if e.sep.Comma? {
      OneCharToken(doc, k, ',');
    } else {
      MembersStart(e.rest);
      StrayFollowed(doc, k + |s|, e.gap, t);
      StrayRead(doc, k, s);
    }
  }

  lemma MembersStart(e: Members)
    ensures var t := MembersText(e) + "}"; t[0] == '\"' || t[0] == '}'
  {
    hide Spelling;
  }

  lemma StrayFollowed(doc: string, i: nat, gap: string, t: string)
    requires IsGap(gap, true) && OccursAt(doc, i, gap + t) && t != "" && (t[0] == '\"' || t[0] == '}')
    ensures EndsStray(doc, i)
  {
    hide IsGap;
    OccursChar(doc, i, gap + t, 0);
    assert (gap + t)[0] == if gap == "" then t[0] else gap[0];
    if gap != "" {
      GapStarts(gap, true);
    }
  }

  // A name, the colon behind it and where the value begins.
  lemma NameRead(doc: string, i: nat, name: seq<Piece>, before: string, after: string, f: Features)
    requires PiecesOk(name) && IsGap(before, false) && IsGap(after, f.allowComments)
    requires var b := i + |InMarks(name)|; var c := b + |before|;
             && OccursAt(doc, i, InMarks(name)) && OccursAt(doc, b, before) && OccursAt(doc, c, ":")
             && OccursAt(doc, c + 1, after)
    ensures var b := i + |InMarks(name)|; var c := b + |before|; var k := c + 1 + |after|;
            && i + 2 <= b && k <= |doc| && NoComment(doc, i) == Token(StringToken, i, b)
            && DecodeFrom(doc, i + 1, b - 1) == Text(Says(name))
            && ReadToken(doc, b) == Token(MemberSeparator, c, c + 1)
            && FirstToken(doc, c + 1, f) == FirstToken(doc, k, f)
  {
    hide OccursAt, IsGap, NoComment, ReadToken, FirstToken, InMarks, DecodeFrom, Says, PiecesOk;
    var b := i + |InMarks(name)|;
    StringRead(doc, i, name);
    GapRead(doc, b, before, false);
    OneCharToken(doc, b + |before|, ':');
    GapByFeatures(doc, b + |before| + 1, after, f);
  }

  // One member, up to its value.
  lemma {:induction false} MemberRead(doc: string, i: nat, e: Members, acc: Entries, f: Features, rd: DoubleReader)
    requires e.Named? && MembersOk(e, f.allowComments, rd) && OccursAt(doc, i, MembersText(e) + "}")
    ensures i <= |doc|
    ensures var k := i + |MembersText(e)| - |MoreMembers(e)|; var t := NoComment(doc, i); var j := k - |e.post|;
            && i <= j && k < |doc| && OccursAt(doc, k, MoreMembers(e) + "}") && t.kind == StringToken
            && ParseMember(doc, t, acc, f, rd) == Member(Put(acc, KeyOf(e), Meaning(e.val, rd)), Says(e.name), j)
            && NoComment(doc, j) == NoComment(doc, k)
            && (IsGap(e.post, false) ==> ReadToken(doc, j) == ReadToken(doc, k))
            && (!IsGap(e.post, false) ==> ReadToken(doc, j).kind == CommentToken)
    decreases e, 0
  {
    hide ParseValue, OccursAt, Spelling, IsGap, JsonOk, Meaning, NumberChar, NoComment, ReadToken, Put, FirstToken,
         InMarks, ParseMember, DecodeFrom, NumberEnds, MoreMembers, Says, PiecesOk, CStr;
    var q, s, more := InMarks(e.name), Spelling(e.val), MoreMembers(e);
    MeansNext(e, acc, f.allowComments, rd);
    MemberParts(doc, i, q, e.before, e.after, s, e.post, more);
    NameRead(doc, i, e.name, e.before, e.after, f);
    var c := i + |q| + |e.before|;
    var k := c + 1 + |e.after|;
    BehindValue(doc, k, s, e.post, more, "}");
    JsonRead(doc, k, e.val, Lookup(acc, KeyOf(e)), f, rd);
    ValueByToken(doc, c + 1, k, Lookup(acc, KeyOf(e)), f, rd);
    NamedParsed(doc, Token(StringToken, i, i + |q|), acc, Says(e.name), f, rd);
  }

  lemma MemberParts(doc: string, i: nat, q: string, before: string, after: string, s: string, post: string,
                    more: string)
    requires OccursAt(doc, i, q + (before + (":" + (after + (s + (post + more))))) + "}")
    ensures var b := i + |q|; var c := b + |before|; var k := c + 1 + |after|;
            && OccursAt(doc, i, q) && OccursAt(doc, b, before) && OccursAt(doc, c, ":") && OccursAt(doc, c + 1, after)
            && OccursAt(doc, k, s + (post + more) + "}")
  {
    hide OccursAt;
    var t := s + (post + more) + "}";
    assert q + (before + (":" + (after + (s + (post + more))))) + "}" == q + (before + (":" + (after + t)));
    OccursSplit(doc, i, q, before + (":" + (after + t)));
    OccursSplit(doc, i + |q|, before, ":" + (after + t));
    OccursSplit(doc, i + |q| + |before|, ":", after + t);
    OccursSplit(doc, i + |q| + |before| + 1, after, t);
  }

  lemma NamedParsed(doc: string, t: Token, acc: Entries, name: string, f: Features, rd: DoubleReader)
    requires t.start + 2 <= t.stop <= |doc| && DecodeFrom(doc, t.start + 1, t.stop - 1) == Text(name)
    requires ReadToken(doc, t.stop).kind == MemberSeparator
    requires ParseValue(doc, ReadToken(doc, t.stop).stop, Lookup(acc, Name(CStr(name))), f, rd).ok
    ensures var r := ParseValue(doc, ReadToken(doc, t.stop).stop, Lookup(acc, Name(CStr(name))), f, rd);
            ParseMember(doc, t, acc, f, rd) == Member(Put(acc, Name(CStr(name)), r.v), name, r.next)
  {
    hide ParseValue, ReadToken, DecodeFrom, Put, CStr;
  }

  // A document that is the text of a value between two gaps is read as that value; the only error there can be is a
  // root that strictRoot does not allow.
  lemma AnyTextReads(j: Json, front: string, back: string, root: Value, f: Features, rd: DoubleReader)
    requires JsonOk(j, f.allowComments, rd) && IsGap(front, f.allowComments) && IsGap(back, f.allowComments)
    ensures var doc := front + Spelling(j) + back; var v := Meaning(j, rd);
            ParseDocument(doc, root, f, rd)
            == Parsed(RootAllowed(v, f), v, |doc|, if RootAllowed(v, f) then 0 else 1)
  {
    hide Spelling, ParseValue, FirstToken, Meaning, IsGap, OccursAt, NumberEnds, JsonOk, ReadToken, NoComment,
         NumberChar;
    var s := Spelling(j);
    var doc := front + s + back;
    OccursMiddle(front + s, back, "");
    assert doc == front + s + back + "";
    BlankEnds(doc, |front + s|, back, f.allowComments);
    TextAt(j, front, back, root, f, rd);
    GapByFeatures(doc, |front + s|, back, f);
    NoMore(doc, f);
  }

  // The same, whatever stands behind the value.
  lemma TextAt(j: Json, front: string, back: string, root: Value, f: Features, rd: DoubleReader)
    requires JsonOk(j, f.allowComments, rd) && IsGap(front, f.allowComments)
    requires IsNumber(j) ==> NumberEnds(front + Spelling(j) + back, |front + Spelling(j)|)
    ensures ParseValue(front + Spelling(j) + back, 0, root, f, rd)
            == Parsed(true, Meaning(j, rd), |front + Spelling(j)|, 0)
  {
    hide Spelling, ParseValue, FirstToken, Meaning, IsGap, OccursAt, NumberEnds, JsonOk;
    var s := Spelling(j);
    var doc := front + s + back;
    OccursMiddle(front, s, back);
    OccursMiddle("", front, s + back);
    assert doc == "" + front + (s + back);
    GapByFeatures(doc, 0, front, f);
    JsonRead(doc, |front|, j, root, f, rd);
    ValueByToken(doc, 0, |front|, root, f, rd);
  }

  lemma BlankEnds(doc: string, i: nat, back: string, comments: bool)
    requires IsGap(back, comments) && OccursAt(doc, i, back) && i + |back| == |doc|
    ensures NumberEnds(doc, i)
  {
    hide IsGap;
    if back != "" {
      OccursChar(doc, i, back, 0);
      GapStarts(back, comments);
    }
  }

  lemma NoMore(doc: string, f: Features)
    ensures FirstToken(doc, |doc|, f) == Token(EndOfStream, |doc|, |doc|)
  {
    assert SkipSpaces(doc, |doc|) == |doc|;
  }
}

/** How the line-breaking printer lays its text out: the indentation of every line, and the length of the arrays
    that stand on one line. */
module JsonLayout {
  import opened JsonValue
  import opened JsonNumber
  import opened JsonString
  import opened JsonFast
  import opened JsonStyled

  // Reading a text from the left: whether one is in a literal, and how many brackets are open.
  datatype Scan = Scan(mode: Mode, depth: int)

  function Read(s: Scan, c: char): Scan {
    Scan(Next(s.mode, c),
         if s.mode != Outside then s.depth else if c in "[{" then s.depth + 1 else if c in "]}" then s.depth - 1
         else s.depth)
  }

  function Over(x: string, s: Scan): Scan {
    if x == "" then s else Over(x[1..], Read(s, x[0]))
  }

  function Blanks(x: string): (k: nat)
    ensures k <= |x|
  {
    if x == "" || x[0] != ' ' then 0 else 1 + Blanks(x[1..])
  }

  // A line begins with three blanks for every open bracket, but for the one that it closes at once.
  predicate LineBegins(x: string, depth: int) {
    var k := Blanks(x);
    k < |x| && k == 3 * if x[k] in "]}" then depth - 1 else depth
  }

  // So it is behind every line break of x outside literals, when t follows x.
  predicate LinesOk(x: string, s: Scan, t: string) {
    x == "" || ((x[0] == '\n' && s.mode == Outside ==> LineBegins(x[1..] + t, s.depth))
                && LinesOk(x[1..], Read(s, x[0]), t))
  }

  ghost predicate Tidy(x: string, d: int, e: int, t: string) {
    LinesOk(x, Scan(Outside, d), t) && Over(x, Scan(Outside, d)) == Scan(Outside, e)
  }

  lemma {:induction false} LinesAppend(a: string, b: string, s: Scan, t: string)
    ensures Over(a + b, s) == Over(b, Over(a, s))
    ensures LinesOk(a + b, s, t) <==> LinesOk(a, s, b + t) && LinesOk(b, Over(a, s), t)
    decreases |a|
  {
    hide LineBegins, Read;
    if a == "" {
      assert a + b == b;
    } else {
      assert (a + b)[0] == a[0] && (a + b)[1..] == a[1..] + b;
      assert a[1..] + b + t == a[1..] + (b + t);
      LinesAppend(a[1..], b, Read(s, a[0]), t);
    }
  }

  lemma TidyAppend(a: string, b: string, d: int, e: int, f: int, t: string)
    requires Tidy(a, d, e, b + t) && Tidy(b, e, f, t)
    ensures Tidy(a + b, d, f, t)
  {
    LinesAppend(a, b, Scan(Outside, d), t);
  }

  // No line break, quotation mark or bracket.
  predicate Quiet(x: string) { forall i :: 0 <= i < |x| ==> x[i] !in "\n\"[]{}" }

  lemma {:induction false} QuietTidy(x: string, d: int, t: string)
    requires Quiet(x)
    ensures Tidy(x, d, d, t)
    decreases |x|
  {
    hide LineBegins;
    if x != "" {
      QuietTidy(x[1..], d, t);
    }
  }

  lemma BracketTidy(c: char, d: int, t: string)
    ensures c in "[{" ==> Tidy([c], d, d + 1, t)
    ensures c in "]}" ==> Tidy([c], d, d - 1, t)
  {
    hide LineBegins;
    assert [c][1..] == "";
    assert Over([c], Scan(Outside, d)) == Over("", Read(Scan(Outside, d), c)) == Read(Scan(Outside, d), c);
    assert LinesOk("", Read(Scan(Outside, d), c), t);
  }

  predicate AllBlanks(x: string) { forall i :: 0 <= i < |x| ==> x[i] == ' ' }

  lemma {:induction false} BlanksCounted(ind: string, t: string)
    requires AllBlanks(ind) && t != "" && t[0] != ' '
    ensures Blanks(ind + t) == |ind|
    decreases |ind|
  {
    if ind == "" {
      assert ind + t == t;
    } else {
      assert (ind + t)[0] == ' ' && (ind + t)[1..] == ind[1..] + t;
      BlanksCounted(ind[1..], t);
    }
  }

  // A line break with its indentation, and what stands there then.
  lemma BreakTidy(ind: string, d: int, t: string)
    requires AllBlanks(ind) && t != "" && t[0] != ' ' && |ind| == 3 * if t[0] in "]}" then d - 1 else d
    ensures Tidy("\n" + ind, d, d, t)
  {
    var x := "\n" + ind;
    BlanksCounted(ind, t);
    assert x[1..] == ind && (ind + t)[|ind|] == t[0];
    assert Quiet(ind);
    QuietTidy(ind, d, t);
  }

  // ---- leaves ----

  lemma {:induction false} InsideLines(x: string, d: int, t: string)
    requires forall i :: 0 <= i < |x| ==> x[i] != '\"' && x[i] != '\\'
    ensures LinesOk(x, Scan(Inside, d), t) && Over(x, Scan(Inside, d)) == Scan(Inside, d)
    decreases |x|
  {
    hide LineBegins;
    if x != "" {
      InsideLines(x[1..], d, t);
    }
  }

  lemma TwoLines(x: string, d: int, t: string)
    requires |x| == 2 && x[0] == '\\'
    ensures LinesOk(x, Scan(Inside, d), t) && Over(x, Scan(Inside, d)) == Scan(Inside, d)
  {
    hide LineBegins;
    var y := x[1..];
    assert y == [x[1]] && y[1..] == "";
    assert Over(y, Scan(Escaping, d)) == Scan(Inside, d) && LinesOk(y, Scan(Escaping, d), t);
  }

  lemma EscapeLines(c: char, d: int, t: string)
    ensures LinesOk(Escape(c), Scan(Inside, d), t) && Over(Escape(c), Scan(Inside, d)) == Scan(Inside, d)
  {
    hide LineBegins, LinesOk, Over;
    var e := Escape(c);
    if e == [c] {
      assert c != '\"' && c != '\\';
      InsideLines(e, d, t);
    } else if |e| == 2 {
      TwoLines(e, d, t);
    } else {
      var h := Hex4(c as int);
      assert forall i :: 0 <= i < |h| ==> h[i] != '\"' && h[i] != '\\';
      TwoLines("\\u", d, h + t);
      InsideLines(h, d, t);
      LinesAppend("\\u", h, Scan(Inside, d), t);
      assert e == "\\u" + h;
    }
  }

  lemma {:induction false} EscapedLines(s: string, d: int, t: string)
    ensures LinesOk(Escaped(s), Scan(Inside, d), t) && Over(Escaped(s), Scan(Inside, d)) == Scan(Inside, d)
  {
    hide LineBegins, Escape;
    if s != "" {
      EscapedLines(s[1..], d, t);
      EscapeLines(s[0], d, Escaped(s[1..]) + t);
      LinesAppend(Escape(s[0]), Escaped(s[1..]), Scan(Inside, d), t);
    }
  }

  lemma QuotedTidy(s: string, d: int, t: string)
    ensures Tidy(Quoted(s), d, d, t)
  {
    hide LineBegins, Escaped;
    var e := Escaped(s);
    EscapedLines(s, d, "\"" + t);
    MarkRead(d, t);
    LinesAppend(e, "\"", Scan(Inside, d), t);
    MarkRead(d, e + "\"" + t);
    LinesAppend("\"", e + "\"", Scan(Outside, d), t);
    assert Quoted(s) == "\"" + (e + "\"");
  }

  lemma MarkRead(d: int, t: string)
    ensures LinesOk("\"", Scan(Outside, d), t) && Over("\"", Scan(Outside, d)) == Scan(Inside, d)
    ensures LinesOk("\"", Scan(Inside, d), t) && Over("\"", Scan(Inside, d)) == Scan(Outside, d)
  {
  }

  // Doubles are printed as numbers are: no blanks, marks or brackets.
  ghost predicate ShowsNumbers(st: Style) {
    ShowsWords(st) && forall r :: Quiet(st.show(r))
  }

  lemma IntQuiet(n: int)
    ensures Quiet(IntText(n)) && IntText(n) != "" && IntText(n)[0] != ' '
  {
    hide IntText;
    IntWord(n);
    forall i | 0 <= i < |IntText(n)| ensures IntText(n)[i] !in "\n\"[]{}" && IntText(n)[i] != ' ' {
      assert IsDigit(IntText(n)[i]) || IntText(n)[i] == '-';
    }
  }

  lemma EmptyPair(open: char, close: char, d: int, t: string)
    requires (open == '[' && close == ']') || (open == '{' && close == '}')
    ensures Tidy([open, close], d, d, t)
  {
    BracketTidy(open, d, [close] + t);
    BracketTidy(close, d + 1, t);
    TidyAppend([open], [close], d, d + 1, d, t);
    assert [open] + [close] == [open, close];
  }

  lemma FlatTidy(v: Value, ind: string, d: int, st: Style, t: string)
    requires Writable(v) && ShowsNumbers(st) && !Nested(v)
    ensures Tidy(Styled(v, ind, st), d, d, t)
  {
    hide Tidy, IntText, Quoted;
    match v
    case Str(s) => QuotedTidy(s.value, d, t);
    case Int(i) =>
      IntQuiet(i);
      QuietTidy(IntText(i), d, t);
    case UInt(u) =>
      IntQuiet(u);
      QuietTidy(IntText(u), d, t);
    case Real(r) => QuietTidy(st.show(r), d, t);
    case Bool(b) => QuietTidy(BoolText(b), d, t);
    case Null => QuietTidy("null", d, t);
    case Arr(_) => EmptyPair('[', ']', d, t);
    case Obj(_) => EmptyPair('{', '}', d, t);
  }

  lemma StyledFirst(v: Value, ind: string, st: Style)
    requires Writable(v) && ShowsNumbers(st)
    ensures var s := Styled(v, ind, st); s != "" && s[0] != ' ' && s[0] !in "]}"
  {
    hide IntText, StyledItems, StyledMembers, AnyNested, Escaped;
    match v
    case Int(i) => IntQuiet(i);
    case UInt(u) => IntQuiet(u);
    case Real(r) => assert IsWord(st.show(r)) && Quiet(st.show(r));
    case _ =>
  }

  // ---- containers ----

  lemma DeeperBlanks(ind: string, d: int)
    requires AllBlanks(ind) && |ind| == 3 * d
    ensures AllBlanks(ind + INDENT) && |ind + INDENT| == 3 * (d + 1)
  {
  }

  // At d open brackets a value is written with 3 * d blanks before its lines.
  lemma {:induction false} StyledTidy(v: Value, ind: string, d: int, st: Style, t: string)
    requires Writable(v) && ShowsNumbers(st) && AllBlanks(ind) && |ind| == 3 * d
    ensures Tidy(Styled(v, ind, st), d, d, t)
    decreases Size(v), 0
  {
    hide Tidy, StyledItems, StyledMembers, AnyNested, AllBlanks, Fast, ShowsNumbers;
    if !Nested(v) {
      FlatTidy(v, ind, d, st, t);
    } else {
      var deeper := ind + INDENT;
      DeeperBlanks(ind, d);
      if v.Obj? {
        MembersTidy(v.members, deeper, d + 1, st, "\n" + ind + "}" + t);
        ClosedTidy('{', StyledMembers(v.members, deeper, st), ind, '}', d, t);
      } else {
        var size := ArraySize(v.items);
        ItemsTidy(v.items, 0, size, deeper, d + 1, st, "\n" + ind + "]" + t);
        ClosedTidy('[', StyledItems(v.items, 0, size, "\n" + deeper, deeper, st), ind, ']', d, t);
        if !AnyNested(v.items, size) {
          LineTidy(v.items, 0, size, ind, d + 1, st, " ]" + t);
          OneLineTidy(StyledItems(v.items, 0, size, " ", ind, st), d, t);
        }
      }
    }
  }

  lemma ClosedTidy(open: char, s: string, ind: string, close: char, d: int, t: string)
    requires (open == '[' && close == ']') || (open == '{' && close == '}')
    requires AllBlanks(ind) && |ind| == 3 * d && Tidy(s, d + 1, d + 1, "\n" + ind + [close] + t)
    ensures Tidy([open] + (s + ("\n" + ind + [close])), d, d, t)
  {
    hide Tidy, AllBlanks;
    BracketTidy(close, d + 1, t);
    BreakTidy(ind, d + 1, [close] + t);
    TidyAppend("\n" + ind, [close], d + 1, d + 1, d, t);
    assert "\n" + ind + [close] + t == ("\n" + ind + [close]) + t;
    TidyAppend(s, "\n" + ind + [close], d + 1, d + 1, d, t);
    BracketTidy(open, d, (s + ("\n" + ind + [close])) + t);
    TidyAppend([open], s + ("\n" + ind + [close]), d, d + 1, d, t);
  }

  lemma OneLineTidy(s: string, d: int, t: string)
    requires Tidy(s, d + 1, d + 1, " ]" + t)
    ensures Tidy("[" + (s + " ]"), d, d, t)
  {
    hide Tidy;
    BracketTidy(']', d + 1, t);
    QuietTidy(" ", d + 1, "]" + t);
    TidyAppend(" ", "]", d + 1, d + 1, d, t);
    assert " " + "]" == " ]";
    TidyAppend(s, " ]", d + 1, d + 1, d, t);
    BracketTidy('[', d, (s + " ]") + t);
    TidyAppend("[", s + " ]", d, d + 1, d, t);
  }

  lemma {:induction false} ItemsTidy(items: Entries, index: nat, size: nat, ind: string, d: int, st: Style, t: string)
    requires EntriesWritable(items) && ShowsNumbers(st) && AllBlanks(ind) && |ind| == 3 * d && index <= size
    ensures Tidy(StyledItems(items, index, size, "\n" + ind, ind, st), d, d, t)
    decreases EntriesSize(items), 1, size - index
  {
    hide Tidy, Styled, AllBlanks, ShowsNumbers, Lookup;
    if index == size {
      QuietTidy("", d, t);
    } else {
      LookupFits(items, Index(index));
      var v := Lookup(items, Index(index));
      var more := if index + 1 == size then "" else "," + StyledItems(items, index + 1, size, "\n" + ind, ind, st);
      if index + 1 == size {
        QuietTidy("", d, t);
      } else {
        ItemsTidy(items, index + 1, size, ind, d, st, t);
        CommaTidy(StyledItems(items, index + 1, size, "\n" + ind, ind, st), d, t);
      }
      StyledTidy(v, ind, d, st, more + t);
      TidyAppend(Styled(v, ind, st), more, d, d, d, t);
      StyledFirst(v, ind, st);
      BreakTidy(ind, d, Styled(v, ind, st) + more + t);
      TidyAppend("\n" + ind, Styled(v, ind, st) + more, d, d, d, t);
    }
  }

  lemma CommaTidy(s: string, d: int, t: string)
    requires Tidy(s, d, d, t)
    ensures Tidy("," + s, d, d, t)
  {
    hide Tidy;
    QuietTidy(",", d, s + t);
    TidyAppend(",", s, d, d, d, t);
  }

  lemma {:induction false} NoneNested(items: Entries, size: nat, index: nat)
    requires !AnyNested(items, size) && index < size
    ensures !Nested(Lookup(items, Index(index)))
    decreases size
  {
    if index + 1 < size {
      NoneNested(items, size - 1, index);
    }
  }

  // On one line.
  lemma {:induction false} LineTidy(items: Entries, index: nat, size: nat, ind: string, d: int, st: Style, t: string)
    requires EntriesWritable(items) && ShowsNumbers(st) && index <= size && !AnyNested(items, size)
    ensures Tidy(StyledItems(items, index, size, " ", ind, st), d, d, t)
    decreases size - index
  {
    hide Tidy, Styled, ShowsNumbers, Lookup, Nested, AnyNested;
    if index == size {
      QuietTidy("", d, t);
    } else {
      LookupFits(items, Index(index));
      NoneNested(items, size, index);
      var v := Lookup(items, Index(index));
      var more := if index + 1 == size then "" else "," + StyledItems(items, index + 1, size, " ", ind, st);
      if index + 1 == size {
        QuietTidy("", d, t);
      } else {
        LineTidy(items, index + 1, size, ind, d, st, t);
        CommaTidy(StyledItems(items, index + 1, size, " ", ind, st), d, t);
      }
      FlatTidy(v, ind, d, st, more + t);
      TidyAppend(Styled(v, ind, st), more, d, d, d, t);
      QuietTidy(" ", d, Styled(v, ind, st) + more + t);
      TidyAppend(" ", Styled(v, ind, st) + more, d, d, d, t);
    }
  }

  lemma {:induction false} MembersTidy(e: Entries, ind: string, d: int, st: Style, t: string)
    requires EntriesWritable(e) && ShowsNumbers(st) && AllBlanks(ind) && |ind| == 3 * d
    ensures Tidy(StyledMembers(e, ind, st), d, d, t)
    decreases EntriesSize(e), 1
  {
    hide Tidy, Styled, AllBlanks, ShowsNumbers, Quoted;
    if e.End? {
      QuietTidy("", d, t);
    } else {
      var more := if e.rest.End? then "" else "," + StyledMembers(e.rest, ind, st);
      if e.rest.End? {
        QuietTidy("", d, t);
      } else {
        MembersTidy(e.rest, ind, d, st, t);
        CommaTidy(StyledMembers(e.rest, ind, st), d, t);
      }
      var q, s := KeyText(e.key), Styled(e.val, ind, st);
      StyledTidy(e.val, ind, d, st, more + t);
      TidyAppend(s, more, d, d, d, t);
      QuietTidy(" : ", d, s + more + t);
      TidyAppend(" : ", s + more, d, d, d, t);
      KeyTidy(e.key, d, (" : " + (s + more)) + t);
      TidyAppend(q, " : " + (s + more), d, d, d, t);
      BreakTidy(ind, d, q + (" : " + (s + more)) + t);
      TidyAppend("\n" + ind, q + (" : " + (s + more)), d, d, d, t);
    }
  }

  lemma KeyTidy(k: Key, d: int, t: string)
    ensures Tidy(KeyText(k), d, d, t) && KeyText(k) != "" && KeyText(k)[0] == '\"'
  {
    hide Tidy, Escaped;
    QuotedTidy(if k.Name? then k.name else "", d, t);
  }

  // ---- the written text ----

  lemma {:induction false} LineAt(x: string, s: Scan, t: string, i: nat)
    requires LinesOk(x, s, t) && i < |x| && x[i] == '\n' && Over(x[..i], s).mode == Outside
    ensures LineBegins(x[i + 1..] + t, Over(x[..i], s).depth)
    decreases |x|
  {
    hide LineBegins, Read;
    if i > 0 {
      assert x[..i][1..] == x[1..][..i - 1] && x[..i][0] == x[0];
      LineAt(x[1..], Read(s, x[0]), t, i - 1);
      assert x[1..][i - 1 + 1..] == x[i + 1..];
    }
  }

  // Every line of the styled text of a value begins with three blanks for each bracket open before it, not counting one
  // that the line closes at once.
  lemma StyledIndented(v: Value, st: Style, i: nat)
    requires Writable(v) && ShowsNumbers(st)
    requires var x := Styled(v, "", st); i < |x| && x[i] == '\n' && Over(x[..i], Scan(Outside, 0)).mode == Outside
    ensures var x := Styled(v, "", st); LineBegins(x[i + 1..], Over(x[..i], Scan(Outside, 0)).depth)
  {
    hide Styled, LineBegins, LinesOk, Over;
    var x := Styled(v, "", st);
    StyledTidy(v, "", 0, st, "");
    LineAt(x, Scan(Outside, 0), "", i);
    assert x[i + 1..] + "" == x[i + 1..];
  }

  // An array that stands on one line, in front of the margin, has fewer than 74 characters.
  lemma OneLineShort(items: Entries, ind: string, st: Style)
    requires EntriesWritable(items) && ArraySize(items) > 0
    requires '\n' !in Styled(Arr(items), ind, st)
    ensures |Styled(Arr(items), ind, st)| < 74
  {
    hide StyledItems, AnyNested;
    var size, deeper := ArraySize(items), ind + INDENT;
    SpreadBreaks(items, size, deeper, st);
    var s := StyledItems(items, 0, size, "\n" + deeper, deeper, st);
    assert ("[" + (s + ("\n" + ind + "]")))[1] == s[0];
  }

  lemma SpreadBreaks(items: Entries, size: nat, ind: string, st: Style)
    requires EntriesWritable(items) && size > 0
    ensures var s := StyledItems(items, 0, size, "\n" + ind, ind, st); s != "" && s[0] == '\n'
  {
    hide Styled;
  }

  // An array on one line: its elements parted by a comma and a blank, with a blank at either end.
  function OneLine(items: Entries, index: nat, size: nat, st: Style): string
    requires EntriesWritable(items) && index <= size
    decreases size - index
  {
    if index == size then "" else
    LookupFits(items, Index(index));
    Fast(Lookup(items, Index(index)), st) + if index + 1 == size then "" else ", " + OneLine(items, index + 1, size, st)
  }

  lemma {:induction false} OneLineItems(items: Entries, index: nat, size: nat, ind: string, st: Style)
    requires EntriesWritable(items) && index < size && !AnyNested(items, size)
    ensures StyledItems(items, index, size, " ", ind, st) == " " + OneLine(items, index, size, st)
    decreases size - index
  {
    hide Fast, Lookup, Nested, AnyNested, Styled;
    LookupFits(items, Index(index));
    NoneNested(items, size, index);
    FlatIsFast(Lookup(items, Index(index)), ind, st);
    var f := Fast(Lookup(items, Index(index)), st);
    if index + 1 < size {
      OneLineItems(items, index + 1, size, ind, st);
      var t := OneLine(items, index + 1, size, st);
      assert " " + (f + ("," + (" " + t))) == " " + (f + (", " + t));
    }
  }

  lemma FlatIsFast(v: Value, ind: string, st: Style)
    requires Writable(v) && !Nested(v)
    ensures Styled(v, ind, st) == Fast(v, st)
  {
    hide StyledItems, StyledMembers, AnyNested;
    match v
    case Arr(items) => assert "[" + "" + "]" == "[]";
    case Obj(members) => assert "{" + "" + "}" == "{}";
    case _ =>
  }

  lemma {:induction false} NestedAmong(items: Entries, size: nat)
    ensures AnyNested(items, size) <==> exists k: nat :: k < size && Nested(Lookup(items, Index(k)))
    decreases size
  {
    if size > 0 {
      NestedAmong(items, size - 1);
    }
  }

  lemma FastLong(v: Value, st: Style)
    requires Writable(v) && ShowsWords(st)
    ensures Fast(v, st) != ""
  {
    match v
    case Int(i) => IntWord(i);
    case UInt(u) => IntWord(u);
    case Real(r) => assert IsWord(st.show(r));
    case _ =>
  }

  lemma {:induction false} OneLineLong(items: Entries, index: nat, size: nat, st: Style)
    requires EntriesWritable(items) && index < size && ShowsWords(st)
    ensures |OneLine(items, index, size, st)| >= 3 * (size - index) - 2
    decreases size - index
  {
    hide Fast, Lookup, ShowsWords;
    LookupFits(items, Index(index));
    FastLong(Lookup(items, Index(index)), st);
    if index + 1 < size {
      OneLineLong(items, index + 1, size, st);
    }
  }

  // An array that is not empty stands on one line exactly if none of its elements is a container that is not empty and
  // the line has fewer than 74 characters.
  lemma OnOneLineExactly(items: Entries, ind: string, st: Style)
    requires EntriesWritable(items) && ShowsWords(st) && ArraySize(items) > 0
    ensures var size := ArraySize(items); var line := "[ " + OneLine(items, 0, size, st) + " ]";
            var flat := forall k: nat :: k < size ==> !Nested(Lookup(items, Index(k)));
            && (flat && |line| < 74 ==> Styled(Arr(items), ind, st) == line)
            && (!flat || |line| >= 74 ==> |Styled(Arr(items), ind, st)| > 1 && Styled(Arr(items), ind, st)[1] == '\n')
  {
    hide StyledItems, AnyNested, Lookup, Nested, OneLine, ShowsWords;
    var size, deeper := ArraySize(items), ind + INDENT;
    NestedAmong(items, size);
    OneLineLong(items, 0, size, st);
    SpreadBreaks(items, size, deeper, st);
    var s := StyledItems(items, 0, size, "\n" + deeper, deeper, st);
    assert ("[" + (s + ("\n" + ind + "]")))[1] == s[0];
    if !AnyNested(items, size) {
      OneLineItems(items, 0, size, ind, st);
      var t := OneLine(items, 0, size, st);
      assert "[" + ((" " + t) + " ]") == "[ " + t + " ]";
    }
  }

  // ---- blanks around the marks ----

  // What may follow what outside literals: a colon stands between blanks, behind a comma comes a blank or a line break,
  // and so behind an opening bracket and in front of a closing one, unless they enclose nothing.
  predicate Follows(a: char, b: char) {
    && (b == ':' ==> a == ' ') && (a == ':' ==> b == ' ') && (a == ',' ==> b in " \n") && (b == ',' ==> a !in " \n")
    && (a == '[' ==> b in "] \n") && (a == '{' ==> b in "}\n") && (b == ']' ==> a in "[ \n")
    && (b == '}' ==> a in "{ \n")
  }

  // So it is throughout x, read in mode m with the character a in front.
  predicate SpacedOk(x: string, m: Mode, a: char) {
    x == "" || ((m == Outside ==> Follows(a, x[0])) && SpacedOk(x[1..], Next(m, x[0]), x[0]))
  }

  function LastOf(x: string, a: char): char {
    if x == "" then a else x[|x| - 1]
  }

  ghost predicate Spaced(x: string, a: char, b: char) {
    SpacedOk(x, Outside, a) && After(x, Outside) == Outside && LastOf(x, a) == b
  }

  lemma {:induction false} SpacedParts(x: string, y: string, m: Mode, a: char)
    ensures SpacedOk(x + y, m, a) <==> SpacedOk(x, m, a) && SpacedOk(y, After(x, m), LastOf(x, a))
    ensures LastOf(x + y, a) == LastOf(y, LastOf(x, a))
    decreases |x|
  {
    hide Follows, Next;
    if x == "" {
      assert x + y == y;
    } else {
      assert (x + y)[0] == x[0] && (x + y)[1..] == x[1..] + y;
      SpacedParts(x[1..], y, Next(m, x[0]), x[0]);
      assert y != "" ==> (x + y)[|x + y| - 1] == y[|y| - 1];
    }
  }

  lemma SpacedAppend(x: string, y: string, a: char, b: char, c: char)
    requires Spaced(x, a, b) && Spaced(y, b, c)
    ensures Spaced(x + y, a, c)
  {
    SpacedParts(x, y, Outside, a);
    EraseAppend(x, y, Outside);
  }

  // A word: no blanks, line breaks or marks.
  predicate Solid(x: string) { x != "" && forall i :: 0 <= i < |x| ==> x[i] !in " \n\":,[]{}" }

  // The last character of a value.
  predicate EndsValue(c: char) { c !in " \n:,[{" }

  lemma {:induction false} SolidSpaced(x: string, a: char)
    requires Solid(x) && a !in ":,[{"
    ensures Spaced(x, a, x[|x| - 1]) && EndsValue(x[|x| - 1])
    decreases |x|
  {
    if |x| > 1 {
      SolidSpaced(x[1..], x[0]);
    } else {
      assert x[1..] == "";
    }
  }

  lemma {:induction false} PlainSpaced(x: string, a: char)
    requires forall i :: 0 <= i < |x| ==> x[i] != '\"' && x[i] != '\\'
    ensures SpacedOk(x, Inside, a)
    decreases |x|
  {
    if x != "" {
      PlainSpaced(x[1..], x[0]);
    }
  }

  lemma EscapeSpaced(c: char, a: char)
    ensures SpacedOk(Escape(c), Inside, a) && After(Escape(c), Inside) == Inside
  {
    hide Follows;
    var e := Escape(c);
    EscapeKept(c);
    if e == [c] {
      PlainSpaced(e, a);
    } else {
      assert e[0] == '\\' && |e| >= 2;
      assert e[1..][0] == e[1] && e[1..][1..] == e[2..];
      if |e| == 2 {
        assert e[2..] == "";
      } else {
        var h := Hex4(c as int);
        assert e == "\\u" + h && e[2..] == h;
        assert forall i :: 0 <= i < |h| ==> h[i] != '\"' && h[i] != '\\';
        PlainSpaced(h, e[1]);
      }
      assert SpacedOk(e[1..][1..], Inside, e[1]);
      assert Next(Inside, e[0]) == Escaping && Next(Escaping, e[1]) == Inside;
      assert SpacedOk(e[1..], Escaping, e[0]);
    }
  }

  lemma {:induction false} EscapedSpaced(s: string, a: char)
    ensures SpacedOk(Escaped(s), Inside, a) && After(Escaped(s), Inside) == Inside
  {
    hide Follows, Escape, Next;
    if s != "" {
      EscapeSpaced(s[0], a);
      EscapedSpaced(s[1..], LastOf(Escape(s[0]), a));
      SpacedParts(Escape(s[0]), Escaped(s[1..]), Inside, a);
      EraseAppend(Escape(s[0]), Escaped(s[1..]), Inside);
    }
  }

  lemma QuotedSpaced(s: string, a: char)
    requires a !in ":,[{"
    ensures Spaced(Quoted(s), a, '\"')
  {
    hide Escaped;
    var e := Escaped(s);
    EscapedSpaced(s, '\"');
    QuoteMark();
    MarkSpaced(a, LastOf(e, '\"'));
    SpacedParts(e, "\"", Inside, '\"');
    EraseAppend(e, "\"", Inside);
    SpacedParts("\"", e + "\"", Outside, a);
    EraseAppend("\"", e + "\"", Outside);
    assert Quoted(s) == "\"" + (e + "\"");
  }

  lemma MarkSpaced(a: char, b: char)
    ensures a !in ":,[{" ==> SpacedOk("\"", Outside, a)
    ensures SpacedOk("\"", Inside, b)
  {
  }

  // One character outside literals.
  lemma CharSpaced(a: char, c: char)
    requires c != '\"' && Follows(a, c)
    ensures Spaced([c], a, c)
  {
    assert [c][1..] == "";
    assert SpacedOk("", Outside, c) && After("", Outside) == Outside;
  }

  lemma {:induction false} BlanksSpaced(ind: string, a: char)
    requires AllBlanks(ind) && a in " \n"
    ensures Spaced(ind, a, if ind == "" then a else ' ')
    decreases |ind|
  {
    if ind != "" {
      BlanksSpaced(ind[1..], ' ');
      assert ind[|ind| - 1] == ' ';
    }
  }

  // A line break with its indentation, behind a value, a comma or an opening bracket.
  lemma BreakSpaced(ind: string, a: char)
    requires AllBlanks(ind) && a != ':'
    ensures Spaced("\n" + ind, a, if ind == "" then '\n' else ' ')
  {
    hide Spaced, SpacedOk;
    CharSpaced(a, '\n');
    BlanksSpaced(ind, '\n');
    SpacedAppend("\n", ind, a, '\n', if ind == "" then '\n' else ' ');
  }

  ghost predicate ShowsSolid(st: Style) {
    ShowsNumbers(st) && forall r :: Solid(st.show(r))
  }

  lemma IntSolid(n: int)
    ensures Solid(IntText(n))
  {
    hide IntText;
    IntWord(n);
    forall i | 0 <= i < |IntText(n)| ensures IntText(n)[i] !in " \n\":,[]{}" {
      assert IsDigit(IntText(n)[i]) || IntText(n)[i] == '-';
    }
  }

  // The character that a styled value ends with.
  ghost predicate ValueSpaced(x: string, a: char) {
    x != "" && Spaced(x, a, x[|x| - 1]) && EndsValue(x[|x| - 1])
  }

  lemma PairSpaced(open: char, close: char, a: char)
    requires ((open == '[' && close == ']') || (open == '{' && close == '}')) && a in " \n"
    ensures ValueSpaced([open, close], a)
  {
    CharSpaced(a, open);
    CharSpaced(open, close);
    SpacedAppend([open], [close], a, open, close);
    assert [open] + [close] == [open, close];
  }

  lemma FlatSpaced(v: Value, ind: string, st: Style, a: char)
    requires Writable(v) && ShowsSolid(st) && !Nested(v) && a in " \n"
    ensures ValueSpaced(Styled(v, ind, st), a)
  {
    hide Spaced, IntText, Quoted;
    match v
    case Str(s) =>
      QuotedSpaced(s.value, a);
      QuotedEnds(s.value);
    case Int(i) =>
      IntSolid(i);
      SolidSpaced(IntText(i), a);
    case UInt(u) =>
      IntSolid(u);
      SolidSpaced(IntText(u), a);
    case Real(r) => SolidSpaced(st.show(r), a);
    case Bool(b) => SolidSpaced(BoolText(b), a);
    case Null => SolidSpaced("null", a);
    case Arr(_) => PairSpaced('[', ']', a);
    case Obj(_) => PairSpaced('{', '}', a);
  }

  lemma QuotedEnds(s: string)
    ensures Quoted(s) != "" && Quoted(s)[|Quoted(s)| - 1] == '\"'
  {
  }

  lemma {:induction false} StyledSpaced(v: Value, ind: string, st: Style, a: char)
    requires Writable(v) && ShowsSolid(st) && AllBlanks(ind) && a in " \n"
    ensures ValueSpaced(Styled(v, ind, st), a)
    decreases Size(v), 0
  {
    hide ValueSpaced, StyledItems, StyledMembers, AnyNested, AllBlanks, Fast, ShowsSolid;
    if !Nested(v) {
      FlatSpaced(v, ind, st, a);
    } else {
      var deeper := ind + INDENT;
      AllDeeper(ind);
      if v.Obj? {
        MembersSpaced(v.members, deeper, st, '{');
        ClosedSpaced('{', StyledMembers(v.members, deeper, st), ind, '}', a);
      } else {
        var size := ArraySize(v.items);
        ItemsSpaced(v.items, 0, size, "\n" + deeper, deeper, st, '[');
        ClosedSpaced('[', StyledItems(v.items, 0, size, "\n" + deeper, deeper, st), ind, ']', a);
        ItemsSpaced(v.items, 0, size, " ", ind, st, '[');
        OneLineSpaced(StyledItems(v.items, 0, size, " ", ind, st), a);
      }
    }
  }

  lemma AllDeeper(ind: string)
    requires AllBlanks(ind)
    ensures AllBlanks(ind + INDENT) && ind + INDENT != ""
  {
  }

  // The inside of brackets, from behind the opening one, ends like a value.
  ghost predicate InsideOk(x: string, open: char) {
    x != "" && Spaced(x, open, x[|x| - 1]) && EndsValue(x[|x| - 1])
  }

  lemma ClosedSpaced(open: char, s: string, ind: string, close: char, a: char)
    requires ((open == '[' && close == ']') || (open == '{' && close == '}')) && a in " \n"
    requires AllBlanks(ind) && InsideOk(s, open)
    ensures ValueSpaced([open] + (s + ("\n" + ind + [close])), a)
  {
    hide Spaced, AllBlanks;
    var l, b := s[|s| - 1], if ind == "" then '\n' else ' ';
    BreakSpaced(ind, l);
    CharSpaced(b, close);
    SpacedAppend("\n" + ind, [close], l, b, close);
    SpacedAppend(s, "\n" + ind + [close], open, l, close);
    CharSpaced(a, open);
    SpacedAppend([open], s + ("\n" + ind + [close]), a, open, close);
  }

  lemma OneLineSpaced(s: string, a: char)
    requires InsideOk(s, '[') && a in " \n"
    ensures ValueSpaced("[" + (s + " ]"), a)
  {
    hide Spaced;
    var l := s[|s| - 1];
    CharSpaced(l, ' ');
    CharSpaced(' ', ']');
    SpacedAppend(" ", "]", l, ' ', ']');
    assert " " + "]" == " ]";
    SpacedAppend(s, " ]", '[', l, ']');
    CharSpaced(a, '[');
    SpacedAppend("[", s + " ]", a, '[', ']');
  }

  // The gap in front of an element: a blank, or a line break with its indentation.
  lemma GapSpaced(gap: string, ind: string, open: char)
    requires (open == '[' || open == '{' || open == ',') && AllBlanks(ind)
    requires (gap == " " && open != '{') || (gap == "\n" + ind && ind != "")
    ensures Spaced(gap, open, ' ')
  {
    if gap == " " {
      CharSpaced(open, ' ');
    } else {
      BreakSpaced(ind, open);
    }
  }

  lemma Joint(x: string, y: string, z: string, a: char)
    requires Spaced(x, a, ' ') && ValueSpaced(y, ' ')
    requires z == "" || (z[0] == ',' && InsideOk(z[1..], ','))
    ensures InsideOk(x + (y + z), a)
  {
    hide Spaced;
    var l := y[|y| - 1];
    if z == "" {
      assert y + z == y;
      SpacedAppend(x, y, a, ' ', l);
      assert (x + y)[|x + y| - 1] == l;
    } else {
      var t := z[1..];
      CharSpaced(l, ',');
      SpacedAppend(",", t, l, ',', t[|t| - 1]);
      assert "," + t == z;
      SpacedAppend(y, z, ' ', l, t[|t| - 1]);
      SpacedAppend(x, y + z, a, ' ', t[|t| - 1]);
      assert (x + (y + z))[|x + (y + z)| - 1] == t[|t| - 1];
    }
  }

  lemma {:induction false} ItemsSpaced(items: Entries, index: nat, size: nat, gap: string, ind: string, st: Style,
                                       open: char)
    requires EntriesWritable(items) && ShowsSolid(st) && AllBlanks(ind) && index < size && (open == '[' || open == ',')
    requires gap == " " || (gap == "\n" + ind && ind != "")
    ensures InsideOk(StyledItems(items, index, size, gap, ind, st), open)
    decreases EntriesSize(items), 1, size - index
  {
    hide Spaced, ValueSpaced, InsideOk, Styled, AllBlanks, ShowsSolid, Lookup;
    LookupFits(items, Index(index));
    var v := Lookup(items, Index(index));
    var more := if index + 1 == size then "" else "," + StyledItems(items, index + 1, size, gap, ind, st);
    if index + 1 < size {
      ItemsSpaced(items, index + 1, size, gap, ind, st, ',');
      assert more[1..] == StyledItems(items, index + 1, size, gap, ind, st);
    }
    StyledSpaced(v, ind, st, ' ');
    GapSpaced(gap, ind, open);
    Joint(gap, Styled(v, ind, st), more, open);
  }

  lemma {:induction false} MembersSpaced(e: Entries, ind: string, st: Style, open: char)
    requires e.Entry? && EntriesWritable(e) && ShowsSolid(st) && AllBlanks(ind) && ind != ""
    requires open == '{' || open == ','
    ensures InsideOk(StyledMembers(e, ind, st), open)
    decreases EntriesSize(e), 1
  {
    hide Spaced, ValueSpaced, InsideOk, Styled, AllBlanks, ShowsSolid, Quoted;
    var more := if e.rest.End? then "" else "," + StyledMembers(e.rest, ind, st);
    if e.rest.Entry? {
      MembersSpaced(e.rest, ind, st, ',');
      assert more[1..] == StyledMembers(e.rest, ind, st);
    }
    var q, s := KeyText(e.key), Styled(e.val, ind, st);
    StyledSpaced(e.val, ind, st, ' ');
    GapSpaced("\n" + ind, ind, open);
    NameSpaced(e.key);
    SpacedAppend("\n" + ind, q + " : ", open, ' ', ' ');
    Joint("\n" + ind + (q + " : "), s, more, open);
    assert "\n" + ind + (q + (" : " + (s + more))) == "\n" + ind + (q + " : ") + (s + more);
  }

  lemma NameSpaced(k: Key)
    ensures Spaced(KeyText(k) + " : ", ' ', ' ')
  {
    hide Spaced, Quoted;
    QuotedSpaced(if k.Name? then k.name else "", ' ');
    CharSpaced('\"', ' ');
    CharSpaced(' ', ':');
    CharSpaced(':', ' ');
    SpacedAppend(" ", ":", '\"', ' ', ':');
    SpacedAppend(" " + ":", " ", '\"', ':', ' ');
    assert " " + ":" + " " == " : ";
    SpacedAppend(KeyText(k), " : ", ' ', '\"', ' ');
  }

  lemma {:induction false} SpacedAt(x: string, m: Mode, a: char, i: nat)
    requires SpacedOk(x, m, a) && 0 < i < |x| && After(x[..i], m) == Outside
    ensures Follows(x[i - 1], x[i])
    decreases |x|
  {
    hide Follows, Next;
    assert x[..i][1..] == x[1..][..i - 1] && x[..i][0] == x[0];
    if i > 1 {
      SpacedAt(x[1..], Next(m, x[0]), x[0], i - 1);
    } else {
      assert x[1..][..0] == "";
    }
  }

  // Throughout the styled text of a value.
  lemma StyledBlanks(v: Value, st: Style, i: nat)
    requires Writable(v) && ShowsSolid(st)
    requires var x := Styled(v, "", st); 0 < i < |x| && After(x[..i], Outside) == Outside
    ensures var x := Styled(v, "", st); Follows(x[i - 1], x[i])
  {
    hide Styled, Follows;
    StyledSpaced(v, "", st, '\n');
    SpacedAt(Styled(v, "", st), Outside, '\n', i);
  }
}

/** The line-breaking printer, and how its text relates to the compact one. */
module JsonStyled {
  import opened JsonValue
  import opened JsonNumber
  import opened JsonString
  import opened JsonParse
  import opened JsonFast

  const RIGHT_MARGIN := 74
  const INDENT := "   "

  // ---- the text of a value ----

  // Printing a double gives a word: no white space, no quotation mark.
  predicate IsWord(s: string) {
    s != "" && forall i :: 0 <= i < |s| ==> !IsSpace(s[i]) && s[i] != '\"'
  }

  ghost predicate ShowsWords(st: Style) { !st.yaml && forall r :: IsWord(st.show(r)) }

  predicate Nested(v: Value) { (v.Arr? || v.Obj?) && SizeOf(v) > 0 }

  // Whether one of the first n elements is a container that is not empty.
  predicate AnyNested(items: Entries, n: nat) {
    n > 0 && (AnyNested(items, n - 1) || Nested(Lookup(items, Index(n - 1))))
  }

  // A value at the indentation ind. An array is put on one line if it has no nested element, is not
  // too long, and the line ends before the margin.
  function Styled(v: Value, ind: string, st: Style): string
    requires Writable(v)
    decreases Size(v), 0
  {
    match v
    case Arr(items) =>
      var size := ArraySize(items);
      if size == 0 then "[]" else
      var line := "[" + (StyledItems(items, 0, size, " ", ind, st) + " ]");
      if size * 3 < RIGHT_MARGIN && !AnyNested(items, size) && |line| < RIGHT_MARGIN then line
      else "[" + (StyledItems(items, 0, size, "\n" + (ind + INDENT), ind + INDENT, st) + ("\n" + ind + "]"))
    case Obj(members) =>
      if members.End? then "{}"
      else "{" + (StyledMembers(members, ind + INDENT, st) + ("\n" + ind + "}"))
    case _ => Fast(v, st)
  }

  // The elements from index on, the gap before each.
  function StyledItems(items: Entries, index: nat, size: nat, gap: string, ind: string, st: Style): string
    requires EntriesWritable(items) && index <= size
    decreases EntriesSize(items), size - index
  {
    if index == size then "" else
    LookupFits(items, Index(index));
    gap + (Styled(Lookup(items, Index(index)), ind, st)
           + (if index + 1 == size then "" else "," + StyledItems(items, index + 1, size, gap, ind, st)))
  }

  function StyledMembers(e: Entries, ind: string, st: Style): string
    requires EntriesWritable(e)
    decreases EntriesSize(e), 0
  {
    if e.End? then "" else
    var more := if e.rest.End? then "" else "," + StyledMembers(e.rest, ind, st);
    "\n" + ind + (KeyText(e.key) + (" : " + (Styled(e.val, ind, st) + more)))
  }

  // ---- erasing white space outside string literals ----

  datatype Mode = Outside | Inside | Escaping

  function Next(m: Mode, c: char): Mode {
    match m
    case Outside => if c == '\"' then Inside else Outside
    case Inside => if c == '\"' then Outside else if c == '\\' then Escaping else Inside
    case Escaping => Inside
  }

  function Erase(s: string, m: Mode): string {
    if s == "" then ""
    else (if m == Outside && IsSpace(s[0]) then "" else [s[0]]) + Erase(s[1..], Next(m, s[0]))
  }

  function After(s: string, m: Mode): Mode {
    if s == "" then m else After(s[1..], Next(m, s[0]))
  }

  // Erasing turns s, which closes its literals, into t.
  predicate ErasesTo(s: string, t: string) { Erase(s, Outside) == t && After(s, Outside) == Outside }

  lemma EraseNothing(m: Mode)
    ensures Erase("", m) == "" && After("", m) == m
  {
  }

  lemma EraseStep(s: string, m: Mode)
    requires s != ""
    ensures var kept := if m == Outside && IsSpace(s[0]) then "" else [s[0]];
            Erase(s, m) == kept + Erase(s[1..], Next(m, s[0])) && After(s, m) == After(s[1..], Next(m, s[0]))
  {
  }

  lemma {:induction false} EraseAppend(a: string, b: string, m: Mode)
    ensures Erase(a + b, m) == Erase(a, m) + Erase(b, After(a, m)) && After(a + b, m) == After(b, After(a, m))
    decreases |a|
  {
    hide Next, IsSpace, Erase, After;
    EraseNothing(m);
    if a == "" {
      assert a + b == b;
    } else {
      assert (a + b)[0] == a[0] && (a + b)[1..] == a[1..] + b;
      EraseAppend(a[1..], b, Next(m, a[0]));
      EraseStep(a, m);
      EraseStep(a + b, m);
    }
  }

  lemma ErasesAppend(a: string, t: string, b: string, u: string)
    requires ErasesTo(a, t) && ErasesTo(b, u)
    ensures ErasesTo(a + b, t + u)
  {
    EraseAppend(a, b, Outside);
  }

  lemma {:induction false} WordKept(s: string)
    requires forall i :: 0 <= i < |s| ==> !IsSpace(s[i]) && s[i] != '\"'
    ensures ErasesTo(s, s)
  {
    if s != "" {
      WordKept(s[1..]);
      assert s == [s[0]] + s[1..];
    }
  }

  predicate Blank(s: string) { forall i :: 0 <= i < |s| ==> IsSpace(s[i]) }

  lemma {:induction false} BlankErased(s: string)
    requires Blank(s)
    ensures ErasesTo(s, "")
  {
    if s != "" {
      BlankErased(s[1..]);
    }
  }

  lemma EscapeKept(c: char)
    ensures Erase(Escape(c), Inside) == Escape(c) && After(Escape(c), Inside) == Inside
  {
    var e := Escape(c);
    if e == [c] {
      assert Erase(e[1..], Inside) == "";
      assert c != '\"' && c != '\\';
    } else if |e| == 2 {
      TwoKept(e);
    } else {
      var h := Hex4(c as int);
      forall i | 0 <= i < |h| ensures h[i] != '\"' && h[i] != '\\' {
      }
      assert e == "\\u" + h;
      TwoKept("\\u");
      InsideKept(h);
      EraseAppend("\\u", h, Inside);
    }
  }

  lemma TwoKept(e: string)
    requires |e| == 2 && e[0] == '\\'
    ensures Erase(e, Inside) == e && After(e, Inside) == Inside
  {
    var f := e[1..];
    assert f == [e[1]] && f[1..] == "";
    assert Erase(f, Escaping) == [e[1]] + "" && After(f, Escaping) == Inside;
    assert e == [e[0]] + [e[1]];
  }

  lemma {:induction false} InsideKept(s: string)
    requires forall i :: 0 <= i < |s| ==> s[i] != '\"' && s[i] != '\\'
    ensures Erase(s, Inside) == s && After(s, Inside) == Inside
  {
    if s != "" {
      InsideKept(s[1..]);
      assert s == [s[0]] + s[1..];
    }
  }

  lemma {:induction false} EscapedKept(s: string)
    ensures Erase(Escaped(s), Inside) == Escaped(s) && After(Escaped(s), Inside) == Inside
  {
    hide Escape, Next;
    if s != "" {
      EscapedKept(s[1..]);
      EscapeKept(s[0]);
      EraseAppend(Escape(s[0]), Escaped(s[1..]), Inside);
    }
  }

  // Nothing is lost from a literal.
  lemma QuotedKept(s: string)
    ensures ErasesTo(Quoted(s), Quoted(s))
  {
    hide Escaped;
    var e := Escaped(s);
    EscapedKept(s);
    QuoteMark();
    EraseAppend(e, "\"", Inside);
    EraseAppend("\"", e + "\"", Outside);
    assert Quoted(s) == "\"" + (e + "\"");
  }

  lemma QuoteMark()
    ensures Erase("\"", Inside) == "\"" && After("\"", Inside) == Outside
    ensures Erase("\"", Outside) == "\"" && After("\"", Outside) == Inside
  {
  }

  // ---- the styled text is the compact one, spread out ----

  lemma FastWord(v: Value, st: Style)
    requires Writable(v) && ShowsWords(st) && !v.Arr? && !v.Obj?
    ensures ErasesTo(Fast(v, st), Fast(v, st))
  {
    hide Erase, After, ErasesTo;
    match v
    case Str(s) => QuotedKept(s.value);
    case Int(i) => IntWord(i); WordKept(IntText(i));
    case UInt(u) => IntWord(u); WordKept(IntText(u));
    case Real(r) => assert IsWord(st.show(r)); WordKept(st.show(r));
    case Bool(b) => WordKept(BoolText(b));
    case Null => WordKept("null");
  }

  lemma IntWord(n: int)
    ensures IsWord(IntText(n)) && forall i :: 0 <= i < |IntText(n)| ==> IsDigit(IntText(n)[i]) || IntText(n)[i] == '-'
  {
    var d := Digits(if n < 0 then -n else n);
    var s := IntText(n);
    forall i | 0 <= i < |s| ensures !IsSpace(s[i]) && s[i] != '\"' && (IsDigit(s[i]) || s[i] == '-') {
      assert n >= 0 ==> s[i] == d[i];
      assert n < 0 && 0 < i ==> s[i] == d[i - 1];
    }
  }

  // Erasing white space outside literals from the styled text leaves the compact one.
  lemma {:induction false} StyledErases(v: Value, ind: string, st: Style)
    requires Writable(v) && ShowsWords(st) && Blank(ind)
    ensures ErasesTo(Styled(v, ind, st), Fast(v, st))
    decreases Size(v), 0
  {
    hide Erase, After, ErasesTo, StyledItems, StyledMembers, FastItems, FastMembers, AnyNested;
    match v
    case Arr(items) =>
      var size := ArraySize(items);
      var deeper := ind + INDENT;
      if size == 0 {
        WordKept("[]");
        NothingInside(items, st);
      } else {
        ItemsErase(items, 0, size, " ", ind, st);
        ItemsErase(items, 0, size, "\n" + deeper, deeper, st);
        BracketErases('[', StyledItems(items, 0, size, " ", ind, st), FastItems(items, 0, size, st), " ", ']');
        BracketErases('[', StyledItems(items, 0, size, "\n" + deeper, deeper, st), FastItems(items, 0, size, st),
                      "\n" + ind, ']');
        assert " " + "]" == " ]";
      }
    case Obj(members) =>
      if members.End? {
        WordKept("{}");
        NothingInside(members, st);
      } else {
        MembersErase(members, ind + INDENT, st);
        BracketErases('{', StyledMembers(members, ind + INDENT, st), FastMembers(members, st), "\n" + ind, '}');
      }
    case _ => FastWord(v, st);
  }

  lemma NothingInside(e: Entries, st: Style)
    requires EntriesWritable(e)
    ensures "[" + FastItems(e, 0, 0, st) + "]" == "[]" && "{" + FastMembers(End, st) + "}" == "{}"
  {
  }

  lemma BracketErases(open: char, s: string, t: string, gap: string, close: char)
    requires ErasesTo(s, t) && Blank(gap)
    requires (open == '[' && close == ']') || (open == '{' && close == '}')
    ensures ErasesTo([open] + (s + (gap + [close])), [open] + t + [close])
  {
    hide Erase, After, ErasesTo;
    WordKept([open]);
    WordKept([close]);
    BlankErased(gap);
    ErasesAppend(gap, "", [close], [close]);
    ErasesAppend(s, t, gap + [close], "" + [close]);
    ErasesAppend([open], [open], s + (gap + [close]), t + ("" + [close]));
    assert [open] + (t + ("" + [close])) == [open] + t + [close];
  }

  lemma {:induction false} ItemsErase(items: Entries, index: nat, size: nat, gap: string, ind: string, st: Style)
    requires EntriesWritable(items) && ShowsWords(st) && Blank(ind) && Blank(gap) && index <= size
    ensures ErasesTo(StyledItems(items, index, size, gap, ind, st), FastItems(items, index, size, st))
    decreases EntriesSize(items), 1, size - index
  {
    hide Erase, After, ErasesTo, Fast, Styled, Lookup;
    if index == size {
      BlankErased("");
    } else {
      LookupFits(items, Index(index));
      var v := Lookup(items, Index(index));
      var s, t := Styled(v, ind, st), Fast(v, st);
      StyledErases(v, ind, st);
      BlankErased(gap);
      if index + 1 == size {
        BlankErased("");
        ErasesAppend(s, t, "", "");
        ErasesAppend(gap, "", s + "", t + "");
        assert "" + (t + "") == t;
      } else {
        var u, w := StyledItems(items, index + 1, size, gap, ind, st), FastItems(items, index + 1, size, st);
        ItemsErase(items, index + 1, size, gap, ind, st);
        WordKept(",");
        ErasesAppend(",", ",", u, w);
        ErasesAppend(s, t, "," + u, "," + w);
        ErasesAppend(gap, "", s + ("," + u), t + ("," + w));
        assert "" + (t + ("," + w)) == t + ("," + w);
      }
    }
  }

  lemma {:induction false} MembersErase(e: Entries, ind: string, st: Style)
    requires EntriesWritable(e) && ShowsWords(st) && Blank(ind)
    ensures ErasesTo(StyledMembers(e, ind, st), FastMembers(e, st))
    decreases EntriesSize(e), 0
  {
    hide Erase, After, ErasesTo, Fast, Styled, FastMembers, Quoted;
    if e.End? {
      BlankErased("");
      NoMembers(st);
    } else {
      StyledErases(e.val, ind, st);
      var more := if e.rest.End? then "" else "," + StyledMembers(e.rest, ind, st);
      var fastMore := if e.rest.End? then "" else "," + FastMembers(e.rest, st);
      if e.rest.End? {
        BlankErased("");
      } else {
        MembersErase(e.rest, ind, st);
        WordKept(",");
        ErasesAppend(",", ",", StyledMembers(e.rest, ind, st), FastMembers(e.rest, st));
      }
      MemberErases("\n" + ind, e.key, Styled(e.val, ind, st), Fast(e.val, st), more, fastMore);
      MembersStep(e, st);
    }
  }

  lemma MemberErases(gap: string, key: Key, s: string, t: string, more: string, fastMore: string)
    requires Blank(gap) && ErasesTo(s, t) && ErasesTo(more, fastMore)
    ensures ErasesTo(gap + (KeyText(key) + (" : " + (s + more))), KeyText(key) + (":" + t) + fastMore)
  {
    hide Erase, After, ErasesTo, Quoted;
    var k := KeyText(key);
    QuotedKept(if key.Name? then key.name else "");
    BlankErased(gap);
    BlankErased(" ");
    WordKept(":");
    ErasesAppend(" ", "", ":", ":");
    ErasesAppend(" " + ":", "" + ":", " ", "");
    assert " " + ":" + " " == " : " && "" + ":" + "" == ":";
    ErasesAppend(s, t, more, fastMore);
    ErasesAppend(" : ", ":", s + more, t + fastMore);
    ErasesAppend(k, k, " : " + (s + more), ":" + (t + fastMore));
    ErasesAppend(gap, "", k + (" : " + (s + more)), k + (":" + (t + fastMore)));
    assert "" + (k + (":" + (t + fastMore))) == k + (":" + t) + fastMore;
  }
}

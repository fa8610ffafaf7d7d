/** The line-breaking printer as it works: appending to the document, and setting the texts of the
    elements of an array aside to see whether they fit on a line. */
module JsonStyledWriter {
  import opened JsonValue
  import opened JsonNumber
  import opened JsonString
  import opened JsonParse
  import opened JsonFast
  import opened JsonStyled

  // What writeIndent appends.
  function Break(doc: string, ind: string): string {
    if doc == "" then ind
    else if doc[|doc| - 1] == ' ' then ""
    else if doc[|doc| - 1] == '\n' then ind
    else "\n" + ind
  }

  // A value may be written right here.
  predicate AtStart(doc: string, ind: string) { Break(doc, ind) == "" }

  // The next indentation breaks the line.
  predicate MidLine(doc: string) { doc != "" && !IsSpace(doc[|doc| - 1]) }

  class StyledWriter {
    var document: string
    var childValues: seq<string>
    var indentString: string
    var addChildValues: bool
    const style: Style

    constructor (st: Style)
      ensures style == st
    {
      style, document, childValues, indentString, addChildValues := st, "", [], "", false;
    }

    method Write(root: Value) returns (r: string)
      requires Writable(root) && WellFormed(root) && ShowsWords(style)
      modifies this
      ensures r == document == Styled(root, "", style) + "\n"
    {
      document := "";
      addChildValues := false;
      indentString := "";
      WriteValue(root);
      assert "" + Styled(root, "", style) == Styled(root, "", style);
      document := document + "\n";
      r := document;
    }

    method PushValue(value: string)
      modifies this
      ensures addChildValues == old(addChildValues) && indentString == old(indentString)
      ensures addChildValues ==> document == old(document) && childValues == old(childValues) + [value]
      ensures !addChildValues ==> document == old(document) + value && childValues == old(childValues)
    {
      if addChildValues {
        childValues := childValues + [value];
      } else {
        document := document + value;
      }
    }

    method WriteIndent()
      modifies this`document
      ensures document == old(document) + Break(old(document), indentString)
    {
      if document != "" {
        var last := document[|document| - 1];
        if last == ' ' {
          assert document + "" == document;
          return;
        }
        if last != '\n' {
          document := document + ['\n'];
        }
      }
      document := document + indentString;
    }

    method WriteWithIndent(value: string)
      modifies this`document
      ensures document == old(document) + (Break(old(document), indentString) + value)
    {
      WriteIndent();
      document := document + value;
    }

    method Indent()
      modifies this`indentString
      ensures indentString == old(indentString) + INDENT
    {
      indentString := indentString + INDENT;
    }

    method Unindent()
      requires |INDENT| <= |indentString|
      modifies this`indentString
      ensures indentString == old(indentString)[..|old(indentString)| - |INDENT|]
    {
      indentString := indentString[..|indentString| - |INDENT|];
    }

    // Either the value goes to the end of the document, or the text of one that is not nested
    // to the texts set aside.
    method WriteValue(v: Value)
      requires Writable(v) && WellFormed(v) && ShowsWords(style)
      requires if addChildValues then !Nested(v) else AtStart(document, indentString)
      modifies this
      ensures addChildValues == old(addChildValues) && indentString == old(indentString)
      ensures addChildValues ==> document == old(document) && childValues == old(childValues) + [Fast(v, style)]
      ensures !addChildValues ==> document == old(document) + Styled(v, indentString, style)
      decreases Size(v), 4
    {
      hide StyledItems, StyledMembers, FastItems, FastMembers, Break, IsWord, AnyNested;
      if !Nested(v) {
        FlatStyled(v, indentString, style);
      }
      match v
      case Null => PushValue("null");
      case Int(i) => PushValue(IntText(i));
      case UInt(u) => PushValue(IntText(u));
      case Real(r) => PushValue(style.show(r));
      case Str(s) =>
        var t := ValueToQuotedString(s.value);
        PushValue(t);
      case Bool(b) => PushValue(BoolText(b));
      case Arr(items) => WriteArrayValue(items);
      case Obj(members) =>
        if members.End? {
          PushValue("{}");
        } else {
          WriteObject(members);
        }
    }

    method WriteObject(members: Entries)
      requires members.Entry? && EntriesWritable(members) && EntriesWellFormed(members) && Sorted(members)
               && ShowsWords(style)
      requires !addChildValues && AtStart(document, indentString)
      modifies this
      ensures !addChildValues && indentString == old(indentString)
      ensures document == old(document) + Styled(Obj(members), indentString, style)
      decreases Size(Obj(members)), 3
    {
      hide Styled, StyledMembers, SuffixOf, Lookup, Quoted, WellFormed, IsWord, Break;
      ghost var d, ind := document, indentString;
      BreakHere(document, indentString);
      WriteWithIndent("{");
      LineBreaks(document, ind, d, "{");
      Indent();
      ghost var all := StyledMembers(members, indentString, style);
      ghost var front := document;
      var rest := members;
      WholeSuffix(members);
      while true
        invariant rest.Entry? && EntriesWritable(rest) && EntriesWellFormed(rest)
                  && EntriesSize(rest) <= EntriesSize(members) && SuffixOf(rest, members)
        invariant !addChildValues && indentString == ind + INDENT && MidLine(document)
        invariant document + StyledMembers(rest, indentString, style) == front + all
        decreases EntriesSize(rest)
      {
        StyledMembersStep(rest, indentString, style);
        SuffixLookup(rest, members);
        SuffixRest(rest, members);
        WriteMember(rest, members);
        if rest.rest.End? {
          break;
        }
        ghost var before := document;
        document := document + ",";
        assert before + ("," + StyledMembers(rest.rest, indentString, style))
                 == document + StyledMembers(rest.rest, indentString, style);
        rest := rest.rest;
      }
      Unindent();
      assert indentString == ind;
      LineBreaks(document, ind, document, "");
      WriteWithIndent("}");
      ObjectWritten(members, d, ind, style);
      assert "\n" + ind + "}" == "\n" + (ind + "}");
      assert document == d + "{" + all + ("\n" + ind + "}");
    }

    // One member, without the comma behind it.
    method WriteMember(rest: Entries, members: Entries)
      requires rest.Entry? && EntriesWritable(rest) && EntriesWellFormed(rest)
               && EntriesSize(rest) <= EntriesSize(members) && ShowsWords(style)
      requires Writable(rest.val) && WellFormed(rest.val) && Lookup(members, rest.key) == rest.val
      requires !addChildValues && MidLine(document)
      modifies this
      ensures !addChildValues && indentString == old(indentString) && MidLine(document)
      ensures document == old(document)
                + ("\n" + indentString + (KeyText(rest.key) + (" : " + Styled(rest.val, indentString, style))))
      decreases EntriesSize(members), 2
    {
      hide Styled, Quoted, WellFormed, IsWord, Break, Writable;
      ghost var d := document;
      var name := ValueToQuotedString(if rest.key.Name? then rest.key.name else "");
      LineBreaks(document, indentString, document, "");
      WriteWithIndent(name);
      document := document + " : ";
      LineStarts(document, indentString);
      ghost var before := document;
      WriteValue(Lookup(members, rest.key));
      StyledEnds(rest.val, indentString, style);
      LineBreaks(document, indentString, before, Styled(rest.val, indentString, style));
    }

    method WriteArrayValue(items: Entries)
      requires EntriesWritable(items) && EntriesWellFormed(items) && ShowsWords(style)
      requires if addChildValues then ArraySize(items) == 0 else AtStart(document, indentString)
      modifies this
      ensures addChildValues == old(addChildValues) && indentString == old(indentString)
      ensures addChildValues ==> document == old(document) && childValues == old(childValues) + ["[]"]
      ensures !addChildValues ==> document == old(document) + Styled(Arr(items), indentString, style)
      decreases Size(Arr(items)), 3
    {
      hide StyledItems, AnyNested, WellFormed, Break, IsWord;
      var size := ArraySize(items);
      if size == 0 {
        PushValue("[]");
      } else {
        var isArrayMultiLine := IsMultilineArray(items);
        if isArrayMultiLine {
          WriteLines(items);
        } else {
          WriteLine(items);
        }
      }
    }

    // One element a line.
    method WriteLines(items: Entries)
      requires EntriesWritable(items) && EntriesWellFormed(items) && ShowsWords(style)
      requires !addChildValues && AtStart(document, indentString) && 0 < ArraySize(items)
      requires childValues == [] || TextsOf(items, childValues, style)
      modifies this
      ensures !addChildValues && indentString == old(indentString)
      ensures document == old(document)
                + ("[" + (StyledItems(items, 0, ArraySize(items), "\n" + (indentString + INDENT), indentString
                    + INDENT, style)
                                                   + ("\n" + indentString + "]")))
      decreases EntriesSize(items), 6
    {
      hide Styled, StyledItems, Lookup, Quoted, WellFormed, IsWord, Break, AnyNested;
      ghost var d, ind := document, indentString;
      BreakHere(document, indentString);
      WriteWithIndent("[");
      LineBreaks(document, ind, d, "[");
      Indent();
      var size, index, hasChildValue := ArraySize(items), 0, childValues != [];
      ghost var gap := "\n" + indentString;
      ghost var all := StyledItems(items, 0, size, gap, indentString, style);
      ghost var front := document;
      while true
        invariant index < size && !addChildValues && indentString == ind + INDENT && MidLine(document)
        invariant hasChildValue ==> TextsOf(items, childValues, style)
        invariant document + StyledItems(items, index, size, gap, indentString, style) == front + all
        decreases size - index
      {
        StyledItemsStep(items, index, size, gap, indentString, style);
        ghost var before, s := document, Styled(Lookup(items, Index(index)), indentString, style);
        WriteElement(items, index, hasChildValue);
        index := index + 1;
        ElementWritten(before, gap, s, if index == size then ""
            else StyledItems(items, index, size, gap, indentString, style));
        if index == size {
          break;
        }
        document := document + ",";
      }
      Unindent();
      assert indentString == ind;
      LineBreaks(document, ind, document, "");
      WriteWithIndent("]");
      LinesWritten(d, all, ind);
    }

    // One element, on a new line.
    method WriteElement(items: Entries, index: nat, hasChildValue: bool)
      requires EntriesWritable(items) && EntriesWellFormed(items) && ShowsWords(style) && index < ArraySize(items)
      requires !addChildValues && MidLine(document) && indentString != "" && indentString[|indentString| - 1] == ' '
      requires hasChildValue ==> TextsOf(items, childValues, style)
      modifies this
      ensures !addChildValues && indentString == old(indentString) && MidLine(document)
      ensures hasChildValue ==> childValues == old(childValues)
      ensures Writable(Lookup(items, Index(index)))
      ensures document == old(document)
                + ("\n" + indentString + Styled(Lookup(items, Index(index)), indentString, style))
      decreases EntriesSize(items), 5
    {
      hide Styled, Lookup, Quoted, WellFormed, IsWord, Break, Writable, AnyNested;
      LookupFits(items, Index(index));
      LookupWellFormed(items, Index(index));
      ghost var s := Styled(Lookup(items, Index(index)), indentString, style);
      ghost var d := document;
      StyledEnds(Lookup(items, Index(index)), indentString, style);
      LineBreaks(document, indentString, document, "");
      if hasChildValue {
        TextOf(items, childValues, index, indentString, style);
        WriteWithIndent(childValues[index]);
      } else {
        WriteIndent();
        LineStarts(document, indentString);
        WriteValue(Lookup(items, Index(index)));
      }
      assert document == d + ("\n" + indentString) + s;
      LineBreaks(document, indentString, d + ("\n" + indentString), s);
    }

    // All elements on one line.
    method WriteLine(items: Entries)
      requires EntriesWritable(items) && TextsOf(items, childValues, style) && 0 < ArraySize(items)
      modifies this`document
      ensures document == old(document)
                + ("[" + (StyledItems(items, 0, ArraySize(items), " ", indentString, style) + " ]"))
    {
      hide Styled, StyledItems, Lookup, TextsOf;
      ghost var d := document;
      document := document + "[ ";
      ghost var size := ArraySize(items);
      ghost var all := StyledItems(items, 0, size, " ", indentString, style);
      StyledItemsStep(items, 0, size, " ", indentString, style);
      TextsSize(items, childValues, style);
      assert "[" + " " == "[ ";
      var index := 0;
      while index < |childValues|
        invariant index <= |childValues|
        invariant index == 0 ==> document == d + "[" + " "
        invariant index > 0 ==>
                    document
                    + (if index == size then "" else "," + StyledItems(items, index, size, " ", indentString, style))
                        == d + "[" + all
      {
        StyledItemsStep(items, index, size, " ", indentString, style);
        TextOf(items, childValues, index, indentString, style);
        ghost var before := document;
        if index > 0 {
          assert document + ("," + (" " + (childValues[index]
                   + (if index + 1 == size then ""
                       else "," + StyledItems(items, index + 1, size, " ", indentString, style))))) == d + "[" + all;
          document := document + ", ";
          assert before + "," + " " == document;
        }
        document := document + childValues[index];
        index := index + 1;
      }
      document := document + " ]";
      assert d + "[" + all + " ]" == d + ("[" + (all + " ]"));
    }

    // Whether the elements need a line each. On one line, or if that line is too long, their texts are set aside.
    method IsMultilineArray(items: Entries) returns (isMultiLine: bool)
      requires EntriesWritable(items) && EntriesWellFormed(items) && ShowsWords(style)
      requires !addChildValues && 0 < ArraySize(items)
      modifies this
      ensures !addChildValues && indentString == old(indentString) && document == old(document)
      ensures childValues == [] || TextsOf(items, childValues, style)
      ensures !isMultiLine ==> TextsOf(items, childValues, style)
      ensures var line := "[" + (StyledItems(items, 0, ArraySize(items), " ", indentString, style) + " ]");
              isMultiLine <==> (ArraySize(items) * 3 >= RIGHT_MARGIN || AnyNested(items, ArraySize(items))
                  || |line| >= RIGHT_MARGIN)
      decreases EntriesSize(items), 6
    {
      hide Styled, StyledItems, Lookup, WellFormed, IsWord, Nested, TextsOf, Writable;
      var size := ArraySize(items);
      isMultiLine := size * 3 >= RIGHT_MARGIN;
      childValues := [];
      var index := 0;
      while index < size && !isMultiLine
        invariant index <= size
        invariant isMultiLine <==> size * 3 >= RIGHT_MARGIN || AnyNested(items, index)
      {
        isMultiLine := Nested(Lookup(items, Index(index)));
        index := index + 1;
      }
      if isMultiLine {
        if AnyNested(items, index) {
          AnyNestedMore(items, index, size);
        }
      } else {
        var lineLength := SetAside(items);
        isMultiLine := lineLength >= RIGHT_MARGIN;
      }
    }

    // The texts of the elements, and the length of the line they would make.
    method SetAside(items: Entries) returns (lineLength: int)
      requires EntriesWritable(items) && EntriesWellFormed(items) && ShowsWords(style)
      requires !addChildValues && 0 < ArraySize(items) && !AnyNested(items, ArraySize(items)) && childValues == []
      modifies this
      ensures !addChildValues && indentString == old(indentString) && document == old(document)
      ensures TextsOf(items, childValues, style)
      ensures lineLength == |"[" + (StyledItems(items, 0, ArraySize(items), " ", indentString, style) + " ]")|
      decreases EntriesSize(items), 5
    {
      hide Styled, StyledItems, Lookup, WellFormed, IsWord, Nested, AnyNested, Fast, Writable;
      var size, index := ArraySize(items), 0;
      ghost var ind := indentString;
      addChildValues := true;
      lineLength := 4 + (size - 1) * 2;
      TextsEmpty(items, style);
      while index < size
        invariant index <= size && |childValues| == index && addChildValues && indentString == ind
                  && document == old(document)
        invariant Texts(items, childValues, index, style)
        invariant lineLength + |StyledItems(items, index, size, " ", ind, style)| - 2 * (size - index)
                    + (if index < size then 1 else 0)
               == 3 + |StyledItems(items, 0, size, " ", ind, style)|
      {
        LookupFits(items, Index(index));
        LookupWellFormed(items, Index(index));
        NotNested(items, size, index);
        ghost var texts := childValues;
        WriteValue(Lookup(items, Index(index)));
        lineLength := lineLength + |childValues[index]|;
        FlatStyled(Lookup(items, Index(index)), ind, style);
        StyledItemsStep(items, index, size, " ", ind, style);
        LineGrows(items, index, size, ind, style);
        TextsMore(items, texts, index, style);
        index := index + 1;
      }
      NoItems(items, size, " ", ind, style);
      addChildValues := false;
    }
  }

  // ---- the texts set aside ----

  ghost predicate Texts(items: Entries, texts: seq<string>, n: nat, st: Style)
    requires EntriesWritable(items)
  {
    |texts| == n && forall i: nat :: i < n ==> IsText(items, i, texts[i], st)
  }

  ghost predicate IsText(items: Entries, i: nat, text: string, st: Style)
    requires EntriesWritable(items)
  {
    LookupFits(items, Index(i));
    text == Fast(Lookup(items, Index(i)), st)
  }

  ghost predicate TextsOf(items: Entries, texts: seq<string>, st: Style)
    requires EntriesWritable(items)
  {
    Texts(items, texts, ArraySize(items), st) && !AnyNested(items, ArraySize(items))
  }

  lemma TextsEmpty(items: Entries, st: Style)
    requires EntriesWritable(items)
    ensures Texts(items, [], 0, st)
  {
  }

  lemma TextsMore(items: Entries, texts: seq<string>, n: nat, st: Style)
    requires EntriesWritable(items) && Texts(items, texts, n, st) && Writable(Lookup(items, Index(n)))
    ensures Texts(items, texts + [Fast(Lookup(items, Index(n)), st)], n + 1, st)
  {
    hide Fast, Lookup;
  }

  lemma TextsSize(items: Entries, texts: seq<string>, st: Style)
    requires EntriesWritable(items) && TextsOf(items, texts, st)
    ensures |texts| == ArraySize(items)
  {
  }

  lemma TextOf(items: Entries, texts: seq<string>, i: nat, ind: string, st: Style)
    requires EntriesWritable(items) && TextsOf(items, texts, st) && i < ArraySize(items)
    ensures i < |texts| && Writable(Lookup(items, Index(i))) && texts[i] == Styled(Lookup(items, Index(i)), ind, st)
  {
    hide Fast, Lookup, Styled, Nested;
    LookupFits(items, Index(i));
    assert IsText(items, i, texts[i], st);
    NotNested(items, ArraySize(items), i);
    FlatStyled(Lookup(items, Index(i)), ind, st);
  }

  lemma {:induction false} NotNested(items: Entries, n: nat, i: nat)
    requires !AnyNested(items, n) && i < n
    ensures !Nested(Lookup(items, Index(i)))
  {
    if i < n - 1 {
      NotNested(items, n - 1, i);
    }
  }

  lemma {:induction false} AnyNestedMore(items: Entries, m: nat, n: nat)
    requires m <= n && AnyNested(items, m)
    ensures AnyNested(items, n)
    decreases n
  {
    if m < n {
      AnyNestedMore(items, m, n - 1);
    }
  }

  // ---- the styled text, piece by piece ----

  lemma FlatStyled(v: Value, ind: string, st: Style)
    requires Writable(v) && !Nested(v)
    ensures Styled(v, ind, st) == Fast(v, st)
  {
    if v.Arr? {
      NothingInside(v.items, st);
    } else if v.Obj? {
      NothingInside(v.members, st);
    }
  }

  lemma StyledItemsStep(items: Entries, index: nat, size: nat, gap: string, ind: string, st: Style)
    requires EntriesWritable(items) && index < size
    ensures Size(Lookup(items, Index(index))) <= EntriesSize(items) && Writable(Lookup(items, Index(index)))
    ensures StyledItems(items, index, size, gap, ind, st)
         == gap + (Styled(Lookup(items, Index(index)), ind, st)
                   + (if index + 1 == size then "" else "," + StyledItems(items, index + 1, size, gap, ind, st)))
  {
    hide Styled;
    LookupFits(items, Index(index));
  }

  lemma LineGrows(items: Entries, index: nat, size: nat, ind: string, st: Style)
    requires EntriesWritable(items) && index < size && Writable(Lookup(items, Index(index)))
    ensures |StyledItems(items, index, size, " ", ind, st)|
         == 1 + |Styled(Lookup(items, Index(index)), ind, st)| + (if index + 1 == size then 0 else 1)
             + |StyledItems(items, index + 1, size, " ", ind, st)|
  {
    hide Styled;
  }

  lemma NoItems(items: Entries, size: nat, gap: string, ind: string, st: Style)
    requires EntriesWritable(items)
    ensures StyledItems(items, size, size, gap, ind, st) == ""
  {
  }

  lemma StyledMembersStep(e: Entries, ind: string, st: Style)
    requires EntriesWritable(e) && e.Entry?
    ensures Writable(e.val) && EntriesWritable(e.rest)
    ensures var more := if e.rest.End? then "" else "," + StyledMembers(e.rest, ind, st);
            StyledMembers(e, ind, st) == ("\n" + ind + (KeyText(e.key) + (" : " + Styled(e.val, ind, st)))) + more
  {
    hide Styled, KeyText;
  }

  lemma ObjectWritten(members: Entries, d: string, ind: string, st: Style)
    requires members.Entry? && EntriesWritable(members)
    ensures d + "{" + StyledMembers(members, ind + INDENT, st) + ("\n" + ind + "}") == d + Styled(Obj(members), ind, st)
  {
    hide StyledMembers;
  }

  // The last character of a value is not white space.
  lemma StyledEnds(v: Value, ind: string, st: Style)
    requires Writable(v) && ShowsWords(st)
    ensures MidLine(Styled(v, ind, st))
  {
    hide StyledItems, StyledMembers, AnyNested;
    match v
    case Int(i) => IntWord(i);
    case UInt(u) => IntWord(u);
    case Real(r) => assert IsWord(st.show(r));
    case Str(s) => QuoteEnds(s.value);
    case _ =>
  }

  lemma QuoteEnds(s: string)
    ensures MidLine(Quoted(s))
  {
    hide Escaped;
    assert Quoted(s)[|Quoted(s)| - 1] == '\"';
  }

  lemma ElementWritten(before: string, gap: string, s: string, more: string)
    ensures before + (gap + (s + "")) == before + (gap + s)
    ensures before + (gap + (s + ("," + more))) == before + (gap + s) + "," + more
  {
    assert s + "" == s;
  }

  lemma LinesWritten(d: string, all: string, ind: string)
    ensures d + "[" + all + ("\n" + ind + "]") == d + ("[" + (all + ("\n" + ind + "]")))
  {
  }

  // ---- line breaks ----

  lemma BreakHere(doc: string, ind: string)
    requires AtStart(doc, ind)
    ensures forall s: string :: Break(doc, ind) + s == s
  {
    forall s: string ensures Break(doc, ind) + s == s {
      assert "" + s == s;
    }
  }

  lemma LineBreaks(doc: string, ind: string, front: string, s: string)
    requires doc == front + s && (if s == "" then MidLine(front) else MidLine(s))
    ensures MidLine(doc) && Break(doc, ind) == "\n" + ind
  {
  }

  lemma LineStarts(doc: string, ind: string)
    requires doc != "" && doc[|doc| - 1] == ' '
    ensures AtStart(doc, ind)
  {
  }
}

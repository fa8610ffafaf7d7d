/** The compact printer, and reading back what it prints. */
module JsonFast {
  import opened JsonValue
  import opened JsonNumber
  import opened JsonString

  // sprintf of a double
  type RealPrinter = real -> string

  datatype Style = Style(yaml: bool, show: RealPrinter)

  // ---- the text of a value ----

  // Strings are there; the writers follow the pointer of a string value.
  predicate Writable(v: Value) {
    match v
    case Str(s) => s.Some?
    case Arr(items) => EntriesWritable(items)
    case Obj(members) => EntriesWritable(members)
    case _ => true
  }

  predicate EntriesWritable(e: Entries) {
    e.Entry? ==> Writable(e.val) && EntriesWritable(e.rest)
  }

  lemma {:induction false} LookupFits(e: Entries, k: Key)
    ensures Size(Lookup(e, k)) <= EntriesSize(e) && (EntriesWritable(e) ==> Writable(Lookup(e, k)))
  {
    if e.Entry? {
      LookupFits(e.rest, k);
    }
  }

  function BoolText(b: bool): string {
    if b then "true" else "false"
  }

  function Fast(v: Value, st: Style): string
    requires Writable(v)
    decreases Size(v), 0
  {
    match v
    case Null => "null"
    case Int(i) => IntText(i)
    case UInt(u) => IntText(u)
    case Real(r) => st.show(r)
    case Str(s) => Quoted(s.value)
    case Bool(b) => BoolText(b)
    case Arr(items) => "[" + FastItems(items, 0, ArraySize(items), st) + "]"
    case Obj(members) => "{" + FastMembers(members, st) + "}"
  }

  // The elements from index on, those missing as null.
  function FastItems(items: Entries, index: nat, size: nat, st: Style): string
    requires EntriesWritable(items) && index <= size
    decreases EntriesSize(items), size - index
  {
    if index == size then "" else
    LookupFits(items, Index(index));
    var s := Fast(Lookup(items, Index(index)), st);
    if index + 1 == size then s else s + ("," + FastItems(items, index + 1, size, st))
  }

  function Colon(st: Style): string {
    if st.yaml then ": " else ":"
  }

  function KeyText(k: Key): string {
    if k.Name? then Quoted(k.name) else Quoted("")
  }

  function FastMembers(e: Entries, st: Style): string
    requires EntriesWritable(e)
    decreases EntriesSize(e), 0
  {
    if e.End? then "" else
    var s := KeyText(e.key) + (Colon(st) + Fast(e.val, st));
    if e.rest.End? then s else s + ("," + FastMembers(e.rest, st))
  }

  // ---- FastWriter ----

  class FastWriter {
    var document: string
    const style: Style

    constructor (st: Style)
      ensures style == st && document == ""
    {
      style, document := st, "";
    }

    method Write(root: Value) returns (r: string)
      requires Writable(root) && WellFormed(root)
      modifies this
      ensures r == document == Fast(root, style) + "\n"
    {
      document := "";
      WriteValue(root);
      assert "" + Fast(root, style) == Fast(root, style);
      document := document + "\n";
      r := document;
    }

    method WriteValue(v: Value)
      requires Writable(v) && WellFormed(v)
      modifies this
      ensures document == old(document) + Fast(v, style)
      decreases Size(v), 1
    {
      match v
      case Null =>
        document := document + "null";
      case Int(i) =>
        document := document + IntText(i);
      case UInt(u) =>
        document := document + IntText(u);
      case Real(r) =>
        document := document + style.show(r);
      case Str(s) =>
        var t := ValueToQuotedString(s.value);
        document := document + t;
      case Bool(b) =>
        document := document + BoolText(b);
      case Arr(items) =>
        WriteItems(items);
      case Obj(members) =>
        WriteMembers(members);
    }

    method WriteItems(items: Entries)
      requires EntriesWritable(items) && EntriesWellFormed(items)
      modifies this
      ensures document == old(document) + ("[" + FastItems(items, 0, ArraySize(items), style) + "]")
      decreases EntriesSize(items), 2
    {
      hide Fast, FastItems;
      document := document + "[";
      var size, index := ArraySize(items), 0;
      ghost var d, all := document, FastItems(items, 0, ArraySize(items), style);
      ItemsAll(items, size, style);
      while index < size
        invariant index <= size && document + ItemsLeft(items, index, size, style) == d + all
      {
        ItemsStep(items, index, size, style);
        Regroup(document, Comma(index), Fast(Lookup(items, Index(index)), style),
                ItemsLeft(items, index + 1, size, style));
        LookupWellFormed(items, Index(index));
        if index > 0 {
          document := document + ",";
        }
        WriteValue(Lookup(items, Index(index)));
        index := index + 1;
      }
      document := document + "]";
      Enclosed(old(document), "[", all, "]");
    }

    method WriteMembers(members: Entries)
      requires EntriesWritable(members) && EntriesWellFormed(members) && Sorted(members)
      modifies this
      ensures document == old(document) + ("{" + FastMembers(members, style) + "}")
      decreases EntriesSize(members), 2
    {
      hide Fast, FastMembers, SuffixOf, Colon, Lookup, Quoted, WellFormed;
      document := document + "{";
      ghost var d, all := document, FastMembers(members, style);
      var rest, first := members, true;
      NoMembers(style);
      WholeSuffix(members);
      while rest.Entry?
        invariant EntriesWritable(rest) && EntriesWellFormed(rest) && EntriesSize(rest) <= EntriesSize(members)
                  && SuffixOf(rest, members)
        invariant document + (if first || rest.End? then "" else ",") + FastMembers(rest, style) == d + all
        decreases EntriesSize(rest)
      {
        MembersStep(rest, style);
        SuffixLookup(rest, members);
        SuffixRest(rest, members);
        ghost var front := if first then document else document + ",";
        if !first {
          document := document + ",";
        }
        assert document == front;
        var name := ValueToQuotedString(if rest.key.Name? then rest.key.name else "");
        document := document + name;
        document := document + Colon(style);
        WriteValue(Lookup(members, rest.key));
        MemberWritten(front, KeyText(rest.key), Colon(style), Fast(rest.val, style),
                      if rest.rest.End? then "" else ",", FastMembers(rest.rest, style));
        first := false;
        rest := rest.rest;
      }
      document := document + "}";
      Enclosed(old(document), "{", all, "}");
    }
  }

  function ItemsLeft(items: Entries, index: nat, size: nat, st: Style): string
    requires EntriesWritable(items) && index <= size
  {
    if index == size then "" else Comma(index) + FastItems(items, index, size, st)
  }

  lemma ItemsAll(items: Entries, size: nat, st: Style)
    requires EntriesWritable(items)
    ensures ItemsLeft(items, 0, size, st) == FastItems(items, 0, size, st)
  {
    hide Fast;
    assert "" + FastItems(items, 0, size, st) == FastItems(items, 0, size, st);
  }

  lemma ItemsStep(items: Entries, index: nat, size: nat, st: Style)
    requires EntriesWritable(items) && index < size
    ensures Size(Lookup(items, Index(index))) <= EntriesSize(items) && Writable(Lookup(items, Index(index)))
    ensures ItemsLeft(items, index, size, st)
              == Comma(index) + (Fast(Lookup(items, Index(index)), st) + ItemsLeft(items, index + 1, size, st))
  {
    hide Fast;
    LookupFits(items, Index(index));
    var s := Fast(Lookup(items, Index(index)), st);
    assert index + 1 == size ==> s + "" == s;
  }

  lemma Regroup(d: string, a: string, b: string, c: string)
    ensures d + (a + (b + c)) == d + a + b + c && d + "" == d
  {
  }

  lemma Enclosed(d: string, a: string, b: string, c: string)
    ensures d + a + b + c == d + (a + b + c) && d + a + b + "" + c == d + (a + b + c)
  {
    assert b + "" == b;
  }

  lemma NoMembers(st: Style)
    ensures FastMembers(End, st) == ""
  {
  }

  lemma MembersStep(e: Entries, st: Style)
    requires EntriesWritable(e) && e.Entry?
    ensures Writable(e.val) && EntriesWritable(e.rest)
    ensures FastMembers(e, st) == KeyText(e.key) + (Colon(st) + Fast(e.val, st))
              + (if e.rest.End? then "" else "," + FastMembers(e.rest, st))
    ensures e.rest.End? ==> FastMembers(e.rest, st) == ""
  {
    hide Fast;
    var s := KeyText(e.key) + (Colon(st) + Fast(e.val, st));
    assert s + "" == s;
  }

  lemma MemberWritten(front: string, key: string, colon: string, val: string, comma: string, more: string)
    ensures front + (key + (colon + val) + (comma + more)) == front + key + colon + val + comma + more
  {
  }

  predicate SuffixOf(rest: Entries, e: Entries) { rest == e || (e.Entry? && SuffixOf(rest, e.rest)) }

  lemma WholeSuffix(e: Entries)
    ensures SuffixOf(e, e)
  {
  }

  lemma {:induction false} SuffixRest(rest: Entries, e: Entries)
    requires SuffixOf(rest, e) && rest.Entry?
    ensures SuffixOf(rest.rest, e)
  {
    if rest != e {
      SuffixRest(rest, e.rest);
    }
  }

  // The member found by its name is the one at hand.
  lemma {:induction false} SuffixLookup(rest: Entries, e: Entries)
    requires SuffixOf(rest, e) && rest.Entry? && Sorted(e)
    ensures Lookup(e, rest.key) == rest.val && (rest == e || KeyLess(e.key, rest.key))
  {
    if rest != e {
      SuffixLookup(rest, e.rest);
      if rest != e.rest {
        KeyLessTransitive(e.key, e.rest.key, rest.key);
      }
      KeyLessTotal(e.key, rest.key);
    }
  }

  function Comma(index: nat): string {
    if index == 0 then "" else ","
  }

  // ---- well-formed values ----

  predicate AllIndices(e: Entries) { e.Entry? ==> e.key.Index? && AllIndices(e.rest) }

  predicate AllNames(e: Entries) {
    e.Entry? ==> e.key.Name? && NulFree(e.key.name) && ByteString(e.key.name) && AllNames(e.rest)
  }

  // The maps are sorted and hold keys of their kind.
  predicate WellFormed(v: Value) {
    match v
    case Arr(items) => Sorted(items) && AllIndices(items) && EntriesWellFormed(items)
    case Obj(members) => Sorted(members) && AllNames(members) && EntriesWellFormed(members)
    case _ => true
  }

  predicate EntriesWellFormed(e: Entries) {
    e.Entry? ==> WellFormed(e.val) && EntriesWellFormed(e.rest)
  }

  lemma {:induction false} LookupWellFormed(e: Entries, k: Key)
    requires EntriesWellFormed(e)
    ensures WellFormed(Lookup(e, k))
  {
    if e.Entry? {
      LookupWellFormed(e.rest, k);
    }
  }
}

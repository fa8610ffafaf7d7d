/** JSON values as the tree that the library holds, and the order it defines on them. */
module JsonValue {
  datatype Option<T> = None | Some(value: T)

  // Arrays and objects are both sorted maps: of indices, or of names.
  datatype Value =
    | Null
    | Int(i: int)
    | UInt(u: int)
    | Real(r: real)
    | Str(s: Option<string>)
    | Bool(b: bool)
    | Arr(items: Entries)
    | Obj(members: Entries)

  datatype Entries = End | Entry(key: Key, val: Value, rest: Entries)

  datatype Key = Index(n: nat) | Name(name: string)

  // ---- operator<, operator== and compare ----

  // The enumeration of types.
  function Rank(v: Value): nat {
    match v
    case Null => 0
    case Int(_) => 1
    case UInt(_) => 2
    case Real(_) => 3
    case Str(_) => 4
    case Bool(_) => 5
    case Arr(_) => 6
    case Obj(_) => 7
  }

  function Count(e: Entries): nat {
    if e.End? then 0 else 1 + Count(e.rest)
  }

  // strcmp < 0
  predicate StrLess(a: string, b: string) {
    b != "" && (a == "" || a[0] < b[0] || (a[0] == b[0] && StrLess(a[1..], b[1..])))
  }

  // CZString::operator<, of keys of one kind
  predicate KeyLess(k: Key, l: Key) {
    match (k, l)
    case (Index(m), Index(n)) => m < n
    case (Name(a), Name(b)) => StrLess(a, b)
    case (Index(_), Name(_)) => true
    case (Name(_), Index(_)) => false
  }

  function Size(v: Value): nat {
    match v
    case Arr(items) => 1 + EntriesSize(items)
    case Obj(members) => 1 + EntriesSize(members)
    case _ => 1
  }

  function EntriesSize(e: Entries): nat {
    if e.End? then 1 else 1 + Size(e.val) + EntriesSize(e.rest)
  }

  predicate Less(v: Value, w: Value)
    decreases Size(v) + Size(w), 0
  {
    if Rank(v) != Rank(w) then Rank(v) < Rank(w)
    else match v
      case Null => false
      case Int(i) => i < w.i
      case UInt(u) => u < w.u
      case Real(r) => r < w.r
      case Bool(b) => !b && w.b
      case Str(s) => (s.None? && w.s.Some?) || (w.s.Some? && s.Some? && StrLess(s.value, w.s.value))
      case Arr(items) => MapLess(items, w.items)
      case Obj(members) => MapLess(members, w.members)
  }

  // Shorter maps first, then lexicographically.
  predicate MapLess(e: Entries, f: Entries)
    decreases EntriesSize(e) + EntriesSize(f), 1
  {
    if Count(e) != Count(f) then Count(e) < Count(f) else EntriesLess(e, f)
  }

  predicate EntriesLess(e: Entries, f: Entries)
    decreases EntriesSize(e) + EntriesSize(f), 0
  {
    if f.End? then false
    else if e.End? then true
    else PairLess(e.key, e.val, f.key, f.val) || (!PairLess(f.key, f.val, e.key, e.val) && EntriesLess(e.rest, f.rest))
  }

  predicate PairLess(k: Key, v: Value, l: Key, w: Value)
    decreases Size(v) + Size(w), 1
  {
    KeyLess(k, l) || (!KeyLess(l, k) && Less(v, w))
  }

  predicate Eq(v: Value, w: Value) {
    if Rank(v) != Rank(w) then false
    else match v
      case Null => true
      case Int(i) => i == w.i
      case UInt(u) => u == w.u
      case Real(r) => r == w.r
      case Bool(b) => b == w.b
      case Str(s) => s == w.s
      case Arr(items) => Count(items) == Count(w.items) && EntriesEq(items, w.items)
      case Obj(members) => Count(members) == Count(w.members) && EntriesEq(members, w.members)
  }

  predicate EntriesEq(e: Entries, f: Entries) {
    if e.End? || f.End? then e.End? && f.End?
    else e.key == f.key && Eq(e.val, f.val) && EntriesEq(e.rest, f.rest)
  }

  function Compare(v: Value, w: Value): int {
    if Less(v, w) then -1 else if Less(w, v) then 1 else 0
  }

  // ---- strings and keys are strictly and totally ordered ----

  lemma {:induction false} StrLessTotal(a: string, b: string)
    ensures StrLess(a, b) || StrLess(b, a) || a == b
    ensures !(StrLess(a, b) && StrLess(b, a)) && (a == b ==> !StrLess(a, b))
    decreases |a|
  {
    if a != "" && b != "" && a[0] == b[0] {
      StrLessTotal(a[1..], b[1..]);
      assert a == [a[0]] + a[1..] && b == [b[0]] + b[1..];
    }
  }

  lemma {:induction false} StrLessTransitive(a: string, b: string, c: string)
    requires StrLess(a, b) && StrLess(b, c)
    ensures StrLess(a, c)
    decreases |a|
  {
    if a != "" && a[0] == b[0] && b[0] == c[0] {
      StrLessTransitive(a[1..], b[1..], c[1..]);
    }
  }

  lemma KeyLessTotal(k: Key, l: Key)
    ensures KeyLess(k, l) || KeyLess(l, k) || k == l
    ensures !(KeyLess(k, l) && KeyLess(l, k)) && (k == l ==> !KeyLess(k, l))
  {
    if k.Name? && l.Name? {
      StrLessTotal(k.name, l.name);
    }
  }

  lemma KeyLessTransitive(k: Key, l: Key, m: Key)
    requires KeyLess(k, l) && KeyLess(l, m)
    ensures KeyLess(k, m)
  {
    if k.Name? && l.Name? && m.Name? {
      StrLessTransitive(k.name, l.name, m.name);
    }
  }

  // ---- so are values ----

  // Of two values exactly one is less, or they are equal.
  lemma {:induction false} LessTotal(v: Value, w: Value)
    ensures (Less(v, w) && !Less(w, v) && v != w) || (Less(w, v) && !Less(v, w) && v != w)
         || (!Less(v, w) && !Less(w, v) && v == w)
    decreases Size(v), 1
  {
    match v
    case Str(s) =>
      if w.Str? && s.Some? && w.s.Some? {
        StrLessTotal(s.value, w.s.value);
      }
    case Arr(items) =>
      if w.Arr? {
        EntriesLessTotal(items, w.items);
      }
    case Obj(members) =>
      if w.Obj? {
        EntriesLessTotal(members, w.members);
      }
    case _ =>
  }

  lemma {:induction false} EntriesLessTotal(e: Entries, f: Entries)
    ensures (EntriesLess(e, f) && !EntriesLess(f, e) && e != f) || (EntriesLess(f, e) && !EntriesLess(e, f) && e != f)
         || (!EntriesLess(e, f) && !EntriesLess(f, e) && e == f)
    decreases EntriesSize(e), 0
  {
    if e.Entry? && f.Entry? {
      KeyLessTotal(e.key, f.key);
      LessTotal(e.val, f.val);
      EntriesLessTotal(e.rest, f.rest);
    }
  }

  lemma {:induction false} LessTransitive(u: Value, v: Value, w: Value)
    requires Less(u, v) && Less(v, w)
    ensures Less(u, w)
    decreases Size(u), 1
  {
    match u
    case Str(s) =>
      if v.Str? && w.Str? && s.Some? {
        StrLessTransitive(s.value, v.s.value, w.s.value);
      }
    case Arr(items) =>
      if v.Arr? && w.Arr? && Count(items) == Count(v.items) == Count(w.items) {
        EntriesLessTransitive(items, v.items, w.items);
      }
    case Obj(members) =>
      if v.Obj? && w.Obj? && Count(members) == Count(v.members) == Count(w.members) {
        EntriesLessTransitive(members, v.members, w.members);
      }
    case _ =>
  }

  lemma {:induction false} EntriesLessTransitive(e: Entries, f: Entries, g: Entries)
    requires EntriesLess(e, f) && EntriesLess(f, g)
    ensures EntriesLess(e, g)
    decreases EntriesSize(e), 0
  {
    hide Less, KeyLess;
    if e.Entry? {
      PairTotal(e.key, e.val, f.key, f.val);
      PairTotal(f.key, f.val, g.key, g.val);
      PairTotal(e.key, e.val, g.key, g.val);
      if PairLess(e.key, e.val, f.key, f.val) && PairLess(f.key, f.val, g.key, g.val) {
        PairLessTransitive(e.key, e.val, f.key, f.val, g.key, g.val);
      } else if !PairLess(e.key, e.val, f.key, f.val) && !PairLess(f.key, f.val, g.key, g.val) {
        EntriesLessTransitive(e.rest, f.rest, g.rest);
      }
    }
  }

  lemma PairTotal(k: Key, v: Value, l: Key, w: Value)
    ensures PairLess(k, v, l, w) || PairLess(l, w, k, v) || (k == l && v == w)
    ensures !(PairLess(k, v, l, w) && PairLess(l, w, k, v)) && (k == l && v == w ==> !PairLess(k, v, l, w))
  {
    hide Less, KeyLess;
    KeyLessTotal(k, l);
    LessTotal(v, w);
  }

  lemma {:induction false} PairLessTransitive(k: Key, u: Value, l: Key, v: Value, m: Key, w: Value)
    requires PairLess(k, u, l, v) && PairLess(l, v, m, w)
    ensures PairLess(k, u, m, w)
    decreases Size(u), 2
  {
    hide Less, KeyLess;
    KeyLessTotal(k, l);
    KeyLessTotal(l, m);
    KeyLessTotal(k, m);
    if KeyLess(k, l) && KeyLess(l, m) {
      KeyLessTransitive(k, l, m);
    } else if k == l && l == m {
      LessTransitive(u, v, w);
    }
  }

  lemma {:induction false} EqIsEquality(v: Value, w: Value)
    ensures Eq(v, w) <==> v == w
    decreases v
  {
    match v
    case Arr(items) =>
      if w.Arr? {
        EntriesEqIsEquality(items, w.items);
      }
    case Obj(members) =>
      if w.Obj? {
        EntriesEqIsEquality(members, w.members);
      }
    case _ =>
  }

  lemma {:induction false} EntriesEqIsEquality(e: Entries, f: Entries)
    ensures EntriesEq(e, f) <==> e == f
    decreases e
  {
    if e.Entry? && f.Entry? {
      EqIsEquality(e.val, f.val);
      EntriesEqIsEquality(e.rest, f.rest);
    }
  }

  // operator< is a strict total order, and compare agrees with operator==.
  lemma OrderLaws(u: Value, v: Value, w: Value)
    ensures !Less(v, v)
    ensures Less(v, w) || Less(w, v) || Eq(v, w)
    ensures Less(u, v) && Less(v, w) ==> Less(u, w)
    ensures (Compare(v, w) == 0 <==> Eq(v, w)) && Compare(w, v) == -Compare(v, w)
    ensures (Compare(v, w) < 0 <==> Less(v, w)) && (Compare(v, w) > 0 <==> Less(w, v))
  {
    hide Less, Eq;
    LessTotal(v, v);
    LessTotal(v, w);
    EqIsEquality(v, w);
    if Less(u, v) && Less(v, w) {
      LessTransitive(u, v, w);
    }
  }

  // ---- what the order compares first ----

  // The first j entries agree and the next ones differ: these decide.
  lemma {:induction false} FirstDifferenceDecides(e: Entries, f: Entries, j: nat)
    requires j < Count(e) == Count(f) && forall i :: 0 <= i < j ==> Nth(e, i) == Nth(f, i)
    requires Nth(e, j) != Nth(f, j)
    ensures var (k, v), (l, w) := Nth(e, j), Nth(f, j);
            EntriesLess(e, f) <==> KeyLess(k, l) || (k == l && Less(v, w))
    decreases e
  {
    hide Less, KeyLess;
    PairTotal(e.key, e.val, f.key, f.val);
    KeyLessTotal(e.key, f.key);
    if j > 0 {
      assert Nth(e, 0) == Nth(f, 0);
      forall i | 0 <= i < j - 1 ensures Nth(e.rest, i) == Nth(f.rest, i) {
        assert Nth(e, i + 1) == Nth(f, i + 1);
      }
      FirstDifferenceDecides(e.rest, f.rest, j - 1);
    }
  }

  function Nth(e: Entries, i: nat): (Key, Value)
    requires i < Count(e)
  {
    if i == 0 then (e.key, e.val) else Nth(e.rest, i - 1)
  }

  // Two different containers of one size differ somewhere first.
  lemma {:induction false} FirstDifference(e: Entries, f: Entries) returns (j: nat)
    requires e != f && Count(e) == Count(f)
    ensures j < Count(e) && AgreeUpTo(e, f, j) && Nth(e, j) != Nth(f, j)
    decreases e
  {
    if Nth(e, 0) != Nth(f, 0) {
      j := 0;
    } else {
      var k := FirstDifference(e.rest, f.rest);
      j := k + 1;
      forall i | 0 <= i < j ensures Nth(e, i) == Nth(f, i) {
        if i > 0 {
          assert Nth(e.rest, i - 1) == Nth(f.rest, i - 1);
        }
      }
    }
  }

  ghost predicate AgreeUpTo(e: Entries, f: Entries, j: nat)
    requires j <= Count(e) == Count(f)
  {
    forall i :: 0 <= i < j ==> Nth(e, i) == Nth(f, i)
  }

  // By its key, then by its value.
  predicate EntryBefore(a: (Key, Value), b: (Key, Value)) {
    KeyLess(a.0, b.0) || (a.0 == b.0 && Less(a.1, b.1))
  }

  // Arrays and objects are ordered by size, and containers of one size by the first entry that differs.
  lemma ContainersLexicographic(e: Entries, f: Entries)
    ensures Less(Arr(e), Arr(f)) <==> Less(Obj(e), Obj(f))
    ensures Less(Arr(e), Arr(f)) <==>
              || Count(e) < Count(f)
              || (Count(e) == Count(f)
                  && exists j :: 0 <= j < Count(e) && AgreeUpTo(e, f, j) && EntryBefore(Nth(e, j), Nth(f, j)))
  {
    hide KeyLess, PairLess;
    if Count(e) == Count(f) {
      if EntriesLess(e, f) {
        EntriesLessTotal(e, f);
        var j := FirstDifference(e, f);
        FirstDifferenceDecides(e, f, j);
      }
      forall j | 0 <= j < Count(e) && AgreeUpTo(e, f, j)
        && EntryBefore(Nth(e, j), Nth(f, j)) ensures EntriesLess(e, f) {
        KeyLessTotal(Nth(e, j).0, Nth(f, j).0);
        LessTotal(Nth(e, j).1, Nth(f, j).1);
        FirstDifferenceDecides(e, f, j);
      }
    }
  }

  // ---- the map behind arrays and objects ----

  predicate Sorted(e: Entries) {
    e.Entry? ==> (e.rest.Entry? ==> KeyLess(e.key, e.rest.key)) && Sorted(e.rest)
  }

  // operator[]: the value at the key, null when there is none.
  function Lookup(e: Entries, k: Key): Value {
    if e.End? then Null else if e.key == k then e.val else Lookup(e.rest, k)
  }

  predicate HasKey(e: Entries, k: Key) {
    e.Entry? && (e.key == k || HasKey(e.rest, k))
  }

  // Assigning through operator[]: at its place in the order.
  function Put(e: Entries, k: Key, v: Value): Entries {
    if e.End? || KeyLess(k, e.key) then Entry(k, v, e)
    else if e.key == k then Entry(k, v, e.rest)
    else Entry(e.key, e.val, Put(e.rest, k, v))
  }

  // size(): of an array one more than the last index, of an object the number of members.
  function ArraySize(e: Entries): nat {
    if e.End? then 0
    else if e.rest.End? then (if e.key.Index? then e.key.n + 1 else 0)
    else ArraySize(e.rest)
  }

  function SizeOf(v: Value): nat {
    match v
    case Arr(items) => ArraySize(items)
    case Obj(members) => Count(members)
    case _ => 0
  }

  lemma {:induction false} PutSorted(e: Entries, k: Key, v: Value)
    requires Sorted(e)
    ensures Sorted(Put(e, k, v)) && (Put(e, k, v).key == k || (e.Entry? && Put(e, k, v).key == e.key))
  {
    if e.Entry? {
      KeyLessTotal(k, e.key);
      if KeyLess(e.key, k) {
        PutSorted(e.rest, k, v);
      }
    }
  }

  lemma {:induction false} PutLookup(e: Entries, k: Key, v: Value, l: Key)
    requires Sorted(e)
    ensures Lookup(Put(e, k, v), l) == if l == k then v else Lookup(e, l)
    ensures Count(Put(e, k, v)) == Count(e) + if HasKey(e, k) then 0 else 1
  {
    if e.Entry? {
      KeyLessTotal(k, e.key);
      if KeyLess(k, e.key) {
        AbsentBefore(e, k);
      } else if KeyLess(e.key, k) {
        PutLookup(e.rest, k, v, l);
      }
    }
  }

  lemma {:induction false} AbsentBefore(e: Entries, k: Key)
    requires Sorted(e) && (e.Entry? ==> KeyLess(k, e.key))
    ensures !HasKey(e, k) && Lookup(e, k) == Null
  {
    if e.Entry? {
      KeyLessTotal(k, e.key);
      if e.rest.Entry? {
        KeyLessTransitive(k, e.key, e.rest.key);
      }
      AbsentBefore(e.rest, k);
    }
  }

  function Append(e: Entries, f: Entries): Entries {
    if e.End? then f else Entry(e.key, e.val, Append(e.rest, f))
  }

  // All keys of e come before k.
  predicate Before(e: Entries, k: Key) {
    e.Entry? ==> KeyLess(e.key, k) && Before(e.rest, k)
  }

  lemma {:induction false} PutLast(e: Entries, k: Key, v: Value)
    requires Before(e, k)
    ensures Put(e, k, v) == Append(e, Entry(k, v, End)) && Lookup(e, k) == Null
  {
    if e.Entry? {
      KeyLessTotal(e.key, k);
      PutLast(e.rest, k, v);
    }
  }

  lemma {:induction false} BeforeAppend(e: Entries, k: Key, v: Value, l: Key)
    requires Before(e, k) && KeyLess(k, l)
    ensures Before(Append(e, Entry(k, v, End)), l)
  {
    if e.Entry? {
      KeyLessTransitive(e.key, k, l);
      BeforeAppend(e.rest, k, v, l);
    }
  }

  lemma {:induction false} AppendAssoc(e: Entries, f: Entries, g: Entries)
    ensures Append(Append(e, f), g) == Append(e, Append(f, g)) && Append(e, End) == e
  {
    if e.Entry? {
      AppendAssoc(e.rest, f, g);
    }
  }
}

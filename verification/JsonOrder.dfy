/** The order of values by their characters and numbers, and the order in which members are written. */
module JsonOrder {
  import opened JsonValue
  import opened JsonString
  import opened JsonFast

  // One string is the beginning of the other, or has the smaller character where they first differ.
  ghost predicate CharsBefore(a: string, b: string) {
    || (|a| < |b| && a == b[..|a|])
    || exists i :: DifferAt(a, b, i)
  }

  // They agree up to i and differ there.
  ghost predicate DifferAt(a: string, b: string, i: int) {
    0 <= i < |a| && i < |b| && a[..i] == b[..i] && a[i] < b[i]
  }

  lemma FrontOf(a: string, i: nat)
    requires 0 < i <= |a|
    ensures a[..i] == [a[0]] + a[1..][..i - 1]
  {
  }

  lemma TailsDiffer(a: string, b: string, i: int)
    requires a != "" && b != "" && a[0] == b[0]
    ensures DifferAt(a, b, i) <==> DifferAt(a[1..], b[1..], i - 1)
  {
    if 0 < i <= |a| && i <= |b| {
      FrontOf(a, i);
      FrontOf(b, i);
      Consed(a[0], a[1..][..i - 1], b[1..][..i - 1]);
    }
  }

  lemma Consed(c: char, s: string, t: string)
    ensures [c] + s == [c] + t <==> s == t
  {
    assert ([c] + s)[1..] == s && ([c] + t)[1..] == t;
  }

  lemma TailsBefore(a: string, b: string)
    requires a != "" && b != "" && a[0] == b[0]
    ensures CharsBefore(a, b) <==> CharsBefore(a[1..], b[1..])
  {
    hide DifferAt;
    if |a| < |b| {
      FrontOf(a, |a|);
      FrontOf(b, |a|);
      Consed(a[0], a[1..], b[1..][..|a| - 1]);
      assert a == a[..|a|];
    }
    if i :| DifferAt(a, b, i) {
      TailsDiffer(a, b, i);
    }
    if i :| DifferAt(a[1..], b[1..], i) {
      TailsDiffer(a, b, i + 1);
    }
  }

  lemma {:induction false} StrLessIs(a: string, b: string)
    ensures StrLess(a, b) <==> CharsBefore(a, b)
    decreases |a|
  {
    if a != "" && b != "" {
      if a[0] == b[0] {
        TailsBefore(a, b);
        StrLessIs(a[1..], b[1..]);
      } else {
        HeadsDiffer(a, b);
      }
    }
  }

  lemma HeadsDiffer(a: string, b: string)
    requires a != "" && b != "" && a[0] != b[0]
    ensures CharsBefore(a, b) <==> a[0] < b[0]
  {
    if a[0] < b[0] {
      assert a[..0] == b[..0];
      assert DifferAt(a, b, 0);
    }
    if i :| DifferAt(a, b, i) {
      if 0 < i {
        HeadOfFront(a, i);
        HeadOfFront(b, i);
      }
    }
    HeadOfFront(b, if |a| < |b| then |a| else |b|);
  }

  lemma HeadOfFront(s: string, n: nat)
    requires 0 < n <= |s|
    ensures s[..n][0] == s[0]
  {
  }

  // Strings go by their characters, with no string in front of all others.
  lemma StringsInOrder(a: string, b: string)
    ensures Less(Str(Some(a)), Str(Some(b))) <==> CharsBefore(a, b)
    ensures Less(Str(None), Str(Some(b))) && !Less(Str(Some(a)), Str(None)) && !Less(Str(None), Str(None))
  {
    StrLessIs(a, b);
  }

  // Names likewise, and indices by their size.
  lemma KeysInOrder(k: Key, l: Key)
    ensures k.Name? && l.Name? ==> (KeyLess(k, l) <==> CharsBefore(k.name, l.name))
    ensures k.Index? && l.Index? ==> (KeyLess(k, l) <==> k.n < l.n)
  {
    if k.Name? && l.Name? {
      StrLessIs(k.name, l.name);
    }
  }

  // Numbers of one type go by their size, and types in the order null, signed, unsigned, real, string, truth value,
  // array, object.
  lemma TypesInOrder(v: Value, w: Value)
    ensures v.Null? ==> (Less(v, w) <==> !w.Null?)
    ensures v.Int? ==> (Less(v, w) <==> if w.Int? then v.i < w.i else !w.Null?)
    ensures v.UInt? ==> (Less(v, w) <==> if w.UInt? then v.u < w.u else !w.Null? && !w.Int?)
    ensures v.Real? ==> (Less(v, w) <==> if w.Real? then v.r < w.r else w.Str? || w.Bool? || w.Arr? || w.Obj?)
    ensures v.Str? && !w.Str? ==> (Less(v, w) <==> w.Bool? || w.Arr? || w.Obj?)
    ensures v.Bool? ==> (Less(v, w) <==> if w.Bool? then !v.b && w.b else w.Arr? || w.Obj?)
    ensures v.Arr? && !w.Arr? ==> (Less(v, w) <==> w.Obj?)
    ensures v.Obj? && !w.Obj? ==> !Less(v, w)
  {
  }

  // ---- members as written ----

  type Assigned = (string, Value)

  // The object after the assignments, one after the other.
  function Built(a: seq<Assigned>): Entries {
    if a == [] then End else Put(Built(a[..|a| - 1]), Name(a[|a| - 1].0), a[|a| - 1].1)
  }

  // The value assigned last to a name.
  function LastSet(a: seq<Assigned>, name: string): Value {
    if a == [] then Null else if a[|a| - 1].0 == name then a[|a| - 1].1 else LastSet(a[..|a| - 1], name)
  }

  function NamesOf(e: Entries): seq<string> {
    if e.End? then [] else [if e.key.Name? then e.key.name else ""] + NamesOf(e.rest)
  }

  ghost predicate Ascending(ns: seq<string>) {
    forall i, j :: 0 <= i < j < |ns| ==> CharsBefore(ns[i], ns[j])
  }

  predicate Named(e: Entries) { e.Entry? ==> e.key.Name? && Named(e.rest) }

  lemma {:induction false} PutNamed(e: Entries, name: string, v: Value)
    requires Named(e) && EntriesWritable(e) && Writable(v)
    ensures Named(Put(e, Name(name), v)) && EntriesWritable(Put(e, Name(name), v))
    ensures forall x :: x in NamesOf(Put(e, Name(name), v)) <==> x == name || x in NamesOf(e)
  {
    hide KeyLess;
    if e.Entry? {
      KeyLessTotal(Name(name), e.key);
      PutNamed(e.rest, name, v);
    }
  }

  predicate AllWritable(a: seq<Assigned>) { forall i :: 0 <= i < |a| ==> Writable(a[i].1) }

  lemma {:induction false} BuiltIs(a: seq<Assigned>)
    requires AllWritable(a)
    ensures var e := Built(a); Sorted(e) && Named(e) && EntriesWritable(e)
    ensures forall x :: x in NamesOf(Built(a)) <==> exists i :: 0 <= i < |a| && a[i].0 == x
    ensures forall x :: Lookup(Built(a), Name(x)) == LastSet(a, x)
    decreases |a|
  {
    hide Put, Writable, Lookup;
    if a != [] {
      var b, last := a[..|a| - 1], a[|a| - 1];
      BuiltIs(b);
      PutSorted(Built(b), Name(last.0), last.1);
      PutNamed(Built(b), last.0, last.1);
      forall x ensures Lookup(Built(a), Name(x)) == LastSet(a, x) {
        PutLookup(Built(b), Name(last.0), last.1, Name(x));
      }
      forall x ensures x in NamesOf(Built(a)) <==> exists i :: 0 <= i < |a| && a[i].0 == x {
        AssignedSomewhere(a, x);
      }
    } else {
      NothingBuilt();
    }
  }

  lemma AssignedSomewhere(a: seq<Assigned>, x: string)
    requires a != []
    ensures var b := a[..|a| - 1];
            (exists i :: 0 <= i < |a| && a[i].0 == x)
            <==> a[|a| - 1].0 == x || exists i :: 0 <= i < |b| && b[i].0 == x
  {
    var b := a[..|a| - 1];
    if i :| 0 <= i < |b| && b[i].0 == x {
      assert a[i].0 == x;
    }
    if i :| 0 <= i < |a| && a[i].0 == x {
      assert i < |b| ==> b[i].0 == x;
    }
  }

  lemma NothingBuilt()
    ensures forall x :: Lookup(End, Name(x)) == Null == LastSet([], x)
  {
  }

  lemma {:induction false} NamesAscend(e: Entries)
    requires Sorted(e) && Named(e)
    ensures Ascending(NamesOf(e))
    ensures e.Entry? ==> forall l :: l in NamesOf(e.rest) ==> KeyLess(e.key, Name(l))
  {
    hide KeyLess, CharsBefore;
    if e.Entry? {
      NamesAscend(e.rest);
      var ns, k := NamesOf(e.rest), e.key;
      forall l | l in ns ensures KeyLess(k, Name(l)) && CharsBefore(k.name, l) {
        if l != ns[0] {
          KeyLessTransitive(k, e.rest.key, Name(l));
        }
        KeysInOrder(k, Name(l));
      }
      forall i, j | 0 <= i < j < |NamesOf(e)| ensures CharsBefore(NamesOf(e)[i], NamesOf(e)[j]) {
        assert NamesOf(e)[j] == ns[j - 1] && ns[j - 1] in ns;
        if 0 < i {
          assert NamesOf(e)[i] == ns[i - 1];
        }
      }
    }
  }

  // The members of these names with the values assigned last, parted by commas.
  function MembersText(ns: seq<string>, a: seq<Assigned>, st: Style): string
    requires AllWritable(a)
  {
    if ns == [] then "" else
    SetWritable(a, ns[0]);
    Quoted(ns[0]) + (if st.yaml then ": " else ":") + Fast(LastSet(a, ns[0]), st)
    + if |ns| == 1 then "" else "," + MembersText(ns[1..], a, st)
  }

  lemma {:induction false} SetWritable(a: seq<Assigned>, name: string)
    requires AllWritable(a)
    ensures Writable(LastSet(a, name))
  {
    if a != [] {
      SetWritable(a[..|a| - 1], name);
    }
  }

  lemma {:induction false} SuffixText(rest: Entries, e: Entries, a: seq<Assigned>, st: Style)
    requires AllWritable(a) && e == Built(a) && SuffixOf(rest, e) && EntriesWritable(rest) && Named(rest) && Sorted(e)
    requires forall x :: Lookup(e, Name(x)) == LastSet(a, x)
    ensures FastMembers(rest, st) == MembersText(NamesOf(rest), a, st)
    decreases rest
  {
    hide Fast, Quoted, SuffixOf, Lookup, Built, LastSet, AllWritable;
    if rest.Entry? {
      SuffixLookup(rest, e);
      SuffixRest(rest, e);
      SuffixText(rest.rest, e, a, st);
      assert NamesOf(rest)[1..] == NamesOf(rest.rest);
      assert Fast(rest.val, st) == Fast(LastSet(a, rest.key.name), st);
      MemberJoined(Quoted(rest.key.name), Colon(st), Fast(rest.val, st), "," + FastMembers(rest.rest, st));
    }
  }

  lemma MemberJoined(q: string, colon: string, v: string, more: string)
    ensures q + (colon + v) + more == q + colon + v + more && q + (colon + v) == q + colon + v + ""
  {
  }

  // The compact text of an object holds every name once, in ascending order of their characters, each with the value
  // assigned last, in whatever order the assignments were made.
  lemma ObjectWritten(a: seq<Assigned>, st: Style)
    requires AllWritable(a)
    ensures var e := Built(a); var ns := NamesOf(e);
            && Writable(Obj(e)) && Fast(Obj(e), st) == "{" + MembersText(ns, a, st) + "}"
            && Ascending(ns) && forall x :: x in ns <==> exists i :: 0 <= i < |a| && a[i].0 == x
  {
    hide FastMembers, Ascending, AllWritable;
    BuiltIs(a);
    NamesAscend(Built(a));
    WholeSuffix(Built(a));
    SuffixText(Built(a), Built(a), a, st);
  }
}

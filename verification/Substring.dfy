/** A string at a place in a longer one. */
module Substring {
  predicate OccursAt(doc: string, j: nat, pat: string) {
    j + |pat| <= |doc| && doc[j..j + |pat|] == pat
  }

  lemma OccursWithin(doc: string, i: nat, s: string)
    requires OccursAt(doc, i, s)
    ensures i + |s| <= |doc|
  {
  }

  lemma OccursSplit(doc: string, i: nat, s: string, t: string)
    requires OccursAt(doc, i, s + t)
    ensures OccursAt(doc, i, s) && OccursAt(doc, i + |s|, t)
  {
    assert (s + t)[..|s|] == s && (s + t)[|s|..] == t;
    assert doc[i..i + |s|] == doc[i..i + |s + t|][..|s|];
    assert doc[i + |s|..i + |s| + |t|] == doc[i..i + |s + t|][|s|..];
  }

  lemma OccursChar(doc: string, off: nat, t: string, i: nat)
    requires OccursAt(doc, off, t) && i < |t|
    ensures off + i < |doc| && doc[off + i] == t[i]
  {
    assert doc[off..off + |t|][i] == t[i];
  }

  lemma OccursMiddle(x: string, y: string, z: string)
    ensures OccursAt(x + y + z, |x|, y)
  {
  }
}

/** What may stand between the tokens of a JSON text: white space and comments, by their characters, and how the
    reader steps over them. */
module JsonGaps {
  import opened Substring
  import opened JsonNumber
  import opened JsonString
  import opened JsonParse
  import opened JsonRoundTrip

  const WHITE := " \t\r\n"

  // ---- gaps ----

  // The text closes at its end and not before.
  ghost predicate ClosesFirst(s: string) {
    2 <= |s| && OccursAt(s, |s| - 2, "*/") && forall k :: 0 <= k < |s| - 2 ==> !OccursAt(s, k, "*/")
  }

  // A block up to its first end mark, or a line with the character that ends it.
  ghost predicate IsComment(s: string) {
    || (OccursAt(s, 0, "/*") && ClosesFirst(s[2..]))
    || (OccursAt(s, 0, "//") && 3 <= |s| && s[|s| - 1] in "\r\n" && forall k :: 2 <= k < |s| - 1 ==> s[k] !in "\r\n")
  }

  // White space, and comments where they are allowed.
  ghost predicate IsGap(s: string, comments: bool) {
    || s == "" || (s[0] in WHITE && IsGap(s[1..], comments))
    || (comments && exists k :: 0 < k <= |s| && IsComment(s[..k]) && IsGap(s[k..], comments))
  }

  lemma WhiteIsSpace(c: char)
    ensures IsSpace(c) <==> c in WHITE
  {
  }

  lemma {:induction false} WhiteGap(s: string)
    ensures IsGap(s, false) <==> forall k :: 0 <= k < |s| ==> s[k] in WHITE
  {
    if s != "" {
      WhiteGap(s[1..]);
      assert s == [s[0]] + s[1..];
    }
  }

  lemma {:induction false} WhiteIsGap(s: string, comments: bool)
    requires IsGap(s, false)
    ensures IsGap(s, comments)
  {
    if s != "" {
      WhiteIsGap(s[1..], comments);
    }
  }

  lemma CommentLong(s: string)
    requires IsComment(s)
    ensures 3 <= |s| && s[0] == '/'
  {
    assert s[0] == s[..2][0];
  }

  // A gap begins with white space or a comment.
  lemma GapStarts(s: string, comments: bool)
    requires IsGap(s, comments) && s != ""
    ensures s[0] in WHITE || s[0] == '/'
  {
    if s[0] !in WHITE {
      var k :| 0 < k <= |s| && IsComment(s[..k]) && IsGap(s[k..], comments);
      CommentLong(s[..k]);
    }
  }

  // ---- reading over them ----

  lemma {:induction false} BlockEnds(doc: string, i: nat, s: string)
    requires OccursAt(doc, i, s) && ClosesFirst(s)
    ensures i + |s| <= |doc| && CommentEnd(doc, i) == i + |s| - 1
    decreases |s|
  {
    OccursWithin(doc, i, s);
    OccursChar(doc, i, s, 0);
    OccursChar(doc, i, s, 1);
    if |s| > 2 {
      assert !OccursAt(s, 0, "*/");
      assert s[..2] != "*/" && s[..2] == [s[0], s[1]];
      OccursSplit(doc, i, [s[0]], s[1..]);
      assert s == [s[0]] + s[1..];
      ClosesLater(s);
      BlockEnds(doc, i + 1, s[1..]);
    } else {
      assert s[0..2] == "*/" && s == s[0..2];
    }
  }

  lemma ClosesLater(s: string)
    requires ClosesFirst(s) && |s| > 2
    ensures ClosesFirst(s[1..])
  {
    var t := s[1..];
    forall k | 0 <= k <= |t| - 2 ensures OccursAt(t, k, "*/") <==> OccursAt(s, k + 1, "*/") {
      assert t[k..k + 2] == s[k + 1..k + 3];
    }
  }

  lemma {:induction false} LineEnds(doc: string, i: nat, s: string)
    requires OccursAt(doc, i, s) && s != "" && s[|s| - 1] in "\r\n"
    requires forall k :: 0 <= k < |s| - 1 ==> s[k] !in "\r\n"
    ensures i + |s| <= |doc| && LineEnd(doc, i) == i + |s|
    decreases |s|
  {
    OccursWithin(doc, i, s);
    OccursChar(doc, i, s, 0);
    if |s| > 1 {
      OccursSplit(doc, i, [s[0]], s[1..]);
      assert s == [s[0]] + s[1..];
      LineEnds(doc, i + 1, s[1..]);
    }
  }

  lemma CommentRead(doc: string, i: nat, s: string)
    requires IsComment(s) && OccursAt(doc, i, s)
    ensures i + |s| <= |doc| && ReadToken(doc, i) == Token(CommentToken, i, i + |s|)
  {
    hide CommentEnd, LineEnd, ClosesFirst, ReadString, ReadNumber, Word;
    OccursWithin(doc, i, s);
    CommentLong(s);
    assert s == s[..2] + s[2..];
    OccursSplit(doc, i, s[..2], s[2..]);
    OccursChar(doc, i, s, 0);
    OccursChar(doc, i, s, 1);
    assert SkipSpaces(doc, i) == i;
    if OccursAt(s, 0, "/*") {
      assert s[1] == s[..2][1];
      BlockEnds(doc, i + 2, s[2..]);
    } else {
      assert s[1] == s[..2][1];
      LineEnds(doc, i + 2, s[2..]);
    }
  }

  lemma OneWhite(doc: string, i: nat)
    requires i < |doc| && doc[i] in WHITE
    ensures SkipSpaces(doc, i) == SkipSpaces(doc, i + 1) && ReadToken(doc, i) == ReadToken(doc, i + 1)
    ensures NoComment(doc, i) == NoComment(doc, i + 1)
  {
    assert SkipSpaces(doc, i) == SkipSpaces(doc, i + 1);
    assert ReadToken(doc, i) == ReadToken(doc, i + 1);
  }

  lemma CommentPassed(doc: string, i: nat)
    requires i <= |doc| && ReadToken(doc, i).kind == CommentToken
    ensures NoComment(doc, i) == NoComment(doc, ReadToken(doc, i).stop)
  {
    hide ReadToken;
  }

  lemma {:induction false} GapRead(doc: string, i: nat, g: string, comments: bool)
    requires OccursAt(doc, i, g) && IsGap(g, comments)
    ensures i + |g| <= |doc| && NoComment(doc, i) == NoComment(doc, i + |g|)
    ensures !comments ==> ReadToken(doc, i) == ReadToken(doc, i + |g|) && SkipSpaces(doc, i) == SkipSpaces(doc, i + |g|)
    ensures !IsGap(g, false) ==> ReadToken(doc, i).kind == CommentToken
    decreases |g|
  {
    hide OccursAt, SkipSpaces, ReadToken, NoComment, IsComment;
    OccursWithin(doc, i, g);
    if g != "" {
      if g[0] in WHITE && IsGap(g[1..], comments) {
        assert g == [g[0]] + g[1..];
        OccursChar(doc, i, g, 0);
        OccursSplit(doc, i, [g[0]], g[1..]);
        GapRead(doc, i + 1, g[1..], comments);
        OneWhite(doc, i);
      } else {
        var k :| 0 < k <= |g| && IsComment(g[..k]) && IsGap(g[k..], comments);
        assert g == g[..k] + g[k..];
        OccursSplit(doc, i, g[..k], g[k..]);
        CommentRead(doc, i, g[..k]);
        CommentPassed(doc, i);
        GapRead(doc, i + k, g[k..], comments);
      }
    }
  }

  // As far as values are concerned: comments count as gaps if the features say so.
  lemma GapByFeatures(doc: string, i: nat, g: string, f: Features)
    requires OccursAt(doc, i, g) && IsGap(g, f.allowComments)
    ensures i + |g| <= |doc| && FirstToken(doc, i, f) == FirstToken(doc, i + |g|, f)
  {
    hide OccursAt, ReadToken, NoComment, IsGap;
    GapRead(doc, i, g, f.allowComments);
  }

  // ---- what was stepped over ----

  lemma {:induction false} WhiteSpelled(doc: string, i: nat)
    requires i <= |doc|
    ensures IsGap(doc[i..SkipSpaces(doc, i)], false)
    decreases |doc| - i
  {
    var s := SkipSpaces(doc, i);
    if i < |doc| && IsSpace(doc[i]) {
      WhiteSpelled(doc, i + 1);
      assert doc[i..s] == [doc[i]] + doc[i + 1..s];
    }
  }

  lemma {:induction false} BlockSpelled(doc: string, i: nat)
    requires i <= |doc| && CommentEnd(doc, i) < |doc|
    ensures ClosesFirst(doc[i..CommentEnd(doc, i) + 1])
    decreases |doc| - i
  {
    hide ClosesFirst;
    var e := CommentEnd(doc, i);
    var s := doc[i..e + 1];
    if doc[i] == '*' && i + 1 < |doc| && doc[i + 1] == '/' {
      assert s == "*/";
      EndMarkCloses();
    } else {
      BlockSpelled(doc, i + 1);
      ClosesEarlier(doc[i], doc[i + 1..e + 1]);
      assert s == [doc[i]] + doc[i + 1..e + 1];
    }
  }

  lemma EndMarkCloses()
    ensures ClosesFirst("*/")
  {
  }

  lemma ClosesEarlier(c: char, t: string)
    requires ClosesFirst(t) && !(c == '*' && t[0] == '/')
    ensures ClosesFirst([c] + t)
  {
    var s := [c] + t;
    assert s[0..2] == [c, t[0]];
    forall k | 1 <= k <= |s| - 2 ensures OccursAt(t, k - 1, "*/") <==> OccursAt(s, k, "*/") {
      assert t[k - 1..k + 1] == s[k..k + 2];
    }
  }

  lemma {:induction false} LineSpelled(doc: string, i: nat)
    requires i <= |doc| && LineEnd(doc, i) < |doc|
    ensures var s := doc[i..LineEnd(doc, i)];
            s != "" && s[|s| - 1] in "\r\n" && forall k :: 0 <= k < |s| - 1 ==> s[k] !in "\r\n"
    decreases |doc| - i
  {
    var e := LineEnd(doc, i);
    if !(doc[i] == '\r' || doc[i] == '\n') {
      LineSpelled(doc, i + 1);
      assert doc[i..e] == [doc[i]] + doc[i + 1..e];
    }
  }

  lemma CommentSpelled(doc: string, i: nat)
    requires i <= |doc| && ReadToken(doc, i).kind == CommentToken && ReadToken(doc, i).stop < |doc|
    ensures var t := ReadToken(doc, i); IsComment(doc[t.start..t.stop]) && t.start == SkipSpaces(doc, i)
  {
    hide CommentEnd, LineEnd, ClosesFirst, ReadString, ReadNumber, SkipSpaces;
    var t := ReadToken(doc, i);
    var s := SkipSpaces(doc, i);
    assert doc[s] == '/' && t.start == s;
    var c := doc[t.start..t.stop];
    if doc[s + 1] == '*' {
      BlockSpelled(doc, s + 2);
      assert c[2..] == doc[s + 2..t.stop];
      assert c[0..2] == "/*";
    } else {
      LineSpelled(doc, s + 2);
      assert c[2..] == doc[s + 2..t.stop];
      assert c[0..2] == "//";
      forall k | 2 <= k < |c| - 1 ensures c[k] !in "\r\n" {
        assert c[k] == c[2..][k - 2];
      }
    }
  }

  lemma {:induction false} GapJoin(a: string, b: string, comments: bool)
    requires IsGap(a, comments) && IsGap(b, comments)
    ensures IsGap(a + b, comments)
    decreases |a|
  {
    hide IsComment;
    if a == "" {
      assert a + b == b;
    } else if a[0] in WHITE && IsGap(a[1..], comments) {
      GapJoin(a[1..], b, comments);
      assert (a + b)[1..] == a[1..] + b;
    } else {
      var k :| 0 < k <= |a| && IsComment(a[..k]) && IsGap(a[k..], comments);
      GapJoin(a[k..], b, comments);
      assert (a + b)[..k] == a[..k] && (a + b)[k..] == a[k..] + b;
    }
  }

  lemma CommentGap(s: string)
    requires IsComment(s)
    ensures IsGap(s, true)
  {
    CommentLong(s);
    assert s[..|s|] == s && s[|s|..] == "";
    assert IsGap("", true);
  }

  // In front of the next token that is no comment stands a gap.
  lemma {:induction false} GapSpelled(doc: string, i: nat)
    requires i <= |doc| && NoComment(doc, i).start < |doc|
    ensures var t := NoComment(doc, i);
            && IsGap(doc[i..t.start], true) && ReadToken(doc, t.start) == NoComment(doc, t.start) == t
            && doc[t.start] !in WHITE
    ensures ReadToken(doc, i).kind == CommentToken ==> !IsGap(doc[i..NoComment(doc, i).start], false)
    ensures ReadToken(doc, i).kind != CommentToken ==> IsGap(doc[i..NoComment(doc, i).start], false)
    decreases |doc| - i
  {
    hide ReadToken, IsGap, IsComment;
    var t, r := NoComment(doc, i), ReadToken(doc, i);
    WhiteSpelled(doc, i);
    TokenStarts(doc, i);
    WhiteIsGap(doc[i..r.start], true);
    if r.kind == CommentToken {
      GapSpelled(doc, r.stop);
      CommentSpelled(doc, i);
      GapWithComment(doc, i, r.start, r.stop, t.start);
    }
  }

  lemma GapWithComment(doc: string, i: nat, j: nat, k: nat, n: nat)
    requires i <= j <= k <= n <= |doc|
    requires IsGap(doc[i..j], true) && IsComment(doc[j..k]) && IsGap(doc[k..n], true)
    ensures IsGap(doc[i..n], true) && !IsGap(doc[i..n], false)
  {
    hide IsGap, IsComment;
    CommentGap(doc[j..k]);
    GapJoin(doc[j..k], doc[k..n], true);
    assert doc[j..k] + doc[k..n] == doc[j..n];
    GapJoin(doc[i..j], doc[j..n], true);
    assert doc[i..j] + doc[j..n] == doc[i..n];
    WhiteGap(doc[i..n]);
    CommentLong(doc[j..k]);
    assert doc[i..n][j - i] == doc[j] == doc[j..k][0] == '/';
  }

  lemma TokenStarts(doc: string, i: nat)
    requires i <= |doc|
    ensures var t := ReadToken(doc, i);
            && t.start == SkipSpaces(doc, i)
            && (t.start < |doc| ==> ReadToken(doc, t.start) == t && doc[t.start] !in WHITE)
    ensures var t := ReadToken(doc, i);
            t.start < |doc| && t.kind != CommentToken ==> NoComment(doc, t.start) == t
  {
    hide ReadString, ReadComment, ReadNumber, Word;
    var s := SkipSpaces(doc, i);
    if s < |doc| {
      WhiteIsSpace(doc[s]);
      assert SkipSpaces(doc, s) == s;
    }
  }

  // ---- one token of any kind ----

  const NUMBER_CHARS := "0123456789.eE+-"

  lemma NumberCharIs(c: char)
    ensures NumberChar(c) <==> c in NUMBER_CHARS
  {
  }

  predicate NumberShape(s: string) {
    s != "" && s[0] in "0123456789-" && forall k :: 0 <= k < |s| ==> s[k] in NUMBER_CHARS
  }

  // What stands between quotation marks, be its escapes valid or not.
  predicate Scannable(s: string) {
    s == "" || if s[0] == '\\' then 2 <= |s| && Scannable(s[2..]) else s[0] != '\"' && Scannable(s[1..])
  }

  // A token that is no comment and no closing brace: a string, a number, a word, a slash that begins no comment with
  // the character behind it, or any other character.
  ghost predicate IsStray(s: string) {
    || (exists body :: s == "\"" + (body + "\"") && Scannable(body))
    || NumberShape(s) || s == "true" || s == "false" || s == "null"
    || (|s| == 2 && s[0] == '/' && s[1] != '*' && s[1] != '/')
    || (|s| == 1 && s[0] !in WHITE && s[0] !in "\"/}0123456789-")
  }

  // What may follow it: a gap, a string, or the closing brace.
  predicate EndsStray(doc: string, i: nat) { i < |doc| && (doc[i] in WHITE || doc[i] in "/\"}") }

  lemma {:induction false} BodyScanned(doc: string, i: nat, body: string)
    requires Scannable(body) && OccursAt(doc, i, body + "\"")
    ensures i + |body| + 1 <= |doc| && ReadString(doc, i) == Scanned(true, i + |body| + 1)
    decreases |body|
  {
    hide OccursAt;
    if body == "" {
      assert body + "\"" == "\"";
      OccursChar(doc, i, "\"", 0);
    } else {
      var k := if body[0] == '\\' then 2 else 1;
      assert body + "\"" == body[..k] + (body[k..] + "\"");
      OccursSplit(doc, i, body[..k], body[k..] + "\"");
      OccursChar(doc, i, body[..k], 0);
      OccursWithin(doc, i, body[..k]);
      BodyScanned(doc, i + k, body[k..]);
    }
  }

  lemma {:induction false} BodySpelled(doc: string, i: nat)
    requires i <= |doc| && ReadString(doc, i).ok
    ensures var n := ReadString(doc, i).next; Scannable(doc[i..n - 1]) && doc[n - 1] == '\"'
    decreases |doc| - i
  {
    var n := ReadString(doc, i).next;
    if doc[i] == '\\' {
      BodySpelled(doc, i + 2);
      assert doc[i..n - 1][2..] == doc[i + 2..n - 1];
    } else if doc[i] != '\"' {
      BodySpelled(doc, i + 1);
      assert doc[i..n - 1][1..] == doc[i + 1..n - 1];
    }
  }

  lemma {:induction false} NumberRun(doc: string, i: nat, s: string)
    requires OccursAt(doc, i, s) && forall k :: 0 <= k < |s| ==> s[k] in NUMBER_CHARS
    requires i + |s| < |doc| ==> doc[i + |s|] !in NUMBER_CHARS
    ensures i + |s| <= |doc| && ReadNumber(doc, i) == i + |s|
    decreases |s|
  {
    OccursWithin(doc, i, s);
    if i < |doc| {
      NumberCharIs(doc[i]);
    }
    if s != "" {
      assert s == [s[0]] + s[1..];
      OccursSplit(doc, i, [s[0]], s[1..]);
      OccursChar(doc, i, s, 0);
      NumberRun(doc, i + 1, s[1..]);
    }
  }

  lemma {:induction false} NumberSpan(doc: string, i: nat)
    requires i <= |doc|
    ensures var e := ReadNumber(doc, i);
            && (forall k :: i <= k < e ==> doc[k] in NUMBER_CHARS) && (e < |doc| ==> doc[e] !in NUMBER_CHARS)
    decreases |doc| - i
  {
    if i < |doc| {
      NumberCharIs(doc[i]);
      if NumberChar(doc[i]) {
        NumberSpan(doc, i + 1);
      }
    }
  }

  lemma NumberTokenRun(doc: string, i: nat, s: string)
    requires NumberShape(s) && OccursAt(doc, i, s) && (i + |s| < |doc| ==> doc[i + |s|] !in NUMBER_CHARS)
    ensures i + |s| <= |doc| && doc[i..i + |s|] == s
            && ReadToken(doc, i) == NoComment(doc, i) == Token(NumberToken, i, i + |s|)
  {
    hide ReadNumber;
    OccursChar(doc, i, s, 0);
    assert s == [s[0]] + s[1..];
    OccursSplit(doc, i, [s[0]], s[1..]);
    NumberRun(doc, i + 1, s[1..]);
    NumberTokenHere(doc, i);
  }

  lemma StrayRead(doc: string, i: nat, s: string)
    requires IsStray(s) && OccursAt(doc, i, s) && EndsStray(doc, i + |s|)
    ensures var t := ReadToken(doc, i);
            t == NoComment(doc, i) && t.start == i && t.stop == i + |s| && t.kind != ObjectEnd && t.kind != CommentToken
  {
    hide OccursAt, ReadNumber, ReadString, CommentEnd, LineEnd, Scannable;
    OccursChar(doc, i, s, 0);
    if body :| s == "\"" + (body + "\"") && Scannable(body) {
      OccursSplit(doc, i, "\"", body + "\"");
      BodyScanned(doc, i + 1, body);
      StringTokenHere(doc, i);
    } else if NumberShape(s) {
      NumberTokenRun(doc, i, s);
    } else if s == "true" || s == "false" || s == "null" {
      WordRead(doc, i, s, Features(true, true));
      WordRead(doc, i, s, Features(false, true));
    } else {
      LoneRead(doc, i, s);
    }
  }

  lemma LoneRead(doc: string, i: nat, s: string)
    requires OccursAt(doc, i, s) && EndsStray(doc, i + |s|)
    requires || (|s| == 2 && s[0] == '/' && s[1] != '*' && s[1] != '/')
             || (|s| == 1 && s[0] !in WHITE && s[0] !in "\"/}0123456789-")
    ensures var t := ReadToken(doc, i);
            t == NoComment(doc, i) && t.start == i && t.stop == i + |s| && t.kind != ObjectEnd && t.kind != CommentToken
  {
    hide ReadNumber, ReadString, CommentEnd, LineEnd;
    OccursChar(doc, i, s, 0);
    WhiteIsSpace(doc[i]);
    assert SkipSpaces(doc, i) == i;
    if |s| == 2 {
      OccursChar(doc, i, s, 1);
    } else {
      NoWordHere(doc, i);
    }
  }

  lemma NoWordHere(doc: string, i: nat)
    requires EndsStray(doc, i + 1)
    ensures !OccursAt(doc, i + 1, "rue") && !OccursAt(doc, i + 1, "alse") && !OccursAt(doc, i + 1, "ull")
  {
    if OccursAt(doc, i + 1, "rue") {
      OccursChar(doc, i + 1, "rue", 0);
    }
    if OccursAt(doc, i + 1, "alse") {
      OccursChar(doc, i + 1, "alse", 0);
    }
    if OccursAt(doc, i + 1, "ull") {
      OccursChar(doc, i + 1, "ull", 0);
    }
  }

  // Whatever the reader takes for one token, with more of the text behind it.
  lemma StraySpelled(doc: string, i: nat)
    requires i < |doc| && doc[i] !in WHITE
    requires var t := ReadToken(doc, i); t.kind != ObjectEnd && t.kind != CommentToken && t.stop < |doc|
    ensures var t := ReadToken(doc, i); t.start == i < t.stop && IsStray(doc[i..t.stop])
  {
    hide ReadNumber, ReadString, CommentEnd, LineEnd, Scannable, NumberShape;
    TokenStarts(doc, i);
    WhiteIsSpace(doc[i]);
    assert SkipSpaces(doc, i) == i;
    var t := ReadToken(doc, i);
    var s := doc[i..t.stop];
    if doc[i] == '\"' {
      UnclosedToEnd(doc, i + 1);
      BodySpelled(doc, i + 1);
      var body := doc[i + 1..t.stop - 1];
      assert s == "\"" + (body + "\"");
    } else if IsDigit(doc[i]) || doc[i] == '-' {
      NumberSpan(doc, i + 1);
      NumberCharIs(doc[i]);
      assert NumberShape(s) by { ShapeOfSpan(doc, i, t.stop); }
    } else {
      OtherSpelled(doc, i);
    }
  }

  lemma ShapeOfSpan(doc: string, i: nat, e: nat)
    requires i < e <= |doc| && (IsDigit(doc[i]) || doc[i] == '-') && forall k :: i < k < e ==> doc[k] in NUMBER_CHARS
    ensures NumberShape(doc[i..e])
  {
  }

  lemma {:induction false} UnclosedToEnd(doc: string, i: nat)
    requires i <= |doc|
    ensures !ReadString(doc, i).ok ==> ReadString(doc, i).next == |doc|
    decreases |doc| - i
  {
    if i < |doc| && doc[i] == '\\' && i + 1 < |doc| {
      UnclosedToEnd(doc, i + 2);
    } else if i < |doc| && doc[i] != '\"' && doc[i] != '\\' {
      UnclosedToEnd(doc, i + 1);
    }
  }

  lemma OtherSpelled(doc: string, i: nat)
    requires i < |doc| && doc[i] !in WHITE && doc[i] != '\"' && !IsDigit(doc[i]) && doc[i] != '-'
    requires var t := ReadToken(doc, i); t.kind != ObjectEnd && t.kind != CommentToken && t.stop < |doc|
    ensures IsStray(doc[i..ReadToken(doc, i).stop])
  {
    hide ReadNumber, ReadString, CommentEnd, LineEnd, Scannable, NumberShape;
    WhiteIsSpace(doc[i]);
    assert SkipSpaces(doc, i) == i;
    var t := ReadToken(doc, i);
    var s := doc[i..t.stop];
    if t.kind == TrueToken {
      assert s == "t" + doc[i + 1..i + 4];
    } else if t.kind == FalseToken {
      assert s == "f" + doc[i + 1..i + 5];
    } else if t.kind == NullToken {
      assert s == "n" + doc[i + 1..i + 4];
    } else if doc[i] == '/' {
      assert t.stop == i + 2 && s == [doc[i], doc[i + 1]];
    } else {
      assert s == [doc[i]];
    }
  }
}

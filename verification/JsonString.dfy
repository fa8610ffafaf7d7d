/** JSON strings: quoting, unquoting with \u escapes and surrogate pairs, and UTF-8. */
module JsonString {
  import opened Substring

  // Characters are bytes, as in a C string.
  predicate ByteString(s: string) { forall i :: 0 <= i < |s| ==> s[i] < 256 as char }

  predicate NulFree(s: string) { forall i :: 0 <= i < |s| ==> s[i] != '\0' }

  const BS := 8 as char
  const FF := 12 as char

  // ---- valueToQuotedString ----

  predicate IsControl(c: char) { '\0' < c <= 31 as char }

  function HexDigit(d: nat): char
    requires d < 16
  {
    if d < 10 then '0' + d as char else 'A' + (d - 10) as char
  }

  function Hex4(n: nat): (h: string)
    requires n < 0x1_0000
    ensures |h| == 4
  {
    [HexDigit(n / 4096), HexDigit(n / 256 % 16), HexDigit(n / 16 % 16), HexDigit(n % 16)]
  }

  function Escape(c: char): (e: string)
    ensures 1 <= |e|
  {
    if c == '\"' then "\\\""
    else if c == '\\' then "\\\\"
    else if c == BS then "\\b"
    else if c == FF then "\\f"
    else if c == '\n' then "\\n"
    else if c == '\r' then "\\r"
    else if c == '\t' then "\\t"
    else if IsControl(c) then "\\u" + Hex4(c as int)
    else [c]
  }

  function Escaped(s: string): string {
    if s == "" then "" else Escape(s[0]) + Escaped(s[1..])
  }

  function Quoted(s: string): string {
    "\"" + Escaped(s) + "\""
  }

  // The characters that strpbrk and containsControlCharacter look for.
  predicate NeedsEscape(c: char) {
    c == '\"' || c == '\\' || c == BS || c == FF || c == '\n' || c == '\r' || c == '\t' || IsControl(c)
  }

  lemma {:induction false} PlainIsItself(s: string)
    requires forall i :: 0 <= i < |s| ==> !NeedsEscape(s[i])
    ensures Escaped(s) == s
  {
    if s != "" {
      PlainIsItself(s[1..]);
      assert s == [s[0]] + s[1..];
    }
  }

  lemma {:induction false} EscapedAppend(s: string, c: char)
    ensures Escaped(s + [c]) == Escaped(s) + Escape(c)
  {
    if s == "" {
      assert s + [c] == [c] && [c][1..] == "";
      assert Escape(c) + "" == Escape(c);
    } else {
      assert (s + [c])[1..] == s[1..] + [c];
      EscapedAppend(s[1..], c);
      assert Escape(s[0]) + (Escaped(s[1..]) + Escape(c)) == Escape(s[0]) + Escaped(s[1..]) + Escape(c);
    }
  }

  method ValueToQuotedString(value: string) returns (r: string)
    ensures r == Quoted(value)
  {
    hide Escape;
    var i := 0;
    while i < |value| && !NeedsEscape(value[i])
      invariant i <= |value| && forall j :: 0 <= j < i ==> !NeedsEscape(value[j])
    {
      i := i + 1;
    }
    if i == |value| {
      PlainIsItself(value);
      return "\"" + value + "\"";
    }
    r := "\"";
    i := 0;
    assert value[..0] == "";
    while i < |value|
      invariant i <= |value| && r == "\"" + Escaped(value[..i])
    {
      EscapedAppend(value[..i], value[i]);
      assert value[..i] + [value[i]] == value[..i + 1];
      assert "\"" + (Escaped(value[..i]) + Escape(value[i])) == "\"" + Escaped(value[..i]) + Escape(value[i]);
      r := r + Escape(value[i]);
      i := i + 1;
    }
    assert value[..i] == value;
    r := r + "\"";
  }

  // How a character is written: quotation mark and backslash behind a backslash, five control characters by a letter,
  // the others by \u00 and two hexadecimal digits in upper case, and all the rest as they are.
  predicate WrittenAs(c: char, e: string) {
    if c == '\"' then e == "\\\""
    else if c == '\\' then e == "\\\\"
    else if c as int == 8 then e == "\\b"
    else if c as int == 9 then e == "\\t"
    else if c as int == 10 then e == "\\n"
    else if c as int == 12 then e == "\\f"
    else if c as int == 13 then e == "\\r"
    else if 0 < c as int < 32 then
      e == "\\u00" + ["0123456789ABCDEF"[c as int / 16], "0123456789ABCDEF"[c as int % 16]]
    else e == [c]
  }

  lemma EscapeWrittenAs(c: char)
    ensures WrittenAs(c, Escape(c))
  {
    if IsControl(c) {
      UpperDigit(c as int / 16);
      UpperDigit(c as int % 16);
      ControlDigits(c as int);
    }
  }

  lemma UpperDigit(d: nat)
    requires d < 16
    ensures HexDigit(d) == "0123456789ABCDEF"[d]
  {
    var s := "0123456789ABCDEF";
    if d < 8 {
      assert d == 0 || d == 1 || d == 2 || d == 3 || d == 4 || d == 5 || d == 6 || d == 7;
    } else {
      assert d == 8 || d == 9 || d == 10 || d == 11 || d == 12 || d == 13 || d == 14 || d == 15;
    }
  }

  lemma ControlDigits(n: nat)
    requires n < 32
    ensures Hex4(n) == "00" + [HexDigit(n / 16), HexDigit(n % 16)]
  {
    assert n / 4096 == 0 && n / 256 % 16 == 0 && n / 16 % 16 == n / 16;
  }

  function Joined(es: seq<string>): string {
    if es == [] then "" else es[0] + Joined(es[1..])
  }

  // A string is written between quotation marks, character by character.
  lemma QuotedWritten(s: string) returns (es: seq<string>)
    ensures |es| == |s| && Quoted(s) == "\"" + Joined(es) + "\"" && forall i :: 0 <= i < |s| ==> WrittenAs(s[i], es[i])
  {
    hide Escape, WrittenAs;
    es := EscapedWritten(s);
  }

  lemma {:induction false} EscapedWritten(s: string) returns (es: seq<string>)
    ensures |es| == |s| && Escaped(s) == Joined(es) && forall i :: 0 <= i < |s| ==> WrittenAs(s[i], es[i])
  {
    hide Escape, WrittenAs;
    es := [];
    if s != "" {
      var rest := EscapedWritten(s[1..]);
      EscapeWrittenAs(s[0]);
      es := [Escape(s[0])] + rest;
      assert es[1..] == rest;
    }
  }

  // ---- codePointToUTF8 ----

  function Bytes(b: seq<nat>): string
    requires forall i :: 0 <= i < |b| ==> b[i] < 256
  {
    seq(|b|, i requires 0 <= i < |b| => b[i] as char)
  }

  function Utf8(cp: nat): string {
    if cp <= 0x7f then Bytes([cp])
    else if cp <= 0x7ff then Bytes([0xC0 + cp / 64 % 32, 0x80 + cp % 64])
    else if cp <= 0xffff then Bytes([0xE0 + cp / 4096 % 16, 0x80 + cp / 64 % 64, 0x80 + cp % 64])
    else if cp <= 0x10ffff then
      Bytes([0xF0 + cp / 262144 % 8, 0x80 + cp / 4096 % 64, 0x80 + cp / 64 % 64, 0x80 + cp % 64])
    else ""
  }

  // The code point that a UTF-8 sequence stands for, by section 3 of RFC 3629: the shortest form only.
  function Utf8Value(s: string): Point {
    if |s| == 1 && Code(s, 0) < 0x80 then Point(Code(s, 0))
    else if |s| == 2 && 0xC2 <= Code(s, 0) < 0xE0 && Tail(s, 1) then Point((Code(s, 0) - 0xC0) * 64 + Code(s, 1) - 0x80)
    else if |s| == 3 && 0xE0 <= Code(s, 0) < 0xF0 && Tail(s, 1) && Tail(s, 2)
      && (Code(s, 0) == 0xE0 ==> 0xA0 <= Code(s, 1)) then
      Point((Code(s, 0) - 0xE0) * 4096 + (Code(s, 1) - 0x80) * 64 + Code(s, 2) - 0x80)
    else if |s| == 4 && 0xF0 <= Code(s, 0) < 0xF5 && Tail(s, 1) && Tail(s, 2) && Tail(s, 3)
         && (Code(s, 0) == 0xF0 ==> 0x90 <= Code(s, 1)) && (Code(s, 0) == 0xF4 ==> Code(s, 1) < 0x90) then
      Point((Code(s, 0) - 0xF0) * 262144 + (Code(s, 1) - 0x80) * 4096 + (Code(s, 2) - 0x80) * 64 + Code(s, 3) - 0x80)
    else NoPoint
  }

  datatype Point = NoPoint | Point(cp: int)

  function Code(s: string, i: nat): int
    requires i < |s|
  {
    s[i] as int
  }

  predicate Tail(s: string, i: nat)
    requires i < |s|
  {
    0x80 <= Code(s, i) < 0xC0
  }

  lemma BytesAre(b: seq<nat>)
    requires forall i :: 0 <= i < |b| ==> b[i] < 256
    ensures |Bytes(b)| == |b| && ByteString(Bytes(b)) && forall i :: 0 <= i < |b| ==> Code(Bytes(b), i) == b[i]
  {
  }

  lemma TwoBytes(cp: nat)
    requires 0x7f < cp <= 0x7ff
    ensures Utf8Value(Utf8(cp)) == Point(cp)
  {
    hide Bytes;
    BytesAre([0xC0 + cp / 64 % 32, 0x80 + cp % 64]);
  }

  lemma ThreeBytes(cp: nat)
    requires 0x7ff < cp <= 0xffff
    ensures Utf8Value(Utf8(cp)) == Point(cp)
  {
    hide Bytes;
    var q := cp / 64;
    assert cp / 4096 == q / 64;
    BytesAre([0xE0 + cp / 4096 % 16, 0x80 + cp / 64 % 64, 0x80 + cp % 64]);
  }

  lemma Sextets(cp: nat)
    requires 0xffff < cp <= 0x10ffff
    ensures cp / 262144 * 262144 + cp / 4096 % 64 * 4096 + cp / 64 % 64 * 64 + cp % 64 == cp
    ensures cp / 262144 <= 4 && (cp / 262144 == 0 ==> 16 <= cp / 4096 % 64)
    ensures cp / 262144 == 4 ==> cp / 4096 % 64 < 16
  {
    var q := cp / 64;
    var p := q / 64;
    assert cp / 4096 == p && cp / 262144 == p / 64;
  }

  lemma FourBytes(cp: nat)
    requires 0xffff < cp <= 0x10ffff
    ensures Utf8Value(Utf8(cp)) == Point(cp)
  {
    hide Bytes;
    Sextets(cp);
    BytesAre([0xF0 + cp / 262144 % 8, 0x80 + cp / 4096 % 64, 0x80 + cp / 64 % 64, 0x80 + cp % 64]);
  }

  // codePointToUTF8 gives the sequence that stands for the code point.
  lemma Utf8Correct(cp: nat)
    requires cp <= 0x10ffff
    ensures Utf8Value(Utf8(cp)) == Point(cp) && ByteString(Utf8(cp))
  {
    hide Utf8Value;
    if cp <= 0x7f {
      OneByte(cp);
    } else if cp <= 0x7ff {
      TwoBytes(cp);
    } else if cp <= 0xffff {
      ThreeBytes(cp);
    } else {
      FourBytes(cp);
    }
  }

  lemma OneByte(cp: nat)
    requires cp <= 0x7f
    ensures Utf8Value(Utf8(cp)) == Point(cp)
  {
  }

  // ---- decodeString ----

  datatype Text = Text(s: string) | BadText

  predicate IsHex(c: char) { '0' <= c <= '9' || 'a' <= c <= 'f' || 'A' <= c <= 'F' }

  function HexValue(c: char): (d: nat)
    requires IsHex(c)
    ensures d < 16
  {
    if '0' <= c <= '9' then c as int - '0' as int
    else if 'a' <= c <= 'f' then c as int - 'a' as int + 10
    else c as int - 'A' as int + 10
  }

  // decodeUnicodeEscapeSequence: the four digits at i.
  function UnicodeEscape(doc: string, i: nat, end: nat): (r: Point)
    requires i <= end <= |doc|
    ensures r.Point? ==> i + 4 <= end && 0 <= r.cp < 0x1_0000
  {
    if end - i < 4 || !IsHex(doc[i]) || !IsHex(doc[i + 1]) || !IsHex(doc[i + 2]) || !IsHex(doc[i + 3]) then NoPoint
    else Point(HexValue(doc[i]) * 4096 + HexValue(doc[i + 1]) * 256 + HexValue(doc[i + 2]) * 16 + HexValue(doc[i + 3]))
  }

  datatype CodePoint = CodePoint(cp: nat, next: nat) | NoCodePoint

  // decodeUnicodeCodePoint: one escape, or two when the first is a high surrogate.
  function CodePointAt(doc: string, i: nat, end: nat): (r: CodePoint)
    requires i <= end <= |doc|
    ensures r.CodePoint? ==> i < r.next <= end && r.cp <= 0x10ffff
  {
    var first := UnicodeEscape(doc, i, end);
    if first.NoPoint? then NoCodePoint
    else if 0xD800 <= first.cp <= 0xDBFF then
      if end - (i + 4) < 6 || doc[i + 4] != '\\' || doc[i + 5] != 'u' then NoCodePoint
      else
        var second := UnicodeEscape(doc, i + 6, end);
        if second.NoPoint? then NoCodePoint
        else CodePoint(0x1_0000 + first.cp % 1024 * 1024 + second.cp % 1024, i + 10)
    else CodePoint(first.cp, i + 4)
  }

  // A two-character escape.
  function Simple(c: char): (r: string)
    ensures |r| <= 1
  {
    if c == '\"' || c == '/' || c == '\\' then [c]
    else if c == 'b' then [BS]
    else if c == 'f' then [FF]
    else if c == 'n' then "\n"
    else if c == 'r' then "\r"
    else if c == 't' then "\t"
    else ""
  }

  function Prepend(s: string, t: Text): Text {
    if t.BadText? then t else Text(s + t.s)
  }

  // The text between the quotation marks, from i on.
  function DecodeFrom(doc: string, i: nat, end: nat): Text
    requires i <= end <= |doc|
    decreases end - i
  {
    if i == end || doc[i] == '\"' then Text("")
    else if doc[i] != '\\' then Prepend([doc[i]], DecodeFrom(doc, i + 1, end))
    else if i + 1 == end then BadText
    else if doc[i + 1] == 'u' then
      match CodePointAt(doc, i + 2, end)
      case NoCodePoint => BadText
      case CodePoint(cp, next) => Prepend(Utf8(cp), DecodeFrom(doc, next, end))
    else if Simple(doc[i + 1]) == "" then BadText
    else Prepend(Simple(doc[i + 1]), DecodeFrom(doc, i + 2, end))
  }

  method ReadUnicodeEscape(doc: string, i: nat, end: nat) returns (r: Point)
    requires i <= end <= |doc|
    ensures r == UnicodeEscape(doc, i, end)
  {
    if end - i < 4 {
      return NoPoint;
    }
    var unicode, index := 0, 0;
    while index < 4
      invariant 0 <= index <= 4 && forall k :: i <= k < i + index ==> IsHex(doc[k])
      invariant index == 1 ==> unicode == HexValue(doc[i])
      invariant index == 2 ==> unicode == HexValue(doc[i]) * 16 + HexValue(doc[i + 1])
      invariant index == 3 ==> unicode == HexValue(doc[i]) * 256 + HexValue(doc[i + 1]) * 16 + HexValue(doc[i + 2])
      invariant index == 4 ==>
                  unicode == HexValue(doc[i]) * 4096 + HexValue(doc[i + 1]) * 256 + HexValue(doc[i + 2]) * 16
                             + HexValue(doc[i + 3])
      invariant index == 0 ==> unicode == 0
    {
      if !IsHex(doc[i + index]) {
        return NoPoint;
      }
      unicode := unicode * 16 + HexValue(doc[i + index]);
      index := index + 1;
    }
    r := Point(unicode);
  }

  method ReadCodePoint(doc: string, i: nat, end: nat) returns (r: CodePoint)
    requires i <= end <= |doc|
    ensures r == CodePointAt(doc, i, end)
  {
    hide UnicodeEscape;
    var first := ReadUnicodeEscape(doc, i, end);
    if first.NoPoint? {
      return NoCodePoint;
    }
    var unicode, current: nat := first.cp, i + 4;
    if 0xD800 <= unicode <= 0xDBFF {
      if end - current < 6 {
        return NoCodePoint;
      }
      if doc[current] != '\\' || doc[current + 1] != 'u' {
        return NoCodePoint;
      }
      current := current + 2;
      var pair := ReadUnicodeEscape(doc, current, end);
      if pair.NoPoint? {
        return NoCodePoint;
      }
      current := current + 4;
      unicode := 0x1_0000 + unicode % 1024 * 1024 + pair.cp % 1024;
    }
    r := CodePoint(unicode, current);
  }

  // decodeString of the token that covers doc[start..stop], quotation marks included.
  method DecodeString(doc: string, start: nat, stop: nat) returns (r: Text)
    requires start + 2 <= stop <= |doc|
    ensures r == DecodeFrom(doc, start + 1, stop - 1)
  {
    hide CodePointAt, Utf8, Simple;
    var current, end := start + 1, stop - 1;
    var decoded := "";
    PrependNothing(DecodeFrom(doc, current, end));
    while current != end
      invariant start + 1 <= current <= end
      invariant Prepend(decoded, DecodeFrom(doc, current, end)) == DecodeFrom(doc, start + 1, end)
      decreases end - current
    {
      var c := doc[current];
      ghost var rest := DecodeFrom(doc, current, end);
      current := current + 1;
      if c == '\"' {
        break;
      } else if c == '\\' {
        if current == end {
          return BadText;
        }
        var escape := doc[current];
        current := current + 1;
        if escape == 'u' {
          var p := ReadCodePoint(doc, current, end);
          if p.NoCodePoint? {
            return BadText;
          }
          current := p.next;
          PrependTwice(decoded, Utf8(p.cp), DecodeFrom(doc, current, end));
          decoded := decoded + Utf8(p.cp);
        } else {
          if Simple(escape) == "" {
            return BadText;
          }
          PrependTwice(decoded, Simple(escape), DecodeFrom(doc, current, end));
          decoded := decoded + Simple(escape);
        }
      } else {
        PrependTwice(decoded, [c], DecodeFrom(doc, current, end));
        decoded := decoded + [c];
      }
    }
    assert decoded + "" == decoded;
    r := Text(decoded);
  }

  lemma PrependNothing(t: Text)
    ensures Prepend("", t) == t
  {
    if t.Text? {
      assert "" + t.s == t.s;
    }
  }

  lemma PrependTwice(a: string, b: string, t: Text)
    ensures Prepend(a, Prepend(b, t)) == Prepend(a + b, t)
  {
    if t.Text? {
      assert a + (b + t.s) == a + b + t.s;
    }
  }

  // ---- readString ----

  datatype Scanned = Scanned(ok: bool, next: nat)

  // From behind the opening quotation mark to behind the closing one.
  function ReadString(doc: string, i: nat): (r: Scanned)
    requires i <= |doc|
    ensures i <= r.next <= |doc| && (r.ok ==> i < r.next)
    decreases |doc| - i
  {
    if i == |doc| then Scanned(false, i)
    else if doc[i] == '\\' then (if i + 1 == |doc| then Scanned(false, i + 1) else ReadString(doc, i + 2))
    else if doc[i] == '\"' then Scanned(true, i + 1)
    else ReadString(doc, i + 1)
  }

  // ---- round trip ----

  lemma HexDigitRead(d: nat)
    requires d < 16
    ensures IsHex(HexDigit(d)) && HexValue(HexDigit(d)) == d && HexDigit(d) != '\\' && HexDigit(d) != '\"'
  {
  }

  lemma Hex4Read(doc: string, i: nat, end: nat, n: nat)
    requires n < 0x1_0000 && OccursAt(doc, i, Hex4(n)) && i + 4 <= end <= |doc|
    ensures UnicodeEscape(doc, i, end) == Point(n)
  {
    hide IsHex, HexValue, HexDigit, OccursAt;
    HexDigitRead(n / 4096);
    HexDigitRead(n / 256 % 16);
    HexDigitRead(n / 16 % 16);
    HexDigitRead(n % 16);
    OccursChar(doc, i, Hex4(n), 0);
    OccursChar(doc, i, Hex4(n), 1);
    OccursChar(doc, i, Hex4(n), 2);
    OccursChar(doc, i, Hex4(n), 3);
    FourDigits(n);
  }

  lemma FourDigits(n: nat)
    requires n < 0x1_0000
    ensures n / 4096 * 4096 + n / 256 % 16 * 256 + n / 16 % 16 * 16 + n % 16 == n
  {
    var q := n / 16;
    var p := q / 16;
    assert n / 256 == p && n / 4096 == p / 16;
  }

  // The escape of one character reads back as that character.
  lemma EscapeRead(doc: string, i: nat, end: nat, c: char)
    requires '\0' < c < 256 as char && OccursAt(doc, i, Escape(c)) && i + |Escape(c)| <= end <= |doc|
    ensures DecodeFrom(doc, i, end) == Prepend([c], DecodeFrom(doc, i + |Escape(c)|, end))
  {
    hide OccursAt, CodePointAt, Hex4, Utf8, IsControl;
    var e := Escape(c);
    OccursChar(doc, i, e, 0);
    if |e| == 2 {
      OccursChar(doc, i, e, 1);
    } else if |e| == 6 {
      OccursChar(doc, i, e, 1);
      ControlRead(doc, i, end, c);
    }
  }

  lemma ControlRead(doc: string, i: nat, end: nat, c: char)
    requires IsControl(c) && OccursAt(doc, i, "\\u" + Hex4(c as int)) && i + 6 <= end <= |doc|
    ensures CodePointAt(doc, i + 2, end) == CodePoint(c as int, i + 6) && Utf8(c as int) == [c]
  {
    hide Hex4;
    OccursSplit(doc, i, "\\u", Hex4(c as int));
    Hex4Read(doc, i + 2, end, c as int);
  }

  lemma {:induction false} UnquoteInverts(doc: string, i: nat, s: string)
    requires NulFree(s) && ByteString(s) && OccursAt(doc, i, Escaped(s))
    ensures i + |Escaped(s)| <= |doc| && DecodeFrom(doc, i, i + |Escaped(s)|) == Text(s)
    decreases |s|
  {
    hide Escape, OccursAt, DecodeFrom, Escaped;
    EscapedStep(doc, i, s);
    if s != "" {
      OccursSplit(doc, i, Escape(s[0]), Escaped(s[1..]));
      UnquoteInverts(doc, i + |Escape(s[0])|, s[1..]);
      EscapeRead(doc, i, i + |Escaped(s)|, s[0]);
      assert [s[0]] + s[1..] == s;
    } else {
      OccursWithin(doc, i, "");
    }
  }

  lemma EscapedStep(doc: string, i: nat, s: string)
    ensures if s == "" then Escaped(s) == "" else Escaped(s) == Escape(s[0]) + Escaped(s[1..])
    ensures i <= |doc| ==> DecodeFrom(doc, i, i) == Text("")
  {
  }

  lemma EscapeScanned(doc: string, i: nat, c: char)
    requires c != '\0' && OccursAt(doc, i, Escape(c))
    ensures i + |Escape(c)| <= |doc| && ReadString(doc, i) == ReadString(doc, i + |Escape(c)|)
  {
    hide OccursAt;
    var e := Escape(c);
    OccursChar(doc, i, e, |e| - 1);
    OccursChar(doc, i, e, 0);
    if |e| == 6 {
      HexScanned(doc, i, c as int);
    }
  }

  lemma HexScanned(doc: string, i: nat, n: nat)
    requires n < 0x1_0000 && OccursAt(doc, i, "\\u" + Hex4(n))
    ensures i + 6 <= |doc| && doc[i] == '\\' && ReadString(doc, i + 2) == ReadString(doc, i + 6)
  {
    hide HexDigit, IsHex, HexValue;
    OccursSplit(doc, i, "\\u", Hex4(n));
    OccursChar(doc, i, "\\u" + Hex4(n), 0);
    HexDigitRead(n / 4096);
    HexDigitRead(n / 256 % 16);
    HexDigitRead(n / 16 % 16);
    HexDigitRead(n % 16);
    var h := Hex4(n);
    OccursChar(doc, i + 2, h, 0);
    OccursChar(doc, i + 2, h, 1);
    OccursChar(doc, i + 2, h, 2);
    OccursChar(doc, i + 2, h, 3);
    assert ReadString(doc, i + 4) == ReadString(doc, i + 5) == ReadString(doc, i + 6);
  }

  // A quoted string is one token.
  lemma {:induction false} QuotedScanned(doc: string, i: nat, s: string)
    requires NulFree(s) && OccursAt(doc, i, Escaped(s) + "\"")
    ensures i + |Escaped(s)| + 1 <= |doc| && ReadString(doc, i) == Scanned(true, i + |Escaped(s)| + 1)
    decreases |s|
  {
    hide Escape, OccursAt;
    if s == "" {
      assert Escaped(s) + "\"" == "\"";
      OccursChar(doc, i, "\"", 0);
    } else {
      assert Escaped(s) + "\"" == Escape(s[0]) + (Escaped(s[1..]) + "\"");
      OccursSplit(doc, i, Escape(s[0]), Escaped(s[1..]) + "\"");
      EscapeScanned(doc, i, s[0]);
      QuotedScanned(doc, i + |Escape(s[0])|, s[1..]);
    }
  }

  // ---- \u escapes ----

  predicate Scalar(cp: nat) { cp <= 0x10ffff && !(0xD800 <= cp <= 0xDFFF) }

  predicate High(u: nat) { 0xD800 <= u <= 0xDBFF }

  predicate Low(u: nat) { 0xDC00 <= u <= 0xDFFF }

  // Four hexadecimal digits, each in either case.
  predicate HexWord(h: string) { |h| == 4 && forall k :: 0 <= k < 4 ==> IsHex(h[k]) }

  predicate HexWords(ws: seq<string>) { forall k :: 0 <= k < |ws| ==> HexWord(ws[k]) }

  const LOWER_HEX := "0123456789abcdef"
  const UPPER_HEX := "0123456789ABCDEF"

  // Hexadecimal digits by their place, in either case.
  lemma HexByPlace(d: nat)
    requires d < 16
    ensures IsHex(LOWER_HEX[d]) && HexValue(LOWER_HEX[d]) == d && IsHex(UPPER_HEX[d]) && HexValue(UPPER_HEX[d]) == d
  {
    if d < 8 {
      assert d == 0 || d == 1 || d == 2 || d == 3 || d == 4 || d == 5 || d == 6 || d == 7;
    } else {
      assert d == 8 || d == 9 || d == 10 || d == 11 || d == 12 || d == 13 || d == 14 || d == 15;
    }
  }

  // And nothing else is one.
  lemma HexOnly(c: char)
    ensures IsHex(c) <==> c in LOWER_HEX || c in UPPER_HEX
  {
    if '0' <= c <= '9' {
      assert LOWER_HEX[c as int - 48] == c by { DigitPlace(c as int - 48); }
    } else if 'a' <= c <= 'f' {
      assert LOWER_HEX[c as int - 87] == c by { DigitPlace(c as int - 87); }
    } else if 'A' <= c <= 'F' {
      assert UPPER_HEX[c as int - 55] == c by { DigitPlace(c as int - 55); }
    }
  }

  lemma DigitPlace(d: nat)
    requires d < 16
    ensures LOWER_HEX[d] == if d < 10 then (48 + d) as char else (87 + d) as char
    ensures UPPER_HEX[d] == if d < 10 then (48 + d) as char else (55 + d) as char
  {
    if d < 8 {
      assert d == 0 || d == 1 || d == 2 || d == 3 || d == 4 || d == 5 || d == 6 || d == 7;
    } else {
      assert d == 8 || d == 9 || d == 10 || d == 11 || d == 12 || d == 13 || d == 14 || d == 15;
    }
  }

  // The code unit that a word spells.
  function Unit(h: string): (u: nat)
    requires HexWord(h)
    ensures u < 0x1_0000
  {
    HexValue(h[0]) * 4096 + HexValue(h[1]) * 256 + HexValue(h[2]) * 16 + HexValue(h[3])
  }

  function Escapes(ws: seq<string>): string {
    if ws == [] then "" else "\\u" + (ws[0] + Escapes(ws[1..]))
  }

  // Surrogates stand in pairs, the high one first: section 7 of RFC 8259.
  predicate Paired(ws: seq<string>)
    requires HexWords(ws)
  {
    if ws == [] then true
    else if High(Unit(ws[0])) then 1 < |ws| && Low(Unit(ws[1])) && Paired(ws[2..])
    else !Low(Unit(ws[0])) && Paired(ws[1..])
  }

  // The code points that the escapes stand for.
  function CodePoints(ws: seq<string>): seq<nat>
    requires HexWords(ws) && Paired(ws)
  {
    if ws == [] then []
    else if High(Unit(ws[0])) then
      [0x1_0000 + (Unit(ws[0]) - 0xD800) * 0x400 + (Unit(ws[1]) - 0xDC00)] + CodePoints(ws[2..])
    else [Unit(ws[0])] + CodePoints(ws[1..])
  }

  function AllUtf8(cps: seq<nat>): string {
    if cps == [] then "" else Utf8(cps[0]) + AllUtf8(cps[1..])
  }

  // What the decoder makes of any escapes: the unit behind a high surrogate is never looked at closely.
  function Merged(hi: nat, u: nat): (cp: nat)
    ensures 0x1_0000 <= cp <= 0x10ffff
  {
    0x1_0000 + hi % 1024 * 1024 + u % 1024
  }

  function Made(ws: seq<string>): Text
    requires HexWords(ws)
  {
    if ws == [] then Text("")
    else if !High(Unit(ws[0])) then Prepend(Utf8(Unit(ws[0])), Made(ws[1..]))
    else if |ws| == 1 then BadText
    else Prepend(Utf8(Merged(Unit(ws[0]), Unit(ws[1]))), Made(ws[2..]))
  }

  lemma HexWordRead(doc: string, i: nat, end: nat, h: string, more: string)
    requires HexWord(h) && OccursAt(doc, i, "\\u" + (h + more)) && i + 6 <= end <= |doc|
    ensures doc[i] == '\\' && doc[i + 1] == 'u' && UnicodeEscape(doc, i + 2, end) == Point(Unit(h))
    ensures OccursAt(doc, i + 6, more)
  {
    hide OccursAt, IsHex, HexValue;
    OccursSplit(doc, i, "\\u", h + more);
    OccursChar(doc, i, "\\u", 0);
    OccursChar(doc, i, "\\u", 1);
    OccursSplit(doc, i + 2, h, more);
    forall k | 0 <= k < 4 ensures doc[i + 2 + k] == h[k] {
      OccursChar(doc, i + 2, h, k);
    }
    assert doc[i + 2] == h[0] && doc[i + 3] == h[1] && doc[i + 4] == h[2] && doc[i + 5] == h[3];
  }

  lemma {:induction false} EscapesLength(ws: seq<string>)
    requires HexWords(ws)
    ensures |Escapes(ws)| == 6 * |ws|
  {
    if ws != [] {
      EscapesLength(ws[1..]);
    }
  }

  lemma {:induction false} EscapesMade(doc: string, i: nat, ws: seq<string>)
    requires HexWords(ws) && OccursAt(doc, i, Escapes(ws))
    ensures i + 6 * |ws| <= |doc| && DecodeFrom(doc, i, i + 6 * |ws|) == Made(ws)
    decreases |ws|
  {
    hide OccursAt, UnicodeEscape, Utf8, HexWord, Unit;
    EscapesLength(ws);
    OccursWithin(doc, i, Escapes(ws));
    if ws != [] {
      var end, rest := i + 6 * |ws|, ws[1..];
      HexWordRead(doc, i, end, ws[0], Escapes(rest));
      if !High(Unit(ws[0])) {
        EscapesMade(doc, i + 6, rest);
      } else if rest != [] {
        assert ws[2..] == rest[1..];
        HexWordRead(doc, i + 6, end, rest[0], Escapes(rest[1..]));
        EscapesMade(doc, i + 12, ws[2..]);
      }
    }
  }

  lemma PairMerged(hi: nat, lo: nat)
    requires High(hi) && Low(lo)
    ensures Merged(hi, lo) == 0x1_0000 + (hi - 0xD800) * 0x400 + (lo - 0xDC00) && Scalar(Merged(hi, lo))
  {
  }

  lemma AllUtf8First(cp: nat, cps: seq<nat>)
    ensures AllUtf8([cp] + cps) == Utf8(cp) + AllUtf8(cps)
  {
    hide Utf8;
    assert ([cp] + cps)[1..] == cps;
  }

  lemma {:induction false} PairedMade(ws: seq<string>)
    requires HexWords(ws) && Paired(ws)
    ensures Made(ws) == Text(AllUtf8(CodePoints(ws)))
    ensures forall k :: 0 <= k < |CodePoints(ws)| ==> Scalar(CodePoints(ws)[k])
    decreases |ws|
  {
    hide HexWord, Unit, Utf8, AllUtf8, Merged;
    if ws == [] {
      assert AllUtf8([]) == "" by { EmptyUtf8(); }
    } else if High(Unit(ws[0])) {
      PairedMade(ws[2..]);
      PairMerged(Unit(ws[0]), Unit(ws[1]));
      AllUtf8First(Merged(Unit(ws[0]), Unit(ws[1])), CodePoints(ws[2..]));
    } else {
      PairedMade(ws[1..]);
      AllUtf8First(Unit(ws[0]), CodePoints(ws[1..]));
    }
  }

  lemma EmptyUtf8()
    ensures AllUtf8([]) == ""
  {
  }

  // Any string of escapes with surrogates in pairs decodes to the UTF-8 of exactly those code points.
  lemma AllEscapesRead(doc: string, i: nat, ws: seq<string>)
    requires HexWords(ws) && Paired(ws) && OccursAt(doc, i, Escapes(ws))
    ensures i + |Escapes(ws)| <= |doc| && DecodeFrom(doc, i, i + |Escapes(ws)|) == Text(AllUtf8(CodePoints(ws)))
    ensures forall k :: 0 <= k < |CodePoints(ws)| ==> Scalar(CodePoints(ws)[k])
  {
    hide OccursAt, DecodeFrom, HexWord;
    EscapesLength(ws);
    EscapesMade(doc, i, ws);
    PairedMade(ws);
  }

  // The surrogates of a code point beyond the first plane.
  function HighOf(cp: nat): (u: nat)
    requires 0x1_0000 <= cp <= 0x10ffff
    ensures High(u)
  {
    0xD800 + (cp - 0x1_0000) / 1024
  }

  function LowOf(cp: nat): (u: nat)
    requires 0x1_0000 <= cp <= 0x10ffff
    ensures Low(u) && cp == 0x1_0000 + (HighOf(cp) - 0xD800) * 0x400 + (u - 0xDC00)
  {
    0xDC00 + (cp - 0x1_0000) % 1024
  }

  // The escapes of any code points as the writer spells digits, in upper case.
  function Spelled(cps: seq<nat>): seq<string>
    requires forall k :: 0 <= k < |cps| ==> Scalar(cps[k])
  {
    if cps == [] then [] else
    assert Scalar(cps[0]);
    if cps[0] < 0x1_0000 then [Hex4(cps[0])] + Spelled(cps[1..])
    else [Hex4(HighOf(cps[0])), Hex4(LowOf(cps[0]))] + Spelled(cps[1..])
  }

  lemma Hex4IsWord(n: nat)
    requires n < 0x1_0000
    ensures HexWord(Hex4(n)) && Unit(Hex4(n)) == n
  {
    hide IsHex, HexValue, HexDigit;
    HexDigitRead(n / 4096);
    HexDigitRead(n / 256 % 16);
    HexDigitRead(n / 16 % 16);
    HexDigitRead(n % 16);
    FourDigits(n);
  }

  // Every sequence of scalar values can be written so.
  lemma {:induction false} SpelledCodePoints(cps: seq<nat>)
    requires forall k :: 0 <= k < |cps| ==> Scalar(cps[k])
    ensures HexWords(Spelled(cps)) && Paired(Spelled(cps)) && CodePoints(Spelled(cps)) == cps
  {
    hide HexWord, Unit, Hex4, HighOf, LowOf;
    if cps != [] {
      var cp, rest := cps[0], Spelled(cps[1..]);
      SpelledCodePoints(cps[1..]);
      assert cps == [cp] + cps[1..];
      if cp < 0x1_0000 {
        Hex4IsWord(cp);
        assert ([Hex4(cp)] + rest)[1..] == rest;
      } else {
        Hex4IsWord(HighOf(cp));
        Hex4IsWord(LowOf(cp));
        assert ([Hex4(HighOf(cp)), Hex4(LowOf(cp))] + rest)[2..] == rest;
      }
    }
  }

  // ---- which escapes yield well-formed UTF-8 ----

  // The length of a sequence by its first byte.
  function Extent(s: string): nat
    requires s != ""
  {
    if Code(s, 0) < 0x80 then 1 else if Code(s, 0) < 0xE0 then 2 else if Code(s, 0) < 0xF0 then 3 else 4
  }

  // Sequences of scalar values, one behind the other: section 4 of RFC 3629.
  predicate WellFormedUtf8(s: string)
    decreases |s|
  {
    s == "" || (Extent(s) <= |s| && WellFormedOne(s[..Extent(s)]) && WellFormedUtf8(s[Extent(s)..]))
  }

  predicate WellFormedOne(s: string) {
    match Utf8Value(s)
    case NoPoint => false
    case Point(cp) => 0 <= cp && Scalar(cp)
  }

  lemma Utf8Extent(cp: nat, t: string)
    requires cp <= 0x10ffff
    ensures var s := Utf8(cp); s != "" && s + t != "" && Extent(s + t) == |s|
  {
  }

  lemma Utf8First(cp: nat, t: string)
    requires cp <= 0x10ffff
    ensures WellFormedUtf8(Utf8(cp) + t) <==> Scalar(cp) && WellFormedUtf8(t)
  {
    hide Utf8, Utf8Value, Extent;
    var s := Utf8(cp);
    Utf8Extent(cp, t);
    Utf8Correct(cp);
    assert (s + t)[..|s|] == s && (s + t)[|s|..] == t;
  }

  // No low surrogate begins a code point and no high one ends the string.
  predicate Sound(ws: seq<string>)
    requires HexWords(ws)
  {
    if ws == [] then true
    else if High(Unit(ws[0])) then 1 < |ws| && Sound(ws[2..])
    else !Low(Unit(ws[0])) && Sound(ws[1..])
  }

  lemma {:induction false} MadeWellFormed(ws: seq<string>)
    requires HexWords(ws)
    ensures Made(ws).Text? && WellFormedUtf8(Made(ws).s) <==> Sound(ws)
    decreases |ws|
  {
    hide HexWord, Unit, Utf8, Utf8Value;
    if ws != [] {
      var u := Unit(ws[0]);
      if !High(u) {
        MadeWellFormed(ws[1..]);
        if Made(ws[1..]).Text? {
          Utf8First(u, Made(ws[1..]).s);
        }
      } else if 1 < |ws| {
        MadeWellFormed(ws[2..]);
        if Made(ws[2..]).Text? {
          Utf8First(Merged(u, Unit(ws[1])), Made(ws[2..]).s);
        }
      }
    }
  }

  // Escapes decode to well-formed UTF-8 exactly when no low surrogate stands alone and no high one comes last.
  lemma EscapesWellFormedExactly(doc: string, i: nat, ws: seq<string>)
    requires HexWords(ws) && OccursAt(doc, i, Escapes(ws))
    ensures i + |Escapes(ws)| <= |doc|
    ensures var t := DecodeFrom(doc, i, i + |Escapes(ws)|); t.Text? && WellFormedUtf8(t.s) <==> Sound(ws)
  {
    hide OccursAt, DecodeFrom, HexWord;
    EscapesLength(ws);
    EscapesMade(doc, i, ws);
    MadeWellFormed(ws);
  }
}

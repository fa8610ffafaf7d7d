/** The Base64 codec of the XML editor, with its line breaks and its precomputed buffer size. */
module Base64 {
  type byte = x: int | 0 <= x < 256

  // ---- the alphabet ----

  function Symbol(v: nat): char
    requires v < 64
  {
    if v < 26 then 'A' + v as char
    else if v < 52 then 'a' + (v - 26) as char
    else if v < 62 then '0' + (v - 52) as char
    else if v == 62 then '+' else '/'
  }

  // What DecodeBase64 takes a character for; '=' and the characters it does not know count as 0.
  function Value(c: char): (v: nat)
    requires c < 256 as char
    ensures v < 256
  {
    var code := c as int;
    if code > 96 then code - 71
    else if code > 64 then code - 65
    else if code == 61 then 0
    else if code > 47 then code + 4
    else if code == 47 then 63
    else if code == 43 then 62
    else 0
  }

  lemma SymbolValue(v: nat)
    requires v < 64
    ensures Symbol(v) < 256 as char && Value(Symbol(v)) == v && Symbol(v) != '=' && !IsBreak(Symbol(v))
  {
  }

  predicate IsBreak(c: char) { c == '\r' || c == '\n' }

  // ---- EncodeBase64 ----

  function At(b: seq<byte>, i: nat): byte {
    if i < |b| then b[i] else 0
  }

  // Three bytes, missing ones as 0.
  function Pack(b: seq<byte>): (n: nat)
    ensures n < 0x100_0000
  {
    (At(b, 0) * 256 + At(b, 1)) * 256 + At(b, 2)
  }

  function Pad(b: seq<byte>): nat {
    if |b| >= 3 then 0 else 3 - |b|
  }

  // Sixty-four to the power of 3 - j.
  function Weight(j: nat): (w: nat)
    requires j < 4
    ensures 0 < w
  {
    if j == 0 then 262144 else if j == 1 then 4096 else if j == 2 then 64 else 1
  }

  function Digit(b: seq<byte>, j: nat): char
    requires j < 4
  {
    if j < 4 - Pad(b) then Symbol(Pack(b) / Weight(j) % 64) else '='
  }

  function Quad(b: seq<byte>): (q: string)
    ensures |q| == 4
  {
    [Digit(b, 0), Digit(b, 1), Digit(b, 2), Digit(b, 3)]
  }

  // A line ends when it has 64 characters, and behind the padding.
  function Break(b: seq<byte>, off: nat): string {
    if (off + 4) % 66 == 0 || Pad(b) > 0 then "\r\n" else ""
  }

  // The text for b when it starts at offset off of the result.
  function EncodeFrom(b: seq<byte>, off: nat): string
    decreases |b|
  {
    if b == [] then ""
    else
      var e := Quad(b) + Break(b, off);
      e + EncodeFrom(if |b| < 3 then [] else b[3..], off + |e|)
  }

  function Encode(b: seq<byte>): string {
    "\r\n" + EncodeFrom(b, 2)
  }

  function SizeBound(n: nat): nat {
    var len := n + n / 3 + 3;
    len + (len / 64 * 2 + 4)
  }

  // The exact length: g groups of four, a break behind every sixteenth and behind a padded last one.
  function EncodedLength(n: nat): nat {
    var g := (n + 2) / 3;
    2 + 4 * g + 2 * (g / 16) + if n % 3 != 0 && g % 16 != 0 then 2 else 0
  }

  lemma Unfold(b: seq<byte>, off: nat)
    requires b != []
    ensures var e := Quad(b) + Break(b, off);
            EncodeFrom(b, off) == e + EncodeFrom(if |b| < 3 then [] else b[3..], off + |e|)
              && |e| == 4 + |Break(b, off)|
    ensures Break(b, off) == if (off + 4) % 66 == 0 || Pad(b) > 0 then "\r\n" else ""
  {
  }

  // Offset behind `done` whole groups.
  function LineOffset(done: nat): nat {
    2 + 4 * done + 2 * (done / 16)
  }

  lemma {:induction false} EncodeFromLength(b: seq<byte>, done: nat)
    ensures var off := LineOffset(done); var g := done + (|b| + 2) / 3;
            off + |EncodeFrom(b, off)| == LineOffset(g) + if |b| % 3 != 0 && g % 16 != 0 then 2 else 0
    decreases |b|
  {
    hide Quad, Break, EncodeFrom, LineOffset;
    var off := LineOffset(done);
    GroupCount(|b|);
    if b == [] {
      assert EncodeFrom(b, off) == "" by { NothingLeft(off); }
    } else {
      LineEnds(done);
      Unfold(b, off);
      if |b| < 3 {
        NothingLeft(off + |Quad(b) + Break(b, off)|);
      } else {
        EncodeFromLength(b[3..], done + 1);
      }
    }
  }

  lemma GroupCount(n: nat)
    ensures 3 <= n ==> (n + 2) / 3 == 1 + (n - 3 + 2) / 3 && n % 3 == (n - 3) % 3
    ensures 0 < n < 3 ==> (n + 2) / 3 == 1 && n % 3 != 0
    ensures n == 0 ==> (n + 2) / 3 == 0 && n % 3 == 0
  {
  }

  lemma NothingLeft(off: nat)
    ensures EncodeFrom([], off) == ""
  {
  }

  lemma LineEnds(done: nat)
    ensures (LineOffset(done) + 4) % 66 == 0 <==> (done + 1) % 16 == 0
    ensures LineOffset(done + 1) == LineOffset(done) + 4 + if (done + 1) % 16 == 0 then 2 else 0
  {
    var q, r := done / 16, done % 16;
    assert LineOffset(done) + 4 == 66 * q + (4 * r + 6);
    WholeLines(q, 4 * r + 6);
    NextOf16(done);
  }

  lemma WholeLines(q: nat, x: nat)
    requires 0 < x <= 66
    ensures (66 * q + x) % 66 == 0 <==> x == 66
  {
    assert x == 66 ==> 66 * q + x == 66 * (q + 1);
    assert x < 66 ==> (66 * q + x) / 66 == q;
  }

  lemma NextOf16(done: nat)
    ensures (done + 1) % 16 == 0 <==> done % 16 == 15
    ensures (done + 1) / 16 == done / 16 + if done % 16 == 15 then 1 else 0
  {
  }

  // EncodeBase64 stays within the size it reserves, and fills it exactly for a last group of one byte
  // unless a full line ends there.
  lemma EncodedSize(b: seq<byte>)
    ensures |Encode(b)| == EncodedLength(|b|) <= SizeBound(|b|)
    ensures |Encode(b)| == SizeBound(|b|) <==> |b| % 3 == 1 && (|b| + 2) / 3 % 16 != 0
  {
    hide EncodeFrom, EncodedLength, SizeBound;
    EncodeFromLength(b, 0);
    LengthAndBound(|b|);
  }

  lemma LengthAndBound(n: nat)
    ensures var g := (n + 2) / 3;
            EncodedLength(n) == LineOffset(g) + if n % 3 != 0 && g % 16 != 0 then 2 else 0
    ensures EncodedLength(n) <= SizeBound(n)
    ensures EncodedLength(n) == SizeBound(n) <==> n % 3 == 1 && (n + 2) / 3 % 16 != 0
  {
    var k, r := n / 3, n % 3;
    var g := (n + 2) / 3;
    assert g == if r == 0 then k else k + 1;
    assert n + n / 3 + 3 == 4 * k + r + 3;
    if r == 0 {
      assert (4 * k + 3) / 64 == g / 16;
    } else if r == 1 {
      assert (4 * k + 4) / 64 == g / 16;
    } else {
      assert (4 * k + 5) / 64 >= g / 16;
    }
  }

  method EncodeBase64(b: seq<byte>) returns (r: string)
    ensures r == Encode(b)
  {
    hide EncodeFrom, Quad, Break, Pack, Pad, SizeBound, EncodedLength;
    EncodedSize(b);
    var len := SizeBound(|b|);
    var buf := new char[len](_ => '\0');
    var off := WriteBreak(buf, 0);
    var i := 0;
    assert buf[..off] == "\r\n";
    while i < |b|
      invariant 0 <= i <= |b| && 2 <= off <= len && buf.Length == len
      invariant buf[..off] + EncodeFrom(b[i..], off) == Encode(b)
      decreases |b| - i
    {
      ghost var rest, was := b[i..], buf[..off];
      Unfold(rest, off);
      var bytes, pad;
      i, bytes, pad := TakeThree(b, i);
      WriteQuad(buf, off, bytes, pad, rest);
      off := off + 4;
      if off % 66 == 0 || pad != 0 {
        off := WriteBreak(buf, off);
      }
      Regroup(was, Quad(rest), Break(rest, |was|), EncodeFrom(b[i..], off));
    }
    NothingLeft(off);
    assert b[i..] == [];
    r := buf[..off];
  }

  lemma Regroup(a: string, b: string, c: string, d: string)
    ensures a + (b + c + d) == a + b + c + d
  {
  }

  method WriteBreak(buf: array<char>, off: nat) returns (next: nat)
    requires off + 2 <= buf.Length
    modifies buf
    ensures next == off + 2 && buf[..next] == old(buf[..off]) + "\r\n"
  {
    next := off;
    buf[next] := '\r';
    next := next + 1;
    buf[next] := '\n';
    next := next + 1;
  }

  method TakeThree(b: seq<byte>, from: nat) returns (i: nat, bytes: nat, pad: nat)
    requires from < |b|
    ensures from < i <= |b| && b[i..] == if |b[from..]| < 3 then [] else b[from..][3..]
    ensures bytes == Pack(b[from..]) && pad == Pad(b[from..])
  {
    i, bytes, pad := from, 0, 0;
    bytes := b[i];
    i := i + 1;
    bytes := bytes * 256;
    if i < |b| {
      bytes := bytes + b[i];
      i := i + 1;
    } else {
      pad := pad + 1;
    }
    bytes := bytes * 256;
    if i < |b| {
      bytes := bytes + b[i];
      i := i + 1;
    } else {
      pad := pad + 1;
    }
  }

  // The four characters, last one first.
  method WriteQuad(buf: array<char>, off: nat, bytes: nat, pad: nat, ghost b: seq<byte>)
    requires off + 4 <= buf.Length && b != [] && bytes == Pack(b) && pad == Pad(b)
    modifies buf
    ensures buf[..off + 4] == old(buf[..off]) + Quad(b)
    ensures forall k :: off + 4 <= k < buf.Length ==> buf[k] == old(buf[k])
  {
    var top, n := off + 4, bytes;
    while top != off
      invariant off <= top <= off + 4
      invariant n == (if top == off then 0 else if top == off + 4 then bytes else bytes / Weight(top - 1 - off))
      invariant forall k :: 0 <= k < off || off + 4 <= k < buf.Length ==> buf[k] == old(buf[k])
      invariant forall k :: top <= k < off + 4 ==> buf[k] == Digit(b, k - off)
      decreases top
    {
      top := top - 1;
      if pad == 0 || top < off + 4 - pad {
        buf[top] := Symbol(n % 64);
      } else {
        buf[top] := '=';
      }
      n := n / 64;
    }
  }

  // ---- DecodeBase64 ----

  // Bitwise or of two numbers below four.
  function Or2(x: nat, y: nat): (z: nat)
    requires x < 4 && y < 4
    ensures z < 4
  {
    (if x >= 2 || y >= 2 then 2 else 0) + (if x % 2 == 1 || y % 2 == 1 then 1 else 0)
  }

  // n shifted up by six bits, or v: v reaches into the two lowest bits of n.
  function ShiftIn(n: nat, v: nat): nat
    requires v < 256
  {
    n / 4 * 256 + Or2(n % 4, v / 64) * 64 + v % 64
  }

  lemma ShiftInDigit(n: nat, v: nat)
    requires v < 64
    ensures ShiftIn(n, v) == n * 64 + v
  {
  }

  predicate ByteString(s: string) { forall i :: 0 <= i < |s| ==> s[i] < 256 as char }

  // The characters that count.
  function Kept(s: string): string {
    if s == "" then "" else (if IsBreak(s[0]) then "" else [s[0]]) + Kept(s[1..])
  }

  function QuadValue(k: string): nat
    requires ByteString(k)
  {
    if k == "" then 0 else ShiftIn(QuadValue(k[..|k| - 1]), Value(k[|k| - 1]))
  }

  function Pads(k: string): nat {
    if k == "" then 0 else Pads(k[..|k| - 1]) + if k[|k| - 1] == '=' then 1 else 0
  }

  function Byte(n: nat, j: nat): byte
    requires j < 3
  {
    (if j == 0 then n / 65536 else if j == 1 then n / 256 else n) % 256
  }

  // The bytes of one group, less the padding so far.
  function Group(n: nat, pad: nat): (g: seq<byte>)
    ensures |g| == if pad < 3 then 3 - pad else 0
  {
    [Byte(n, 0), Byte(n, 1), Byte(n, 2)][..if pad < 3 then 3 - pad else 0]
  }

  // The bytes in the kept characters k, when `pad` padding characters have been seen before.
  function Decoded(k: string, pad: nat): seq<byte>
    requires ByteString(k)
  {
    if |k| < 4 then [] else
    var p := pad + Pads(k[..4]);
    Group(QuadValue(k[..4]), p) + Decoded(k[4..], p)
  }

  // The offset in the buffer afterwards.
  function Total(k: string, pad: nat, off: int): int {
    if |k| < 4 then off else
    var p := pad + Pads(k[..4]);
    Total(k[4..], p, off + 3 - p)
  }

  predicate Fits(k: string, pad: nat, off: int, len: nat) {
    |k| < 4 || (var p := pad + Pads(k[..4]); off + 3 - p <= len && Fits(k[4..], p, off + 3 - p, len))
  }

  lemma {:induction false} KeptBytes(s: string)
    requires ByteString(s)
    ensures ByteString(Kept(s)) && |Kept(s)| <= |s|
  {
    if s != "" {
      KeptBytes(s[1..]);
    }
  }

  lemma {:induction false} KeptTail(s: string, i: nat)
    requires i < |s|
    ensures Kept(s[i..]) == (if IsBreak(s[i]) then "" else [s[i]]) + Kept(s[i + 1..])
  {
    assert s[i..][1..] == s[i + 1..];
  }

  // The next four characters that count, or as many as there are.
  method TakeQuad(s: string, from: nat) returns (i: nat, count: nat, n: nat, pads: nat)
    requires ByteString(s) && from < |s|
    ensures from < i <= |s| && ByteString(Kept(s[from..])) && count <= 4
    ensures var k := Kept(s[from..]);
            if count == 4 then 4 <= |k| && Kept(s[i..]) == k[4..] && n == QuadValue(k[..4]) && pads == Pads(k[..4])
            else |k| < 4 && i == |s|
  {
    hide ShiftIn, Value, QuadValue, Pads, Kept;
    ghost var k := Kept(s[from..]);
    KeptBytes(s[from..]);
    NoDigits();
    i, count, n, pads := from, 0, 0, 0;
    assert k[..0] == "";
    while count != 4 && i < |s|
      invariant from <= i <= |s| && count <= 4 && count <= |k| && (i == from ==> count == 0)
      invariant k[count..] == Kept(s[i..])
      invariant n == QuadValue(k[..count]) && pads == Pads(k[..count])
      decreases |s| - i
    {
      var c := s[i];
      KeptTail(s, i);
      i := i + 1;
      if !IsBreak(c) {
        assert k[count..][0] == c && k[count..][1..] == k[count + 1..];
        NextDigit(k, count);
        n := ShiftIn(n, Value(c));
        pads := pads + if c == '=' then 1 else 0;
        count := count + 1;
      }
    }
    if count != 4 {
      assert s[i..] == "";
    }
  }

  lemma NoDigits()
    ensures QuadValue("") == 0 && Pads("") == 0 && Kept("") == "" && ByteString("")
  {
  }

  lemma NextDigit(k: string, j: nat)
    requires j < |k| && ByteString(k)
    ensures QuadValue(k[..j + 1]) == ShiftIn(QuadValue(k[..j]), Value(k[j]))
    ensures Pads(k[..j + 1]) == Pads(k[..j]) + if k[j] == '=' then 1 else 0
  {
    assert k[..j + 1][..j] == k[..j];
  }

  // The bytes of one group, last one first; those that the padding stands for are not written.
  method WriteGroup(buf: array<byte>, off: nat, bytes: nat, pad: nat)
    requires pad < 3 && off + 3 - pad <= buf.Length
    modifies buf
    ensures buf[..off + 3 - pad] == old(buf[..off]) + Group(bytes, pad)
    ensures buf[off + 3 - pad..] == old(buf[off + 3 - pad..])
  {
    var top, n := off + 3, bytes;
    while top != off
      invariant off <= top <= off + 3
      invariant top != off ==> n == if top == off + 3 then bytes else if top == off + 2 then bytes / 256
                  else bytes / 65536
      invariant forall k :: 0 <= k < off || off + 3 - pad <= k < buf.Length ==> buf[k] == old(buf[k])
      invariant forall k :: top <= k < off + 3 - pad ==> buf[k] == Byte(bytes, k - off)
      decreases top
    {
      top := top - 1;
      if pad == 0 || top < off + 3 - pad {
        buf[top] := n % 256;
      }
      n := n / 256;
    }
    assert old(buf[..off]) + Group(bytes, pad) == buf[..off + 3 - pad];
  }

  // The bytes of a group, none when the padding takes them all.
  method StoreGroup(buf: array<byte>, off: int, bytes: nat, pad: nat, ghost done: seq<byte>, ghost was: seq<byte>)
    requires |was| == buf.Length && |done| <= buf.Length && buf[..] == done + was[|done|..]
    requires off + 3 - pad <= buf.Length && (pad <= 3 ==> off == |done|)
    modifies buf
    ensures |done + Group(bytes, pad)| <= buf.Length
            && buf[..] == done + Group(bytes, pad) + was[|done + Group(bytes, pad)|..]
  {
    hide Group;
    if pad < 3 {
      WriteGroup(buf, off, bytes, pad);
      assert buf[..] == buf[..off + 3 - pad] + buf[off + 3 - pad..];
    }
  }

  lemma Associate(a: seq<byte>, b: seq<byte>, c: seq<byte>)
    ensures a + (b + c) == a + b + c
  {
  }

  lemma DecodeStep(k: string, pad: nat, off: int, len: nat)
    requires ByteString(k)
    ensures |k| < 4 ==> Decoded(k, pad) == [] && Total(k, pad, off) == off && Fits(k, pad, off, len)
    ensures 4 <= |k| ==>
              && ByteString(k[..4]) && ByteString(k[4..])
              && var p := pad + Pads(k[..4]);
              && Decoded(k, pad) == Group(QuadValue(k[..4]), p) + Decoded(k[4..], p)
              && Total(k, pad, off) == Total(k[4..], p, off + 3 - p)
              && (Fits(k, pad, off, len) <==> off + 3 - p <= len && Fits(k[4..], p, off + 3 - p, len))
  {
    hide QuadValue, Pads, Group;
  }

  method DecodeBase64(s: string, buf: array<byte>) returns (r: int)
    requires ByteString(s)
    modifies buf
    ensures ByteString(Kept(s))
    ensures buf.Length == 0 ==> r == |s| / 4 * 3 + 3
    ensures var d := Decoded(Kept(s), 0);
            0 < buf.Length ==>
              if Fits(Kept(s), 0, 0, buf.Length) then
                r == Total(Kept(s), 0, 0) && |d| <= buf.Length && buf[..|d|] == d && buf[|d|..] == old(buf[|d|..])
              else r == 0
  {
    hide QuadValue, Pads, Group, Decoded, Total, Fits, Kept, ByteString;
    KeptBytes(s);
    if buf.Length == 0 {
      return |s| / 4 * 3 + 3;
    }
    var i, off: int, pad: nat := 0, 0, 0;
    ghost var done: seq<byte>, was := [], buf[..];
    assert s[0..] == s;
    while i < |s|
      invariant 0 <= i <= |s| && (pad <= 3 ==> off == |done|) && |done| <= buf.Length
      invariant ByteString(Kept(s[i..])) && done + Decoded(Kept(s[i..]), pad) == Decoded(Kept(s), 0)
      invariant Total(Kept(s[i..]), pad, off) == Total(Kept(s), 0, 0)
      invariant Fits(Kept(s[i..]), pad, off, buf.Length) == Fits(Kept(s), 0, 0, buf.Length)
      invariant buf[..] == done + was[|done|..]
      decreases |s| - i
    {
      DecodeStep(Kept(s[i..]), pad, off, buf.Length);
      ghost var k := Kept(s[i..]);
      var count, n, more;
      i, count, n, more := TakeQuad(s, i);
      pad := pad + more;
      if count == 4 {
        if off + 3 - pad > buf.Length {
          return 0;
        }
        StoreGroup(buf, off, n, pad, done, was);
        Associate(done, Group(n, pad), Decoded(k[4..], pad));
        done := done + Group(n, pad);
        off := off + 3 - pad;
      } else {
        assert s[i..] == "";
        NoDigits();
        DecodeStep("", pad, off, buf.Length);
      }
    }
    assert s[i..] == "";
    NoDigits();
    DecodeStep("", pad, off, buf.Length);
    r := off;
  }

  // ---- round trip ----

  function Quads(b: seq<byte>): string
    decreases |b|
  {
    if b == [] then "" else Quad(b) + Quads(if |b| < 3 then [] else b[3..])
  }

  function KeptChar(c: char): string {
    if IsBreak(c) then "" else [c]
  }

  lemma KeptFirst(s: string)
    requires s != ""
    ensures Kept(s) == KeptChar(s[0]) + Kept(s[1..])
  {
  }

  lemma {:induction false} KeptConcat(s: string, t: string)
    ensures Kept(s + t) == Kept(s) + Kept(t)
    decreases |s|
  {
    hide Kept, KeptChar;
    if s == "" {
      KeptNothing();
      assert s + t == t;
    } else {
      KeptFirst(s);
      KeptFirst(s + t);
      assert (s + t)[1..] == s[1..] + t;
      KeptConcat(s[1..], t);
    }
  }

  lemma KeptNothing()
    ensures Kept("") == ""
  {
  }

  lemma DigitKept(b: seq<byte>, j: nat)
    requires j < 4
    ensures !IsBreak(Digit(b, j)) && Digit(b, j) < 256 as char
    ensures Digit(b, j) == '=' <==> 4 - Pad(b) <= j
    ensures Value(Digit(b, j)) == if j < 4 - Pad(b) then Pack(b) / Weight(j) % 64 else 0
  {
    SymbolValue(Pack(b) / Weight(j) % 64);
  }

  lemma QuadKept(b: seq<byte>)
    ensures Kept(Quad(b)) == Quad(b) && ByteString(Quad(b))
  {
    hide Digit;
    DigitKept(b, 0);
    DigitKept(b, 1);
    DigitKept(b, 2);
    DigitKept(b, 3);
    var q := Quad(b);
    KeptTail(q, 0);
    KeptTail(q, 1);
    KeptTail(q, 2);
    KeptTail(q, 3);
    assert q[0..] == q && q[4..] == "";
  }

  lemma {:induction false} KeptEncoded(b: seq<byte>, off: nat)
    ensures Kept(EncodeFrom(b, off)) == Quads(b)
    decreases |b|
  {
    hide Quad, Break, EncodeFrom, Kept;
    if b == [] {
      NothingLeft(off);
      NoDigits();
    } else {
      Unfold(b, off);
      var e := Quad(b) + Break(b, off);
      var rest := if |b| < 3 then [] else b[3..];
      KeptConcat(e, EncodeFrom(rest, off + |e|));
      KeptConcat(Quad(b), Break(b, off));
      QuadKept(b);
      BreakKept();
      KeptEncoded(rest, off + |e|);
    }
  }

  lemma BreakKept()
    ensures Kept("\r\n") == "" && Kept("") == ""
  {
    KeptTail("\r\n", 0);
    KeptTail("\r\n", 1);
    assert "\r\n"[0..] == "\r\n" && "\r\n"[2..] == "";
  }

  // The padding digits of Pack are 0, so '=' loses nothing.
  lemma PackDigits(b: seq<byte>)
    requires b != []
    ensures var n := Pack(b);
            && n / Weight(0) % 64 * 262144 + n / Weight(1) % 64 * 4096 + n / Weight(2) % 64 * 64 + n / Weight(3) % 64
                == n
            && (Pad(b) >= 1 ==> n / Weight(3) % 64 == 0) && (Pad(b) >= 2 ==> n / Weight(2) % 64 == 0)
  {
    Sextets(Pack(b));
    if |b| < 3 {
      SixZeros((At(b, 0) * 256 + At(b, 1)) * 4, Pack(b));
      if |b| < 2 {
        SixZeros(At(b, 0) * 16, Pack(b) / 64);
      }
    }
  }

  lemma SixZeros(k: nat, n: nat)
    requires n == 64 * k
    ensures n % 64 == 0 && n / 64 == k
  {
  }

  lemma Sextets(n: nat)
    requires n < 0x100_0000
    ensures n / 262144 % 64 * 262144 + n / 4096 % 64 * 4096 + n / 64 % 64 * 64 + n / 1 % 64 == n
  {
    var q := n / 64;
    var p := q / 64;
    DivTwice(n, 64);
    DivTwice(q, 64);
    assert p / 64 < 64;
  }

  lemma DivTwice(n: nat, m: nat)
    requires m == 64
    ensures n / m / 64 == n / 4096 && n / m / 64 / 64 == n / 262144
  {
  }

  lemma QuadRead(b: seq<byte>)
    requires b != []
    ensures ByteString(Quad(b)) && QuadValue(Quad(b)) == Pack(b) && Pads(Quad(b)) == Pad(b)
  {
    hide Digit, Weight, Pack;
    QuadKept(b);
    PackDigits(b);
    var q := Quad(b);
    assert q[..0] == "" && q[..4] == q;
    NoDigits();
    var v := seq(4, j requires 0 <= j < 4 => Pack(b) / Weight(j) % 64);
    ReadDigit(b, 0);
    ReadDigit(b, 1);
    ReadDigit(b, 2);
    ReadDigit(b, 3);
  }

  lemma ReadDigit(b: seq<byte>, j: nat)
    requires b != [] && j < 4 && ByteString(Quad(b))
    ensures QuadValue(Quad(b)[..j + 1]) == QuadValue(Quad(b)[..j]) * 64 + Pack(b) / Weight(j) % 64
    ensures Pads(Quad(b)[..j + 1]) == Pads(Quad(b)[..j]) + if 4 - Pad(b) <= j then 1 else 0
  {
    hide Digit, Weight, Pack, ShiftIn, QuadValue, Pads, Value;
    NextDigit(Quad(b), j);
    DigitKept(b, j);
    PackDigits(b);
    WeightOf(j);
    assert Quad(b)[j] == Digit(b, j);
    ShiftInDigit(QuadValue(Quad(b)[..j]), Pack(b) / Weight(j) % 64);
  }

  lemma WeightOf(j: nat)
    requires j < 4
    ensures j == 2 ==> Weight(j) == Weight(2)
    ensures j == 3 ==> Weight(j) == Weight(3)
  {
  }

  lemma GroupRead(b: seq<byte>)
    requires b != []
    ensures Group(Pack(b), Pad(b)) == if |b| < 3 then b else b[..3]
  {
    var n := Pack(b);
    assert n / 256 == At(b, 0) * 256 + At(b, 1) && n / 65536 == At(b, 0);
    assert Byte(n, 0) == At(b, 0) && Byte(n, 1) == At(b, 1) && Byte(n, 2) == At(b, 2);
  }

  lemma {:induction false} QuadsRead(b: seq<byte>, off: nat, len: nat)
    ensures ByteString(Quads(b)) && Decoded(Quads(b), 0) == b && Total(Quads(b), 0, off) == off + |b|
    ensures off <= len ==> (Fits(Quads(b), 0, off, len) <==> off + |b| <= len)
    decreases |b|
  {
    hide Quad, QuadValue, Pads, Group, Pack;
    if b != [] {
      var rest := if |b| < 3 then [] else b[3..];
      QuadsRead(rest, off + 3 - Pad(b), len);
      QuadRead(b);
      GroupRead(b);
      assert Quads(b)[..4] == Quad(b) && Quads(b)[4..] == Quads(rest);
      if |b| < 3 {
        assert Quads(rest) == "";
      }
    }
  }

  // Decoding what was encoded gives the bytes back, in any buffer that can hold them, and the size that
  // DecodeBase64 asks for when it is given no buffer is such a size.
  lemma DecodeInvertsEncode(b: seq<byte>, len: nat)
    ensures var k := Kept(Encode(b));
            && ByteString(k) && Decoded(k, 0) == b && Total(k, 0, 0) == |b|
            && (Fits(k, 0, 0, len) <==> |b| <= len)
    ensures |b| <= |Encode(b)| / 4 * 3 + 3
  {
    hide EncodeFrom, Quads, Decoded, Total, Fits;
    KeptConcat("\r\n", EncodeFrom(b, 2));
    BreakKept();
    KeptEncoded(b, 2);
    assert "" + Quads(b) == Quads(b);
    QuadsRead(b, 0, len);
    EncodedSize(b);
  }

  // ---- the text by Table 1 of RFC 4648 ----

  // The value that a character of the alphabet stands for.
  function StandsFor(c: char): int {
    if 'A' <= c <= 'Z' then c as int - 'A' as int
    else if 'a' <= c <= 'z' then c as int - 'a' as int + 26
    else if '0' <= c <= '9' then c as int - '0' as int + 52
    else if c == '+' then 62
    else if c == '/' then 63
    else -1
  }

  // Four characters for up to three bytes: one more than bytes, then the padding; together they make the 24 bits of
  // the bytes, missing ones being 0.
  predicate IsGroup(q: string, b: seq<byte>) {
    && |q| == 4 && 0 < |b|
    && (forall j :: 0 <= j < 4 ==> if j <= |b| then StandsFor(q[j]) >= 0 else q[j] == '=')
    && var v := (j: int) => if 0 <= j < 4 && j <= |b| then StandsFor(q[j]) else 0;
       var first: int, second: int, third: int := b[0], if 1 < |b| then b[1] else 0, if 2 < |b| then b[2] else 0;
       v(0) * 262144 + v(1) * 4096 + v(2) * 64 + v(3) == first * 65536 + second * 256 + third
  }

  // One group for every three bytes, the last one for what is left.
  predicate IsGroups(k: string, b: seq<byte>)
    decreases |b|
  {
    if b == [] then k == ""
    else 4 <= |k| && IsGroup(k[..4], b) && IsGroups(k[4..], if |b| < 3 then [] else b[3..])
  }

  function Bare(s: string): string {
    if s == "" then "" else (if s[0] == '\r' || s[0] == '\n' then "" else [s[0]]) + Bare(s[1..])
  }

  lemma {:induction false} BareIsKept(s: string)
    ensures Bare(s) == Kept(s)
  {
    if s != "" {
      BareIsKept(s[1..]);
    }
  }

  lemma SymbolStands(v: nat)
    requires v < 64
    ensures StandsFor(Symbol(v)) == v && Symbol(v) != '='
  {
  }

  lemma SameStands(c: char, d: char)
    requires StandsFor(c) == StandsFor(d) >= 0
    ensures c == d
  {
  }

  lemma QuadIsGroup(b: seq<byte>)
    requires b != []
    ensures IsGroup(Quad(b), b)
  {
    hide Weight, Symbol, StandsFor;
    PackDigits(b);
    forall j | 0 <= j < 4 ensures StandsFor(Symbol(Pack(b) / Weight(j) % 64)) == Pack(b) / Weight(j) % 64 {
      SymbolStands(Pack(b) / Weight(j) % 64);
    }
  }

  // The digits of a number to the base 64 are unique.
  lemma UniqueDigits(a: nat, b: nat, c: nat, d: nat, w: nat, x: nat, y: nat, z: nat)
    requires a < 64 && b < 64 && c < 64 && d < 64 && w < 64 && x < 64 && y < 64 && z < 64
    requires a * 262144 + b * 4096 + c * 64 + d == w * 262144 + x * 4096 + y * 64 + z
    ensures a == w && b == x && c == y && d == z
  {
  }

  lemma OneGroup(q: string, r: string, b: seq<byte>)
    requires IsGroup(q, b) && IsGroup(r, b)
    ensures q == r
  {
    hide StandsFor;
    var v := (s: string, j: int) => if 0 <= j < 4 && j < |s| && j <= |b| then StandsFor(s[j]) else 0;
    forall c ensures StandsFor(c) < 64 {
      StandsBelow(c);
    }
    UniqueDigits(v(q, 0), v(q, 1), v(q, 2), v(q, 3), v(r, 0), v(r, 1), v(r, 2), v(r, 3));
    forall j | 0 <= j < 4 ensures q[j] == r[j] {
      assert v(q, j) == v(r, j);
      if j <= |b| {
        SameStands(q[j], r[j]);
      }
    }
  }

  lemma StandsBelow(c: char)
    ensures StandsFor(c) < 64
  {
  }

  lemma {:induction false} GroupsAreQuads(k: string, b: seq<byte>)
    ensures IsGroups(k, b) <==> k == Quads(b)
    decreases |b|
  {
    hide IsGroup, Quad;
    if b != [] {
      var rest := if |b| < 3 then [] else b[3..];
      QuadIsGroup(b);
      GroupsAreQuads(Quads(rest), rest);
      assert Quads(b)[..4] == Quad(b) && Quads(b)[4..] == Quads(rest);
      if IsGroups(k, b) {
        OneGroup(k[..4], Quad(b), b);
        GroupsAreQuads(k[4..], rest);
        assert k == k[..4] + k[4..];
      }
    }
  }

  // The encoded text without its line breaks is the one made of groups by the table, and any such text, with line
  // breaks anywhere, is decoded to the bytes.
  lemma ByTheTable(b: seq<byte>, s: string, len: nat)
    ensures IsGroups(Bare(Encode(b)), b)
    ensures IsGroups(Bare(s), b) ==>
              ByteString(Kept(s)) && Decoded(Kept(s), 0) == b && (Fits(Kept(s), 0, 0, len) <==> |b| <= len)
  {
    hide EncodeFrom, Quads, Decoded, Fits, IsGroups;
    BareIsKept(Encode(b));
    BareIsKept(s);
    KeptConcat("\r\n", EncodeFrom(b, 2));
    BreakKept();
    KeptEncoded(b, 2);
    assert "" + Quads(b) == Quads(b);
    GroupsAreQuads(Quads(b), b);
    GroupsAreQuads(Kept(s), b);
    QuadsRead(b, 0, len);
  }

  // ---- where the lines break ----

  lemma QuadPlain(b: seq<byte>, j: nat)
    requires j < 4
    ensures Quad(b)[j] != '\r' && Quad(b)[j] != '\n'
  {
    hide Digit;
    DigitKept(b, j);
    assert Quad(b)[j] == if j == 0 then Digit(b, 0) else if j == 1 then Digit(b, 1) else if j == 2 then Digit(b, 2)
                         else Digit(b, 3);
  }

  // A break stands at position p of the text, or begins its last two characters behind padding.
  predicate BreakAt(p: nat, end: nat, n: nat) { p % 66 == 0 || (p + 2 == end && n % 3 != 0) }

  lemma {:induction false} BreaksFrom(b: seq<byte>, off: nat, q: nat)
    requires off % 66 % 4 == 2 && off % 66 <= 62 && q < |EncodeFrom(b, off)|
    ensures var e := EncodeFrom(b, off); var end := off + |e|;
            && (e[q] == '\r' <==> BreakAt(off + q, end, |b|))
            && (e[q] == '\n' <==> 0 < off + q && BreakAt(off + q - 1, end, |b|))
    decreases |b|
  {
    hide Quad, Break, EncodeFrom;
    if b == [] {
      NothingLeft(off);
    } else {
      Unfold(b, off);
      var h := Quad(b) + Break(b, off);
      var rest := if |b| < 3 then [] else b[3..];
      var tail := EncodeFrom(rest, off + |h|);
      NextLine(off);
      LastGroup(b, off);
      if |h| <= q {
        GroupCount(|b|);
        BreaksFrom(rest, off + |h|, q - |h|);
        assert EncodeFrom(b, off)[q] == tail[q - |h|];
      } else {
        assert EncodeFrom(b, off)[q] == h[q];
        if q < 4 {
          QuadPlain(b, q);
          assert h[q] == Quad(b)[q];
        }
      }
    }
  }

  lemma NextLine(off: nat)
    requires off % 66 % 4 == 2 && off % 66 <= 62
    ensures (off + 4) % 66 == 0 <==> off % 66 == 62
    ensures off % 66 == 62 ==> (off + 5) % 66 == 1 && (off + 6) % 66 == 2
    ensures off % 66 != 62 ==> (off + 4) % 66 == off % 66 + 4 && (off + 5) % 66 == off % 66 + 5
    ensures (off + 1) % 66 == off % 66 + 1 && (off + 2) % 66 == off % 66 + 2 && (off + 3) % 66 == off % 66 + 3
    ensures 0 < off && (off - 1) % 66 == off % 66 - 1
  {
    var k, r := off / 66, off % 66;
    assert off == 66 * k + r;
    RestOf(k, r - 1);
    RestOf(k, r + 1);
    RestOf(k, r + 2);
    RestOf(k, r + 3);
    if r == 62 {
      assert off + 4 == 66 * (k + 1) && off + 5 == 66 * (k + 1) + 1 && off + 6 == 66 * (k + 1) + 2;
      RestOf(k + 1, 0);
      RestOf(k + 1, 1);
      RestOf(k + 1, 2);
    } else {
      RestOf(k, r + 4);
      RestOf(k, r + 5);
    }
  }

  lemma RestOf(k: nat, x: nat)
    requires x < 66
    ensures (66 * k + x) % 66 == x
  {
  }

  // How the text goes on behind a group.
  lemma LastGroup(b: seq<byte>, off: nat)
    requires b != []
    ensures var e := EncodeFrom(b, off); var h := Quad(b) + Break(b, off);
            && |h| <= |e| && (|b| < 3 ==> |e| == |h| == 6)
            && (|b| == 3 ==> |e| == |h|) && (|b| > 3 ==> |h| + 4 <= |e|) && (|h| == 6 <==> Break(b, off) == "\r\n")
  {
    hide Quad, EncodeFrom;
    Unfold(b, off);
    var h := Quad(b) + Break(b, off);
    if |b| <= 3 {
      NothingLeft(off + |h|);
      assert |b| == 3 ==> b[3..] == [];
    } else {
      Unfold(b[3..], off + |h|);
    }
  }

  // Every line has 64 characters but for the last one: a break begins at the multiples of 66, and behind padding.
  lemma BreaksPlaced(b: seq<byte>, p: nat)
    requires p < |Encode(b)|
    ensures var e := Encode(b);
            && (e[p] == '\r' <==> BreakAt(p, |e|, |b|)) && (e[p] == '\n' <==> 0 < p && BreakAt(p - 1, |e|, |b|))
  {
    hide EncodeFrom;
    if p >= 2 {
      BreaksFrom(b, 2, p - 2);
    } else if b != [] {
      LastGroup(b, 2);
    }
  }
}

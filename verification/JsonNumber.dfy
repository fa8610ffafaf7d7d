/** Integers as text: the backward printing of the writers and the threshold loop of the reader. */
module JsonNumber {
  import opened JsonValue

  const WIDTH := 0x1_0000_0000_0000_0000
  const MAX_UINT := WIDTH - 1
  const MAX_INT := 0x7fff_ffff
  const MIN_MAGNITUDE := 0x8000_0000_0000_0000
  const BUFFER_SIZE := 3 * 8 + 1

  predicate IsDigit(c: char) { '0' <= c <= '9' }

  function DigitValue(c: char): (d: nat)
    requires IsDigit(c)
    ensures d < 10
  {
    c as int - '0' as int
  }

  function DigitChar(d: nat): (c: char)
    requires d < 10
    ensures IsDigit(c) && DigitValue(c) == d
  {
    '0' + d as char
  }

  // The digits by their place.
  lemma DigitByPlace(d: nat)
    requires d < 10
    ensures "0123456789"[d] == DigitChar(d) && DigitValue(DigitChar(d)) == d
  {
    if d < 5 {
      assert d == 0 || d == 1 || d == 2 || d == 3 || d == 4;
    } else {
      assert d == 5 || d == 6 || d == 7 || d == 8 || d == 9;
    }
  }

  predicate AllDigits(s: string) { forall i :: 0 <= i < |s| ==> IsDigit(s[i]) }

  // ---- decimal notation ----

  function Digits(n: nat): (s: string)
    ensures s != "" && AllDigits(s)
  {
    if n < 10 then [DigitChar(n)] else Digits(n / 10) + [DigitChar(n % 10)]
  }

  // The number that a digit string denotes.
  function Decimal(s: string): nat
    requires AllDigits(s)
  {
    if s == "" then 0 else Decimal(s[..|s| - 1]) * 10 + DigitValue(s[|s| - 1])
  }

  lemma {:induction false} DecimalOfDigits(n: nat)
    ensures Decimal(Digits(n)) == n
  {
    var s := Digits(n);
    if n < 10 {
      assert s[..0] == "";
    } else {
      assert s[..|s| - 1] == Digits(n / 10);
      DecimalOfDigits(n / 10);
    }
  }

  lemma {:induction false} DigitsLength(n: nat, k: nat)
    requires 0 < k && n < Power10(k)
    ensures |Digits(n)| <= k
  {
    if 10 <= n {
      DigitsLength(n / 10, k - 1);
    }
  }

  function Power10(k: nat): nat {
    if k == 0 then 1 else 10 * Power10(k - 1)
  }

  // ---- uintToString ----

  // The digits are written from the end of the buffer backwards.
  method UintToString(value: nat, buf: array<char>, end: nat) returns (current: nat)
    requires value < WIDTH && 21 <= end <= buf.Length
    modifies buf
    ensures end - 21 <= current < end && buf[current..end - 1] == Digits(value) && buf[end - 1] == '\0'
    ensures forall k :: 0 <= k < buf.Length && !(current <= k < end) ==> buf[k] == old(buf[k])
  {
    hide Digits;
    DigitsBound(value);
    DigitsStep(value);
    current := end - 1;
    buf[current] := '\0';
    var v := value;
    current := current - 1;
    buf[current] := DigitChar(v % 10);
    v := v / 10;
    while v != 0
      invariant current < end - 1 && 0 <= v
      invariant buf[end - 1] == '\0' && Digits(value) == Left(v) + buf[current..end - 1]
      invariant forall k :: 0 <= k < buf.Length && !(current <= k < end) ==> buf[k] == old(buf[k])
      decreases v
    {
      ghost var was := buf[current..end - 1];
      DigitsStep(v);
      current := PutDigit(buf, current, end, DigitChar(v % 10));
      Associative(Left(v / 10), [DigitChar(v % 10)], was);
      v := v / 10;
    }
  }

  // *--current = c
  method PutDigit(buf: array<char>, current: nat, ghost end: nat, c: char) returns (top: nat)
    requires 0 < current < end <= buf.Length
    modifies buf
    ensures top == current - 1 && buf[end - 1] == old(buf[end - 1])
    ensures buf[top..end - 1] == [c] + old(buf[current..end - 1])
    ensures forall k :: 0 <= k < buf.Length && k != top ==> buf[k] == old(buf[k])
  {
    top := current - 1;
    buf[top] := c;
  }

  lemma Associative(a: string, b: string, c: string)
    ensures a + b + c == a + (b + c)
  {
  }

  // The digits still to be written.
  function Left(v: nat): string {
    if v == 0 then "" else Digits(v)
  }

  lemma DigitsStep(v: nat)
    ensures Digits(v) == Left(v / 10) + [DigitChar(v % 10)] && (0 < v ==> Left(v) == Digits(v) && 0 < |Left(v)|)
  {
  }

  lemma DigitsBound(value: nat)
    requires value < WIDTH
    ensures |Digits(value)| <= 20
  {
    assert Power10(5) == 100000;
    assert Power10(10) == 10_000_000_000;
    assert Power10(15) == 1_000_000_000_000_000;
    assert Power10(20) == 100_000_000_000_000_000_000;
    DigitsLength(value, 20);
  }

  // valueToString of integers
  function IntText(i: int): string {
    if i < 0 then "-" + Digits(-i) else Digits(i)
  }

  // `value` is the two's complement of a signed or unsigned 64-bit number.
  method ValueToString(value: nat, signed: bool) returns (r: string)
    requires value < WIDTH
    ensures r == IntText(if signed then ToSigned(value) else value)
  {
    var buf := new char[BUFFER_SIZE](_ => '\0');
    var current := buf.Length;
    var negative := signed && ToSigned(value) < 0;
    current := UintToString(if negative then WIDTH - value else value, buf, current);
    if negative {
      current := current - 1;
      buf[current] := '-';
      assert buf[current..buf.Length - 1] == "-" + buf[current + 1..buf.Length - 1];
    }
    r := buf[current..buf.Length - 1];
  }

  function ToSigned(u: nat): int {
    if u < MIN_MAGNITUDE then u else u - WIDTH
  }

  // ---- the integer loop of decodeNumber ----

  datatype Outcome = Accepted(value: nat) | AsDouble | NotANumber

  // The digits from i on, with `value` read already; the arithmetic is modulo 2 to the power of 64.
  function Scan(s: string, i: nat, value: nat, max: nat): Outcome
    requires i <= |s|
    decreases |s| - i
  {
    if i == |s| then Accepted(value)
    else if !IsDigit(s[i]) then NotANumber
    else
      var d := DigitValue(s[i]);
      if value >= max / 10 && (i + 1 != |s| || d > max % 10) then AsDouble
      else Scan(s, i + 1, (value * 10 + d) % WIDTH, max)
  }

  method ScanInteger(s: string, from: nat, max: nat) returns (r: Outcome)
    requires from <= |s|
    ensures r == Scan(s, from, 0, max)
  {
    var threshold, lastDigitThreshold := max / 10, max % 10;
    var value: nat, current := 0, from;
    while current < |s|
      invariant from <= current <= |s| && Scan(s, current, value, max) == Scan(s, from, 0, max)
    {
      var c := s[current];
      current := current + 1;
      if !IsDigit(c) {
        return NotANumber;
      }
      var digit := DigitValue(c);
      if value >= threshold {
        if current != |s| || digit > lastDigitThreshold {
          return AsDouble;
        }
      }
      value := (value * 10 + digit) % WIDTH;
    }
    r := Accepted(value);
  }

  // All digits but the last.
  function Prefix(s: string): nat
    requires AllDigits(s) && s != ""
  {
    Decimal(s[..|s| - 1])
  }

  function LastDigit(s: string): nat
    requires AllDigits(s) && s != ""
  {
    DigitValue(s[|s| - 1])
  }

  lemma DecimalStep(s: string, i: nat)
    requires AllDigits(s) && i < |s|
    ensures Decimal(s[..i + 1]) == Decimal(s[..i]) * 10 + DigitValue(s[i])
  {
    assert s[..i + 1][..i] == s[..i];
  }

  lemma NoWrap(v: nat, d: nat, max: nat)
    requires v < max / 10 && d < 10 && max < WIDTH
    ensures (v * 10 + d) % WIDTH == v * 10 + d
  {
  }

  // What the loop makes of s, as it stands at digit i with nothing lost so far.
  lemma {:induction false} ScanFrom(s: string, i: nat, max: nat)
    requires AllDigits(s) && i < |s| && max < WIDTH
    ensures var p, d := Prefix(s), LastDigit(s);
            Scan(s, i, Decimal(s[..i]), max)
            == if i < |s| - 1 && p / 10 >= max / 10 then AsDouble
               else if p >= max / 10 && d > max % 10 then AsDouble
               else Accepted((p * 10 + d) % WIDTH)
    decreases |s| - i
  {
    hide Decimal, DigitValue;
    var v := Decimal(s[..i]);
    if i < |s| - 1 {
      DecimalStep(s, i);
      DecimalStep(s, |s| - 2);
      PrefixGrows(s, i, |s| - 2);
      if v < max / 10 {
        NoWrap(v, DigitValue(s[i]), max);
        ScanFrom(s, i + 1, max);
      }
    }
  }

  lemma {:induction false} PrefixGrows(s: string, i: nat, j: nat)
    requires AllDigits(s) && i <= j <= |s|
    ensures Decimal(s[..i]) <= Decimal(s[..j])
    decreases j - i
  {
    if i < j {
      PrefixGrows(s, i, j - 1);
      assert s[..j][..j - 1] == s[..j - 1];
    }
  }

  // The tokens beyond the maximum that the threshold test lets through.
  predicate Missed(s: string, max: nat)
    requires AllDigits(s) && s != ""
  {
    max / 10 < Prefix(s) < max / 10 * 10 && LastDigit(s) <= max % 10
  }

  // Exact for every number up to the maximum; beyond it the token goes to the double reader, except when
  // it is missed, and then a wrong number comes out.
  lemma ScanExact(s: string, max: nat)
    requires AllDigits(s) && s != "" && 10 <= max < WIDTH
    ensures Decimal(s) <= max ==> Scan(s, 0, 0, max) == Accepted(Decimal(s))
    ensures Decimal(s) > max && !Missed(s, max) ==> Scan(s, 0, 0, max) == AsDouble
    ensures Missed(s, max) ==> Decimal(s) > max && Scan(s, 0, 0, max) == Accepted(Decimal(s) % WIDTH)
  {
    var p, d := Prefix(s), LastDigit(s);
    assert s[..0] == "" && Decimal(s) == p * 10 + d;
    ScanFrom(s, 0, max);
    if |s| == 1 {
      assert p == 0;
    }
  }

  // ---- number tokens ----

  predicate Fractional(s: string, i: nat)
    requires i < |s|
  {
    s[i] == '.' || s[i] == 'e' || s[i] == 'E' || s[i] == '+' || (s[i] == '-' && 0 < i)
  }

  predicate IsDouble(s: string) {
    exists i :: 0 <= i < |s| && Fractional(s, i)
  }

  // An integer, or a token for the double reader, or one that is not a number.
  datatype Number = Integer(v: Value) | Double | Malformed

  function NumberOf(s: string): Number
    requires s != ""
  {
    if IsDouble(s) then Double else
    var negative := s[0] == '-';
    match Scan(s, if negative then 1 else 0, 0, if negative then MIN_MAGNITUDE else MAX_UINT)
    case AsDouble => Double
    case NotANumber => Malformed
    case Accepted(value) =>
      Integer(if negative then Int(ToSigned((WIDTH - value % WIDTH) % WIDTH))
              else if value <= MAX_INT then Int(value) else UInt(value))
  }

  // The tag that reading gives an integer.
  function Tagged(i: int): Value {
    if i <= MAX_INT then Int(i) else UInt(i)
  }

  function Numeral(negative: bool, digits: string): string {
    if negative then "-" + digits else digits
  }

  function Limit(negative: bool): nat {
    if negative then MIN_MAGNITUDE else MAX_UINT
  }

  lemma NumeralIsPlain(negative: bool, digits: string)
    requires AllDigits(digits) && digits != ""
    ensures var s := Numeral(negative, digits); s != "" && !IsDouble(s) && (s[0] == '-' <==> negative)
  {
    var s := Numeral(negative, digits);
    forall i | 0 <= i < |s| ensures !Fractional(s, i) {
      assert s[i] == if negative then (if i == 0 then '-' else digits[i - 1]) else digits[i];
      assert negative && 0 < i ==> IsDigit(digits[i - 1]);
    }
  }

  lemma {:induction false} ScanShift(s: string, digits: string, i: nat, value: nat, max: nat)
    requires s == "-" + digits && i <= |digits|
    ensures Scan(s, i + 1, value, max) == Scan(digits, i, value, max)
    decreases |digits| - i
  {
    if i < |digits| {
      assert s[i + 1] == digits[i];
      if IsDigit(digits[i]) {
        ScanShift(s, digits, i + 1, (value * 10 + DigitValue(digits[i])) % WIDTH, max);
      }
    }
  }

  // What reading an integer token gives: the integer when it is in range; the double reader's answer when
  // it is out of range, unless the threshold test misses that: then another integer.
  lemma NumberExact(negative: bool, digits: string)
    requires AllDigits(digits) && digits != ""
    ensures var s, n, max := Numeral(negative, digits), Decimal(digits), Limit(negative);
            && (n <= max ==> NumberOf(s) == Integer(Tagged(if negative then 0 - n else n)))
            && (n > max && !Missed(digits, max) ==> NumberOf(s) == Double)
            && (Missed(digits, max) ==>
                  n > max && NumberOf(s).Integer? && NumberOf(s).v != Tagged(if negative then 0 - n else n))
  {
    hide Decimal, IsDouble, Scan;
    var s, n, max := Numeral(negative, digits), Decimal(digits), Limit(negative);
    NumeralIsPlain(negative, digits);
    if negative {
      ScanShift(s, digits, 0, 0, max);
    }
    ScanExact(digits, max);
  }

  // Printing and reading an integer of either type.
  lemma IntegerRoundTrip(i: int)
    requires -MIN_MAGNITUDE <= i <= MAX_UINT
    ensures IntText(i) != "" && NumberOf(IntText(i)) == Integer(Tagged(i))
  {
    var digits := Digits(if i < 0 then -i else i);
    DecimalOfDigits(if i < 0 then -i else i);
    NumberExact(i < 0, digits);
  }

  lemma LastDigitOf(n: nat)
    requires 10 <= n
    ensures Prefix(Digits(n)) == n / 10 && LastDigit(Digits(n)) == n % 10
  {
    var s := Digits(n);
    assert s[..|s| - 1] == Digits(n / 10);
    DecimalOfDigits(n / 10);
  }

  // The threshold test lets a number just beyond the range through: it is read as 9.
  lemma ThresholdMiss()
    ensures NumberOf(IntText(18446744073709551625)) == Integer(Int(9))
  {
    hide Decimal, IsDouble, Scan, Digits;
    var n := 18446744073709551625;
    LastDigitOf(n);
    DecimalOfDigits(n);
    NumeralIsPlain(false, Digits(n));
    ScanExact(Digits(n), MAX_UINT);
  }

  // Every integer of 64 bits is read as it is, as a signed number below 2 to the power of 31 and an unsigned one from
  // there on.
  lemma IntegersRead(negative: bool, digits: string)
    requires AllDigits(digits) && digits != ""
    ensures var n := Decimal(digits); var s := (if negative then "-" else "") + digits;
            && (negative && n <= 9_223_372_036_854_775_808 ==> s != "" && NumberOf(s) == Integer(Int(0 - n)))
            && (!negative && n < 2_147_483_648 ==> s != "" && NumberOf(s) == Integer(Int(n)))
            && (!negative && 2_147_483_648 <= n < 18_446_744_073_709_551_616 ==>
                  s != "" && NumberOf(s) == Integer(UInt(n)))
  {
    hide Decimal, NumberOf, Missed;
    assert "" + digits == digits;
    NumberExact(negative, digits);
  }
}

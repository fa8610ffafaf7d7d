/** The client's packet bytes: the substitution tables, the checksum, and integer fields in network order. */
module WireCodec {
  type byte = x: int | 0 <= x < 256

  // ---- the substitution tables ----

  // The j-th of sixteen.
  function Pick(j: nat, a0: byte, a1: byte, a2: byte, a3: byte, a4: byte, a5: byte, a6: byte, a7: byte, a8: byte,
                a9: byte, a10: byte, a11: byte, a12: byte, a13: byte, a14: byte, a15: byte): byte {
    if j < 8 then
      if j < 4 then if j < 2 then (if j < 1 then a0 else a1) else (if j < 3 then a2 else a3)
      else if j < 6 then (if j < 5 then a4 else a5) else (if j < 7 then a6 else a7)
    else
      if j < 12 then if j < 10 then (if j < 9 then a8 else a9) else (if j < 11 then a10 else a11)
      else if j < 14 then (if j < 13 then a12 else a13) else (if j < 15 then a14 else a15)
  }

  // encode_map, sixteen entries a line
  function EncodeByte(b: byte): byte {
    var j := b % 16;
    match b / 16
    case 0 => Pick(j, 0x70, 0x2F, 0x40, 0x5F, 0x44, 0x8E, 0x6E, 0x45, 0x7E, 0xAB, 0x2C, 0x1F, 0xB4, 0xAC, 0x9D, 0x91)
    case 1 => Pick(j, 0x0D, 0x36, 0x9B, 0x0B, 0xD4, 0xC4, 0x39, 0x74, 0xBF, 0x23, 0x16, 0x14, 0x06, 0xEB, 0x04, 0x3E)
    case 2 => Pick(j, 0x12, 0x5C, 0x8B, 0xBC, 0x61, 0x63, 0xF6, 0xA5, 0xE1, 0x65, 0xD8, 0xF5, 0x5A, 0x07, 0xF0, 0x13)
    case 3 => Pick(j, 0xF2, 0x20, 0x6B, 0x4A, 0x24, 0x59, 0x89, 0x64, 0xD7, 0x42, 0x6A, 0x5E, 0x3D, 0x0A, 0x77, 0xE0)
    case 4 => Pick(j, 0x80, 0x27, 0xB8, 0xC5, 0x8C, 0x0E, 0xFA, 0x8A, 0xD5, 0x29, 0x56, 0x57, 0x6C, 0x53, 0x67, 0x41)
    case 5 => Pick(j, 0xE8, 0x00, 0x1A, 0xCE, 0x86, 0x83, 0xB0, 0x22, 0x28, 0x4D, 0x3F, 0x26, 0x46, 0x4F, 0x6F, 0x2B)
    case 6 => Pick(j, 0x72, 0x3A, 0xF1, 0x8D, 0x97, 0x95, 0x49, 0x84, 0xE5, 0xE3, 0x79, 0x8F, 0x51, 0x10, 0xA8, 0x82)
    case 7 => Pick(j, 0xC6, 0xDD, 0xFF, 0xFC, 0xE4, 0xCF, 0xB3, 0x09, 0x5D, 0xEA, 0x9C, 0x34, 0xF9, 0x17, 0x9F, 0xDA)
    case 8 => Pick(j, 0x87, 0xF8, 0x15, 0x05, 0x3C, 0xD3, 0xA4, 0x85, 0x2E, 0xFB, 0xEE, 0x47, 0x3B, 0xEF, 0x37, 0x7F)
    case 9 => Pick(j, 0x93, 0xAF, 0x69, 0x0C, 0x71, 0x31, 0xDE, 0x21, 0x75, 0xA0, 0xAA, 0xBA, 0x7C, 0x38, 0x02, 0xB7)
    case 10 => Pick(j, 0x81, 0x01, 0xFD, 0xE7, 0x1D, 0xCC, 0xCD, 0xBD, 0x1B, 0x7A, 0x2A, 0xAD, 0x66, 0xBE, 0x55, 0x33)
    case 11 => Pick(j, 0x03, 0xDB, 0x88, 0xB2, 0x1E, 0x4E, 0xB9, 0xE6, 0xC2, 0xF7, 0xCB, 0x7D, 0xC9, 0x62, 0xC3, 0xA6)
    case 12 => Pick(j, 0xDC, 0xA7, 0x50, 0xB5, 0x4B, 0x94, 0xC0, 0x92, 0x4C, 0x11, 0x5B, 0x78, 0xD9, 0xB1, 0xED, 0x19)
    case 13 => Pick(j, 0xE9, 0xA1, 0x1C, 0xB6, 0x32, 0x99, 0xA3, 0x76, 0x9E, 0x7B, 0x6D, 0x9A, 0x30, 0xD6, 0xA9, 0x25)
    case 14 => Pick(j, 0xC7, 0xAE, 0x96, 0x35, 0xD0, 0xBB, 0xD2, 0xC8, 0xA2, 0x08, 0xF3, 0xD1, 0x73, 0xF4, 0x48, 0x2D)
    case _ => Pick(j, 0x90, 0xCA, 0xE2, 0x58, 0xC1, 0x18, 0x52, 0xFE, 0xDF, 0x68, 0x98, 0x54, 0xEC, 0x60, 0x43, 0x0F)
  }

  // decode_map
  function DecodeByte(b: byte): byte {
    var j := b % 16;
    match b / 16
    case 0 => Pick(j, 0x51, 0xA1, 0x9E, 0xB0, 0x1E, 0x83, 0x1C, 0x2D, 0xE9, 0x77, 0x3D, 0x13, 0x93, 0x10, 0x45, 0xFF)
    case 1 => Pick(j, 0x6D, 0xC9, 0x20, 0x2F, 0x1B, 0x82, 0x1A, 0x7D, 0xF5, 0xCF, 0x52, 0xA8, 0xD2, 0xA4, 0xB4, 0x0B)
    case 2 => Pick(j, 0x31, 0x97, 0x57, 0x19, 0x34, 0xDF, 0x5B, 0x41, 0x58, 0x49, 0xAA, 0x5F, 0x0A, 0xEF, 0x88, 0x01)
    case 3 => Pick(j, 0xDC, 0x95, 0xD4, 0xAF, 0x7B, 0xE3, 0x11, 0x8E, 0x9D, 0x16, 0x61, 0x8C, 0x84, 0x3C, 0x1F, 0x5A)
    case 4 => Pick(j, 0x02, 0x4F, 0x39, 0xFE, 0x04, 0x07, 0x5C, 0x8B, 0xEE, 0x66, 0x33, 0xC4, 0xC8, 0x59, 0xB5, 0x5D)
    case 5 => Pick(j, 0xC2, 0x6C, 0xF6, 0x4D, 0xFB, 0xAE, 0x4A, 0x4B, 0xF3, 0x35, 0x2C, 0xCA, 0x21, 0x78, 0x3B, 0x03)
    case 6 => Pick(j, 0xFD, 0x24, 0xBD, 0x25, 0x37, 0x29, 0xAC, 0x4E, 0xF9, 0x92, 0x3A, 0x32, 0x4C, 0xDA, 0x06, 0x5E)
    case 7 => Pick(j, 0x00, 0x94, 0x60, 0xEC, 0x17, 0x98, 0xD7, 0x3E, 0xCB, 0x6A, 0xA9, 0xD9, 0x9C, 0xBB, 0x08, 0x8F)
    case 8 => Pick(j, 0x40, 0xA0, 0x6F, 0x55, 0x67, 0x87, 0x54, 0x80, 0xB2, 0x36, 0x47, 0x22, 0x44, 0x63, 0x05, 0x6B)
    case 9 => Pick(j, 0xF0, 0x0F, 0xC7, 0x90, 0xC5, 0x65, 0xE2, 0x64, 0xFA, 0xD5, 0xDB, 0x12, 0x7A, 0x0E, 0xD8, 0x7E)
    case 10 => Pick(j, 0x99, 0xD1, 0xE8, 0xD6, 0x86, 0x27, 0xBF, 0xC1, 0x6E, 0xDE, 0x9A, 0x09, 0x0D, 0xAB, 0xE1, 0x91)
    case 11 => Pick(j, 0x56, 0xCD, 0xB3, 0x76, 0x0C, 0xC3, 0xD3, 0x9F, 0x42, 0xB6, 0x9B, 0xE5, 0x23, 0xA7, 0xAD, 0x18)
    case 12 => Pick(j, 0xC6, 0xF4, 0xB8, 0xBE, 0x15, 0x43, 0x70, 0xE0, 0xE7, 0xBC, 0xF1, 0xBA, 0xA5, 0xA6, 0x53, 0x75)
    case 13 => Pick(j, 0xE4, 0xEB, 0xE6, 0x85, 0x14, 0x48, 0xDD, 0x38, 0x2A, 0xCC, 0x7F, 0xB1, 0xC0, 0x71, 0x96, 0xF8)
    case 14 => Pick(j, 0x3F, 0x28, 0xF2, 0x69, 0x74, 0x68, 0xB7, 0xA3, 0x50, 0xD0, 0x79, 0x1D, 0xFC, 0xCE, 0x8A, 0x8D)
    case _ => Pick(j, 0x2E, 0x62, 0x30, 0xEA, 0xED, 0x2B, 0x26, 0xB9, 0x81, 0x7C, 0x46, 0x89, 0x73, 0xA2, 0xF7, 0x72)
  }

  lemma TablesInverseFrom0(b: byte)
    requires 0 <= b < 16
    ensures DecodeByte(EncodeByte(b)) == b && EncodeByte(DecodeByte(b)) == b
  {
  }

  lemma TablesInverseFrom16(b: byte)
    requires 16 <= b < 32
    ensures DecodeByte(EncodeByte(b)) == b && EncodeByte(DecodeByte(b)) == b
  {
  }

  lemma TablesInverseFrom32(b: byte)
    requires 32 <= b < 48
    ensures DecodeByte(EncodeByte(b)) == b && EncodeByte(DecodeByte(b)) == b
  {
  }

  lemma TablesInverseFrom48(b: byte)
    requires 48 <= b < 64
    ensures DecodeByte(EncodeByte(b)) == b && EncodeByte(DecodeByte(b)) == b
  {
  }

  lemma TablesInverseFrom64(b: byte)
    requires 64 <= b < 80
    ensures DecodeByte(EncodeByte(b)) == b && EncodeByte(DecodeByte(b)) == b
  {
  }

  lemma TablesInverseFrom80(b: byte)
    requires 80 <= b < 96
    ensures DecodeByte(EncodeByte(b)) == b && EncodeByte(DecodeByte(b)) == b
  {
  }

  lemma TablesInverseFrom96(b: byte)
    requires 96 <= b < 112
    ensures DecodeByte(EncodeByte(b)) == b && EncodeByte(DecodeByte(b)) == b
  {
  }

  lemma TablesInverseFrom112(b: byte)
    requires 112 <= b < 128
    ensures DecodeByte(EncodeByte(b)) == b && EncodeByte(DecodeByte(b)) == b
  {
  }

  lemma TablesInverseFrom128(b: byte)
    requires 128 <= b < 144
    ensures DecodeByte(EncodeByte(b)) == b && EncodeByte(DecodeByte(b)) == b
  {
  }

  lemma TablesInverseFrom144(b: byte)
    requires 144 <= b < 160
    ensures DecodeByte(EncodeByte(b)) == b && EncodeByte(DecodeByte(b)) == b
  {
  }

  lemma TablesInverseFrom160(b: byte)
    requires 160 <= b < 176
    ensures DecodeByte(EncodeByte(b)) == b && EncodeByte(DecodeByte(b)) == b
  {
  }

  lemma TablesInverseFrom176(b: byte)
    requires 176 <= b < 192
    ensures DecodeByte(EncodeByte(b)) == b && EncodeByte(DecodeByte(b)) == b
  {
  }

  lemma TablesInverseFrom192(b: byte)
    requires 192 <= b < 208
    ensures DecodeByte(EncodeByte(b)) == b && EncodeByte(DecodeByte(b)) == b
  {
  }

  lemma TablesInverseFrom208(b: byte)
    requires 208 <= b < 224
    ensures DecodeByte(EncodeByte(b)) == b && EncodeByte(DecodeByte(b)) == b
  {
  }

  lemma TablesInverseFrom224(b: byte)
    requires 224 <= b < 240
    ensures DecodeByte(EncodeByte(b)) == b && EncodeByte(DecodeByte(b)) == b
  {
  }

  lemma TablesInverseFrom240(b: byte)
    requires 240 <= b < 256
    ensures DecodeByte(EncodeByte(b)) == b && EncodeByte(DecodeByte(b)) == b
  {
    hide EncodeByte, DecodeByte;
    if b < 248 {
      TablesInverseBelow248(b);
    } else {
      TablesInverseFrom248(b);
    }
  }

  lemma TablesInverseBelow248(b: byte)
    requires 240 <= b < 248
    ensures DecodeByte(EncodeByte(b)) == b && EncodeByte(DecodeByte(b)) == b
  {
  }

  lemma TablesInverseFrom248(b: byte)
    requires 248 <= b < 256
    ensures DecodeByte(EncodeByte(b)) == b && EncodeByte(DecodeByte(b)) == b
  {
  }

  // Each table undoes the other.
  lemma TablesInverse(b: byte)
    ensures DecodeByte(EncodeByte(b)) == b && EncodeByte(DecodeByte(b)) == b
  {
    hide EncodeByte, DecodeByte;
    match b / 16
    case 0 => TablesInverseFrom0(b);
    case 1 => TablesInverseFrom16(b);
    case 2 => TablesInverseFrom32(b);
    case 3 => TablesInverseFrom48(b);
    case 4 => TablesInverseFrom64(b);
    case 5 => TablesInverseFrom80(b);
    case 6 => TablesInverseFrom96(b);
    case 7 => TablesInverseFrom112(b);
    case 8 => TablesInverseFrom128(b);
    case 9 => TablesInverseFrom144(b);
    case 10 => TablesInverseFrom160(b);
    case 11 => TablesInverseFrom176(b);
    case 12 => TablesInverseFrom192(b);
    case 13 => TablesInverseFrom208(b);
    case 14 => TablesInverseFrom224(b);
    case _ => TablesInverseFrom240(b);
  }

  // ---- the payload and its checksum ----

  function Sum(s: seq<byte>): nat {
    if s == [] then 0 else Sum(s[..|s| - 1]) + s[|s| - 1]
  }

  function Encoded(s: seq<byte>): (r: seq<byte>)
    ensures |r| == |s|
  {
    seq(|s|, i requires 0 <= i < |s| => EncodeByte(s[i]))
  }

  function Decoded(s: seq<byte>): (r: seq<byte>)
    ensures |r| == |s|
  {
    seq(|s|, i requires 0 <= i < |s| => DecodeByte(s[i]))
  }

  // Two's complement of the sum, in one byte.
  function Checksum(s: seq<byte>): byte {
    (256 - Sum(s) % 256) % 256
  }

  // What decode demands of the encoded payload e under check byte code.
  predicate Accepted(code: byte, e: seq<byte>) {
    (code + Sum(Decoded(e))) % 256 == 0
  }

  lemma DecodeUndoesEncode(s: seq<byte>)
    ensures Decoded(Encoded(s)) == s && Encoded(Decoded(s)) == s && Accepted(Checksum(s), Encoded(s))
  {
    hide EncodeByte, DecodeByte;
    forall i | 0 <= i < |s| ensures Decoded(Encoded(s))[i] == s[i] && Encoded(Decoded(s))[i] == s[i] {
      TablesInverse(s[i]);
    }
    assert Decoded(Encoded(s)) == s;
  }

  lemma {:induction false} SumUpdate(s: seq<byte>, i: nat, b: byte)
    requires i < |s|
    ensures Sum(s[i := b]) == Sum(s) - s[i] + b
    decreases |s|
  {
    if i < |s| - 1 {
      SumUpdate(s[..|s| - 1], i, b);
      assert s[i := b][..|s| - 1] == s[..|s| - 1][i := b];
    } else {
      assert s[i := b][..|s| - 1] == s[..|s| - 1];
    }
  }

  // Of an accepted payload, no single byte can change and be accepted again; nor can the check byte.
  lemma SingleChangeRejected(code: byte, e: seq<byte>, i: nat, b: byte)
    requires Accepted(code, e) && i < |e| && b != e[i]
    ensures !Accepted(code, e[i := b])
  {
    hide EncodeByte, DecodeByte;
    TablesInverse(b);
    TablesInverse(e[i]);
    assert Decoded(e[i := b]) == Decoded(e)[i := DecodeByte(b)];
    SumUpdate(Decoded(e), i, DecodeByte(b));
    var x: int, y: int := Decoded(e)[i], DecodeByte(b);
    assert x != y;
    DifferentRemainder(code + Sum(Decoded(e)), y - x);
  }

  lemma DifferentRemainder(n: nat, d: int)
    requires n % 256 == 0 && -256 < d < 256 && d != 0
    ensures (n + d) % 256 != 0
  {
  }

  lemma CheckByteDecides(code: byte, other: byte, e: seq<byte>)
    requires Accepted(code, e) && Accepted(other, e)
    ensures code == other
  {
    var n := Sum(Decoded(e));
    if code != other {
      DifferentRemainder(code + n, other - code);
    }
  }

  // ---- integer fields ----

  function Power(width: nat): (p: nat)
    ensures 0 < p
  {
    if width == 0 then 1 else 256 * Power(width - 1)
  }

  // The value v in `width` bytes, most significant first.
  function BigEndian(v: nat, width: nat): (s: seq<byte>)
    ensures |s| == width
  {
    if width == 0 then [] else BigEndian(v / 256, width - 1) + [v % 256]
  }

  function FromBigEndian(s: seq<byte>): nat {
    if s == [] then 0 else FromBigEndian(s[..|s| - 1]) * 256 + s[|s| - 1]
  }

  lemma BigEndianStep(v: nat, width: nat)
    ensures width == 0 ==> FromBigEndian(BigEndian(v, width)) == 0
    ensures 0 < width ==>
              FromBigEndian(BigEndian(v, width)) == FromBigEndian(BigEndian(v / 256, width - 1)) * 256 + v % 256
  {
    if 0 < width {
      var s := BigEndian(v, width);
      assert s[..width - 1] == BigEndian(v / 256, width - 1);
    }
  }

  lemma {:induction false} BigEndianInverse(v: nat, width: nat)
    requires v < Power(width)
    ensures FromBigEndian(BigEndian(v, width)) == v
  {
    hide BigEndian, FromBigEndian;
    BigEndianStep(v, width);
    if 0 < width {
      BigEndianInverse(v / 256, width - 1);
    }
  }

  lemma {:induction false} FromBigEndianBound(s: seq<byte>)
    ensures FromBigEndian(s) < Power(|s|)
  {
    if s != [] {
      FromBigEndianBound(s[..|s| - 1]);
    }
  }

  // The fields that the client can write: eight types of integers.
  datatype Kind = Kind(width: nat, signed: bool)

  predicate KindOk(k: Kind) { k.width == 1 || k.width == 2 || k.width == 4 || k.width == 8 }

  predicate InRange(k: Kind, v: int) {
    if k.signed then 0 <= 2 * v + Power(k.width) < 2 * Power(k.width) else 0 <= v < Power(k.width)
  }

  // Two's complement.
  function Unsigned(k: Kind, v: int): (u: nat)
    requires InRange(k, v)
    ensures u < Power(k.width)
  {
    if v < 0 then v + Power(k.width) else v
  }

  function Signed(k: Kind, u: nat): (v: int)
    requires u < Power(k.width)
    ensures InRange(k, v)
  {
    if k.signed && 2 * u >= Power(k.width) then u - Power(k.width) else u
  }

  function FieldBytes(k: Kind, v: int): seq<byte>
    requires InRange(k, v)
  {
    BigEndian(Unsigned(k, v), k.width)
  }

  function FieldValue(k: Kind, s: seq<byte>): (v: int)
    requires |s| == k.width
    ensures InRange(k, v)
  {
    FromBigEndianBound(s);
    Signed(k, FromBigEndian(s))
  }

  lemma FieldReadBack(k: Kind, v: int)
    requires InRange(k, v)
    ensures FieldValue(k, FieldBytes(k, v)) == v
  {
    BigEndianInverse(Unsigned(k, v), k.width);
  }

  lemma DivideTwice(v: nat, p: nat)
    requires 0 < p
    ensures v / 256 / p == v / (256 * p)
  {
    var q, r := v / 256, v % 256;
    var a, b := q / p, q % p;
    assert v == 256 * (a * p + b) + r;
    MoveFactor(a, p);
    assert v == (256 * p) * a + (256 * b + r) && 256 * b + r < 256 * p;
    QuotientIs(v, 256 * p, a, 256 * b + r);
  }

  lemma MoveFactor(a: nat, p: nat)
    ensures 256 * (a * p) == (256 * p) * a
  {
  }

  lemma QuotientIs(v: nat, m: nat, a: nat, c: nat)
    requires 0 < m && v == m * a + c && c < m
    ensures v / m == a
  {
    var d := v / m;
    assert v == m * d + v % m;
    if d < a {
      Monotonic(m, d + 1, a);
    } else if a < d {
      Monotonic(m, a + 1, d);
    }
  }

  lemma Monotonic(m: nat, x: nat, y: nat)
    requires x <= y
    ensures m * x <= m * y
  {
  }

  lemma {:induction false} BigEndianAt(v: nat, width: nat, j: nat)
    requires j < width
    ensures BigEndian(v, width)[j] == v / Power(width - 1 - j) % 256
  {
    if j < width - 1 {
      BigEndianAt(v / 256, width - 1, j);
      DivideTwice(v, Power(width - 2 - j));
    } else {
      assert Power(0) == 1;
    }
  }

  // In network order: the j-th byte of a field holds the digit of that weight to the base 256, of the value or, for a
  // negative one, of the value and the next power.
  lemma FieldByteAt(k: Kind, v: int, j: nat)
    requires InRange(k, v) && j < k.width
    ensures |FieldBytes(k, v)| == k.width
    ensures var u := if v < 0 then v + Power(k.width) else v;
            0 <= u && FieldBytes(k, v)[j] == u / Power(k.width - 1 - j) % 256
  {
    BigEndianAt(Unsigned(k, v), k.width, j);
  }

  lemma Powers()
    ensures Power(0) == 1 && Power(1) == 256 && Power(2) == 65536 && Power(3) == 16777216 && Power(4) == 4294967296
  {
  }

  // ---- a list of fields ----

  datatype Field = Field(kind: Kind, value: int)

  predicate FieldsOk(fs: seq<Field>) {
    forall i :: 0 <= i < |fs| ==> KindOk(fs[i].kind) && InRange(fs[i].kind, fs[i].value)
  }

  function FieldsBytes(fs: seq<Field>): seq<byte>
    requires FieldsOk(fs)
  {
    if fs == [] then [] else FieldBytes(fs[0].kind, fs[0].value) + FieldsBytes(fs[1..])
  }

  // Reading fields of the given kinds one after the other; as many as there are bytes for.
  function FieldsRead(kinds: seq<Kind>, s: seq<byte>): seq<Field> {
    if kinds == [] || |s| < kinds[0].width then [] else
    var w := kinds[0].width;
    [Field(kinds[0], FieldValue(kinds[0], s[..w]))] + FieldsRead(kinds[1..], s[w..])
  }

  function Kinds(fs: seq<Field>): (ks: seq<Kind>)
    ensures |ks| == |fs|
  {
    seq(|fs|, i requires 0 <= i < |fs| => fs[i].kind)
  }

  lemma {:induction false} FieldsReadBack(fs: seq<Field>)
    requires FieldsOk(fs)
    ensures FieldsRead(Kinds(fs), FieldsBytes(fs)) == fs
    decreases |fs|
  {
    hide FieldBytes, FieldValue, InRange;
    if fs != [] {
      var f := fs[0];
      FieldReadBack(f.kind, f.value);
      FieldWidth(f.kind, f.value);
      Halves(FieldBytes(f.kind, f.value), FieldsBytes(fs[1..]));
      assert Kinds(fs)[1..] == Kinds(fs[1..]);
      FieldsReadBack(fs[1..]);
    }
  }

  lemma FieldWidth(k: Kind, v: int)
    requires InRange(k, v)
    ensures |FieldBytes(k, v)| == k.width
  {
  }

  lemma Halves(a: seq<byte>, b: seq<byte>)
    ensures (a + b)[..|a|] == a && (a + b)[|a|..] == b
  {
  }
}

/** The client's packet: a header of nine bytes, fields written behind it, sealed with its length and check
    byte; on the other side opened again and read field by field. */
module Packet {
  import opened WireCodec

  const HEADER := 9
  const MAX_PACKET_SIZE := 16 * 1024

  // Header bytes: length (2), 'B', 'Y', main and sub version, command (2), check byte.
  function Header(size: nat, cmd: nat, code: byte): (h: seq<byte>)
    requires 2 <= size < 0x1_0002 && cmd < 0x1_0000
    ensures |h| == HEADER
  {
    PowerTwo();
    BigEndian(size - 2, 2) + ['B' as int, 'Y' as int, 1, 1] + BigEndian(cmd, 2) + [code]
  }

  lemma PowerTwo()
    ensures Power(1) == 256 && Power(2) == 0x1_0000
  {
    assert Power(0) == 1;
  }

  // The whole packet as the client sends it.
  function Sealed(cmd: nat, payload: seq<byte>): (s: seq<byte>)
    requires cmd < 0x1_0000 && HEADER + |payload| < 0x1_0002
    ensures |s| == HEADER + |payload|
  {
    Header(HEADER + |payload|, cmd, Checksum(payload)) + Encoded(payload)
  }

  function Total(s: seq<byte>): nat {
    if s == [] then 0 else s[0] + Total(s[1..])
  }

  lemma {:induction false} TotalIsSum(s: seq<byte>)
    ensures Total(s) == Sum(s)
    decreases |s|
  {
    if |s| > 1 {
      var t := s[1..];
      TotalIsSum(t);
      TotalIsSum(s[..|s| - 1]);
      TotalIsSum(t[..|t| - 1]);
      assert s[..|s| - 1][1..] == t[..|t| - 1];
    }
  }

  // The bytes of a packet: its length without the two bytes of the length, the mark, the versions, the command, a byte
  // that makes the sum of the payload 0 modulo 256, and the payload through the table.
  lemma SealedLayout(cmd: nat, payload: seq<byte>)
    requires cmd < 0x1_0000 && HEADER + |payload| < 0x1_0002
    ensures var s := Sealed(cmd, payload);
            && |s| == 9 + |payload| && (s[0] as int) * 256 + s[1] as int == |s| - 2
            && (s[6] as int) * 256 + s[7] as int == cmd
            && s[2] == 66 && s[3] == 89 && s[4] == 1 && s[5] == 1
            && (s[8] as int + Total(payload)) % 256 == 0
            && forall i :: 0 <= i < |payload| ==> s[9 + i] == EncodeByte(payload[i])
  {
    hide EncodeByte, Sum, Total;
    PowerTwo();
    TotalIsSum(payload);
    TwoDigits(HEADER + |payload| - 2);
    TwoDigits(cmd);
  }

  lemma TwoDigits(v: nat)
    requires v < 0x1_0000
    ensures var b := BigEndian(v, 2); (b[0] as int) * 256 + b[1] as int == v
  {
    assert BigEndian(v / 256, 1) == BigEndian(v / 256 / 256, 0) + [v / 256 % 256];
  }

  // parse_packet: the payload, when the check byte allows it.
  datatype Opened = Opened(payload: seq<byte>) | Rejected

  function Open(s: seq<byte>): Opened
    requires HEADER <= |s|
  {
    if Accepted(s[8], s[HEADER..]) then Opened(Decoded(s[HEADER..])) else Rejected
  }

  lemma OpenUndoesSeal(cmd: nat, payload: seq<byte>)
    requires cmd < 0x1_0000 && HEADER + |payload| < 0x1_0002
    ensures Open(Sealed(cmd, payload)) == Opened(payload)
  {
    hide EncodeByte, DecodeByte;
    DecodeUndoesEncode(payload);
    var s := Sealed(cmd, payload);
    assert s[HEADER..] == Encoded(payload) && s[8] == Checksum(payload);
  }

  // No packet that opens can differ from another that opens in just one byte behind the command.
  lemma OpenDetectsChange(s: seq<byte>, i: nat, b: byte)
    requires HEADER - 1 <= i < |s| && Open(s).Opened? && b != s[i]
    ensures HEADER <= |s[i := b]| && Open(s[i := b]) == Rejected
  {
    var t := s[i := b];
    if i == HEADER - 1 {
      assert t[HEADER..] == s[HEADER..];
      if Accepted(t[8], t[HEADER..]) {
        CheckByteDecides(s[8], t[8], s[HEADER..]);
      }
    } else {
      assert t[HEADER..] == s[HEADER..][i - HEADER := b];
      SingleChangeRejected(s[8], s[HEADER..], i - HEADER, b);
    }
  }

  // Any list of integer fields comes back from the wire as it was written.
  lemma FieldsTravel(cmd: nat, fs: seq<Field>)
    requires cmd < 0x1_0000 && FieldsOk(fs) && HEADER + |FieldsBytes(fs)| < 0x1_0002
    ensures var o := Open(Sealed(cmd, FieldsBytes(fs))); o.Opened? && FieldsRead(Kinds(fs), o.payload) == fs
  {
    OpenUndoesSeal(cmd, FieldsBytes(fs));
    FieldsReadBack(fs);
  }

  class PacketBuffer {
    var data: array?<byte>
    var size: nat
    var idx: nat
    var len: nat

    ghost predicate Valid()
      reads this, data
    {
      && (data != null ==> size <= data.Length && len <= data.Length)
      && size < 0x1_0000 && len < 0x1_0000 && idx < 0x1_0000
    }

    // What has been written, header included.
    ghost function Written(): seq<byte>
      reads this, data
      requires Valid() && data != null
    {
      data[..len]
    }

    constructor ()
      ensures Valid() && data == null && size == MAX_PACKET_SIZE && idx == 0 && len == 0
    {
      data, size, idx, len := null, MAX_PACKET_SIZE, 0, 0;
    }

    // ---- writing ----

    method Begin(cmd: nat)
      requires Valid() && cmd < 0x1_0000 && HEADER <= size
      modifies this, data
      ensures Valid() && data != null && len == HEADER && size == old(size) && idx == old(idx)
      ensures data[6..8] == BigEndian(cmd, 2)
      ensures if old(data) == null then fresh(data) && data.Length == size else data == old(data)
    {
      if data == null {
        data := new byte[size](_ => 0);
      }
      StoreBytes(data, 6, BigEndian(cmd, 2));
      len := HEADER;
    }

    // All write_... members: the value in network order behind what is there.
    method WriteField(k: Kind, v: int)
      requires Valid() && data != null && KindOk(k) && InRange(k, v) && len + k.width <= size && HEADER <= len
      modifies this`len, data
      ensures Valid() && len == old(len) + k.width
      ensures Written() == old(Written()) + FieldBytes(k, v)
    {
      var b := BigEndian(Unsigned(k, v), k.width);
      StoreBytes(data, len, b);
      len := len + k.width;
    }

    method End()
      requires Valid() && data != null && HEADER <= len <= size
      modifies data
      ensures Valid()
      ensures var payload := old(data[HEADER..len]); var cmd := FromBigEndian(old(data[6..8]));
              cmd < 0x1_0000 && Written() == Sealed(cmd, payload)
    {
      hide EncodeByte, Sum, Checksum, Encoded, FromBigEndian;
      ghost var payload, cmd := data[HEADER..len], data[6..8];
      PowerTwo();
      StoreBytes(data, 0, BigEndian(len - 2, 2));
      assert data[0..2] == BigEndian(len - 2, 2);
      data[2] := 'B' as int;
      data[3] := 'Y' as int;
      data[4] := 1;
      data[5] := 1;
      assert data[0..2] == BigEndian(len - 2, 2) && data[6..8] == cmd && data[HEADER..len] == payload;
      ghost var h := data[..8];
      assert h[0..2] == BigEndian(len - 2, 2) && h[6..8] == cmd;
      Encode();
      ghost var d := data[..len];
      assert d[..8] == h && d[HEADER..] == data[HEADER..len];
      assert d[0..2] == h[0..2] && d[6..8] == h[6..8] && d[2] == h[2] && d[3] == h[3] && d[4] == h[4] && d[5] == h[5];
      SealedIs(d, cmd, payload);
    }

    method Encode()
      requires Valid() && data != null && HEADER <= len
      modifies data
      ensures data[..8] == old(data[..8]) && data[8] == Checksum(old(data[HEADER..len]))
      ensures data[HEADER..len] == Encoded(old(data[HEADER..len])) && data[len..] == old(data[len..])
    {
      hide EncodeByte, Sum;
      ghost var was := data[..];
      EmptySum();
      assert was[HEADER..HEADER] == [];
      var code: int, i := 0, 0;
      while i < len - HEADER
        invariant 0 <= i <= len - HEADER && code == Sum(was[HEADER..HEADER + i]) % 256
        invariant forall k :: 0 <= k < data.Length ==>
                    data[k] == if HEADER <= k < HEADER + i then EncodeByte(was[k]) else was[k]
      {
        SumSliceNext(was, HEADER, HEADER + i);
        AddModulo(Sum(was[HEADER..HEADER + i]), data[HEADER + i]);
        code := (code + data[HEADER + i] as int) % 256;
        data[HEADER + i] := EncodeByte(data[HEADER + i]);
        i := i + 1;
      }
      assert was[HEADER..HEADER + i] == was[HEADER..len];
      data[8] := (255 - code + 1) % 256;
    }

    // ---- reading ----

    method ParsePacket(s: seq<byte>) returns (ok: bool)
      requires Valid() && HEADER <= |s| < 0x1_0000 && (data != null ==> |s| <= data.Length)
      modifies this, data
      ensures Valid() && data != null && len == |s| && idx == HEADER
      ensures ok == Open(s).Opened?
      ensures ok ==> data[HEADER..len] == Open(s).payload
    {
      if data == null {
        data := new byte[|s|](_ => 0);
        size := |s|;
      }
      StoreBytes(data, 0, s);
      len, idx := |s|, HEADER;
      assert data[..len] == s;
      assert data[HEADER..len] == s[HEADER..];
      ok := Decode();
    }

    method Decode() returns (ok: bool)
      requires Valid() && data != null && HEADER <= len
      modifies data
      ensures ok == Accepted(old(data[8]), old(data[HEADER..len]))
      ensures data[HEADER..len] == Decoded(old(data[HEADER..len])) && data[..HEADER] == old(data[..HEADER])
    {
      hide DecodeByte, Sum;
      EmptySum();
      ghost var was := data[..];
      ghost var d := Decoded(was[HEADER..len]);
      var code: int, i := data[8], 0;
      while i < len - HEADER
        invariant 0 <= i <= len - HEADER && code == (was[8] + Sum(d[..i])) % 256
        invariant forall k :: 0 <= k < data.Length ==>
                    data[k] == if HEADER <= k < HEADER + i then DecodeByte(was[k]) else was[k]
      {
        data[HEADER + i] := DecodeByte(data[HEADER + i]);
        SumNext(d, i);
        AddModulo(was[8] + Sum(d[..i]), data[HEADER + i]);
        code := (code + data[HEADER + i] as int) % 256;
        i := i + 1;
      }
      assert d[..i] == d;
      ok := code == 0;
    }

    // All read_... members.
    method ReadField(k: Kind) returns (v: int)
      requires Valid() && data != null && KindOk(k) && idx + k.width <= len
      modifies this`idx
      ensures Valid() && idx == old(idx) + k.width && v == FieldValue(k, data[old(idx)..old(idx) + k.width])
    {
      FromBigEndianBound(data[idx..idx + k.width]);
      v := Signed(k, FromBigEndian(data[idx..idx + k.width]));
      idx := idx + k.width;
    }

    method Clean()
      requires Valid()
      modifies this, data
      ensures Valid() && idx == 0 && len == 0 && data == old(data) && size == old(size)
      ensures data != null ==> forall k :: 0 <= k < size ==> data[k] == 0
    {
      if data != null {
        for i := 0 to size
          invariant data == old(data) && data != null && size == old(size) && size <= data.Length
          invariant forall k :: 0 <= k < i ==> data[k] == 0
        {
          data[i] := 0;
        }
      }
      idx, len := 0, 0;
    }
  }

  lemma AddModulo(a: nat, b: nat)
    ensures (a % 256 + b) % 256 == (a + b) % 256
  {
  }

  lemma EmptySum()
    ensures Sum([]) == 0
  {
  }

  lemma SumNext(s: seq<byte>, i: nat)
    requires i < |s|
    ensures Sum(s[..i + 1]) == Sum(s[..i]) + s[i]
  {
    assert s[..i + 1][..i] == s[..i];
  }

  lemma SumSliceNext(s: seq<byte>, from: nat, i: nat)
    requires from <= i < |s|
    ensures Sum(s[from..i + 1]) == Sum(s[from..i]) + s[i]
  {
    assert s[from..i + 1][..i - from] == s[from..i];
  }

  lemma CmdBytes(s: seq<byte>)
    requires |s| == 2
    ensures FromBigEndian(s) < 0x1_0000 && BigEndian(FromBigEndian(s), 2) == s
  {
    PowerTwo();
    FromBigEndianBound(s);
    assert s[..1][..0] == [] && s == [s[0], s[1]];
    var v := FromBigEndian(s);
    assert FromBigEndian(s[..1]) == s[0];
    assert v == (s[0] as int) * 256 + s[1] as int;
    assert BigEndian(v / 256, 1) == BigEndian(v / 256 / 256, 0) + [v / 256 % 256] == [s[0]];
  }

  lemma SealedIs(d: seq<byte>, cmd: seq<byte>, payload: seq<byte>)
    requires HEADER <= |d| < 0x1_0000 && |d| == HEADER + |payload| && |cmd| == 2
    requires d[0..2] == BigEndian(|d| - 2, 2) && d[6..8] == cmd && d[8] == Checksum(payload)
             && d[HEADER..] == Encoded(payload)
    requires d[2] == 'B' as int && d[3] == 'Y' as int && d[4] == 1 && d[5] == 1
    ensures FromBigEndian(cmd) < 0x1_0000 && d == Sealed(FromBigEndian(cmd), payload)
  {
    hide Checksum, Encoded, FromBigEndian;
    CmdBytes(cmd);
    assert d == d[0..2] + [d[2], d[3], d[4], d[5]] + d[6..8] + [d[8]] + d[HEADER..];
  }

  // memcpy of a value into the buffer
  method StoreBytes(a: array<byte>, at: nat, s: seq<byte>)
    requires at + |s| <= a.Length
    modifies a
    ensures a[..] == old(a[..at]) + s + old(a[at + |s|..])
  {
    for i := 0 to |s|
      invariant forall k :: 0 <= k < a.Length ==> a[k] == if at <= k < at + i then s[k - at] else old(a[k])
    {
      a[at + i] := s[i];
    }
  }
}

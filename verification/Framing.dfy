/** How the server cuts the byte stream of a client into packets, whatever chunks it arrives in. */
module Framing {
  import opened WireCodec
  import opened Packet

  const MAX_PKG_LEN := 8 * 1000

  predicate Marked(d: seq<byte>)
    requires HEADER <= |d|
  {
    d[2] == 'B' as int && d[3] == 'Y' as int
  }

  // The length that the header announces for the whole packet.
  function Announced(d: seq<byte>): (n: nat)
    requires HEADER <= |d|
    ensures 2 <= n
  {
    2 + FromBigEndian(d[..2])
  }

  lemma AnnouncedBytes(d: seq<byte>)
    ensures HEADER <= |d| ==> Announced(d) == 2 + d[0] as int * 256 + d[1] as int
  {
    if HEADER <= |d| {
      var s := d[..2];
      assert s[..1] == [d[0]] && s[1] == d[1] && s[..1][..0] == [];
      assert FromBigEndian(s[..1]) == d[0];
    }
  }

  // HandleInput: the length of the packet at the front of d; 0 when more bytes are needed; -1 when it
  // cannot become a packet.
  function HandleInput(d: seq<byte>): (r: int)
    ensures -1 <= r <= |d|
    ensures r == -1 <==> HEADER <= |d| && !(Marked(d) && Announced(d) <= MAX_PKG_LEN)
    ensures r == 0 <==> |d| < HEADER || (Marked(d) && |d| < Announced(d) <= MAX_PKG_LEN)
    ensures 0 < r ==> r == Announced(d)
    ensures 9 <= |d| ==> var n := 2 + d[0] as int * 256 + d[1] as int;
                         r == if d[2] != 66 || d[3] != 89 || 8000 < n then -1 else if |d| < n then 0 else n
  {
    AnnouncedBytes(d);
    if |d| < HEADER then 0
    else if d[2] != 'B' as int || d[3] != 'Y' as int then -1
    else
      var n := 2 + d[0] as int * 256 + d[1] as int;
      if n > MAX_PKG_LEN then -1 else if |d| < n then 0 else n
  }

  // A verdict once given does not depend on what follows.
  lemma VerdictStable(d: seq<byte>, e: seq<byte>)
    requires HandleInput(d) != 0
    ensures HandleInput(d + e) == HandleInput(d)
            && (HandleInput(d) > 0 ==> (d + e)[..HandleInput(d)] == d[..HandleInput(d)])
  {
  }

  // Whether the handler accepts a packet, given those before it.
  type Handler = (seq<seq<byte>>, seq<byte>) -> bool

  // The packets given to the handler, the bytes not yet used, and whether the connection failed.
  datatype State = State(packets: seq<seq<byte>>, rest: seq<byte>, fatal: bool)

  // The loop of proc_pkg over the buffer d.
  function Dispatch(h: Handler, log: seq<seq<byte>>, d: seq<byte>): State
    decreases |d|
  {
    if d == [] then State(log, d, false) else
    var n := HandleInput(d);
    if n < 0 then State(log, d, true)
    else if n == 0 then State(log, d, false)
    else if !h(log, d[..n]) then State(log + [d[..n]], d, true)
    else Dispatch(h, log + [d[..n]], d[n..])
  }

  // One chunk received.
  function Receive(h: Handler, s: State, chunk: seq<byte>): State {
    if s.fatal then s else Dispatch(h, s.packets, s.rest + chunk)
  }

  // A run: chunk after chunk, until the connection fails.
  function Run(h: Handler, chunks: seq<seq<byte>>): State {
    if chunks == [] then State([], [], false)
    else Receive(h, Run(h, chunks[..|chunks| - 1]), chunks[|chunks| - 1])
  }

  function Concat(parts: seq<seq<byte>>): seq<byte> {
    if parts == [] then [] else Concat(parts[..|parts| - 1]) + parts[|parts| - 1]
  }

  // Dispatching may stop anywhere and go on when more bytes have come.
  lemma {:induction false} DispatchResumes(h: Handler, log: seq<seq<byte>>, d: seq<byte>, e: seq<byte>)
    ensures var s, t := Dispatch(h, log, d), Dispatch(h, log, d + e);
            if s.fatal then t.fatal && t.packets == s.packets else t == Dispatch(h, s.packets, s.rest + e)
    decreases |d|
  {
    if d == [] {
      assert d + e == e && [] + e == e;
    } else if HandleInput(d) != 0 {
      var n := HandleInput(d);
      VerdictStable(d, e);
      if n > 0 {
        DispatchResumes(h, log + [d[..n]], d[n..], e);
        assert (d + e)[n..] == d[n..] + e;
      }
    }
  }

  // Packets and failure depend on the bytes alone, not on how they were cut into chunks.
  lemma {:induction false} ChunkingIrrelevant(h: Handler, chunks: seq<seq<byte>>)
    ensures var s, t := Run(h, chunks), Dispatch(h, [], Concat(chunks));
            s.packets == t.packets && s.fatal == t.fatal && (!s.fatal ==> s == t)
    decreases |chunks|
  {
    if chunks != [] {
      var k := |chunks| - 1;
      ChunkingIrrelevant(h, chunks[..k]);
      DispatchResumes(h, [], Concat(chunks[..k]), chunks[k]);
    }
  }

  lemma SameBytesSameResult(h: Handler, chunks: seq<seq<byte>>, other: seq<seq<byte>>)
    requires Concat(chunks) == Concat(other)
    ensures Run(h, chunks).packets == Run(h, other).packets && Run(h, chunks).fatal == Run(h, other).fatal
  {
    ChunkingIrrelevant(h, chunks);
    ChunkingIrrelevant(h, other);
  }

  // ---- from client to server ----

  ghost predicate ClientPacket(p: seq<byte>) {
    |p| <= MAX_PKG_LEN && exists cmd: nat, payload: seq<byte> :: SealedAs(p, cmd, payload)
  }

  ghost predicate SealedAs(p: seq<byte>, cmd: nat, payload: seq<byte>) {
    cmd < 0x1_0000 && HEADER + |payload| < 0x1_0002 && p == Sealed(cmd, payload)
  }

  lemma ClientPacketFramed(p: seq<byte>, e: seq<byte>)
    requires ClientPacket(p)
    ensures HEADER <= |p| && HandleInput(p + e) == |p|
  {
    var cmd, payload :| SealedAs(p, cmd, payload);
    hide Checksum, Encoded;
    LengthBytes(|p| - 2);
    assert p == Header(|p|, cmd, Checksum(payload)) + Encoded(payload);
    assert HandleInput(p) == |p|;
    VerdictStable(p, e);
  }

  lemma LengthBytes(v: nat)
    requires v < 0x1_0000
    ensures BigEndian(v, 2) == [v / 256, v % 256]
  {
    assert BigEndian(v / 256, 1) == BigEndian(v / 256 / 256, 0) + [v / 256 % 256];
  }

  // The packets up to and including the first that the handler rejects.
  function Handled(h: Handler, log: seq<seq<byte>>, ps: seq<seq<byte>>): State
    decreases |ps|
  {
    if ps == [] then State(log, [], false)
    else if !h(log, ps[0]) then State(log + [ps[0]], Join(ps), true)
    else Handled(h, log + [ps[0]], ps[1..])
  }

  function Join(ps: seq<seq<byte>>): seq<byte> {
    if ps == [] then [] else ps[0] + Join(ps[1..])
  }

  lemma {:induction false} JoinIsConcat(ps: seq<seq<byte>>)
    ensures Join(ps) == Concat(ps)
    decreases |ps|
  {
    if |ps| == 1 {
      assert ps[1..] == [] && ps[..0] == [];
    } else if 1 < |ps| {
      var k := |ps| - 1;
      JoinIsConcat(ps[1..]);
      JoinIsConcat(ps[..k]);
      JoinIsConcat(ps[1..][..k - 1]);
      assert ps[1..][..k - 1] == ps[..k][1..] && ps[1..][k - 1] == ps[k];
    }
  }

  lemma {:induction false} PacketsDispatched(h: Handler, log: seq<seq<byte>>, ps: seq<seq<byte>>)
    requires forall i :: 0 <= i < |ps| ==> ClientPacket(ps[i])
    ensures Dispatch(h, log, Join(ps)) == Handled(h, log, ps)
    decreases |ps|
  {
    if ps != [] {
      var rest := Join(ps[1..]);
      ClientPacketFramed(ps[0], rest);
      assert (ps[0] + rest)[..|ps[0]|] == ps[0] && (ps[0] + rest)[|ps[0]|..] == rest;
      PacketsDispatched(h, log + [ps[0]], ps[1..]);
    }
  }

  lemma {:induction false} HandledAll(h: Handler, log: seq<seq<byte>>, ps: seq<seq<byte>>)
    requires forall i :: 0 <= i < |ps| ==> h(log + ps[..i], ps[i])
    ensures Handled(h, log, ps) == State(log + ps, [], false)
    decreases |ps|
  {
    if ps != [] {
      assert log + ps[..0] == log;
      var next := log + [ps[0]];
      forall i | 0 <= i < |ps[1..]| ensures h(next + ps[1..][..i], ps[1..][i]) {
        assert next + ps[1..][..i] == log + ps[..i + 1];
      }
      HandledAll(h, next, ps[1..]);
      assert next + ps[1..] == log + ps;
    }
  }

  // Packets that the client built, sent one after the other and cut into any chunks, reach the handler as
  // they are, in order, up to the first that it rejects; if it rejects none, nothing is left over.
  lemma EndToEnd(h: Handler, ps: seq<seq<byte>>, chunks: seq<seq<byte>>)
    requires forall i :: 0 <= i < |ps| ==> ClientPacket(ps[i])
    requires Concat(chunks) == Concat(ps)
    ensures Run(h, chunks).packets == Handled(h, [], ps).packets && Run(h, chunks).fatal == Handled(h, [], ps).fatal
    ensures (forall i :: 0 <= i < |ps| ==> h(ps[..i], ps[i])) ==> Run(h, chunks) == State(ps, [], false)
  {
    ChunkingIrrelevant(h, chunks);
    JoinIsConcat(ps);
    PacketsDispatched(h, [], ps);
    if forall i :: 0 <= i < |ps| ==> h(ps[..i], ps[i]) {
      forall i | 0 <= i < |ps| ensures h([] + ps[..i], ps[i]) {
        assert [] + ps[..i] == ps[..i];
      }
      HandledAll(h, [], ps);
      assert [] + ps == ps;
    }
  }

  // And the fields written into such a packet are the ones that the other side reads.
  lemma FieldsEndToEnd(h: Handler, cmds: seq<nat>, fields: seq<seq<Field>>, chunks: seq<seq<byte>>)
    requires |cmds| == |fields|
    requires forall i :: 0 <= i < |fields| ==>
               cmds[i] < 0x1_0000 && FieldsOk(fields[i]) && HEADER + |FieldsBytes(fields[i])| <= MAX_PKG_LEN
    requires var ps := seq(|fields|, i requires 0 <= i < |fields| => Sealed(cmds[i], FieldsBytes(fields[i])));
             && Concat(chunks) == Concat(ps) && forall i :: 0 <= i < |ps| ==> h(ps[..i], ps[i])
    ensures var s := Run(h, chunks);
            && !s.fatal && |s.packets| == |fields|
            && forall i :: 0 <= i < |fields| ==>
                 HEADER <= |s.packets[i]| && Open(s.packets[i]) == Opened(FieldsBytes(fields[i]))
                 && FieldsRead(Kinds(fields[i]), Open(s.packets[i]).payload) == fields[i]
  {
    hide Sealed, FieldsBytes, Open, FieldsRead;
    var ps := seq(|fields|, i requires 0 <= i < |fields| => Sealed(cmds[i], FieldsBytes(fields[i])));
    forall i | 0 <= i < |ps| ensures ClientPacket(ps[i]) {
      assert SealedAs(ps[i], cmds[i], FieldsBytes(fields[i]));
    }
    EndToEnd(h, ps, chunks);
    forall i | 0 <= i < |fields|
      ensures Open(ps[i]) == Opened(FieldsBytes(fields[i]))
              && FieldsRead(Kinds(fields[i]), Open(ps[i]).payload) == fields[i]
    {
      OpenUndoesSeal(cmds[i], FieldsBytes(fields[i]));
      FieldsTravel(cmds[i], fields[i]);
    }
  }
}

/** The packets that share the backend stream: a 3-byte header (length, little-endian id) and at
    most 255 bytes of one client's data, or of a command when the id is 0. */
module MuxPackets {
  import opened Streams

  const MAX_PACKET_LEN := 255
  const HEADER_LEN := 3

  datatype Packet = Packet(id: int, payload: Bytes)

  function Encode(p: Packet): (b: Bytes) {
    [|p.payload| % 256, p.id % 256, p.id / 256 % 256] + p.payload
  }

  /** What the multiplexer sends: a 16-bit id and between 1 and 255 bytes. */
  predicate Sendable(p: Packet) {
    0 <= p.id < 65536 && 1 <= |p.payload| <= MAX_PACKET_LEN
  }

  function PacketHead(b: Bytes): (h: Head<Packet>) {
    if |b| > HEADER_LEN && |b| >= b[0] + HEADER_LEN
    then Got(Packet(b[1] as int + 256 * (b[2] as int), b[3..3 + b[0]]), b[0] + HEADER_LEN)
    else More
  }

  /** The three header bytes: the length, then the id, lower byte first. */
  lemma PacketLayout(p: Packet)
    requires Sendable(p)
    ensures var b := Encode(p);
      |b| == 3 + |p.payload| && b[0] == |p.payload| && b[1] as int + 256 * b[2] as int == p.id && b[3..] == p.payload
  {
    assert p.id == p.id / 256 * 256 + p.id % 256;
  }

  lemma PacketHeadStable()
    ensures Stable(PacketHead) && Drain(PacketHead, []) == ([], [])
  {
    forall b: Bytes, x: Bytes | PacketHead(b).Got?
      ensures PacketHead(b + x) == PacketHead(b)
    {
      assert (b + x)[3..3 + b[0]] == b[3..3 + b[0]];
    }
  }

  lemma PacketDecodes()
    ensures Decodes(PacketHead, Encode, Sendable)
  {
    forall p: Packet, x: Bytes | Sendable(p)
      ensures PacketHead(Encode(p) + x) == Got(p, |Encode(p)|)
    {
      var b := Encode(p) + x;
      assert b[0] == |p.payload| && b[1] == p.id % 256 && b[2] == p.id / 256;
      assert b[3..3 + b[0]] == p.payload;
    }
  }

  /** Any packets, in any TCP chunks, arrive as they were sent. */
  lemma PacketsRoundTrip(ps: seq<Packet>, chunks: seq<Bytes>)
    requires (forall i :: 0 <= i < |ps| ==> Sendable(ps[i])) && Concat(chunks) == EncodeAll(Encode, ps)
    ensures Feed(PacketHead, [], chunks) == (ps, [])
  {
    PacketHeadStable();
    PacketDecodes();
    assert EncodeAll(Encode, ps) + [] == EncodeAll(Encode, ps);
    StreamRoundTrip(PacketHead, Encode, Sendable, ps, [], chunks);
  }

  /** Why a packet needs a payload: an empty one stays in the buffer until something follows it. */
  lemma EmptyPacketWaits(id: int, x: Bytes)
    requires 0 <= id < 65536
    ensures var p := Packet(id, []);
      PacketHead(Encode(p) + x) == if x == [] then More else Got(p, |Encode(p)|)
  {
    var b := Encode(Packet(id, [])) + x;
    assert b[0] == 0 && b[1] == id % 256 && b[2] == id / 256;
  }

  // ----- cutting a client's bytes

  function Cut(id: int, b: Bytes): (ps: seq<Packet>) {
    if |b| > MAX_PACKET_LEN then [Packet(id, b[..MAX_PACKET_LEN])] + Cut(id, b[MAX_PACKET_LEN..])
    else if |b| > 0 then [Packet(id, b)]
    else []
  }

  /** The packets of one id, and the bytes they carry. */
  function OnlyOf(ps: seq<Packet>, id: int): (r: seq<Packet>) {
    if ps == [] then [] else (if ps[0].id == id then [ps[0]] else []) + OnlyOf(ps[1..], id)
  }

  function PayloadOf(ps: seq<Packet>, id: int): (b: Bytes) {
    if ps == [] then [] else (if ps[0].id == id then ps[0].payload else []) + PayloadOf(ps[1..], id)
  }

  function CutAll(id: int, msgs: seq<Bytes>): (ps: seq<Packet>) {
    if msgs == [] then [] else Cut(id, msgs[0]) + CutAll(id, msgs[1..])
  }

  lemma {:induction false} PayloadAppend(a: seq<Packet>, b: seq<Packet>, id: int)
    ensures PayloadOf(a + b, id) == PayloadOf(a, id) + PayloadOf(b, id)
  {
    if a == [] {
      assert a + b == b;
    } else {
      assert (a + b)[1..] == a[1..] + b;
      PayloadAppend(a[1..], b, id);
    }
  }

  lemma {:induction false} PayloadOnlyOf(ps: seq<Packet>, id: int)
    ensures PayloadOf(OnlyOf(ps, id), id) == PayloadOf(ps, id)
  {
    if ps != [] {
      PayloadOnlyOf(ps[1..], id);
      var head := if ps[0].id == id then [ps[0]] else [];
      PayloadAppend(head, OnlyOf(ps[1..], id), id);
    }
  }

  /** Cutting keeps the bytes and their order, in packets that may be sent. */
  lemma {:induction false} CutKeeps(id: int, b: Bytes)
    ensures PayloadOf(Cut(id, b), id) == b
    ensures 0 <= id < 65536 ==> forall i :: 0 <= i < |Cut(id, b)| ==> Sendable(Cut(id, b)[i])
    decreases |b|
  {
    if |b| > MAX_PACKET_LEN {
      var head, rest := b[..MAX_PACKET_LEN], b[MAX_PACKET_LEN..];
      CutKeeps(id, rest);
      PayloadAppend([Packet(id, head)], Cut(id, rest), id);
      assert PayloadOf([Packet(id, head)], id) == head;
      assert head + rest == b;
    } else if |b| > 0 {
      assert PayloadOf([Packet(id, b)], id) == b;
    }
  }

  lemma {:induction false} CutAllKeeps(id: int, msgs: seq<Bytes>)
    ensures PayloadOf(CutAll(id, msgs), id) == Concat(msgs)
  {
    if msgs != [] {
      CutAllKeeps(id, msgs[1..]);
      CutKeeps(id, msgs[0]);
      PayloadAppend(Cut(id, msgs[0]), CutAll(id, msgs[1..]), id);
    }
  }

  /** However the packets of the clients interleave on the backend stream and however TCP cuts
      it, the bytes decoded for an id are the bytes its client sent, in order. */
  lemma EachClientsBytes(ps: seq<Packet>, id: int, msgs: seq<Bytes>, chunks: seq<Bytes>)
    requires forall i :: 0 <= i < |ps| ==> Sendable(ps[i])
    requires OnlyOf(ps, id) == CutAll(id, msgs) && Concat(chunks) == EncodeAll(Encode, ps)
    ensures PayloadOf(Feed(PacketHead, [], chunks).0, id) == Concat(msgs)
  {
    PacketsRoundTrip(ps, chunks);
    PayloadOnlyOf(ps, id);
    CutAllKeeps(id, msgs);
  }

  lemma {:induction false} EncodeAllAppend(a: seq<Packet>, p: Packet)
    ensures EncodeAll(Encode, a + [p]) == EncodeAll(Encode, a) + Encode(p)
  {
    if a == [] {
      assert a + [p] == [p] && EncodeAll(Encode, [p]) == Encode(p) + [];
    } else {
      assert (a + [p])[1..] == a[1..] + [p];
      EncodeAllAppend(a[1..], p);
    }
  }

  // ----- the sending and the receiving loop

  method SendBackendPacket(id: int, buf: Buffer) returns (sent: Bytes)
    requires |buf.data| <= MAX_PACKET_LEN
    modifies buf
    ensures sent == Encode(Packet(id, old(buf.data))) && buf.data == []
  {
    var len := |buf.data|;
    buf.Prepend([len % 256, id % 256, id / 256 % 256]);
    sent := buf.data;
    buf.RetrieveAll();
  }

  /** The bytes that reach the backend connection while it is up. */
  method SendBackendBuffer(id: int, buf: Buffer) returns (sent: Bytes)
    modifies buf
    ensures sent == EncodeAll(Encode, Cut(id, old(buf.data))) && buf.data == []
  {
    sent := [];
    ghost var done: seq<Packet> := [];
    while |buf.data| > MAX_PACKET_LEN
      invariant sent == EncodeAll(Encode, done)
      invariant done + Cut(id, buf.data) == Cut(id, old(buf.data))
      decreases |buf.data|
    {
      var packet := new Buffer();
      packet.Append(buf.data[..MAX_PACKET_LEN]);
      ghost var p := Packet(id, buf.data[..MAX_PACKET_LEN]);
      assert packet.data == p.payload;
      ghost var rest := Cut(id, buf.data[MAX_PACKET_LEN..]);
      assert done + ([p] + rest) == (done + [p]) + rest;
      buf.Retrieve(MAX_PACKET_LEN);
      var wire := SendBackendPacket(id, packet);
      EncodeAllAppend(done, p);
      sent := sent + wire;
      done := done + [p];
    }
    if |buf.data| > 0 {
      EncodeAllAppend(done, Packet(id, buf.data));
      var wire := SendBackendPacket(id, buf);
      sent := sent + wire;
    } else {
      assert done + [] == done;
    }
  }

  /** What packets make the multiplexer send, and to whom; `table(k)` is the client table at the
      moment packet `k` is looked up. */
  function Deliver(table: nat -> map<int, nat>, ps: seq<Packet>): (out: seq<(nat, Bytes)>) {
    if ps == [] then []
    else
      var n := |ps| - 1;
      Deliver(table, ps[..n]) + if ps[n].id in table(n) then [(table(n)[ps[n].id], ps[n].payload)] else []
  }

  method SendToClient(buf: Buffer, table: nat -> map<int, nat>) returns (out: seq<(nat, Bytes)>)
    modifies buf
    ensures out == Deliver(table, Drain(PacketHead, old(buf.data)).0)
    ensures buf.data == Drain(PacketHead, old(buf.data)).1
  {
    out := [];
    var k := 0;
    ghost var whole, done := buf.data, [];
    DrainStart(PacketHead, whole);
    while |buf.data| > HEADER_LEN
      invariant k == |done| && out == Deliver(table, done) && Draining(PacketHead, whole, done, buf.data)
      decreases |buf.data|
    {
      var len := buf.data[0];
      if |buf.data| < len + HEADER_LEN {
        break;
      }
      var id := buf.data[1] as int + 256 * (buf.data[2] as int);
      var payload := buf.data[HEADER_LEN..HEADER_LEN + len];
      ghost var p := Packet(id, payload);
      DrainStep(PacketHead, whole, done, buf.data, p, len + HEADER_LEN);
      assert (done + [p])[..|done|] == done;
      var clientConns := table(k);
      if id in clientConns {
        out := out + [(clientConns[id], payload)];
      }
      buf.Retrieve(len + HEADER_LEN);
      done, k := done + [p], k + 1;
    }
    DrainEnd(PacketHead, whole, done, buf.data);
  }

  /** What was sent to one client. */
  function BytesTo(out: seq<(nat, Bytes)>, c: nat): (b: Bytes) {
    if out == [] then [] else BytesTo(out[..|out| - 1], c) + if out[|out| - 1].0 == c then out[|out| - 1].1 else []
  }

  /** `c`, and only `c`, is reached by `id`, and by no other id. */
  predicate HoldsAlone(conns: map<int, nat>, id: int, c: nat) {
    id in conns && conns[id] == c && forall i :: i in conns && conns[i] == c ==> i == id
  }

  lemma {:induction false} PayloadLast(ps: seq<Packet>, p: Packet, id: int)
    ensures PayloadOf(ps + [p], id) == PayloadOf(ps, id) + if p.id == id then p.payload else []
  {
    PayloadAppend(ps, [p], id);
    assert [p][1..] == [] && p.payload + [] == p.payload;
  }

  lemma BytesToLast(out: seq<(nat, Bytes)>, to: nat, b: Bytes, c: nat)
    ensures BytesTo(out + [(to, b)], c) == BytesTo(out, c) + if to == c then b else []
  {
    assert (out + [(to, b)])[..|out|] == out;
  }

  lemma DeliverLast(table: nat -> map<int, nat>, ps: seq<Packet>, p: Packet, id: int, c: nat)
    requires HoldsAlone(table(|ps|), id, c)
    ensures BytesTo(Deliver(table, ps + [p]), c) == BytesTo(Deliver(table, ps), c) + if p.id == id then p.payload else []
  {
    var n, out := |ps|, Deliver(table, ps);
    assert (ps + [p])[..n] == ps;
    if p.id in table(n) {
      BytesToLast(out, table(n)[p.id], p.payload, c);
    } else {
      assert out + [] == out && BytesTo(out, c) + [] == BytesTo(out, c);
    }
  }

  /** A client that keeps its id is sent exactly the payloads of that id, in order. */
  lemma {:induction false} HolderGetsItsBytes(table: nat -> map<int, nat>, ps: seq<Packet>, id: int, c: nat)
    requires forall k: nat :: k < |ps| ==> HoldsAlone(table(k), id, c)
    ensures BytesTo(Deliver(table, ps), c) == PayloadOf(ps, id)
  {
    if ps != [] {
      var n := |ps| - 1;
      HolderGetsItsBytes(table, ps[..n], id, c);
      PayloadLast(ps[..n], ps[n], id);
      DeliverLast(table, ps[..n], ps[n], id, c);
      assert ps == ps[..n] + [ps[n]];
    }
  }
}

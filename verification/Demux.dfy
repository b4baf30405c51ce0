/** The other end of the multiplexed stream: each client gets its own socks connection, and its
    bytes wait in a per-entry buffer until that connection is up. */
module Demux {
  import opened Streams
  import opened TextNumbers
  import opened MuxPackets

  /** `handed` is everything sent on the entry's socks connection so far. */
  datatype Entry = Entry(connected: bool, pending: Bytes, handed: Bytes)

  type Table = map<int, Entry>

  datatype Event = Arrived(p: Packet) | SocksUp(id: int) | SocksDown(id: int, serverUp: bool) | ServerLost

  // ----- commands

  const CONN_LEN := 5

  function CommandId(cmd: Bytes): (id: int)
    requires |cmd| >= CONN_LEN
  {
    Atoi(cmd[CONN_LEN..])
  }

  predicate CommandIsUp(cmd: Bytes) {
    Contains(cmd, Text(" IS UP"))
  }

  /** The command packets of the multiplexer; `addr` is the peer's address and port. */
  function FormatCommand(id: nat, addr: Bytes, up: bool): (cmd: Bytes) {
    Text("CONN ") + (Print(id) + (Text(" FROM ") + (addr + Text(if up then " IS UP\r\n" else " IS DOWN\r\n"))))
  }

  lemma CommandIdReadBack(id: nat, addr: Bytes, up: bool)
    ensures |FormatCommand(id, addr, up)| >= CONN_LEN && CommandId(FormatCommand(id, addr, up)) == id
  {
    var rest := Text(" FROM ") + (addr + Text(if up then " IS UP\r\n" else " IS DOWN\r\n"));
    assert FormatCommand(id, addr, up)[CONN_LEN..] == Print(id) + rest;
    assert rest[0] == SPACE;
    AtoiPrinted(id, rest);
  }

  lemma UpIsRecognised(id: nat, addr: Bytes)
    ensures CommandIsUp(FormatCommand(id, addr, true))
  {
    var pat := Text(" IS UP");
    var pre := Text("CONN ") + (Print(id) + (Text(" FROM ") + addr));
    var cmd := FormatCommand(id, addr, true);
    assert cmd == pre + Text(" IS UP\r\n");
    assert cmd[|pre|..|pre| + |pat|] == pat;
    assert Occurs(cmd, pat, |pre|);
  }

  predicate Lacks(b: Bytes, c: Byte) {
    forall i :: 0 <= i < |b| ==> b[i] != c
  }

  lemma LacksConcat(a: Bytes, b: Bytes, c: Byte)
    requires Lacks(a, c) && Lacks(b, c)
    ensures Lacks(a + b, c)
  {
  }

  const CAPITAL_I: Byte := 73

  /** An address has no capital letters, so DOWN is never taken for UP. */
  lemma DownIsRecognised(id: nat, addr: Bytes)
    requires Lacks(addr, CAPITAL_I)
    ensures !CommandIsUp(FormatCommand(id, addr, false))
  {
    var pat, end := Text(" IS UP"), Text(" IS DOWN\r\n");
    var pre := Text("CONN ") + (Print(id) + (Text(" FROM ") + addr));
    LacksConcat(Text(" FROM "), addr, CAPITAL_I);
    LacksConcat(Print(id), Text(" FROM ") + addr, CAPITAL_I);
    LacksConcat(Text("CONN "), Print(id) + (Text(" FROM ") + addr), CAPITAL_I);
    assert FormatCommand(id, addr, false) == pre + end;
    forall k | Occurs(pre + end, pat, k)
      ensures false
    {
      NotInDown(pre, k);
    }
  }

  lemma NotInDown(pre: Bytes, k: int)
    requires Lacks(pre, CAPITAL_I)
    ensures !Occurs(pre + Text(" IS DOWN\r\n"), Text(" IS UP"), k)
  {
    var pat, end := Text(" IS UP"), Text(" IS DOWN\r\n");
    var cmd := pre + end;
    if 0 <= k <= |cmd| - |pat| {
      assert cmd[k..k + |pat|][1] == cmd[k + 1];
      assert cmd[k..k + |pat|][4] == cmd[k + 4];
      assert k + 1 < |pre| ==> cmd[k + 1] == pre[k + 1];
      assert k + 1 >= |pre| ==> cmd[k + 1] == end[k + 1 - |pre|];
      assert k == |pre| ==> cmd[k + 4] == end[4];
    }
  }

  /** The demultiplexer reads every command as the multiplexer meant it. */
  lemma CommandRoundTrip(id: nat, addr: Bytes, up: bool)
    requires Lacks(addr, CAPITAL_I)
    ensures |FormatCommand(id, addr, up)| >= CONN_LEN
    ensures CommandId(FormatCommand(id, addr, up)) == id && CommandIsUp(FormatCommand(id, addr, up)) == up
  {
    CommandIdReadBack(id, addr, up);
    if up {
      UpIsRecognised(id, addr);
    } else {
      DownIsRecognised(id, addr);
    }
  }

  // ----- one event

  /** The assertions the server makes about what it is told. */
  predicate Accepts(t: Table, e: Event) {
    match e
    case Arrived(p) =>
      if p.id != 0 then p.id in t
      else |p.payload| >= CONN_LEN && (CommandIsUp(p.payload) <==> CommandId(p.payload) !in t)
    case SocksUp(id) => id in t
    case SocksDown(id, _) => id in t
    case ServerLost => true
  }

  function Handle(t: Table, e: Event): (r: Table)
    requires Accepts(t, e)
  {
    match e
    case Arrived(p) =>
      if p.id != 0 then
        var x := t[p.id];
        t[p.id := if x.connected then x.(handed := x.handed + p.payload) else x.(pending := x.pending + p.payload)]
      else
        var id := CommandId(p.payload);
        if CommandIsUp(p.payload) then t[id := Entry(false, [], [])]
        else if t[id].connected then t
        else t - {id}
    case SocksUp(id) =>
      t[id := Entry(true, [], t[id].handed + t[id].pending)]
    case SocksDown(id, serverUp) =>
      if serverUp then t else t - {id}
    case ServerLost => map[]
  }

  // ----- the server object

  class DemuxServer {
    var serverConn: bool
    var socksConns: Table

    constructor ()
      ensures socksConns == map[] && !serverConn
    {
      socksConns, serverConn := map[], false;
    }

    method DoCommand(cmd: Bytes)
      requires |cmd| >= CONN_LEN && (CommandIsUp(cmd) <==> CommandId(cmd) !in socksConns)
      modifies `socksConns
      ensures socksConns == Handle(old(socksConns), Arrived(Packet(0, cmd)))
    {
      var connId := Atoi(cmd[CONN_LEN..]);
      var isUp := Contains(cmd, Text(" IS UP"));
      if isUp {
        socksConns := socksConns[connId := Entry(false, [], [])];
      } else if !socksConns[connId].connected {
        socksConns := socksConns - {connId};
      }
    }

    method OnPacket(id: int, payload: Bytes)
      requires Accepts(socksConns, Arrived(Packet(id, payload)))
      modifies `socksConns
      ensures socksConns == Handle(old(socksConns), Arrived(Packet(id, payload)))
    {
      if id != 0 {
        var x := socksConns[id];
        if x.connected {
          socksConns := socksConns[id := x.(handed := x.handed + payload)];
        } else {
          socksConns := socksConns[id := x.(pending := x.pending + payload)];
        }
      } else {
        DoCommand(payload);
      }
    }

    /** The body of the receiving loop: one complete packet at the head of the buffer. */
    method OnHeadPacket(b: Bytes) returns (n: nat)
      requires PacketHead(b).Got? && Accepts(socksConns, Arrived(PacketHead(b).msg))
      modifies `socksConns
      ensures PacketHead(b) == Got(PacketHead(b).msg, n) && 0 < n <= |b|
      ensures socksConns == Handle(old(socksConns), Arrived(PacketHead(b).msg))
    {
      var len := b[0];
      var connId := b[1] as int + 256 * (b[2] as int);
      OnPacket(connId, b[HEADER_LEN..HEADER_LEN + len]);
      n := len + HEADER_LEN;
    }

    /** The head packet is handled and leaves the buffer. */
    method TakePacket(buf: Buffer, ghost t0: Table, ghost whole: Bytes, ghost done: seq<Packet>) returns (ghost done': seq<Packet>)
      requires PacketHead(buf.data).Got? && Progress(t0, whole, done, buf.data, socksConns)
      modifies buf, `socksConns
      ensures Progress(t0, whole, done', buf.data, socksConns) && |buf.data| < |old(buf.data)|
    {
      done' := ProgressStep(t0, whole, done, buf.data, socksConns);
      var n := OnHeadPacket(buf.data);
      buf.Retrieve(n);
    }

    method OnServerMessage(buf: Buffer)
      requires AllAccepted(socksConns, Arrivals(Drain(PacketHead, buf.data).0))
      modifies buf, `socksConns
      ensures buf.data == Drain(PacketHead, old(buf.data)).1
      ensures socksConns == HandleAll(old(socksConns), Arrivals(Drain(PacketHead, old(buf.data)).0))
    {
      ghost var whole, done, t0 := buf.data, [], socksConns;
      ProgressStart(t0, whole);
      while |buf.data| > HEADER_LEN
        invariant Progress(t0, whole, done, buf.data, socksConns)
        decreases |buf.data|
      {
        var len := buf.data[0];
        if |buf.data| < len + HEADER_LEN {
          break;
        }
        HeadIsComplete(buf.data);
        done := TakePacket(buf, t0, whole, done);
      }
      ProgressEnd(t0, whole, done, buf.data, socksConns);
    }

    method OnSocksUp(id: int)
      requires id in socksConns
      modifies `socksConns
      ensures socksConns == Handle(old(socksConns), SocksUp(id))
    {
      var x := socksConns[id].(connected := true);
      assert |x.pending| == 0 ==> x.handed + x.pending == x.handed;
      if |x.pending| > 0 {
        x := x.(handed := x.handed + x.pending, pending := []);
      }
      socksConns := socksConns[id := x];
    }

    method OnSocksDown(id: int)
      requires id in socksConns
      modifies `socksConns
      ensures socksConns == Handle(old(socksConns), SocksDown(id, serverConn))
    {
      if !serverConn {
        socksConns := socksConns - {id};
      }
    }

    method OnServerDown()
      modifies this
      ensures socksConns == Handle(old(socksConns), ServerLost) && !serverConn
    {
      serverConn := false;
      socksConns := map[];
    }
  }

  // ----- sequences of events

  predicate AllAccepted(t: Table, es: seq<Event>)
    decreases |es|, 0
  {
    es == [] || (AllAccepted(t, es[..|es| - 1]) && Accepts(HandleAll(t, es[..|es| - 1]), es[|es| - 1]))
  }

  function HandleAll(t: Table, es: seq<Event>): (r: Table)
    requires AllAccepted(t, es)
    decreases |es|, 1
  {
    if es == [] then t else Handle(HandleAll(t, es[..|es| - 1]), es[|es| - 1])
  }

  function Arrivals(ps: seq<Packet>): (es: seq<Event>)
    ensures |es| == |ps| && forall i :: 0 <= i < |ps| ==> es[i] == Arrived(ps[i])
  {
    seq(|ps|, i requires 0 <= i < |ps| => Arrived(ps[i]))
  }

  lemma {:induction false} AcceptedPrefix(t: Table, es: seq<Event>, k: nat)
    requires AllAccepted(t, es) && k <= |es|
    ensures AllAccepted(t, es[..k])
  {
    if k == |es| {
      assert es[..k] == es;
    } else {
      AcceptedPrefix(t, es[..|es| - 1], k);
      assert es[..|es| - 1][..k] == es[..k];
    }
  }

  lemma NextAccepted(t: Table, done: seq<Packet>, p: Packet, rest: seq<Packet>)
    requires AllAccepted(t, Arrivals(done + [p] + rest))
    ensures AllAccepted(t, Arrivals(done)) && AllAccepted(t, Arrivals(done + [p]))
    ensures Accepts(HandleAll(t, Arrivals(done)), Arrived(p))
    ensures HandleAll(t, Arrivals(done + [p])) == Handle(HandleAll(t, Arrivals(done)), Arrived(p))
  {
    var all := Arrivals(done + [p] + rest);
    var n := |done|;
    AcceptedPrefix(t, all, n + 1);
    assert all[..n + 1] == Arrivals(done + [p]);
    assert Arrivals(done + [p])[..n] == Arrivals(done);
  }

  /** The receiving loop has handled `done`, the table is now `t` and `b` is still to be read. */
  ghost predicate Progress(t0: Table, whole: Bytes, done: seq<Packet>, b: Bytes, t: Table) {
    var draining := Draining(PacketHead, whole, done, b);
    var accepted := AllAccepted(t0, Arrivals(Drain(PacketHead, whole).0));
    draining && accepted && Handled(t0, done, t)
  }

  ghost predicate Handled(t0: Table, done: seq<Packet>, t: Table) {
    AllAccepted(t0, Arrivals(done)) && t == HandleAll(t0, Arrivals(done))
  }

  lemma ProgressStart(t0: Table, whole: Bytes)
    requires AllAccepted(t0, Arrivals(Drain(PacketHead, whole).0))
    ensures Progress(t0, whole, [], whole, t0)
  {
    DrainStart(PacketHead, whole);
    assert Arrivals([]) == [];
  }

  lemma ProgressEnd(t0: Table, whole: Bytes, done: seq<Packet>, b: Bytes, t: Table)
    requires Progress(t0, whole, done, b, t) && (|b| <= HEADER_LEN || |b| < b[0] + HEADER_LEN)
    ensures b == Drain(PacketHead, whole).1 && t == HandleAll(t0, Arrivals(Drain(PacketHead, whole).0))
  {
    DrainEnd(PacketHead, whole, done, b);
  }

  lemma HeadIsComplete(b: Bytes)
    requires |b| > HEADER_LEN && |b| >= b[0] + HEADER_LEN
    ensures PacketHead(b).Got? && PacketHead(b).used == b[0] + HEADER_LEN
  {
  }

  lemma ProgressStep(t0: Table, whole: Bytes, done: seq<Packet>, b: Bytes, t: Table) returns (done': seq<Packet>)
    requires Progress(t0, whole, done, b, t) && PacketHead(b).Got?
    ensures var e := Arrived(PacketHead(b).msg);
      Accepts(t, e) && Progress(t0, whole, done', b[PacketHead(b).used..], Handle(t, e))
  {
    var p, n := PacketHead(b).msg, PacketHead(b).used;
    done' := done + [p];
    DrainStep(PacketHead, whole, done, b, p, n);
    NextAccepted(t0, done, p, Drain(PacketHead, b[n..]).0);
  }

  // ----- sessions

  /** Losing the server connection ends a session: what comes after starts from nothing. */
  lemma {:induction false} LossSplits(a: seq<Event>, b: seq<Event>)
    ensures AllAccepted(map[], a + [ServerLost] + b) <==> AllAccepted(map[], a) && AllAccepted(map[], b)
    ensures AllAccepted(map[], a + [ServerLost] + b) ==> HandleAll(map[], a + [ServerLost] + b) == HandleAll(map[], b)
    decreases |b|
  {
    var all := a + [ServerLost] + b;
    if b == [] {
      assert all[..|a|] == a && all[|a|] == ServerLost;
    } else {
      var n := |b| - 1;
      LossSplits(a, b[..n]);
      assert all[..|a| + 1 + n] == a + [ServerLost] + b[..n] && all[|a| + 1 + n] == b[n];
    }
  }

  /** Sessions one after the other, the server connection being lost in between. */
  function Sessions(ess: seq<seq<Event>>): (es: seq<Event>) {
    if ess == [] then []
    else if |ess| == 1 then ess[0]
    else Sessions(ess[..|ess| - 1]) + [ServerLost] + ess[|ess| - 1]
  }

  lemma {:induction false} SessionsApart(ess: seq<seq<Event>>)
    requires ess != []
    ensures AllAccepted(map[], Sessions(ess)) <==> forall j :: 0 <= j < |ess| ==> AllAccepted(map[], ess[j])
    ensures AllAccepted(map[], Sessions(ess)) ==> HandleAll(map[], Sessions(ess)) == HandleAll(map[], ess[|ess| - 1])
  {
    var m := |ess| - 1;
    if m > 0 {
      SessionsApart(ess[..m]);
      LossSplits(Sessions(ess[..m]), ess[m]);
      assert forall j :: 0 <= j < m ==> ess[..m][j] == ess[j];
    }
  }

  predicate NothingSinceLoss(es: seq<Event>) {
    es == [] || es[|es| - 1].ServerLost? || (!es[|es| - 1].Arrived? && NothingSinceLoss(es[..|es| - 1]))
  }

  /** Without a server connection there are no entries, so no socks connection is left to report. */
  lemma {:induction false} NothingWithoutServer(es: seq<Event>, id: int)
    requires NothingSinceLoss(es) && AllAccepted(map[], es)
    ensures HandleAll(map[], es) == map[]
    ensures !Accepts(HandleAll(map[], es), SocksDown(id, false)) && !Accepts(HandleAll(map[], es), SocksUp(id))
  {
    if es != [] && !es[|es| - 1].ServerLost? {
      NothingWithoutServer(es[..|es| - 1], if es[|es| - 1].SocksUp? || es[|es| - 1].SocksDown? then es[|es| - 1].id else 0);
    }
  }

  // ----- nothing is lost and nothing is held back

  /** How one event changes what has arrived for `id` since its last UP command. */
  function Since(before: Bytes, e: Event, id: int): (b: Bytes) {
    match e
    case Arrived(p) =>
      if p.id == id && id != 0 then before + p.payload
      else if p.id == 0 && |p.payload| >= CONN_LEN && CommandIsUp(p.payload) && CommandId(p.payload) == id then []
      else before
    case _ => before
  }

  /** The payload bytes that have arrived for `id` since its last UP command. */
  function ReceivedSince(es: seq<Event>, id: int): (b: Bytes) {
    if es == [] then [] else Since(ReceivedSince(es[..|es| - 1], id), es[|es| - 1], id)
  }

  predicate Accounts(x: Entry, received: Bytes) {
    && x.handed + x.pending == received
    && (x.connected ==> x.pending == [])
  }

  lemma EntryStep(t: Table, e: Event, id: int, before: Bytes)
    requires Accepts(t, e) && id in Handle(t, e) && (id in t ==> Accounts(t[id], before))
    ensures Accounts(Handle(t, e)[id], Since(before, e, id))
  {
    match e
    case Arrived(p) =>
      if p.id == id && id != 0 {
        var x := t[id];
        assert (x.handed + x.pending) + p.payload == x.handed + (x.pending + p.payload);
        if x.connected {
          assert x.handed + x.pending == x.handed && (x.handed + p.payload) + [] == x.handed + p.payload;
        }
      }
    case SocksUp(i) =>
      if i == id {
        assert (t[id].handed + t[id].pending) + [] == t[id].handed + t[id].pending;
      }
    case _ =>
  }

  /** In every run, what an entry has handed to its socks connection followed by what it still
      holds is what has arrived for it since its UP; and a connected entry holds nothing. */
  lemma {:induction false} EntryAccounts(es: seq<Event>, id: int)
    requires AllAccepted(map[], es) && id in HandleAll(map[], es)
    ensures Accounts(HandleAll(map[], es)[id], ReceivedSince(es, id))
  {
    if es != [] {
      var n := |es| - 1;
      var t := HandleAll(map[], es[..n]);
      if id in t {
        EntryAccounts(es[..n], id);
      }
      EntryStep(t, es[n], id, ReceivedSince(es[..n], id));
    }
  }
}

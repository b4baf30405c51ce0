/** Multiplexer and demultiplexer together: what a session's stream makes of the table at the other
    end, when it arrives cut by TCP in any way and mixed with the events of the socks connections. */
module MuxToDemux {
  import opened Basics
  import opened Streams
  import opened TextNumbers
  import opened Multiplexer
  import MuxPackets
  import Demux

  // ----- what every run puts on the streams

  /** A packet the wire can carry: an id of the pool, and as many bytes as one packet holds. */
  predicate Portable(p: Packet) {
    1 <= p.id <= MAX_CONNS && (p.Data? ==> 0 < |p.bytes| <= MuxPackets.MAX_PACKET_LEN)
  }

  predicate AllPortable(ps: seq<Packet>) {
    forall j :: 0 <= j < |ps| ==> Portable(ps[j])
  }

  ghost predicate PortableState(s: State) {
    && (forall k :: 0 <= k < |s.streams| ==> AllPortable(s.streams[k]))
    && (forall c :: c in s.clients && s.clients[c].phase.Sending? ==> 0 < |s.clients[c].phase.bytes| <= MuxPackets.MAX_PACKET_LEN)
  }

  lemma PortableStep(s: State, step: Step)
    requires Basic(s) && PortableState(s) && Enabled(s, step)
    ensures PortableState(Apply(s, step))
  {
    var r := Apply(s, step);
    forall k | 0 <= k < |r.streams|
      ensures AllPortable(r.streams[k])
    {
      assert k < |s.streams| ==> AllPortable(s.streams[k]);
      if IsSend(step) {
        assert InRange(s.clients[step.conn], |s.streams|);
        assert Portable(SentPacket(s, step));
      }
    }
  }

  /** How often a client has announced itself. */
  function Ups(ps: seq<Packet>, c: nat): (n: nat) {
    if ps == [] then 0 else Ups(ps[..|ps| - 1], c) + if ps[|ps| - 1].Up? && ps[|ps| - 1].owner == c then 1 else 0
  }

  predicate NotAnnounced(s: State, c: nat) {
    c !in s.clients || s.clients[c].phase.Allocated? || s.clients[c].phase.Announcing?
  }

  ghost predicate OnceState(s: State) {
    forall k, c: nat {:trigger Ups(s.streams[k], c)} :: 0 <= k < |s.streams| ==> Ups(s.streams[k], c) <= if NotAnnounced(s, c) then 0 else 1
  }

  lemma UpsLast(ps: seq<Packet>, p: Packet, c: nat)
    ensures Ups(ps + [p], c) == Ups(ps, c) + if p.Up? && p.owner == c then 1 else 0
  {
    assert (ps + [p])[..|ps|] == ps;
  }

  lemma OnceStep(s: State, step: Step)
    requires OnceState(s) && Enabled(s, step)
    ensures OnceState(Apply(s, step))
  {
    var r := Apply(s, step);
    forall k, c: nat | 0 <= k < |r.streams|
      ensures Ups(r.streams[k], c) <= if NotAnnounced(r, c) then 0 else 1
    {
      if k < |s.streams| {
        assert Ups(s.streams[k], c) <= if NotAnnounced(s, c) then 0 else 1;
        if IsSend(step) {
          UpsLast(s.streams[k], SentPacket(s, step), c);
        }
      }
    }
  }

  lemma {:induction false} EveryRunPortable(run: seq<Step>)
    requires IsRun(run)
    ensures PortableState(After(run)) && OnceState(After(run))
  {
    if run != [] {
      var n := |run| - 1;
      EveryRunPortable(run[..n]);
      EveryRunBasic(run[..n]);
      PortableStep(After(run[..n]), run[n]);
      OnceStep(After(run[..n]), run[n]);
    }
  }

  // ----- one id's packets, and one client's

  ghost predicate Unbroken(ps: seq<Packet>) {
    forall id: int :: Read(Restrict(ps, id)) != Broken
  }

  lemma {:induction false} PrefixUnbroken(ps: seq<Packet>, n: nat)
    requires Unbroken(ps) && n <= |ps|
    ensures Unbroken(ps[..n])
  {
    if n == |ps| {
      assert ps[..n] == ps;
    } else {
      var m := |ps| - 1;
      forall id: int
        ensures Read(Restrict(ps[..m], id)) != Broken
      {
        RestrictAppend(ps[..m], ps[m], id);
        assert ps == ps[..m] + [ps[m]];
      }
      PrefixUnbroken(ps[..m], n);
      assert ps[..m][..n] == ps[..n];
    }
  }

  /** The data of an id since its last UP. */
  function SinceUp(ps: seq<Packet>, id: int): (b: Bytes) {
    if ps == [] then []
    else
      var before, p := SinceUp(ps[..|ps| - 1], id), ps[|ps| - 1];
      if p.id != id then before
      else
        match p
        case Up(_, _) => []
        case Data(_, _, bytes) => before + bytes
        case Down(_, _) => before
  }

  /** All the data of a client. */
  function BytesOf(ps: seq<Packet>, c: nat): (b: Bytes) {
    if ps == [] then []
    else
      var p := ps[|ps| - 1];
      BytesOf(ps[..|ps| - 1], c) + if p.Data? && p.owner == c then p.bytes else []
  }

  ghost predicate OnlyOn(ps: seq<Packet>, c: nat, id: int) {
    forall j :: 0 <= j < |ps| && ps[j].owner == c ==> ps[j].id == id
  }

  /** A client that has not announced itself has sent nothing, and holds nothing. */
  lemma {:induction false} SilentBeforeUp(ps: seq<Packet>, c: nat, id: int)
    requires Unbroken(ps) && Ups(ps, c) == 0
    ensures BytesOf(ps, c) == [] && Read(Restrict(ps, id)) != OpenBy(c)
  {
    if ps != [] {
      var n := |ps| - 1;
      var pre, p := ps[..n], ps[n];
      assert ps == pre + [p];
      PrefixUnbroken(ps, n);
      SilentBeforeUp(pre, c, id);
      SilentBeforeUp(pre, c, p.id);
      RestrictAppend(pre, p, id);
      RestrictAppend(pre, p, p.id);
      assert Read(Restrict(ps, p.id)) != Broken;
    }
  }

  /** While a client holds an id, the data since the id's last UP are all the data of that client. */
  lemma {:induction false} HolderData(ps: seq<Packet>, c: nat, id: int)
    requires Unbroken(ps) && Ups(ps, c) <= 1 && OnlyOn(ps, c, id) && Read(Restrict(ps, id)) == OpenBy(c)
    ensures SinceUp(ps, id) == BytesOf(ps, c)
  {
    var n := |ps| - 1;
    var pre, p := ps[..n], ps[n];
    assert ps == pre + [p];
    PrefixUnbroken(ps, n);
    RestrictAppend(pre, p, id);
    if p.id == id && p.Up? {
      SilentBeforeUp(pre, c, id);
    } else {
      HolderData(pre, c, id);
    }
  }

  // ----- what the clients sent, read off the steps alone

  /** The open session, from the steps of the backend connection. */
  function SessionOf(run: seq<Step>): (k: Option<nat>) {
    if run == [] then None
    else
      match run[|run| - 1]
      case BackendConnects => Some(Connects(run[..|run| - 1]))
      case BackendLost => None
      case _ => SessionOf(run[..|run| - 1])
  }

  function Connects(run: seq<Step>): (n: nat) {
    if run == [] then 0 else Connects(run[..|run| - 1]) + if run[|run| - 1].BackendConnects? then 1 else 0
  }

  /** What a client has fetched and not yet sent, and the session it found then. */
  function Fetched(run: seq<Step>, c: nat): (f: Option<(Option<nat>, Bytes)>) {
    if run == [] then None
    else
      var before := run[..|run| - 1];
      match run[|run| - 1]
      case FetchData(d, bytes) => if d == c then Some((SessionOf(before), bytes)) else Fetched(before, c)
      case SendData(d) => if d == c then None else Fetched(before, c)
      case _ => Fetched(before, c)
  }

  /** The bytes of the packets that a client fetched while session `k` was open and then sent. */
  function SentData(run: seq<Step>, k: nat, c: nat): (b: Bytes) {
    if run == [] then []
    else
      var before := run[..|run| - 1];
      var f := Fetched(before, c);
      SentData(before, k, c) + if run[|run| - 1] == SendData(c) && f.Some? && f.value.0 == Some(k) then f.value.1 else []
  }

  /** The protocol's state knows no more and no less. */
  ghost predicate Remembers(s: State, run: seq<Step>, c: nat) {
    && s.pool.backend == SessionOf(run) && |s.streams| == Connects(run)
    && (if c in s.clients && s.clients[c].phase.Sending?
        then Fetched(run, c) == Some((s.clients[c].phase.to, s.clients[c].phase.bytes))
        else Fetched(run, c) == None)
  }

  lemma {:induction false} EveryRunRemembers(run: seq<Step>, c: nat)
    requires IsRun(run)
    ensures Remembers(After(run), run, c)
  {
    if run != [] {
      var n := |run| - 1;
      EveryRunRemembers(run[..n], c);
    }
  }

  lemma BytesOfLast(ps: seq<Packet>, p: Packet, c: nat)
    ensures BytesOf(ps + [p], c) == BytesOf(ps, c) + if p.Data? && p.owner == c then p.bytes else []
  {
    assert (ps + [p])[..|ps|] == ps;
  }

  /** What a step of client `c` puts on stream `k`. */
  function SendsTo(s: State, step: Step, k: nat, c: nat): (b: Bytes)
    requires Enabled(s, step)
  {
    if step == SendData(c) && s.clients[c].phase.to == Some(k) then s.clients[c].phase.bytes else []
  }

  lemma StreamStep(s: State, step: Step, k: nat, c: nat)
    requires Basic(s) && Enabled(s, step) && k < |Apply(s, step).streams|
    ensures k >= |s.streams| ==> Apply(s, step).streams[k] == []
    ensures k < |s.streams| ==> BytesOf(Apply(s, step).streams[k], c) == BytesOf(s.streams[k], c) + SendsTo(s, step, k, c)
  {
    if k < |s.streams| {
      if IsSend(step) && s.clients[step.conn].phase.to == Some(k) {
        var now := Apply(s, step).streams[k];
        assert now == s.streams[k] + [now[|s.streams[k]|]];
        BytesOfLast(s.streams[k], now[|s.streams[k]|], c);
      } else {
        assert Apply(s, step).streams[k] == s.streams[k];
      }
      assert BytesOf(s.streams[k], c) + [] == BytesOf(s.streams[k], c);
    }
  }

  /** A session that has not begun has been sent nothing. */
  lemma {:induction false} NothingAhead(run: seq<Step>, k: nat, c: nat)
    requires IsRun(run) && k >= Connects(run)
    ensures SentData(run, k, c) == []
  {
    if run != [] {
      var n := |run| - 1;
      NothingAhead(run[..n], k, c);
      EveryRunRemembers(run[..n], c);
      EveryRunBasic(run[..n]);
      var s := After(run[..n]);
      assert c in s.clients ==> InRange(s.clients[c], |s.streams|);
    }
  }

  /** In every run, a client's data on a session's stream are exactly the bytes it fetched for that
      session and sent, in order. */
  lemma {:induction false} StreamCarriesSentData(run: seq<Step>, k: nat, c: nat)
    requires IsRun(run) && k < |After(run).streams|
    ensures BytesOf(After(run).streams[k], c) == SentData(run, k, c)
  {
    var n := |run| - 1;
    var s, step := After(run[..n]), run[n];
    EveryRunBasic(run[..n]);
    EveryRunRemembers(run[..n], c);
    StreamStep(s, step, k, c);
    if k < |s.streams| {
      StreamCarriesSentData(run[..n], k, c);
    } else {
      NothingAhead(run[..n], k, c);
    }
  }

  /** Every prefix of a stream was the whole stream at some point of the run. */
  lemma {:induction false} PrefixWasStream(run: seq<Step>, k: nat, ps: seq<Packet>) returns (n: nat)
    requires IsRun(run) && k < |After(run).streams| && ps <= After(run).streams[k]
    ensures n <= |run| && IsRun(run[..n]) && k < |After(run[..n]).streams| && After(run[..n]).streams[k] == ps
    ensures ps == After(run).streams[k] ==> n == |run|
  {
    assert run[..|run|] == run;
    n := |run|;
    if ps != After(run).streams[k] {
      var m := |run| - 1;
      var s := After(run[..m]);
      StreamGrows(s, run[m], k);
      n := PrefixWasStream(run[..m], k, ps);
      assert run[..m][..n] == run[..n];
    }
  }

  lemma StreamGrows(s: State, step: Step, k: nat)
    requires Enabled(s, step) && k < |Apply(s, step).streams|
    ensures var now := Apply(s, step).streams[k];
      if k < |s.streams| then s.streams[k] <= now && |now| <= |s.streams[k]| + 1 else now == []
  {
  }

  // ----- the stream on the wire

  /** Every client's address is short and has no capital I. */
  ghost predicate AddressesOk(addr: nat -> Bytes) {
    forall c: nat :: |addr(c)| <= 200 && Demux.Lacks(addr(c), Demux.CAPITAL_I)
  }

  /** UP and DOWN travel as commands on id 0. */
  function WireOf(p: Packet, addr: nat -> Bytes): (w: MuxPackets.Packet)
    requires p.id >= 0
  {
    match p
    case Up(c, id) => MuxPackets.Packet(0, Demux.FormatCommand(id, addr(c), true))
    case Data(_, id, bytes) => MuxPackets.Packet(id, bytes)
    case Down(c, id) => MuxPackets.Packet(0, Demux.FormatCommand(id, addr(c), false))
  }

  function Wire(ps: seq<Packet>, addr: nat -> Bytes): (ws: seq<MuxPackets.Packet>)
    requires AllPortable(ps)
  {
    if ps == [] then [] else Wire(ps[..|ps| - 1], addr) + [WireOf(ps[|ps| - 1], addr)]
  }

  lemma PrintShort(n: nat)
    requires n < 100
    ensures |Print(n)| <= 2
  {
    if n >= 10 {
      assert Print(n / 10) == [48 + n / 10];
    }
  }

  lemma WireSendable(p: Packet, addr: nat -> Bytes)
    requires Portable(p) && AddressesOk(addr)
    ensures MuxPackets.Sendable(WireOf(p, addr))
  {
    PrintShort(p.id);
    assert |addr(p.owner)| <= 200;
  }

  lemma {:induction false} AllSendable(ps: seq<Packet>, addr: nat -> Bytes)
    requires AllPortable(ps) && AddressesOk(addr)
    ensures forall i :: 0 <= i < |Wire(ps, addr)| ==> MuxPackets.Sendable(Wire(ps, addr)[i])
  {
    if ps != [] {
      AllSendable(ps[..|ps| - 1], addr);
      WireSendable(ps[|ps| - 1], addr);
    }
  }

  // ----- what happens at the other end

  type Event = Demux.Event
  type Table = Demux.Table

  function ArrivedPackets(es: seq<Event>): (ws: seq<MuxPackets.Packet>) {
    if es == [] then []
    else ArrivedPackets(es[..|es| - 1]) + if es[|es| - 1].Arrived? then [es[|es| - 1].p] else []
  }

  ghost predicate CameUp(es: seq<Event>, id: int) {
    exists k :: 0 <= k < |es| && es[k] == Demux.SocksUp(id)
  }

  predicate Opens(e: Event, id: int) {
    e.Arrived? && e.p.id == 0 && |e.p.payload| >= Demux.CONN_LEN && Demux.CommandIsUp(e.p.payload) && Demux.CommandId(e.p.payload) == id
  }

  ghost predicate OpensNew(es: seq<Event>, k: int)
    requires 0 <= k < |es|
  {
    forall id :: Opens(es[k], id) ==> !CameUp(es[..k], id)
  }

  /** What a socks connection reports is about a known entry, while the server connection is up. */
  ghost predicate Reports(es: seq<Event>, k: int)
    requires 0 <= k < |es|
  {
    && !es[k].ServerLost? && (es[k].SocksDown? ==> es[k].serverUp)
    && (!es[k].Arrived? && Demux.AllAccepted(map[], es[..k]) ==> Demux.Accepts(Demux.HandleAll(map[], es[..k]), es[k]))
  }

  ghost predicate Reported(es: seq<Event>) {
    forall k :: 0 <= k < |es| ==> Reports(es, k)
  }

  /** No id is opened again once its socks connection has come up. */
  ghost predicate NeverReopens(es: seq<Event>) {
    forall k :: 0 <= k < |es| ==> OpensNew(es, k)
  }

  lemma ReportedPrefix(es: seq<Event>, n: nat)
    requires Reported(es) && n <= |es|
    ensures Reported(es[..n])
  {
    forall k | 0 <= k < n
      ensures Reports(es[..n], k)
    {
      assert Reports(es, k);
      assert es[..n][..k] == es[..k] && es[..n][k] == es[k];
    }
  }

  lemma NewPrefix(es: seq<Event>, n: nat)
    requires NeverReopens(es) && n <= |es|
    ensures NeverReopens(es[..n])
  {
    forall k | 0 <= k < n
      ensures OpensNew(es[..n], k)
    {
      assert OpensNew(es, k);
      assert es[..n][..k] == es[..k] && es[..n][k] == es[k];
    }
  }

  /** Id `id` at both ends: while a client holds it there is an entry that accounts for the data
      since the UP; an entry nobody holds, or that is connected, has seen its socks connection. */
  predicate InStep(t: Table, ps: seq<Packet>, id: int, cameUp: bool) {
    && (Read(Restrict(ps, id)).OpenBy? ==> id in t && Demux.Accounts(t[id], SinceUp(ps, id)))
    && (id in t && (Read(Restrict(ps, id)).Closed? || t[id].connected) ==> cameUp)
  }

  lemma {:induction false} CameUpLast(es: seq<Event>, e: Event, id: int)
    ensures CameUp(es + [e], id) <==> CameUp(es, id) || e == Demux.SocksUp(id)
  {
    var all := es + [e];
    if k :| 0 <= k < |es| && es[k] == Demux.SocksUp(id) {
      assert all[k] == Demux.SocksUp(id);
    }
    if e == Demux.SocksUp(id) {
      assert all[|es|] == Demux.SocksUp(id);
    }
  }

  /** A packet that keeps its id's brackets whole is accepted, and keeps every id in step. */
  lemma PacketAccepted(t: Table, ps: seq<Packet>, p: Packet, addr: nat -> Bytes, cameUp: bool)
    requires Portable(p) && AddressesOk(addr) && Read(Restrict(ps + [p], p.id)) != Broken
    requires InStep(t, ps, p.id, cameUp) && (p.Up? ==> !cameUp)
    ensures Demux.Accepts(t, Demux.Arrived(WireOf(p, addr)))
  {
    RestrictAppend(ps, p, p.id);
    if !p.Data? {
      assert Demux.Lacks(addr(p.owner), Demux.CAPITAL_I);
      Demux.CommandRoundTrip(p.id, addr(p.owner), p.Up?);
    }
  }

  /** What a packet of the stream does to its own entry, and that it does nothing to entry `i`. */
  ghost predicate Effect(t: Table, p: Packet, r: Table, i: int) {
    && (p.Up? <==> p.id !in t)
    && (p.Up? ==> p.id in r && r[p.id] == Demux.Entry(false, [], []))
    && (p.Data? ==> p.id in r && r[p.id].connected == t[p.id].connected)
    && (p.Down? ==> if t[p.id].connected then p.id in r && r[p.id] == t[p.id] else p.id !in r)
    && (i != p.id ==> (i in r <==> i in t) && (i in t ==> r[i] == t[i]))
  }

  lemma PacketEffect(t: Table, p: Packet, addr: nat -> Bytes, i: int)
    requires Portable(p) && AddressesOk(addr) && Demux.Accepts(t, Demux.Arrived(WireOf(p, addr)))
    ensures Effect(t, p, Demux.Handle(t, Demux.Arrived(WireOf(p, addr))), i)
    ensures p.Data? ==> forall before :: Demux.Since(before, Demux.Arrived(WireOf(p, addr)), p.id) == before + p.bytes
  {
    if !p.Data? {
      assert Demux.Lacks(addr(p.owner), Demux.CAPITAL_I);
      Demux.CommandRoundTrip(p.id, addr(p.owner), p.Up?);
    }
  }

  lemma SinceUpLast(ps: seq<Packet>, p: Packet, id: int)
    ensures SinceUp(ps + [p], id) ==
      if p.id != id || p.Down? then SinceUp(ps, id) else if p.Up? then [] else SinceUp(ps, id) + p.bytes
  {
    assert (ps + [p])[..|ps|] == ps;
  }

  lemma EffectKeepsStep(t: Table, ps: seq<Packet>, p: Packet, r: Table, id: int, cameUp: bool)
    requires Read(Restrict(ps + [p], p.id)) != Broken && InStep(t, ps, id, cameUp) && Effect(t, p, r, id)
    requires p.Data? && p.id == id ==> Demux.Accounts(r[id], SinceUp(ps, id) + p.bytes)
    ensures InStep(r, ps + [p], id, cameUp)
  {
    RestrictAppend(ps, p, id);
    SinceUpLast(ps, p, id);
  }

  lemma PacketKeepsStep(t: Table, ps: seq<Packet>, p: Packet, addr: nat -> Bytes, id: int, cameUp: bool)
    requires Portable(p) && AddressesOk(addr) && Read(Restrict(ps + [p], p.id)) != Broken
    requires Demux.Accepts(t, Demux.Arrived(WireOf(p, addr))) && InStep(t, ps, id, cameUp)
    ensures InStep(Demux.Handle(t, Demux.Arrived(WireOf(p, addr))), ps + [p], id, cameUp)
  {
    var e := Demux.Arrived(WireOf(p, addr));
    PacketEffect(t, p, addr, id);
    if p.Data? && p.id == id {
      RestrictAppend(ps, p, id);
      Demux.EntryStep(t, e, id, SinceUp(ps, id));
    }
    EffectKeepsStep(t, ps, p, Demux.Handle(t, e), id, cameUp);
  }

  lemma SocksKeepsStep(t: Table, ps: seq<Packet>, e: Event, id: int, cameUp: bool)
    requires !e.Arrived? && !e.ServerLost? && (e.SocksDown? ==> e.serverUp)
    requires Demux.Accepts(t, e) && InStep(t, ps, id, cameUp)
    ensures InStep(Demux.Handle(t, e), ps, id, cameUp || e == Demux.SocksUp(id))
  {
    if id in t && Read(Restrict(ps, id)).OpenBy? {
      Demux.EntryStep(t, e, id, SinceUp(ps, id));
    }
  }

  ghost predicate AllInStep(es: seq<Event>, ps: seq<Packet>)
    requires Demux.AllAccepted(map[], es)
  {
    forall id: int {:trigger Restrict(ps, id)} :: InStep(Demux.HandleAll(map[], es), ps, id, CameUp(es, id))
  }

  lemma {:induction false} Follows(es: seq<Event>, ps: seq<Packet>, addr: nat -> Bytes)
    requires Reported(es) && NeverReopens(es) && AllPortable(ps) && Unbroken(ps) && AddressesOk(addr)
    requires ArrivedPackets(es) == Wire(ps, addr)
    ensures Demux.AllAccepted(map[], es) && AllInStep(es, ps)
  {
    if es != [] {
      var m := |es| - 1;
      var pre, e := es[..m], es[m];
      assert es == pre + [e] && OpensNew(es, m) && Reports(es, m);
      ReportedPrefix(es, m);
      NewPrefix(es, m);
      if e.Arrived? {
        assert ArrivedPackets(es) == ArrivedPackets(pre) + [e.p];
        assert ps != [];
        var n := |ps| - 1;
        var before, p := ps[..n], ps[n];
        assert ps == before + [p];
        PrefixUnbroken(ps, n);
        SameLast(ArrivedPackets(pre), e.p, Wire(before, addr), WireOf(p, addr));
        Follows(pre, before, addr);
        FollowsPacket(pre, before, p, addr);
      } else {
        Follows(pre, ps, addr);
        FollowsSocks(pre, ps, e);
      }
    } else {
      assert ps == [];
      assert Demux.HandleAll(map[], es) == map[];
      forall id: int
        ensures InStep(map[], ps, id, CameUp(es, id))
      {
        assert Restrict(ps, id) == [];
      }
    }
  }

  lemma FollowsPacket(es: seq<Event>, ps: seq<Packet>, p: Packet, addr: nat -> Bytes)
    requires Demux.AllAccepted(map[], es) && AllInStep(es, ps)
    requires Portable(p) && AddressesOk(addr) && Unbroken(ps + [p])
    requires forall id :: Opens(Demux.Arrived(WireOf(p, addr)), id) ==> !CameUp(es, id)
    ensures var all := es + [Demux.Arrived(WireOf(p, addr))];
      Demux.AllAccepted(map[], all) && AllInStep(all, ps + [p])
  {
    var e, t := Demux.Arrived(WireOf(p, addr)), Demux.HandleAll(map[], es);
    var all := es + [e];
    assert all[..|es|] == es && all[|es|] == e;
    assert InStep(t, ps, p.id, CameUp(es, p.id)) && Read(Restrict(ps + [p], p.id)) != Broken;
    if p.Up? {
      assert Demux.Lacks(addr(p.owner), Demux.CAPITAL_I);
      Demux.CommandRoundTrip(p.id, addr(p.owner), true);
      assert Opens(e, p.id);
    }
    PacketAccepted(t, ps, p, addr, CameUp(es, p.id));
    forall id: int
      ensures InStep(Demux.HandleAll(map[], all), ps + [p], id, CameUp(all, id))
    {
      assert InStep(t, ps, id, CameUp(es, id));
      PacketKeepsStep(t, ps, p, addr, id, CameUp(es, id));
      CameUpLast(es, e, id);
    }
  }

  lemma FollowsSocks(es: seq<Event>, ps: seq<Packet>, e: Event)
    requires Demux.AllAccepted(map[], es) && AllInStep(es, ps)
    requires !e.Arrived? && !e.ServerLost? && (e.SocksDown? ==> e.serverUp) && Demux.Accepts(Demux.HandleAll(map[], es), e)
    ensures Demux.AllAccepted(map[], es + [e]) && AllInStep(es + [e], ps)
  {
    var t, all := Demux.HandleAll(map[], es), es + [e];
    assert all[..|es|] == es && all[|es|] == e;
    forall id: int
      ensures InStep(Demux.HandleAll(map[], all), ps, id, CameUp(all, id))
    {
      assert InStep(t, ps, id, CameUp(es, id));
      SocksKeepsStep(t, ps, e, id, CameUp(es, id));
      CameUpLast(es, e, id);
    }
  }

  // ----- an entry that has been connected stays

  lemma ConnectedStays(t: Table, e: Event, id: int)
    requires Demux.Accepts(t, e) && id in t && t[id].connected
    requires !e.ServerLost? && (e.SocksDown? ==> e.serverUp)
    ensures id in Demux.Handle(t, e) && Demux.Handle(t, e)[id].connected
  {
  }

  lemma {:induction false} CameUpStays(es: seq<Event>, id: int)
    requires Reported(es) && Demux.AllAccepted(map[], es) && CameUp(es, id)
    ensures var t := Demux.HandleAll(map[], es); id in t && t[id].connected
  {
    var m := |es| - 1;
    var pre, e := es[..m], es[m];
    assert es == pre + [e] && Reports(es, m);
    ReportedPrefix(es, m);
    CameUpLast(pre, e, id);
    if CameUp(pre, id) {
      CameUpStays(pre, id);
      ConnectedStays(Demux.HandleAll(map[], pre), e, id);
    }
  }

  /** So opening such an id again always trips the assertion. */
  lemma AcceptedNeverReopens(es: seq<Event>)
    requires Reported(es) && Demux.AllAccepted(map[], es)
    ensures NeverReopens(es)
  {
    forall k | 0 <= k < |es|
      ensures OpensNew(es, k)
    {
      Demux.AcceptedPrefix(map[], es, k);
      Demux.AcceptedPrefix(map[], es, k + 1);
      assert es[..k + 1][..k] == es[..k] && es[..k + 1][k] == es[k];
      ReportedPrefix(es, k);
      forall id | Opens(es[k], id) && CameUp(es[..k], id)
        ensures false
      {
        CameUpStays(es[..k], id);
      }
    }
  }

  lemma ArrivedLast(es: seq<Event>, e: Event)
    ensures ArrivedPackets(es + [e]) == ArrivedPackets(es) + if e.Arrived? then [e.p] else []
  {
    assert (es + [e])[..|es|] == es;
  }

  lemma WireLast(ps: seq<Packet>, p: Packet, addr: nat -> Bytes)
    requires AllPortable(ps) && Portable(p)
    ensures AllPortable(ps + [p]) && Wire(ps + [p], addr) == Wire(ps, addr) + [WireOf(p, addr)]
  {
    assert (ps + [p])[..|ps|] == ps;
  }

  /** Client 0 comes and goes; then client 1 gets the same id. */
  function ReusedStream(): (ps: seq<Packet>) {
    [] + [Up(0, 1)] + [Down(0, 1)] + [Up(1, 1)]
  }

  /** In between the socks connection of client 0 comes up. */
  function ReusedEvents(addr: nat -> Bytes): (es: seq<Event>) {
    [] + [Demux.Arrived(WireOf(Up(0, 1), addr))] + [Demux.SocksUp(1)]
    + [Demux.Arrived(WireOf(Down(0, 1), addr))] + [Demux.Arrived(WireOf(Up(1, 1), addr))]
  }

  lemma ReusedArrive(addr: nat -> Bytes)
    ensures AllPortable(ReusedStream()) && ArrivedPackets(ReusedEvents(addr)) == Wire(ReusedStream(), addr)
  {
    var p0, p1, p2 := Up(0, 1), Down(0, 1), Up(1, 1);
    var e0, e2, e3 := Demux.Arrived(WireOf(p0, addr)), Demux.Arrived(WireOf(p1, addr)), Demux.Arrived(WireOf(p2, addr));
    WireLast([], p0, addr);
    WireLast([] + [p0], p1, addr);
    WireLast([] + [p0] + [p1], p2, addr);
    ArrivedLast([], e0);
    ArrivedLast([] + [e0], Demux.SocksUp(1));
    ArrivedLast([] + [e0] + [Demux.SocksUp(1)], e2);
    ArrivedLast([] + [e0] + [Demux.SocksUp(1)] + [e2], e3);
  }

  lemma ReusedUnbroken()
    ensures Unbroken(ReusedStream())
  {
    var p0, p1, p2 := Up(0, 1), Down(0, 1), Up(1, 1);
    forall id: int
      ensures Read(Restrict(ReusedStream(), id)) != Broken
    {
      RestrictAppend([], p0, id);
      RestrictAppend([] + [p0], p1, id);
      RestrictAppend([] + [p0] + [p1], p2, id);
    }
  }

  /** An id used again after its socks connection has come up: nothing is wrong with the stream or
      with the socks connection, and yet the assertion on the second UP fails. */
  lemma ReusedId(addr: nat -> Bytes)
    requires AddressesOk(addr)
    ensures var ps, es := ReusedStream(), ReusedEvents(addr);
      && AllPortable(ps) && Unbroken(ps) && ArrivedPackets(es) == Wire(ps, addr)
      && Reported(es) && !NeverReopens(es) && !Demux.AllAccepted(map[], es)
  {
    var es := ReusedEvents(addr);
    ReusedArrive(addr);
    ReusedUnbroken();
    assert Demux.Lacks(addr(0), Demux.CAPITAL_I) && Demux.Lacks(addr(1), Demux.CAPITAL_I);
    Demux.CommandRoundTrip(1, addr(0), true);
    Demux.CommandRoundTrip(1, addr(1), true);
    assert es[..1] == [es[0]] && [es[0]][..0] == [];
    assert Reports(es, 0) && Reports(es, 1) && Reports(es, 2) && Reports(es, 3);
    assert es[..3][1] == Demux.SocksUp(1) && Opens(es[3], 1) && !OpensNew(es, 3);
    if Demux.AllAccepted(map[], es) {
      AcceptedNeverReopens(es);
    }
  }

  // ----- both ends of every run

  /** One session as the demultiplexer sees it: stream `k` up to any packet, in any TCP chunks, its
      packets mixed in any way with what the socks connections report. */
  datatype Session = Session(k: nat, ps: seq<Packet>, chunks: seq<Bytes>, es: seq<Event>)

  ghost predicate Arrives(s: State, addr: nat -> Bytes, x: Session) {
    && x.k < |s.streams| && x.ps <= s.streams[x.k] && AllPortable(x.ps)
    && Concat(x.chunks) == EncodeAll(MuxPackets.Encode, Wire(x.ps, addr))
    && ArrivedPackets(x.es) == Feed(MuxPackets.PacketHead, [], x.chunks).0 && Reported(x.es)
  }

  /** If client `c` holds `id` after the session's packets, the entry has what `c` sent in this run. */
  ghost predicate Serves(run: seq<Step>, s: State, t: Table, x: Session, id: int)
    requires IsRun(run)
  {
    match Read(Restrict(x.ps, id))
    case Broken => false
    case Closed => true
    case OpenBy(c) =>
      && c in s.clients && s.clients[c].session == x.k && s.clients[c].id == id
      && id in t && t[id].handed + t[id].pending == SentData(run, x.k, c) && (t[id].connected ==> t[id].pending == [])
  }

  /** After `n` steps of the run the session's stream was what has arrived. */
  ghost predicate ArrivedBy(run: seq<Step>, n: nat, x: Session)
    requires IsRun(run)
  {
    && n <= |run| && IsRun(run[..n])
    && x.k < |After(run[..n]).streams| && After(run[..n]).streams[x.k] == x.ps
    && (x.k < |After(run).streams| && x.ps == After(run).streams[x.k] ==> n == |run|)
  }

  ghost predicate AllServed(run: seq<Step>, n: nat, t: Table, x: Session)
    requires IsRun(run) && ArrivedBy(run, n, x)
  {
    forall id: int {:trigger Restrict(x.ps, id)} :: Serves(run[..n], After(run), t, x, id)
  }

  /** One session of a run in which no client acts on a later session than its own.  The assertions
      of the demultiplexer hold if and only if no id is opened again once its socks connection has
      come up; and then, for every id in use, the entry's bytes are exactly those that its present
      holder has fetched for this session and sent, up to the step `n` at which the stream was what
      has arrived. */
  lemma EntryServesHolder(run: seq<Step>, addr: nat -> Bytes, x: Session) returns (n: nat)
    requires IsRun(run) && NeverTooLate(run) && AddressesOk(addr) && Arrives(After(run), addr, x)
    ensures ArrivedBy(run, n, x)
    ensures Demux.AllAccepted(map[], x.es) <==> NeverReopens(x.es)
    ensures Demux.AllAccepted(map[], x.es) ==> AllServed(run, n, Demux.HandleAll(map[], x.es), x)
  {
    var s, k, ps := After(run), x.k, x.ps;
    n := PrefixWasStream(run, k, ps);
    RunFacts(run, k);
    PrefixUnbroken(s.streams[k], |ps|);
    assert ps == s.streams[k][..|ps|];
    AllSendable(ps, addr);
    MuxPackets.PacketsRoundTrip(Wire(ps, addr), x.chunks);
    if Demux.AllAccepted(map[], x.es) {
      AcceptedNeverReopens(x.es);
    }
    if NeverReopens(x.es) {
      Follows(x.es, ps, addr);
      forall id: int
        ensures Serves(run[..n], s, Demux.HandleAll(map[], x.es), x, id)
      {
        assert InStep(Demux.HandleAll(map[], x.es), ps, id, CameUp(x.es, id));
        var b := Read(Restrict(ps, id));
        if b.OpenBy? {
          HolderKnown(s, k, ps, b.owner, id);
          HolderData(ps, b.owner, id);
          StreamCarriesSentData(run[..n], k, b.owner);
        }
      }
    }
  }

  /** The events of each session. */
  function EventsOf(xs: seq<Session>): (ess: seq<seq<Event>>)
    ensures |ess| == |xs| && forall j :: 0 <= j < |xs| ==> ess[j] == xs[j].es
  {
    seq(|xs|, j requires 0 <= j < |xs| => xs[j].es)
  }

  /** Both ends of every run in which no client acts on a later session than its own, over several
      sessions with the server connection lost in between.  The assertions hold throughout if and
      only if no session opens an id again once its socks connection has come up; and then, in the
      last session, each entry serves the present holder of its id. */
  lemma EntriesServeHolders(run: seq<Step>, addr: nat -> Bytes, xs: seq<Session>) returns (n: nat)
    requires IsRun(run) && NeverTooLate(run) && AddressesOk(addr) && xs != []
    requires forall j :: 0 <= j < |xs| ==> Arrives(After(run), addr, xs[j])
    ensures var all := Demux.Sessions(EventsOf(xs));
      && ArrivedBy(run, n, xs[|xs| - 1])
      && (Demux.AllAccepted(map[], all) <==> forall j :: 0 <= j < |xs| ==> NeverReopens(xs[j].es))
      && (Demux.AllAccepted(map[], all) ==> AllServed(run, n, Demux.HandleAll(map[], all), xs[|xs| - 1]))
  {
    var ess := EventsOf(xs);
    forall j | 0 <= j < |xs|
      ensures Demux.AllAccepted(map[], ess[j]) <==> NeverReopens(xs[j].es)
    {
      AcceptedIffNew(run, addr, xs[j]);
    }
    Demux.SessionsApart(ess);
    assert ess[|ess| - 1] == xs[|xs| - 1].es;
    n := EntryServesHolder(run, addr, xs[|xs| - 1]);
  }

  lemma AcceptedIffNew(run: seq<Step>, addr: nat -> Bytes, x: Session)
    requires IsRun(run) && NeverTooLate(run) && AddressesOk(addr) && Arrives(After(run), addr, x)
    ensures Demux.AllAccepted(map[], x.es) <==> NeverReopens(x.es)
  {
    var n := EntryServesHolder(run, addr, x);
  }

  lemma RunFacts(run: seq<Step>, k: nat)
    requires IsRun(run) && NeverTooLate(run) && k < |After(run).streams|
    ensures OwnStreams(After(run)) && OnceState(After(run))
    ensures Unbroken(After(run).streams[k]) && AllPortable(After(run).streams[k])
  {
    OrderlyIffNeverTooLate(run);
    assert run[..|run|] == run && Orderly(After(run[..|run|]));
    EveryRunPortable(run);
    forall id: int
      ensures Read(Restrict(After(run).streams[k], id)) != Broken
    {
      assert BracketOf(After(run), k, id) != Broken;
    }
  }

  /** Who has a bracket open got the id in this session, announced itself once, and uses no other id. */
  lemma HolderKnown(s: State, k: nat, ps: seq<Packet>, c: nat, id: int)
    requires OwnStreams(s) && OnceState(s) && k < |s.streams| && ps <= s.streams[k]
    requires Read(Restrict(ps, id)) == OpenBy(c)
    ensures c in s.clients && s.clients[c].session == k && s.clients[c].id == id
    ensures Ups(ps, c) <= 1 && OnlyOn(ps, c, id)
  {
    var i := OpenedAt(Restrict(ps, id));
    var j := InRestrict(ps, id, i);
    assert s.streams[k][j] == ps[j] && OwnPacket(s, k, s.streams[k][j]);
    UpsPrefix(s.streams[k], |ps|, c);
    assert ps == s.streams[k][..|ps|];
    forall j | 0 <= j < |ps| && ps[j].owner == c
      ensures ps[j].id == id
    {
      assert s.streams[k][j] == ps[j] && OwnPacket(s, k, s.streams[k][j]);
    }
  }

  lemma {:induction false} InRestrict(ps: seq<Packet>, id: int, i: nat) returns (j: nat)
    requires i < |Restrict(ps, id)|
    ensures j < |ps| && ps[j] == Restrict(ps, id)[i] && ps[j].id == id
  {
    var n := |ps| - 1;
    if i < |Restrict(ps[..n], id)| {
      j := InRestrict(ps[..n], id, i);
    } else {
      j := n;
    }
  }

  lemma {:induction false} UpsPrefix(ps: seq<Packet>, n: nat, c: nat)
    requires n <= |ps|
    ensures Ups(ps[..n], c) <= Ups(ps, c)
  {
    if n == |ps| {
      assert ps[..n] == ps;
    } else {
      UpsPrefix(ps[..|ps| - 1], n, c);
      assert ps[..|ps| - 1][..n] == ps[..n];
    }
  }
}

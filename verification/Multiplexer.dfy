/** The id pool and the packet stream of the threaded connection multiplexer.

    A client connection is served by one thread, the backend connection by another; they share
    `availIds_`, `clientConns_` and `backendConn_` under a mutex.  The lock regions and the
    single sends are the atomic steps; everything else interleaves freely. */
module Multiplexer {
  import opened Basics
  import opened Streams
  import MuxPackets

  const MAX_CONNS := 10

  // ----- what the mutex protects

  datatype Pool = Pool(backend: Option<nat>, avail: seq<int>, conns: map<int, nat>)

  function Ids(n: nat): (s: seq<int>)
    ensures |s| == n && forall i :: 0 <= i < n ==> s[i] == i + 1
  {
    if n == 0 then [] else Ids(n - 1) + [n]
  }

  /** A client connects: take the first free id, if there is one. */
  function Allocate(p: Pool, conn: nat): (r: (Pool, Option<int>)) {
    if p.avail == [] then (p, None)
    else (Pool(p.backend, p.avail[1..], p.conns[p.avail[0] := conn]), Some(p.avail[0]))
  }

  /** A client is down: give its id back, unless the backend is gone. */
  function Release(p: Pool, id: int): (r: Pool) {
    if p.backend.Some? then Pool(p.backend, p.avail + [id], p.conns - {id}) else p
  }

  function BackendUp(p: Pool, session: nat): (r: Pool) {
    Pool(Some(session), p.avail + Ids(MAX_CONNS), p.conns)
  }

  function BackendDown(p: Pool): (r: Pool) {
    Pool(None, [], map[])
  }

  /** The server object, one method per lock region. */
  class MultiplexServer {
    var backendConn: Option<nat>
    var availIds: seq<int>
    var clientConns: map<int, nat>

    function Contents(): (p: Pool)
      reads this
    {
      Pool(backendConn, availIds, clientConns)
    }

    constructor ()
      ensures Contents() == Pool(None, [], map[])
    {
      backendConn, availIds, clientConns := None, [], map[];
    }

    method OnClientUp(conn: nat) returns (id: int)
      modifies this
      ensures Contents() == Allocate(old(Contents()), conn).0
      ensures id == match Allocate(old(Contents()), conn).1 case Some(i) => i case None => -1
    {
      id := -1;
      if availIds != [] {
        id := availIds[0];
        availIds := availIds[1..];
        clientConns := clientConns[id := conn];
      }
    }

    method OnClientDown(id: int)
      modifies this
      ensures Contents() == Release(old(Contents()), id)
    {
      if backendConn.Some? {
        availIds := availIds + [id];
        clientConns := clientConns - {id};
      }
    }

    method OnBackendUp(conn: nat)
      modifies this
      ensures Contents() == BackendUp(old(Contents()), conn)
    {
      backendConn := Some(conn);
      var i := 1;
      while i <= MAX_CONNS
        invariant 1 <= i <= MAX_CONNS + 1
        invariant backendConn == Some(conn) && clientConns == old(clientConns)
        invariant availIds == old(availIds) + Ids(i - 1)
      {
        availIds := availIds + [i];
        i := i + 1;
      }
    }

    method OnBackendDown() returns (connsToDestroy: set<nat>)
      modifies this
      ensures Contents() == BackendDown(old(Contents()))
      ensures forall c :: c in connsToDestroy <==> exists k :: k in old(clientConns) && old(clientConns)[k] == c
    {
      backendConn := None;
      connsToDestroy := {};
      var conns := clientConns;
      var keys := conns.Keys;
      while keys != {}
        invariant keys <= conns.Keys
        invariant connsToDestroy == set k | k in conns && k !in keys :: conns[k]
        decreases keys
      {
        assert (forall k :: k !in keys) ==> keys == {};
        var k :| k in keys;
        connsToDestroy := connsToDestroy + {conns[k]};
        keys := keys - {k};
      }
      clientConns := map[];
      while availIds != []
        invariant clientConns == map[] && backendConn == None
      {
        availIds := availIds[1..];
      }
    }
  }

  // ----- the interleaved protocol

  /** Where a client's thread is.  `to` is the copy of `backendConn_` it is about to send on. */
  datatype Phase =
    | Refused
    | Allocated
    | Announcing(to: Option<nat>)
    | Open
    | Sending(to: Option<nat>, bytes: Bytes)
    | Leaving(to: Option<nat>)
    | Departed
    | Gone
  {
    predicate HasAddress() {
      Announcing? || Sending? || Leaving?
    }
  }

  /** `session` is the backend session in which the id was allocated; `announced` whether UP was sent. */
  datatype Client = Client(phase: Phase, id: int, session: nat, announced: bool) {
    predicate Live() {
      !phase.Refused? && !phase.Gone?
    }
  }

  datatype Packet = Up(owner: nat, id: int) | Data(owner: nat, id: int, bytes: Bytes) | Down(owner: nat, id: int)

  /** `streams[k]` is everything sent on the `k`-th backend connection. */
  datatype State = State(pool: Pool, clients: map<nat, Client>, streams: seq<seq<Packet>>)

  datatype Step =
    | Connect(conn: nat)
    | FetchUp(conn: nat)
    | SendUp(conn: nat)
    | FetchData(conn: nat, bytes: Bytes)
    | SendData(conn: nat)
    | FetchDown(conn: nat)
    | SendDown(conn: nat)
    | ReleaseId(conn: nat)
    | BackendConnects
    | BackendLost

  function Init(): (s: State) {
    State(Pool(None, [], map[]), map[], [])
  }

  predicate Enabled(s: State, step: Step) {
    match step
    case Connect(c) => c !in s.clients
    case FetchUp(c) => c in s.clients && s.clients[c].phase.Allocated?
    case SendUp(c) => c in s.clients && s.clients[c].phase.Announcing?
    case FetchData(c, bytes) => c in s.clients && s.clients[c].phase.Open? && 0 < |bytes| <= MuxPackets.MAX_PACKET_LEN
    case SendData(c) => c in s.clients && s.clients[c].phase.Sending?
    case FetchDown(c) => c in s.clients && s.clients[c].phase.Open?
    case SendDown(c) => c in s.clients && s.clients[c].phase.Leaving?
    case ReleaseId(c) => c in s.clients && s.clients[c].phase.Departed?
    case BackendConnects => s.pool.backend.None?
    case BackendLost => s.pool.backend.Some?
  }

  function Append(streams: seq<seq<Packet>>, to: Option<nat>, p: Packet): (r: seq<seq<Packet>>) {
    if to.Some? && to.value < |streams| then streams[to.value := streams[to.value] + [p]] else streams
  }

  function Apply(s: State, step: Step): (r: State)
    requires Enabled(s, step)
  {
    match step
    case Connect(c) =>
      var (pool, id) := Allocate(s.pool, c);
      var client := if id.Some? && s.pool.backend.Some? then Client(Allocated, id.value, s.pool.backend.value, false)
                    else Client(Refused, 0, 0, false);
      s.(pool := pool, clients := s.clients[c := client])
    case FetchUp(c) =>
      s.(clients := s.clients[c := s.clients[c].(phase := Announcing(s.pool.backend))])
    case SendUp(c) =>
      var cl := s.clients[c];
      s.(clients := s.clients[c := cl.(phase := Open, announced := cl.phase.to.Some?)],
         streams := Append(s.streams, cl.phase.to, Up(c, cl.id)))
    case FetchData(c, bytes) =>
      s.(clients := s.clients[c := s.clients[c].(phase := Sending(s.pool.backend, bytes))])
    case SendData(c) =>
      var cl := s.clients[c];
      s.(clients := s.clients[c := cl.(phase := Open)],
         streams := Append(s.streams, cl.phase.to, Data(c, cl.id, cl.phase.bytes)))
    case FetchDown(c) =>
      s.(clients := s.clients[c := s.clients[c].(phase := Leaving(s.pool.backend))])
    case SendDown(c) =>
      var cl := s.clients[c];
      s.(clients := s.clients[c := cl.(phase := Departed)],
         streams := Append(s.streams, cl.phase.to, Down(c, cl.id)))
    case ReleaseId(c) =>
      s.(clients := s.clients[c := s.clients[c].(phase := Gone)], pool := Release(s.pool, s.clients[c].id))
    case BackendConnects =>
      s.(pool := BackendUp(s.pool, |s.streams|), streams := s.streams + [[]])
    case BackendLost =>
      s.(pool := BackendDown(s.pool))
  }

  /** The state after a run, and whether the run is one. */
  function After(run: seq<Step>): (s: State)
    requires IsRun(run)
    decreases |run|, 1
  {
    if run == [] then Init() else Apply(After(run[..|run| - 1]), run[|run| - 1])
  }

  predicate IsRun(run: seq<Step>)
    decreases |run|, 0
  {
    run == [] || (IsRun(run[..|run| - 1]) && Enabled(After(run[..|run| - 1]), run[|run| - 1]))
  }

  // ----- the id partition

  predicate InUse(s: State, c: nat) {
    c in s.clients && s.clients[c].Live() && s.pool.backend == Some(s.clients[c].session)
  }

  /** Free ids and ids in use partition 1..MAX_CONNS, and each live client of the current
      session is the one that `clientConns_` has for its id. */
  ghost predicate Partitioned(s: State) {
    && Distinct(s.pool.avail)
    && (forall id :: id in s.pool.avail || id in s.pool.conns <==> 1 <= id <= MAX_CONNS)
    && (forall id :: id in s.pool.avail ==> id !in s.pool.conns)
    && (forall id :: id in s.pool.conns ==> InUse(s, s.pool.conns[id]) && s.clients[s.pool.conns[id]].id == id)
    && (forall c :: InUse(s, c) ==> s.clients[c].id in s.pool.conns && s.pool.conns[s.clients[c].id] == c)
  }

  ghost predicate IdsOk(s: State) {
    if s.pool.backend.Some? then Partitioned(s) else s.pool.avail == [] && s.pool.conns == map[]
  }

  /** A step that gives back an id after the backend has already been replaced. */
  ghost predicate StaleRelease(s: State, step: Step) {
    && step.ReleaseId? && Enabled(s, step)
    && s.pool.backend.Some? && s.pool.backend != Some(s.clients[step.conn].session)
  }

  /** What holds in every run whatsoever: sessions are numbered in order, the open one is the
      last; ids stay in range; and without a backend nothing is free or in use. */
  ghost predicate Basic(s: State) {
    && (s.pool.backend.Some? ==> s.pool.backend.value + 1 == |s.streams|)
    && (s.pool.backend.None? ==> s.pool.avail == [] && s.pool.conns == map[])
    && (forall id :: id in s.pool.avail ==> 1 <= id <= MAX_CONNS)
    && (forall c :: c in s.clients ==> InRange(s.clients[c], |s.streams|))
  }

  predicate InRange(cl: Client, sessions: nat) {
    && (cl.Live() ==> cl.session < sessions && 1 <= cl.id <= MAX_CONNS)
    && (cl.phase.HasAddress() && cl.phase.to.Some? ==> cl.phase.to.value < sessions)
  }

  lemma AvailStep(s: State, step: Step, id: int)
    requires Basic(s) && Enabled(s, step) && id in Apply(s, step).pool.avail
    ensures 1 <= id <= MAX_CONNS
  {
    var r := Apply(s, step);
    IdsHold(MAX_CONNS);
    match step
    case Connect(c) => assert id in s.pool.avail;
    case ReleaseId(c) => assert id in s.pool.avail || id == s.clients[c].id;
    case BackendConnects => assert id in s.pool.avail || id in Ids(MAX_CONNS);
    case _ => assert r.pool.avail == s.pool.avail || r.pool.avail == [];
  }

  lemma InRangeStep(s: State, step: Step, c: nat)
    requires Basic(s) && Enabled(s, step) && c in Apply(s, step).clients
    ensures InRange(Apply(s, step).clients[c], |Apply(s, step).streams|)
  {
    if step.Connect? && s.pool.avail != [] {
      var id := s.pool.avail[0];
      assert id in s.pool.avail;
    }
    assert c in s.clients ==> InRange(s.clients[c], |s.streams|);
  }

  lemma BasicStep(s: State, step: Step)
    requires Basic(s) && Enabled(s, step)
    ensures Basic(Apply(s, step))
  {
    forall c | c in Apply(s, step).clients
      ensures InRange(Apply(s, step).clients[c], |Apply(s, step).streams|)
    {
      InRangeStep(s, step, c);
    }
    forall id | id in Apply(s, step).pool.avail
      ensures 1 <= id <= MAX_CONNS
    {
      AvailStep(s, step, id);
    }
  }

  lemma {:induction false} EveryRunBasic(run: seq<Step>)
    requires IsRun(run)
    ensures Basic(After(run))
  {
    if run != [] {
      EveryRunBasic(run[..|run| - 1]);
      BasicStep(After(run[..|run| - 1]), run[|run| - 1]);
    }
  }

  // ----- which steps keep the partition

  lemma PartitionAllocate(s: State, c: nat)
    requires Basic(s) && Partitioned(s) && c !in s.clients && s.pool.backend.Some?
    ensures Partitioned(Apply(s, Connect(c)))
  {
    var r := Apply(s, Connect(c));
    if s.pool.avail != [] {
      var id := s.pool.avail[0];
      assert s.pool.avail == [id] + r.pool.avail;
      assert id in s.pool.avail && id !in r.pool.avail;
      forall i
        ensures i in s.pool.avail <==> i in r.pool.avail || i == id
      {
      }
      forall d | InUse(r, d)
        ensures r.clients[d].id in r.pool.conns && r.pool.conns[r.clients[d].id] == d
      {
        assert d != c ==> InUse(s, d);
      }
    } else {
      assert forall d :: InUse(r, d) <==> InUse(s, d);
    }
  }

  lemma PartitionRelease(s: State, c: nat)
    requires Basic(s) && Partitioned(s) && Enabled(s, ReleaseId(c)) && s.pool.backend.Some?
    ensures Partitioned(Apply(s, ReleaseId(c))) <==> s.pool.backend == Some(s.clients[c].session)
  {
    var r, id := Apply(s, ReleaseId(c)), s.clients[c].id;
    assert r.pool.avail[|s.pool.avail|] == id && id in r.pool.avail;
    if s.pool.backend == Some(s.clients[c].session) {
      assert InUse(s, c) && id !in s.pool.avail;
      forall i
        ensures i in r.pool.avail <==> i in s.pool.avail || i == id
      {
      }
      forall d | InUse(r, d)
        ensures r.clients[d].id in r.pool.conns && r.pool.conns[r.clients[d].id] == d
      {
        assert InUse(s, d) && d != c;
      }
    } else if id in s.pool.avail {
      var k :| 0 <= k < |s.pool.avail| && s.pool.avail[k] == id;
      assert r.pool.avail[k] == id;
    } else {
      var d := s.pool.conns[id];
      assert InUse(s, d) && d != c;
      assert InUse(r, d) && id !in r.pool.conns;
    }
  }

  lemma {:induction false} IdsHold(n: nat)
    ensures Distinct(Ids(n)) && forall id :: id in Ids(n) <==> 1 <= id <= n
  {
    forall id | 1 <= id <= n
      ensures id in Ids(n)
    {
      assert Ids(n)[id - 1] == id;
    }
  }

  lemma PartitionFill(s: State)
    requires Basic(s) && s.pool.backend.None?
    ensures Partitioned(Apply(s, BackendConnects))
  {
    var r := Apply(s, BackendConnects);
    IdsHold(MAX_CONNS);
    assert r.pool.avail == Ids(MAX_CONNS);
    assert forall c :: !InUse(r, c);
  }

  lemma PartitionUntouched(s: State, step: Step)
    requires Partitioned(s) && Enabled(s, step) && (IsSend(step) || IsFetch(step))
    ensures Partitioned(Apply(s, step))
  {
    var r := Apply(s, step);
    assert r.pool == s.pool;
    assert forall d :: InUse(r, d) <==> InUse(s, d);
    assert forall d :: InUse(s, d) ==> r.clients[d].id == s.clients[d].id;
  }

  /** Every step keeps the partition, except a release that comes after the backend was replaced:
      that one always breaks it. */
  lemma PartitionStep(s: State, step: Step)
    requires Basic(s) && IdsOk(s) && Enabled(s, step)
    ensures IdsOk(Apply(s, step)) <==> !StaleRelease(s, step)
  {
    if s.pool.backend.Some? {
      match step
      case Connect(c) => PartitionAllocate(s, c);
      case ReleaseId(c) => PartitionRelease(s, c);
      case BackendLost =>
      case BackendConnects =>
      case _ => PartitionUntouched(s, step);
    } else if step.BackendConnects? {
      PartitionFill(s);
    }
  }

  ghost predicate AlwaysOk(run: seq<Step>)
    requires IsRun(run)
  {
    forall k: nat :: k <= |run| ==> IsRun(run[..k]) && IdsOk(After(run[..k]))
  }

  ghost predicate NeverStale(run: seq<Step>)
    requires IsRun(run)
  {
    forall k: nat :: k < |run| ==> IsRun(run[..k]) && !StaleRelease(After(run[..k]), run[k])
  }

  lemma {:induction false} PrefixIsRun(run: seq<Step>, k: nat)
    requires IsRun(run) && k <= |run|
    ensures IsRun(run[..k])
    ensures k < |run| ==> Enabled(After(run[..k]), run[k]) && IsRun(run[..k + 1]) && After(run[..k + 1]) == Apply(After(run[..k]), run[k])
  {
    if k == |run| {
      assert run[..k] == run;
    } else {
      var n := |run| - 1;
      PrefixIsRun(run[..n], k);
      assert run[..n][..k] == run[..k];
      if k < n {
        assert run[..n][..k + 1] == run[..k + 1];
      } else {
        assert run[..k + 1] == run;
      }
    }
  }

  /** The ids are partitioned throughout a run exactly when no client reports DOWN late. */
  lemma {:induction false} PartitionIffNeverStale(run: seq<Step>)
    requires IsRun(run)
    ensures AlwaysOk(run) <==> NeverStale(run)
  {
    if AlwaysOk(run) {
      forall k: nat | k < |run|
        ensures IsRun(run[..k]) && !StaleRelease(After(run[..k]), run[k])
      {
        PrefixIsRun(run, k);
        EveryRunBasic(run[..k]);
        assert IdsOk(After(run[..k])) && IdsOk(After(run[..k + 1]));
        PartitionStep(After(run[..k]), run[k]);
      }
    }
    if NeverStale(run) {
      forall k: nat | k <= |run|
        ensures IsRun(run[..k]) && IdsOk(After(run[..k]))
      {
        OkUpTo(run, k);
      }
    }
  }

  lemma {:induction false} OkUpTo(run: seq<Step>, k: nat)
    requires IsRun(run) && NeverStale(run) && k <= |run|
    ensures IsRun(run[..k]) && IdsOk(After(run[..k]))
  {
    PrefixIsRun(run, k);
    if k == 0 {
      assert run[..0] == [];
    } else {
      OkUpTo(run, k - 1);
      PrefixIsRun(run, k - 1);
      EveryRunBasic(run[..k - 1]);
      assert !StaleRelease(After(run[..k - 1]), run[k - 1]);
      PartitionStep(After(run[..k - 1]), run[k - 1]);
    }
  }

  /** No two live clients of the current session share an id. */
  lemma NoSharedId(s: State, c: nat, d: nat)
    requires s.pool.backend.Some? && IdsOk(s) && InUse(s, c) && InUse(s, d) && s.clients[c].id == s.clients[d].id
    ensures c == d
  {
  }

  // ----- who is refused, and which id is given

  /** The clients that use an id of the open session. */
  function Users(s: State): (cs: set<nat>) {
    set c | c in s.clients && InUse(s, c)
  }

  lemma UsersCount(s: State)
    requires Partitioned(s)
    ensures |Users(s)| == |s.pool.conns.Keys|
  {
    var ids := s.pool.conns.Keys;
    forall i, j | i in ids && j in ids && s.pool.conns[i] == s.pool.conns[j]
      ensures i == j
    {
      assert s.clients[s.pool.conns[i]].id == i;
    }
    ImageSize(ids, s.pool.conns);
    assert Users(s) == set i | i in ids :: s.pool.conns[i];
  }

  lemma FullIffNoneFree(s: State)
    requires Partitioned(s)
    ensures |s.pool.conns.Keys| <= MAX_CONNS
    ensures s.pool.avail == [] <==> |s.pool.conns.Keys| == MAX_CONNS
  {
    var ids, all := s.pool.conns.Keys, Range(MAX_CONNS);
    forall id | id in ids
      ensures id in all
    {
    }
    SubsetSize(ids, all);
    if s.pool.avail != [] {
      var id := s.pool.avail[0];
      assert id in s.pool.avail && id in all && id !in ids;
    } else {
      NoneFree(s);
    }
  }

  lemma NoneFree(s: State)
    requires Partitioned(s) && s.pool.avail == []
    ensures s.pool.conns.Keys == Range(MAX_CONNS)
  {
    forall id: int
      ensures id in s.pool.conns <==> 1 <= id <= MAX_CONNS
    {
      assert id !in s.pool.avail;
    }
  }

  /** With the backend up, a new client gets an id of the open session, which nobody uses, if and only
      if fewer than `MAX_CONNS` clients use one; else it is refused. */
  lemma RefusedIffFull(s: State, c: nat)
    requires Basic(s) && IdsOk(s) && s.pool.backend.Some? && c !in s.clients
    ensures var cl := Apply(s, Connect(c)).clients[c];
      && (cl.phase == Allocated <==> |Users(s)| < MAX_CONNS)
      && (cl.phase != Allocated <==> cl.phase == Refused)
      && (cl.phase == Allocated ==> s.pool.backend == Some(cl.session) && 1 <= cl.id <= MAX_CONNS
                                    && forall d :: InUse(s, d) ==> s.clients[d].id != cl.id)
  {
    UsersCount(s);
    FullIffNoneFree(s);
    if s.pool.avail != [] {
      var id := s.pool.avail[0];
      assert id in s.pool.avail;
    }
  }

  /** The ids given to clients since the backend came up, in order. */
  function Given(run: seq<Step>): (ids: seq<int>)
    requires IsRun(run)
  {
    if run == [] then [] else GivenAfter(After(run[..|run| - 1]), run[|run| - 1], Given(run[..|run| - 1]))
  }

  function GivenAfter(s: State, step: Step, before: seq<int>): (ids: seq<int>)
    requires Enabled(s, step)
  {
    if step.BackendConnects? then []
    else if step.Connect? && Apply(s, step).clients[step.conn].phase == Allocated then before + [Apply(s, step).clients[step.conn].id]
    else before
  }

  /** The ids given back since then, in order. */
  function Returned(run: seq<Step>): (ids: seq<int>)
    requires IsRun(run)
  {
    if run == [] then [] else ReturnedAfter(After(run[..|run| - 1]), run[|run| - 1], Returned(run[..|run| - 1]))
  }

  function ReturnedAfter(s: State, step: Step, before: seq<int>): (ids: seq<int>)
    requires Enabled(s, step)
  {
    if step.BackendConnects? then []
    else if step.ReleaseId? then before + [s.clients[step.conn].id]
    else before
  }

  lemma TurnStep(s: State, step: Step, given: seq<int>, back: seq<int>)
    requires Basic(s) && Enabled(s, step) && Apply(s, step).pool.backend.Some?
    requires s.pool.backend.Some? ==> given + s.pool.avail == Ids(MAX_CONNS) + back
    ensures GivenAfter(s, step, given) + Apply(s, step).pool.avail == Ids(MAX_CONNS) + ReturnedAfter(s, step, back)
  {
    if step.BackendConnects? {
      assert Ids(MAX_CONNS) + [] == Ids(MAX_CONNS);
    } else if step.Connect? && s.pool.avail != [] {
      assert (given + [s.pool.avail[0]]) + s.pool.avail[1..] == given + s.pool.avail;
    } else if step.ReleaseId? {
      var id := s.clients[step.conn].id;
      assert given + (s.pool.avail + [id]) == (given + s.pool.avail) + [id];
      assert (Ids(MAX_CONNS) + back) + [id] == Ids(MAX_CONNS) + (back + [id]);
    }
  }

  /** In every run ids are given in the order 1, 2, .., and then in the order in which they came back:
      an id is used again only after all that were free before it. */
  lemma {:induction false} IdsInTurn(run: seq<Step>)
    requires IsRun(run) && After(run).pool.backend.Some?
    ensures Given(run) + After(run).pool.avail == Ids(MAX_CONNS) + Returned(run)
  {
    var n := |run| - 1;
    EveryRunBasic(run[..n]);
    if After(run[..n]).pool.backend.Some? {
      IdsInTurn(run[..n]);
    }
    TurnStep(After(run[..n]), run[n], Given(run[..n]), Returned(run[..n]));
  }

  // ----- what one id's packets look like on a backend stream

  datatype Bracket = Closed | OpenBy(owner: nat) | Broken

  function Restrict(ps: seq<Packet>, id: int): (r: seq<Packet>) {
    if ps == [] then []
    else
      var n := |ps| - 1;
      if ps[n].id == id then Restrict(ps[..n], id) + [ps[n]] else Restrict(ps[..n], id)
  }

  function Next(b: Bracket, p: Packet): (r: Bracket) {
    match p
    case Up(o, _) => if b == Closed then OpenBy(o) else Broken
    case Data(o, _, _) => if b == OpenBy(o) then b else Broken
    case Down(o, _) => if b == OpenBy(o) then Closed else Broken
  }

  /** Read packets as (UP data* DOWN)*, each bracket by one owner: what is open at the end. */
  function Read(ps: seq<Packet>): (b: Bracket) {
    if ps == [] then Closed else Next(Read(ps[..|ps| - 1]), ps[|ps| - 1])
  }

  function BracketOf(s: State, k: nat, id: int): (b: Bracket) {
    if k < |s.streams| then Read(Restrict(s.streams[k], id)) else Closed
  }

  /** A client that is not about to send to its own session's backend will not see it again. */
  ghost predicate AddressOk(s: State, cl: Client, to: Option<nat>) {
    to == Some(cl.session) || s.pool.backend != Some(cl.session)
  }

  ghost predicate HolderOk(s: State, c: nat, cl: Client) {
    if cl.announced then BracketOf(s, cl.session, cl.id) == OpenBy(c)
    else s.pool.backend != Some(cl.session) && BracketOf(s, cl.session, cl.id) == Closed
  }

  /** How far a live client has got with its bracket. */
  ghost predicate ClientOk(s: State, c: nat)
    requires c in s.clients
  {
    var cl := s.clients[c];
    match cl.phase
    case Refused => true
    case Gone => true
    case Allocated => BracketOf(s, cl.session, cl.id) == Closed
    case Announcing(to) => BracketOf(s, cl.session, cl.id) == Closed && AddressOk(s, cl, to)
    case Open => HolderOk(s, c, cl)
    case Sending(to, _) => HolderOk(s, c, cl) && AddressOk(s, cl, to) && (to == Some(cl.session) ==> cl.announced)
    case Leaving(to) => HolderOk(s, c, cl) && AddressOk(s, cl, to) && (to == Some(cl.session) ==> cl.announced)
    case Departed => s.pool.backend == Some(cl.session) ==> BracketOf(s, cl.session, cl.id) == Closed
  }

  ghost predicate Separate(s: State) {
    forall c, d :: (c in s.clients && d in s.clients && c != d && s.clients[c].Live() && s.clients[d].Live()
                    && s.clients[c].session == s.clients[d].session) ==> s.clients[c].id != s.clients[d].id
  }

  ghost predicate StreamsOk(s: State) {
    forall k: nat, id :: BracketOf(s, k, id) != Broken
  }

  ghost predicate FreeClosed(s: State) {
    s.pool.backend.Some? ==> forall id :: id in s.pool.avail ==> BracketOf(s, s.pool.backend.value, id) == Closed
  }

  ghost predicate Bracketed(s: State) {
    && Basic(s) && IdsOk(s) && Separate(s) && StreamsOk(s) && FreeClosed(s)
    && (forall c {:trigger ClientOk(s, c)} :: c in s.clients ==> ClientOk(s, c))
  }

  /** A step that sends to another session's backend than the one that gave the client its id. */
  predicate Misdirected(s: State, step: Step) {
    IsSend(step) && Enabled(s, step) && s.clients[step.conn].phase.to.Some?
    && s.clients[step.conn].phase.to.value != s.clients[step.conn].session
  }

  lemma RestrictAppend(ps: seq<Packet>, p: Packet, id: int)
    ensures Restrict(ps + [p], id) == if p.id == id then Restrict(ps, id) + [p] else Restrict(ps, id)
    ensures Read(Restrict(ps + [p], id)) == if p.id == id then Next(Read(Restrict(ps, id)), p) else Read(Restrict(ps, id))
  {
    assert (ps + [p])[..|ps|] == ps;
    var r := Restrict(ps, id);
    assert (r + [p])[..|r|] == r;
  }

  /** Sending a packet moves the bracket of its own id on its own stream, and no other. */
  lemma SendMoves(s: State, r: State, to: Option<nat>, p: Packet, k: nat, id: int)
    requires r.streams == Append(s.streams, to, p)
    ensures BracketOf(r, k, id) == if to == Some(k) && k < |s.streams| && p.id == id then Next(BracketOf(s, k, id), p) else BracketOf(s, k, id)
  {
    if to == Some(k) && k < |s.streams| {
      RestrictAppend(s.streams[k], p, id);
    }
  }

  predicate IsFetch(step: Step) {
    step.FetchUp? || step.FetchData? || step.FetchDown?
  }

  predicate IsSend(step: Step) {
    step.SendUp? || step.SendData? || step.SendDown?
  }

  lemma FetchKeeps(s: State, step: Step, d: nat)
    requires Bracketed(s) && Enabled(s, step) && IsFetch(step) && d in s.clients
    ensures ClientOk(Apply(s, step), d)
  {
    var r := Apply(s, step);
    assert ClientOk(s, d);
    assert r.pool == s.pool && forall k: nat, id :: BracketOf(r, k, id) == BracketOf(s, k, id);
  }

  ghost function SentPacket(s: State, step: Step): (p: Packet)
    requires Enabled(s, step) && IsSend(step)
  {
    var cl := s.clients[step.conn];
    match step
    case SendUp(c) => Up(c, cl.id)
    case SendData(c) => Data(c, cl.id, cl.phase.bytes)
    case SendDown(c) => Down(c, cl.id)
  }

  /** The sender's bracket moves as its phase does, and never breaks. */
  lemma SendOwnBracket(s: State, step: Step)
    requires Bracketed(s) && Enabled(s, step) && IsSend(step) && !Misdirected(s, step)
    ensures var r, cl := Apply(s, step), s.clients[step.conn];
      && ClientOk(r, step.conn)
      && BracketOf(r, cl.session, cl.id) != Broken
  {
    var r, c := Apply(s, step), step.conn;
    var cl := s.clients[c];
    assert ClientOk(s, c);
    SendMoves(s, r, cl.phase.to, SentPacket(s, step), cl.session, cl.id);
  }

  lemma SendKeepsOthers(s: State, step: Step, k: nat, id: int)
    requires Bracketed(s) && Enabled(s, step) && IsSend(step) && !Misdirected(s, step)
    requires (k, id) != (s.clients[step.conn].session, s.clients[step.conn].id)
    ensures BracketOf(Apply(s, step), k, id) == BracketOf(s, k, id)
  {
    var r, cl := Apply(s, step), s.clients[step.conn];
    assert ClientOk(s, step.conn);
    SendMoves(s, r, cl.phase.to, SentPacket(s, step), k, id);
  }

  lemma SendBracketed(s: State, step: Step)
    requires Bracketed(s) && Enabled(s, step) && IsSend(step) && !Misdirected(s, step)
    ensures var r := Apply(s, step);
      && Separate(r) && StreamsOk(r) && FreeClosed(r)
      && (forall d :: d in r.clients ==> ClientOk(r, d))
  {
    var r, c := Apply(s, step), step.conn;
    var cl := s.clients[c];
    SendOwnBracket(s, step);
    forall k: nat, id
      ensures BracketOf(r, k, id) != Broken
    {
      if (k, id) != (cl.session, cl.id) {
        SendKeepsOthers(s, step, k, id);
      }
    }
    forall d | d in r.clients
      ensures ClientOk(r, d)
    {
      assert ClientOk(s, d);
      if d != c && s.clients[d].Live() {
        SendKeepsOthers(s, step, s.clients[d].session, s.clients[d].id);
      }
    }
    if r.pool.backend.Some? {
      forall id | id in r.pool.avail
        ensures BracketOf(r, r.pool.backend.value, id) == Closed
      {
        assert r.pool.backend.value == cl.session ==> InUse(s, c);
        SendKeepsOthers(s, step, r.pool.backend.value, id);
      }
    }
  }

  lemma ConnectBracketed(s: State, c: nat)
    requires Bracketed(s) && c !in s.clients
    ensures var r := Apply(s, Connect(c));
      && Separate(r) && StreamsOk(r) && FreeClosed(r)
      && (forall d :: d in r.clients ==> ClientOk(r, d))
  {
    var r := Apply(s, Connect(c));
    assert forall k: nat, id :: BracketOf(r, k, id) == BracketOf(s, k, id);
    if s.pool.avail != [] {
      var id := s.pool.avail[0];
      assert id in s.pool.avail;
      forall d | d in s.clients && s.clients[d].Live() && s.pool.backend == Some(s.clients[d].session)
        ensures s.clients[d].id != id
      {
        assert InUse(s, d);
      }
    }
    forall d | d in r.clients
      ensures ClientOk(r, d)
    {
      assert d != c ==> ClientOk(s, d);
    }
    forall i | i in r.pool.avail
      ensures i in s.pool.avail
    {
    }
  }

  lemma ReleaseBracketed(s: State, c: nat)
    requires Bracketed(s) && Enabled(s, ReleaseId(c)) && !StaleRelease(s, ReleaseId(c))
    ensures var r := Apply(s, ReleaseId(c));
      && Separate(r) && StreamsOk(r) && FreeClosed(r)
      && (forall d :: d in r.clients ==> ClientOk(r, d))
  {
    var r := Apply(s, ReleaseId(c));
    assert forall k: nat, id :: BracketOf(r, k, id) == BracketOf(s, k, id);
    assert ClientOk(s, c);
    forall d | d in r.clients
      ensures ClientOk(r, d)
    {
      assert ClientOk(s, d);
    }
    forall i | i in r.pool.avail
      ensures i in s.pool.avail || i == s.clients[c].id
    {
    }
  }

  lemma BackendBracketed(s: State, step: Step)
    requires Bracketed(s) && Enabled(s, step) && (step.BackendLost? || step.BackendConnects?)
    ensures var r := Apply(s, step);
      && Separate(r) && StreamsOk(r) && FreeClosed(r)
      && (forall d :: d in r.clients ==> ClientOk(r, d))
  {
    var r := Apply(s, step);
    assert forall k: nat, id :: BracketOf(r, k, id) == BracketOf(s, k, id) by {
      assert forall k: nat :: k < |s.streams| ==> r.streams[k] == s.streams[k];
    }
    forall d | d in r.clients
      ensures ClientOk(r, d)
    {
      assert ClientOk(s, d);
    }
  }

  lemma FetchBracketed(s: State, step: Step)
    requires Bracketed(s) && Enabled(s, step) && IsFetch(step)
    ensures var r := Apply(s, step);
      && Separate(r) && StreamsOk(r) && FreeClosed(r)
      && (forall d :: d in r.clients ==> ClientOk(r, d))
  {
    var r := Apply(s, step);
    assert forall k: nat, id :: BracketOf(r, k, id) == BracketOf(s, k, id);
    forall d | d in r.clients
      ensures ClientOk(r, d)
    {
      FetchKeeps(s, step, d);
    }
  }

  lemma BracketStep(s: State, step: Step)
    requires Bracketed(s) && Enabled(s, step) && !StaleRelease(s, step) && !Misdirected(s, step)
    ensures Bracketed(Apply(s, step))
  {
    BasicStep(s, step);
    PartitionStep(s, step);
    if IsSend(step) {
      SendBracketed(s, step);
    } else if IsFetch(step) {
      FetchBracketed(s, step);
    } else {
      match step
      case Connect(c) => ConnectBracketed(s, c);
      case ReleaseId(c) => ReleaseBracketed(s, c);
      case BackendConnects => BackendBracketed(s, step);
      case BackendLost => BackendBracketed(s, step);
    }
  }

  // ----- whose packets a stream holds

  ghost predicate OwnPacket(s: State, k: nat, p: Packet) {
    p.owner in s.clients && s.clients[p.owner].session == k && s.clients[p.owner].id == p.id
  }

  /** Every packet on a session's stream is from a client that got its id in that session. */
  ghost predicate OwnStreams(s: State) {
    forall k: nat, j: nat :: k < |s.streams| && j < |s.streams[k]| ==> OwnPacket(s, k, s.streams[k][j])
  }

  lemma OwnStep(s: State, step: Step)
    requires Basic(s) && OwnStreams(s) && Enabled(s, step)
    ensures OwnStreams(Apply(s, step)) <==> !Misdirected(s, step)
  {
    var r := Apply(s, step);
    if Misdirected(s, step) {
      var c := step.conn;
      var k := s.clients[c].phase.to.value;
      assert r.streams[k][|s.streams[k]|] == SentPacket(s, step);
      assert !OwnPacket(r, k, r.streams[k][|s.streams[k]|]);
    } else {
      forall k: nat, j: nat | k < |r.streams| && j < |r.streams[k]|
        ensures OwnPacket(r, k, r.streams[k][j])
      {
        if k < |s.streams| && j < |s.streams[k]| {
          assert r.streams[k][j] == s.streams[k][j] && OwnPacket(s, k, s.streams[k][j]);
        } else {
          assert r.streams[k][j] == SentPacket(s, step);
        }
      }
    }
  }

  /** The ids are partitioned; each session's stream reads, id by id, as (UP data* DOWN)* with at
      most one bracket open at the end, each bracket by a single client; and that client got the id
      in that session. */
  ghost predicate Orderly(s: State) {
    IdsOk(s) && StreamsOk(s) && OwnStreams(s)
  }

  ghost predicate AlwaysOrderly(run: seq<Step>)
    requires IsRun(run)
  {
    forall k: nat :: k <= |run| ==> IsRun(run[..k]) && Orderly(After(run[..k]))
  }

  /** No client acts on a later session than its own: none releases its id there, none sends there. */
  ghost predicate NeverTooLate(run: seq<Step>)
    requires IsRun(run)
  {
    forall k: nat :: k < |run| ==>
      IsRun(run[..k]) && !StaleRelease(After(run[..k]), run[k]) && !Misdirected(After(run[..k]), run[k])
  }

  lemma {:induction false} OrderlyUpTo(run: seq<Step>, k: nat)
    requires IsRun(run) && NeverTooLate(run) && k <= |run|
    ensures IsRun(run[..k]) && Bracketed(After(run[..k])) && OwnStreams(After(run[..k]))
  {
    PrefixIsRun(run, k);
    if k == 0 {
      assert run[..0] == [];
      assert forall k: nat, id :: BracketOf(Init(), k, id) == Closed;
    } else {
      OrderlyUpTo(run, k - 1);
      PrefixIsRun(run, k - 1);
      var s, step := After(run[..k - 1]), run[k - 1];
      assert !StaleRelease(s, step) && !Misdirected(s, step);
      BracketStep(s, step);
      OwnStep(s, step);
    }
  }

  /** In every interleaving, the ids and the streams are orderly throughout the run if and only if
      no client releases its id in, or sends to, a later session than its own. */
  lemma OrderlyIffNeverTooLate(run: seq<Step>)
    requires IsRun(run)
    ensures AlwaysOrderly(run) <==> NeverTooLate(run)
  {
    if AlwaysOrderly(run) {
      forall k: nat | k < |run|
        ensures IsRun(run[..k]) && !StaleRelease(After(run[..k]), run[k]) && !Misdirected(After(run[..k]), run[k])
      {
        PrefixIsRun(run, k);
        EveryRunBasic(run[..k]);
        assert Orderly(After(run[..k])) && Orderly(After(run[..k + 1]));
        PartitionStep(After(run[..k]), run[k]);
        OwnStep(After(run[..k]), run[k]);
      }
    }
    if NeverTooLate(run) {
      forall k: nat | k <= |run|
        ensures IsRun(run[..k]) && Orderly(After(run[..k]))
      {
        OrderlyUpTo(run, k);
      }
    }
  }

  // ----- runs in which the backend returns only after the old clients are gone

  ghost predicate NobodyLive(s: State) {
    forall c :: c in s.clients ==> !s.clients[c].Live()
  }

  ghost predicate Patient(run: seq<Step>)
    requires IsRun(run)
  {
    forall k: nat :: k < |run| && run[k].BackendConnects? ==> IsRun(run[..k]) && NobodyLive(After(run[..k]))
  }

  /** Every live client belongs to the last session, and is about to send there or nowhere. */
  ghost predicate Current(s: State) {
    forall c :: c in s.clients && s.clients[c].Live() ==>
      && (s.pool.backend.Some? ==> s.clients[c].session == s.pool.backend.value)
      && (s.clients[c].phase.HasAddress() && s.clients[c].phase.to.Some? ==> s.clients[c].phase.to.value == s.clients[c].session)
  }

  lemma CurrentStep(s: State, step: Step)
    requires Basic(s) && Current(s) && Enabled(s, step) && (step.BackendConnects? ==> NobodyLive(s))
    ensures Current(Apply(s, step)) && !StaleRelease(s, step) && !Misdirected(s, step)
  {
  }

  lemma {:induction false} CurrentUpTo(run: seq<Step>, k: nat)
    requires IsRun(run) && Patient(run) && k <= |run|
    ensures IsRun(run[..k]) && Current(After(run[..k]))
  {
    PrefixIsRun(run, k);
    if k == 0 {
      assert run[..0] == [];
    } else {
      CurrentUpTo(run, k - 1);
      PrefixIsRun(run, k - 1);
      EveryRunBasic(run[..k - 1]);
      CurrentStep(After(run[..k - 1]), run[k - 1]);
    }
  }

  /** If the backend returns only after every client of the previous session is down, all is orderly. */
  lemma PatientRunOrderly(run: seq<Step>)
    requires IsRun(run) && Patient(run)
    ensures AlwaysOrderly(run)
  {
    forall k: nat | k < |run|
      ensures IsRun(run[..k]) && !StaleRelease(After(run[..k]), run[k]) && !Misdirected(After(run[..k]), run[k])
    {
      CurrentUpTo(run, k);
      PrefixIsRun(run, k);
      EveryRunBasic(run[..k]);
      CurrentStep(After(run[..k]), run[k]);
    }
    OrderlyIffNeverTooLate(run);
  }

  /** What an unbroken stream means: data follows the UP of the very client that sent it, with
      nothing of anybody else in between. */
  lemma {:induction false} DataFollowsOwnUp(ps: seq<Packet>, j: nat) returns (i: nat)
    requires Read(ps) != Broken && j < |ps| && !ps[j].Up?
    ensures i < j && ps[i].Up? && ps[i].owner == ps[j].owner
    ensures forall k :: i < k < j ==> ps[k].Data? && ps[k].owner == ps[j].owner
  {
    var n := |ps| - 1;
    if j < n {
      i := DataFollowsOwnUp(ps[..n], j);
    } else {
      i := OpenedAt(ps[..n]);
    }
  }

  lemma {:induction false} OpenedAt(ps: seq<Packet>) returns (i: nat)
    requires Read(ps).OpenBy?
    ensures i < |ps| && ps[i].Up? && ps[i].owner == Read(ps).owner
    ensures forall k :: i < k < |ps| ==> ps[k].Data? && ps[k].owner == Read(ps).owner
  {
    var n := |ps| - 1;
    if ps[n].Up? {
      i := n;
    } else {
      i := OpenedAt(ps[..n]);
    }
  }

  // ----- a run in which the backend is back too soon

  lemma ExtendRun(run: seq<Step>, step: Step)
    requires IsRun(run) && Enabled(After(run), step)
    ensures IsRun(run + [step]) && After(run + [step]) == Apply(After(run), step)
  {
    assert (run + [step])[..|run|] == run;
  }

  /** Client 0 holds an id of the first session and reports DOWN in the second. */
  lemma LateDown() returns (run: seq<Step>)
    ensures IsRun(run) && !AlwaysOk(run)
  {
    var c := 0;
    run := [];
    ExtendRun(run, BackendConnects);
    run := run + [BackendConnects];
    ExtendRun(run, Connect(c));
    run := run + [Connect(c)];
    ExtendRun(run, FetchUp(c));
    run := run + [FetchUp(c)];
    ExtendRun(run, SendUp(c));
    run := run + [SendUp(c)];
    ExtendRun(run, BackendLost);
    run := run + [BackendLost];
    ExtendRun(run, BackendConnects);
    run := run + [BackendConnects];
    ExtendRun(run, FetchDown(c));
    run := run + [FetchDown(c)];
    ExtendRun(run, SendDown(c));
    run := run + [SendDown(c)];
    assert After(run).clients[c].session == 0 && After(run).pool.backend == Some(1);
    ghost var before := run;
    ExtendRun(run, ReleaseId(c));
    run := run + [ReleaseId(c)];
    assert run[..|before|] == before;
    assert StaleRelease(After(run[..|before|]), run[|before|]);
    PartitionIffNeverStale(run);
  }

  /** Client 0 got its id in the first session and sends data to the second. */
  lemma StrayData() returns (run: seq<Step>)
    ensures IsRun(run) && !StreamsOk(After(run))
  {
    var c := 0;
    run := [];
    ExtendRun(run, BackendConnects);
    run := run + [BackendConnects];
    ExtendRun(run, Connect(c));
    run := run + [Connect(c)];
    ExtendRun(run, FetchUp(c));
    run := run + [FetchUp(c)];
    ExtendRun(run, SendUp(c));
    run := run + [SendUp(c)];
    ExtendRun(run, BackendLost);
    run := run + [BackendLost];
    ExtendRun(run, BackendConnects);
    run := run + [BackendConnects];
    ExtendRun(run, FetchData(c, [65]));
    run := run + [FetchData(c, [65])];
    var s := After(run);
    ExtendRun(run, SendData(c));
    run := run + [SendData(c)];
    var id := s.clients[c].id;
    assert BracketOf(s, 1, id) == Closed;
    SendMoves(s, After(run), Some(1), Data(c, id, [65]), 1, id);
    assert BracketOf(After(run), 1, id) == Broken;
  }
}

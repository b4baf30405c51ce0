/** The RPC call/response protocol of one connection.

    `CallMethod` takes an id, sends the request and only then registers the call, so a response
    may be handled before the call is registered.  Client threads, the server, its services and
    the client's event loop interleave freely. */
module RpcChannel {
  import opened Basics

  type Text = string

  // ----- the client's table of outstanding calls

  class RpcChannel {
    var id: nat
    var outstandings: map<nat, nat>

    constructor ()
      ensures id == 0 && outstandings == map[]
    {
      id, outstandings := 0, map[];
    }

    /** The channel's fields are those of a state of the protocol. */
    ghost predicate Shows(s: State)
      reads this
    {
      id == s.counter && outstandings == s.outstandings
    }

    /** `id_.incrementAndGet()` is the step that gives `call` its id. */
    method NextId(ghost s: State, ghost call: nat, ghost request: Text) returns (next: nat)
      requires Shows(s) && Enabled(s, Allocate(call, request))
      modifies `id
      ensures var r := Apply(s, Allocate(call, request));
        Shows(r) && next == r.calls[call].id
    {
      id := id + 1;
      next := id;
    }

    /** The lock region at the end of `CallMethod` is the registering step. */
    method Register(ghost s: State, callId: nat, call: nat)
      requires Shows(s) && Enabled(s, Step.Register(call)) && callId == s.calls[call].id
      modifies `outstandings
      ensures Shows(Apply(s, Step.Register(call)))
    {
      outstandings := outstandings[callId := call];
    }

    /** The lock region of `onRpcMessage`: the call a response completes, if there is one. */
    method TakeOutstanding(ghost s: State, callId: nat) returns (out: Option<nat>)
      requires Shows(s) && s.toClient != [] && callId == s.toClient[0].id
      modifies `outstandings
      ensures var r := Apply(s, HandleResponse);
        && Shows(r)
        && (out.Some? <==> |r.dones| > |s.dones|)
        && (out.Some? ==> r.dones == s.dones + [(out.value, s.toClient[0])])
    {
      out := None;
      if callId in outstandings {
        out := Some(outstandings[callId]);
        outstandings := outstandings - {callId};
      }
    }
  }

  function Take(t: map<nat, nat>, id: nat): (r: (map<nat, nat>, Option<nat>)) {
    if id in t then (t - {id}, Some(t[id])) else (t, None)
  }

  // ----- the whole protocol

  datatype Phase = HasId | Sent | Registered

  datatype Call = Call(id: nat, request: Text, phase: Phase)

  datatype Request = Request(id: nat, body: Text)
  datatype Response = Response(id: nat, body: Text)

  /** `dones` lists the runs of `done` closures; `handled` says of every response id handled
      whether its call was registered at that moment; `answers` is what the services produced. */
  datatype State = State(
    counter: nat, calls: map<nat, Call>, outstandings: map<nat, nat>,
    toServer: seq<Request>, serving: map<nat, Text>, toClient: seq<Response>,
    answers: map<nat, (Text, Text)>, handled: map<nat, bool>, dones: seq<(nat, Response)>)

  datatype Step =
    | Allocate(call: nat, request: Text)
    | Send(call: nat)
    | Register(call: nat)
    | Receive(known: bool)
    | Complete(id: nat, body: Text)
    | Stray(r: Response)
    | HandleResponse

  function Init(): (s: State) {
    State(0, map[], map[], [], map[], [], map[], map[], [])
  }

  predicate Enabled(s: State, step: Step) {
    match step
    case Allocate(c, _) => c !in s.calls
    case Send(c) => c in s.calls && s.calls[c].phase == HasId
    case Register(c) => c in s.calls && s.calls[c].phase == Sent
    case Receive(_) => s.toServer != []
    case Complete(id, _) => id in s.serving
    case Stray(_) => true
    case HandleResponse => s.toClient != []
  }

  function Apply(s: State, step: Step): (r: State)
    requires Enabled(s, step)
  {
    match step
    case Allocate(c, request) =>
      s.(counter := s.counter + 1, calls := s.calls[c := Call(s.counter + 1, request, HasId)])
    case Send(c) =>
      s.(calls := s.calls[c := s.calls[c].(phase := Sent)],
         toServer := s.toServer + [Request(s.calls[c].id, s.calls[c].request)])
    case Register(c) =>
      s.(calls := s.calls[c := s.calls[c].(phase := Registered)],
         outstandings := s.outstandings[s.calls[c].id := c])
    case Receive(known) =>
      var m := s.toServer[0];
      s.(toServer := s.toServer[1..], serving := if known then s.serving[m.id := m.body] else s.serving)
    case Complete(id, body) =>
      s.(serving := s.serving - {id}, toClient := s.toClient + [Response(id, body)],
         answers := s.answers[id := (s.serving[id], body)])
    case Stray(m) =>
      s.(toClient := s.toClient + [m])
    case HandleResponse =>
      var m := s.toClient[0];
      var (table, out) := Take(s.outstandings, m.id);
      s.(toClient := s.toClient[1..], outstandings := table,
         handled := s.handled[m.id := out.Some?],
         dones := s.dones + match out case Some(c) => [(c, m)] case None => [])
  }

  function After(run: seq<Step>): (s: State)
    requires IsRun(run)
    decreases |run|, 1
  {
    if run == [] then Init() else Apply(After(run[..|run| - 1]), run[|run| - 1])
  }

  predicate IsRun(run: seq<Step>)
    decreases |run|, 0
  {
    run == [] || (IsRun(run[..|run| - 1]) && Enabled(After(run[..|run| - 1]), run[|run| - 1]))
  }

  // ----- safety, in every run

  ghost predicate DoneBy(s: State, c: nat) {
    exists k :: 0 <= k < |s.dones| && s.dones[k].0 == c
  }

  ghost predicate CallsOk(s: State) {
    && (forall c :: c in s.calls ==> 0 < s.calls[c].id <= s.counter)
    && (forall c, d :: c in s.calls && d in s.calls && c != d ==> s.calls[c].id != s.calls[d].id)
  }

  ghost predicate TableOk(s: State) {
    forall id :: id in s.outstandings ==>
      var c := s.outstandings[id];
      c in s.calls && s.calls[c].id == id && s.calls[c].phase == Registered && !DoneBy(s, c)
  }

  ghost predicate DonesOk(s: State) {
    && (forall k :: 0 <= k < |s.dones| ==>
          s.dones[k].0 in s.calls && s.calls[s.dones[k].0].phase == Registered && s.dones[k].1.id == s.calls[s.dones[k].0].id)
    && (forall k, l :: 0 <= k < l < |s.dones| ==> s.dones[k].0 != s.dones[l].0)
  }

  ghost predicate Safe(s: State) {
    var calls, table, dones := CallsOk(s), TableOk(s), DonesOk(s);
    calls && table && dones
  }

  lemma SafeHandle(s: State)
    requires Safe(s) && s.toClient != []
    ensures Safe(Apply(s, HandleResponse))
  {
    var m, r := s.toClient[0], Apply(s, HandleResponse);
    if m.id in s.outstandings {
      var c := s.outstandings[m.id];
      forall id | id in r.outstandings
        ensures !DoneBy(r, r.outstandings[id])
      {
        assert id in s.outstandings && s.outstandings[id] != c;
        assert !DoneBy(s, s.outstandings[id]);
      }
      forall k, l | 0 <= k < l < |r.dones|
        ensures r.dones[k].0 != r.dones[l].0
      {
        if l == |s.dones| {
          assert !DoneBy(s, c);
        }
      }
    } else {
      assert r.dones == s.dones;
    }
  }

  lemma CallsStep(s: State, step: Step)
    requires CallsOk(s) && Enabled(s, step)
    ensures CallsOk(Apply(s, step))
  {
  }

  lemma TableStep(s: State, step: Step)
    requires Safe(s) && Enabled(s, step) && !step.HandleResponse?
    ensures TableOk(Apply(s, step))
  {
    var r := Apply(s, step);
    assert r.dones == s.dones;
    forall id | id in r.outstandings
      ensures var c := r.outstandings[id];
        c in r.calls && r.calls[c].id == id && r.calls[c].phase == Registered && !DoneBy(r, c)
    {
      var c := r.outstandings[id];
      assert DoneBy(r, c) <==> DoneBy(s, c);
    }
  }

  lemma DonesStep(s: State, step: Step)
    requires Safe(s) && Enabled(s, step) && !step.HandleResponse?
    ensures DonesOk(Apply(s, step))
  {
    var r := Apply(s, step);
    assert r.dones == s.dones;
  }

  lemma SafeStep(s: State, step: Step)
    requires Safe(s) && Enabled(s, step)
    ensures Safe(Apply(s, step))
  {
    if step.HandleResponse? {
      SafeHandle(s);
    } else {
      CallsStep(s, step);
      TableStep(s, step);
      DonesStep(s, step);
    }
  }

  /** Every `done` runs at most once, for a registered call, on a response carrying its own id. */
  lemma {:induction false} EveryRunSafe(run: seq<Step>)
    requires IsRun(run)
    ensures Safe(After(run))
  {
    if run != [] {
      EveryRunSafe(run[..|run| - 1]);
      SafeStep(After(run[..|run| - 1]), run[|run| - 1]);
    }
  }

  /** A response with an unknown id, in particular a repeated one, runs nothing and changes no call. */
  lemma UnknownIdIgnored(s: State)
    requires Safe(s) && s.toClient != []
    requires var id := s.toClient[0].id;
      id !in s.outstandings || exists c :: c in s.calls && s.calls[c].id == id && DoneBy(s, c)
    ensures s.toClient[0].id !in s.outstandings
    ensures var r := Apply(s, HandleResponse);
      r.dones == s.dones && r.outstandings == s.outstandings && r.calls == s.calls
  {
  }

  // ----- exactly once, in runs without stray responses

  ghost predicate NoStray(run: seq<Step>) {
    forall k :: 0 <= k < |run| ==> !run[k].Stray?
  }

  /** Where the message with a given id is.  At most one of these holds. */
  ghost predicate InToServer(s: State, id: nat) { exists k :: 0 <= k < |s.toServer| && s.toServer[k].id == id }
  ghost predicate InToClient(s: State, id: nat) { exists k :: 0 <= k < |s.toClient| && s.toClient[k].id == id }

  ghost predicate DistinctIds<T(!new)>(ms: seq<T>, id: T -> nat) {
    forall k, l :: 0 <= k < l < |ms| ==> id(ms[k]) != id(ms[l])
  }

  /** A call whose request is on its way has been sent, and the request is its own. */
  ghost predicate Carries(s: State, id: nat, body: Text) {
    exists c :: c in s.calls && s.calls[c].id == id && s.calls[c].request == body && s.calls[c].phase != HasId
  }

  ghost predicate OnePlace(s: State, id: nat) {
    && (InToServer(s, id) ==> id !in s.serving && !InToClient(s, id) && id !in s.handled && id !in s.answers)
    && (id in s.serving ==> !InToClient(s, id) && id !in s.handled && id !in s.answers)
    && (InToClient(s, id) ==> id !in s.handled && id in s.answers)
    && (id in s.handled ==> id in s.answers)
  }

  ghost predicate Placed(s: State) {
    && DistinctIds(s.toServer, (m: Request) => m.id)
    && DistinctIds(s.toClient, (m: Response) => m.id)
    && (forall id: nat {:trigger OnePlace(s, id)} :: OnePlace(s, id))
  }

  ghost predicate Carried(s: State) {
    && (forall k :: 0 <= k < |s.toServer| ==> Carries(s, s.toServer[k].id, s.toServer[k].body))
    && (forall id :: id in s.serving ==> Carries(s, id, s.serving[id]))
    && (forall id :: id in s.answers ==> Carries(s, id, s.answers[id].0))
    && (forall k :: 0 <= k < |s.toClient| ==>
          s.toClient[k].id in s.answers && s.answers[s.toClient[k].id].1 == s.toClient[k].body)
  }

  ghost predicate AllSettled(s: State) {
    forall c {:trigger Settled(s, c)} :: c in s.calls ==> Settled(s, c)
  }

  ghost predicate Once(s: State) {
    var safe, placed, carried, settled := Safe(s), Placed(s), Carried(s), AllSettled(s);
    safe && placed && carried && settled
  }

  /** `done` has run for `c` exactly if its response was handled while it was registered; then it
      was given the answer.  Otherwise a registered call is still in the table. */
  ghost predicate Settled(s: State, c: nat)
    requires c in s.calls
  {
    var id := s.calls[c].id;
    && (DoneBy(s, c) <==> id in s.handled && s.handled[id])
    && (forall k :: 0 <= k < |s.dones| && s.dones[k].0 == c ==> id in s.answers && s.dones[k].1 == Response(id, s.answers[id].1))
    && (s.calls[c].phase == Registered && !DoneBy(s, c) ==> id in s.outstandings && s.outstandings[id] == c)
  }

  // Each step keeps a message with a given id in one place.

  lemma NotSentYet(s: State, c: nat)
    requires Safe(s) && Placed(s) && Carried(s) && c in s.calls && s.calls[c].phase == HasId
    ensures var id := s.calls[c].id;
      !InToServer(s, id) && id !in s.serving && !InToClient(s, id) && id !in s.handled && id !in s.answers
  {
    var id := s.calls[c].id;
    assert OnePlace(s, id);
    forall body
      ensures !Carries(s, id, body)
    {
    }
    assert forall k :: 0 <= k < |s.toServer| ==> Carries(s, s.toServer[k].id, s.toServer[k].body);
  }

  lemma PlaceAfterSend(s: State, c: nat, i: nat)
    requires Safe(s) && Placed(s) && Carried(s) && Enabled(s, Send(c))
    ensures OnePlace(Apply(s, Send(c)), i)
  {
    var r := Apply(s, Send(c));
    assert OnePlace(s, i);
    NotSentYet(s, c);
    assert InToClient(r, i) == InToClient(s, i);
    assert i != s.calls[c].id && InToServer(r, i) ==> InToServer(s, i);
  }

  lemma PlaceAfter(s: State, step: Step, i: nat)
    requires Placed(s) && Enabled(s, step) && !step.Stray? && !step.Send?
    ensures OnePlace(Apply(s, step), i)
  {
    var r := Apply(s, step);
    assert OnePlace(s, i);
    match step
    case Allocate(_, _) =>
      assert InToServer(r, i) == InToServer(s, i) && InToClient(r, i) == InToClient(s, i);
    case Register(_) =>
      assert InToServer(r, i) == InToServer(s, i) && InToClient(r, i) == InToClient(s, i);
    case Receive(_) =>
      assert InToClient(r, i) == InToClient(s, i) && InToServer(s, s.toServer[0].id);
      if InToServer(r, i) {
        var k :| 0 <= k < |r.toServer| && r.toServer[k].id == i;
        assert s.toServer[k + 1].id == i;
      }
    case Complete(id, _) =>
      assert InToServer(r, i) == InToServer(s, i);
      if i != id && InToClient(r, i) {
        var k :| 0 <= k < |r.toClient| && r.toClient[k].id == i;
        assert s.toClient[k].id == i;
      }
    case HandleResponse =>
      assert InToServer(r, i) == InToServer(s, i) && InToClient(s, s.toClient[0].id);
      if InToClient(r, i) {
        var k :| 0 <= k < |r.toClient| && r.toClient[k].id == i;
        assert s.toClient[k + 1].id == i;
      }
  }

  lemma PlacedStep(s: State, step: Step)
    requires Safe(s) && Placed(s) && Carried(s) && Enabled(s, step) && !step.Stray?
    ensures Placed(Apply(s, step))
  {
    var r := Apply(s, step);
    forall i: nat
      ensures OnePlace(r, i)
    {
      if step.Send? {
        PlaceAfterSend(s, step.call, i);
      } else {
        PlaceAfter(s, step, i);
      }
    }
    if step.Send? {
      NotSentYet(s, step.call);
      assert forall k :: 0 <= k < |s.toServer| ==> InToServer(s, s.toServer[k].id);
    } else if step.Complete? {
      assert OnePlace(s, step.id);
      assert forall k :: 0 <= k < |s.toClient| ==> InToClient(s, s.toClient[k].id);
    }
  }

  // Requests and answers stay with their calls.

  lemma CarriesKept(s: State, step: Step, id: nat, body: Text)
    requires Enabled(s, step) && Carries(s, id, body)
    ensures Carries(Apply(s, step), id, body)
  {
    var r := Apply(s, step);
    var c :| c in s.calls && s.calls[c].id == id && s.calls[c].request == body && s.calls[c].phase != HasId;
    assert c in r.calls && r.calls[c].id == id;
  }

  /** Where a request or an answer of the next state comes from. */
  lemma CarriedStep(s: State, step: Step)
    requires Placed(s) && Carried(s) && Enabled(s, step) && !step.Stray?
    ensures Carried(Apply(s, step))
  {
    var r := Apply(s, step);
    forall k | 0 <= k < |r.toServer|
      ensures Carries(r, r.toServer[k].id, r.toServer[k].body)
    {
      if step.Send? && k == |s.toServer| {
        assert step.call in r.calls;
      } else {
        var l := if step.Receive? then k + 1 else k;
        CarriesKept(s, step, s.toServer[l].id, s.toServer[l].body);
      }
    }
    forall id | id in r.serving
      ensures Carries(r, id, r.serving[id])
    {
      if id in s.serving && r.serving[id] == s.serving[id] {
        CarriesKept(s, step, id, s.serving[id]);
      } else {
        CarriesKept(s, step, id, s.toServer[0].body);
      }
    }
    forall id | id in r.answers
      ensures Carries(r, id, r.answers[id].0)
    {
      if step.Complete? && id == step.id {
        CarriesKept(s, step, id, s.serving[id]);
      } else {
        CarriesKept(s, step, id, s.answers[id].0);
      }
    }
    forall k | 0 <= k < |r.toClient|
      ensures r.toClient[k].id in r.answers && r.answers[r.toClient[k].id].1 == r.toClient[k].body
    {
      assert step.Complete? && k < |s.toClient| ==> InToClient(s, s.toClient[k].id) && OnePlace(s, step.id);
    }
  }

  // Calls are settled by the response to them and by nothing else.

  lemma HandleSettles(s: State, d: nat)
    requires Once(s) && s.toClient != [] && d in s.calls
    ensures Settled(Apply(s, HandleResponse), d)
  {
    var r, m := Apply(s, HandleResponse), s.toClient[0];
    assert InToClient(s, m.id) && OnePlace(s, m.id) && Settled(s, d);
    if m.id in s.outstandings && s.outstandings[m.id] == d {
      assert r.dones[|s.dones|] == (d, m);
      assert DoneBy(r, d);
    } else {
      assert DoneBy(r, d) <==> DoneBy(s, d) by {
        if DoneBy(s, d) {
          var k :| 0 <= k < |s.dones| && s.dones[k].0 == d;
          assert r.dones[k].0 == d;
        }
      }
    }
  }

  lemma NewCallSettles(s: State, c: nat, request: Text)
    requires Once(s) && c !in s.calls
    ensures Settled(Apply(s, Allocate(c, request)), c)
  {
    var r := Apply(s, Allocate(c, request));
    var id := r.calls[c].id;
    assert !DoneBy(s, c) && !DoneBy(r, c);
    assert OnePlace(s, id);
    assert forall body :: !Carries(s, id, body);
  }

  lemma OtherSettles(s: State, step: Step, c: nat)
    requires Once(s) && Enabled(s, step) && !step.Stray? && !step.HandleResponse? && c in s.calls
    ensures Settled(Apply(s, step), c)
  {
    var r := Apply(s, step);
    assert r.dones == s.dones;
    assert DoneBy(r, c) <==> DoneBy(s, c);
    assert Settled(s, c);
    if step.Complete? {
      assert OnePlace(s, step.id);
    }
  }

  lemma OnceStep(s: State, step: Step)
    requires Once(s) && Enabled(s, step) && !step.Stray?
    ensures Once(Apply(s, step))
  {
    SafeStep(s, step);
    PlacedStep(s, step);
    CarriedStep(s, step);
    forall c | c in Apply(s, step).calls
      ensures Settled(Apply(s, step), c)
    {
      if step.HandleResponse? {
        HandleSettles(s, c);
      } else if c in s.calls {
        OtherSettles(s, step, c);
      } else {
        NewCallSettles(s, c, step.request);
      }
    }
  }

  lemma {:induction false} EveryRunOnce(run: seq<Step>)
    requires IsRun(run) && NoStray(run)
    ensures Once(After(run))
  {
    if run != [] {
      var n := |run| - 1;
      assert run[n] == run[|run| - 1];
      EveryRunOnce(run[..n]);
      OnceStep(After(run[..n]), run[n]);
    } else {
      assert forall id: nat :: OnePlace(Init(), id);
    }
  }

  ghost predicate DoneOnceWith(s: State, c: nat, r: Response) {
    exists k :: 0 <= k < |s.dones| && s.dones[k] == (c, r) && forall l :: 0 <= l < |s.dones| && s.dones[l].0 == c ==> l == k
  }

  /** What the flag in `handled` says about a call. */
  lemma FlagTells(run: seq<Step>, c: nat)
    requires IsRun(run) && NoStray(run) && c in After(run).calls && After(run).calls[c].id in After(run).handled
    ensures var s := After(run);
      var call := s.calls[c];
      && call.id in s.answers && s.answers[call.id].0 == call.request
      && (s.handled[call.id] <==> DoneOnceWith(s, c, Response(call.id, s.answers[call.id].1)))
      && (s.handled[call.id] <==> DoneBy(s, c))
      && (!s.handled[call.id] && call.phase == Registered ==> call.id in s.outstandings && s.outstandings[call.id] == c)
  {
    EveryRunOnce(run);
    var s := After(run);
    var id := s.calls[c].id;
    assert Settled(s, c) && OnePlace(s, id);
    assert Carries(s, id, s.answers[id].0);
    if s.handled[id] {
      var k :| 0 <= k < |s.dones| && s.dones[k].0 == c;
      assert s.dones[k] == (c, Response(id, s.answers[id].1));
    }
  }

  // ----- completion, in terms of the run

  lemma {:induction false} PrefixIsRun(run: seq<Step>, k: nat)
    requires IsRun(run) && k <= |run|
    ensures IsRun(run[..k])
    ensures k < |run| ==> Enabled(After(run[..k]), run[k]) && IsRun(run[..k + 1]) && After(run[..k + 1]) == Apply(After(run[..k]), run[k])
  {
    if k == |run| {
      assert run[..k] == run;
    } else if k + 1 == |run| {
      assert run[..k + 1] == run;
    } else {
      var n := |run| - 1;
      PrefixIsRun(run[..n], k);
      assert run[..n][..k] == run[..k] && run[..n][..k + 1] == run[..k + 1];
    }
  }

  ghost predicate Registers(run: seq<Step>, c: nat, before: nat)
    requires before <= |run|
  {
    exists k :: 0 <= k < before && run[k] == Step.Register(c)
  }

  predicate IsRegistered(s: State, c: nat) {
    c in s.calls && s.calls[c].phase == Registered
  }

  lemma RegisteredStep(s: State, step: Step, c: nat)
    requires Enabled(s, step)
    ensures IsRegistered(Apply(s, step), c) <==> IsRegistered(s, c) || step == Step.Register(c)
  {
  }

  lemma RegistersLast(run: seq<Step>, step: Step, c: nat)
    ensures Registers(run + [step], c, |run| + 1) <==> Registers(run, c, |run|) || step == Step.Register(c)
  {
    var all := run + [step];
    if k :| 0 <= k < |run| && run[k] == Step.Register(c) {
      assert all[k] == Step.Register(c);
    }
    if step == Step.Register(c) {
      assert all[|run|] == Step.Register(c);
    }
  }

  /** A call is registered exactly if its registration is among the steps taken. */
  lemma {:induction false} RegisteredIffStep(run: seq<Step>, c: nat)
    requires IsRun(run)
    ensures Registers(run, c, |run|) <==> IsRegistered(After(run), c)
  {
    if run != [] {
      var n := |run| - 1;
      RegisteredIffStep(run[..n], c);
      RegistersLast(run[..n], run[n], c);
      RegisteredStep(After(run[..n]), run[n], c);
      assert run == run[..n] + [run[n]];
    }
  }

  /** Step `h` of the run handles the response to call `c`. */
  ghost predicate HandlesAt(run: seq<Step>, h: nat, c: nat) {
    && h < |run| && IsRun(run[..h]) && run[h].HandleResponse?
    && var s := After(run[..h]);
      s.toClient != [] && c in s.calls && s.toClient[0].id == s.calls[c].id
  }

  /** A response to a call finds it in the table exactly if the call is registered. */
  lemma FoundIffRegistered(s: State, c: nat)
    requires Once(s) && s.toClient != [] && c in s.calls && s.toClient[0].id == s.calls[c].id
    ensures s.calls[c].id in s.outstandings <==> s.calls[c].phase == Registered
    ensures s.calls[c].id in s.answers && s.answers[s.calls[c].id].1 == s.toClient[0].body
  {
    var id := s.calls[c].id;
    assert InToClient(s, id) && OnePlace(s, id) && Settled(s, c);
  }

  lemma HandledStep(s: State, step: Step, c: nat)
    requires Once(s) && c in s.calls && s.calls[c].id in s.handled && Enabled(s, step) && !step.Stray?
    ensures var r, id := Apply(s, step), s.calls[c].id;
      && c in r.calls && r.calls[c].id == id
      && id in r.handled && r.handled[id] == s.handled[id]
      && id in s.answers && id in r.answers && r.answers[id] == s.answers[id]
  {
    assert OnePlace(s, s.calls[c].id);
    assert step.HandleResponse? ==> InToClient(s, s.toClient[0].id);
  }

  /** Once the response to a call has been handled, nothing about it changes. */
  lemma {:induction false} HandledKept(run: seq<Step>, k: nat, c: nat)
    requires IsRun(run) && NoStray(run) && k <= |run| && IsRun(run[..k])
    requires c in After(run[..k]).calls && After(run[..k]).calls[c].id in After(run[..k]).handled
    ensures var s, r := After(run[..k]), After(run);
      var id := s.calls[c].id;
      && c in r.calls && r.calls[c].id == id
      && id in r.handled && r.handled[id] == s.handled[id]
      && id in s.answers && id in r.answers && r.answers[id] == s.answers[id]
  {
    if k == |run| {
      assert run[..k] == run;
      EveryRunOnce(run);
      assert OnePlace(After(run), After(run).calls[c].id);
    } else {
      var n := |run| - 1;
      assert run[..n][..k] == run[..k];
      HandledKept(run[..n], k, c);
      EveryRunOnce(run[..n]);
      HandledStep(After(run[..n]), run[n], c);
    }
  }

  /** The state right after the response to a call is handled. */
  lemma AtHandling(run: seq<Step>, h: nat, c: nat)
    requires IsRun(run) && NoStray(run) && HandlesAt(run, h, c)
    ensures IsRun(run[..h + 1])
    ensures var s, r := After(run[..h]), After(run[..h + 1]);
      var m := s.toClient[0];
      && c in r.calls && r.calls[c].id == m.id && m.id in r.handled
      && (r.handled[m.id] <==> Registers(run, c, h))
      && m.id in r.answers && r.answers[m.id].1 == m.body
  {
    PrefixIsRun(run, h);
    var s := After(run[..h]);
    EveryRunOnce(run[..h]);
    FoundIffRegistered(s, c);
    RegisteredIffStep(run[..h], c);
    assert forall k :: 0 <= k < h ==> run[..h][k] == run[k];
  }

  /** If the response to a call is handled at step `h`: `done` runs exactly once, on that response,
      which is the server's answer to that very request, if and only if the call was registered at
      some step before `h`.  Otherwise `done` never runs, however the run continues, and a call
      registered too late stays in the table. */
  lemma CompletionIffRegistered(run: seq<Step>, h: nat, c: nat)
    requires IsRun(run) && NoStray(run) && HandlesAt(run, h, c)
    ensures var s, m := After(run), After(run[..h]).toClient[0];
      && c in s.calls && s.calls[c].id == m.id && m.id in s.answers && s.answers[m.id] == (s.calls[c].request, m.body)
      && (DoneOnceWith(s, c, m) <==> Registers(run, c, h))
      && (DoneBy(s, c) <==> Registers(run, c, h))
      && (!Registers(run, c, h) && Registers(run, c, |run|) ==> m.id in s.outstandings && s.outstandings[m.id] == c)
  {
    AtHandling(run, h, c);
    HandledKept(run, h + 1, c);
    FlagTells(run, c);
    RegisteredIffStep(run, c);
  }

  // ----- nothing is lost

  /** The server took the request of call `id` and knew no such service or method. */
  ghost predicate Dropped(run: seq<Step>, id: nat, before: nat)
    requires before <= |run|
  {
    exists k :: 0 <= k < before && DropsAt(run, k, id)
  }

  ghost predicate DropsAt(run: seq<Step>, k: nat, id: nat) {
    k < |run| && run[k] == Receive(false) && IsRun(run[..k])
    && After(run[..k]).toServer != [] && After(run[..k]).toServer[0].id == id
  }

  /** Where a request, or the answer to it, can be. */
  ghost predicate Somewhere(s: State, id: nat) {
    InToServer(s, id) || id in s.serving || InToClient(s, id) || id in s.handled
  }

  lemma SomewhereStep(s: State, step: Step, id: nat)
    requires Enabled(s, step) && !step.Stray? && Somewhere(s, id)
    requires step == Receive(false) ==> s.toServer[0].id != id
    ensures Somewhere(Apply(s, step), id)
  {
    var r := Apply(s, step);
    if InToServer(s, id) {
      var k :| 0 <= k < |s.toServer| && s.toServer[k].id == id;
      if step.Receive? {
        assert k > 0 ==> r.toServer[k - 1].id == id;
      } else {
        assert r.toServer[k].id == id;
      }
    } else if id in s.serving && step.Complete? && step.id == id {
      assert r.toClient[|s.toClient|].id == id;
    } else if InToClient(s, id) {
      var k :| 0 <= k < |s.toClient| && s.toClient[k].id == id;
      if step.HandleResponse? {
        assert k > 0 ==> r.toClient[k - 1].id == id;
      } else {
        assert r.toClient[k].id == id;
      }
    }
  }

  lemma NewlySent(s: State, c: nat)
    requires Enabled(s, Send(c))
    ensures Somewhere(Apply(s, Send(c)), s.calls[c].id)
  {
    assert Apply(s, Send(c)).toServer[|s.toServer|].id == s.calls[c].id;
  }

  lemma DroppedBefore(run: seq<Step>, id: nat)
    requires run != []
    ensures Dropped(run[..|run| - 1], id, |run| - 1) ==> Dropped(run, id, |run|)
  {
    var n := |run| - 1;
    if k :| 0 <= k < n && DropsAt(run[..n], k, id) {
      assert run[..n][..k] == run[..k];
      assert DropsAt(run, k, id);
    }
  }

  /** In every run each request that was sent, and that the server did not drop for want of a service
      or method, is somewhere: on its way, being served, or its answer on its way or handled. */
  lemma {:induction false} NothingLost(run: seq<Step>, c: nat)
    requires IsRun(run) && NoStray(run) && c in After(run).calls && After(run).calls[c].phase != HasId
    requires !Dropped(run, After(run).calls[c].id, |run|)
    ensures Somewhere(After(run), After(run).calls[c].id)
  {
    var n := |run| - 1;
    var s, step, id := After(run[..n]), run[n], After(run).calls[c].id;
    if step == Send(c) {
      NewlySent(s, c);
    } else {
      DroppedBefore(run, id);
      NothingLost(run[..n], c);
      assert !DropsAt(run, n, id);
      SomewhereStep(s, step, id);
    }
  }

  lemma FreshIdUnhandled(s: State)
    requires Once(s)
    ensures s.counter + 1 !in s.handled
  {
    var id := s.counter + 1;
    assert OnePlace(s, id);
    assert forall body :: !Carries(s, id, body);
  }

  lemma HandledNow(s: State, step: Step, c: nat)
    requires Once(s) && Enabled(s, step) && !step.Stray? && c in Apply(s, step).calls
    requires Apply(s, step).calls[c].id in Apply(s, step).handled && !(c in s.calls && s.calls[c].id in s.handled)
    ensures step.HandleResponse? && c in s.calls && s.toClient[0].id == s.calls[c].id
  {
    FreshIdUnhandled(s);
  }

  /** A handled response was handled at some step. */
  lemma {:induction false} HandledSomewhen(run: seq<Step>, c: nat) returns (h: nat)
    requires IsRun(run) && NoStray(run) && c in After(run).calls && After(run).calls[c].id in After(run).handled
    ensures HandlesAt(run, h, c)
  {
    var n := |run| - 1;
    var s := After(run[..n]);
    EveryRunOnce(run[..n]);
    if c in s.calls && s.calls[c].id in s.handled {
      h := HandledSomewhen(run[..n], c);
      assert run[..n][..h] == run[..h];
    } else {
      h := n;
      HandledNow(s, run[n], c);
    }
  }

  // ----- what was asked and what was answered, by the steps

  ghost predicate Asked(run: seq<Step>, c: nat, request: Text) {
    exists k :: 0 <= k < |run| && run[k] == Allocate(c, request)
  }

  /** The service completes request `id`, for which it was given `request`, with `body`. */
  ghost predicate Answers(run: seq<Step>, id: nat, request: Text, body: Text) {
    exists k :: 0 <= k < |run| && AnswersAt(run, k, id, request, body)
  }

  ghost predicate AnswersAt(run: seq<Step>, k: nat, id: nat, request: Text, body: Text) {
    k < |run| && run[k] == Complete(id, body) && IsRun(run[..k])
    && id in After(run[..k]).serving && After(run[..k]).serving[id] == request
  }

  lemma AskedBefore(run: seq<Step>, c: nat, request: Text)
    requires run != [] && Asked(run[..|run| - 1], c, request)
    ensures Asked(run, c, request)
  {
    var k :| 0 <= k < |run| - 1 && run[..|run| - 1][k] == Allocate(c, request);
    assert run[k] == Allocate(c, request);
  }

  lemma AskStep(s: State, step: Step, c: nat)
    requires Enabled(s, step) && c in Apply(s, step).calls
    ensures if c in s.calls then Apply(s, step).calls[c].request == s.calls[c].request
            else step == Allocate(c, Apply(s, step).calls[c].request)
  {
  }

  lemma {:induction false} EveryCallAsked(run: seq<Step>, c: nat)
    requires IsRun(run) && c in After(run).calls
    ensures Asked(run, c, After(run).calls[c].request)
  {
    var n := |run| - 1;
    var s := After(run[..n]);
    AskStep(s, run[n], c);
    if c in s.calls {
      EveryCallAsked(run[..n], c);
      AskedBefore(run, c, s.calls[c].request);
    }
  }

  lemma AnswersBefore(run: seq<Step>, id: nat, request: Text, body: Text)
    requires run != [] && Answers(run[..|run| - 1], id, request, body)
    ensures Answers(run, id, request, body)
  {
    var n := |run| - 1;
    var k :| 0 <= k < n && AnswersAt(run[..n], k, id, request, body);
    assert run[..n][..k] == run[..k];
    assert AnswersAt(run, k, id, request, body);
  }

  lemma AnswersStep(s: State, step: Step, id: nat)
    requires Enabled(s, step) && id in Apply(s, step).answers
    ensures if step.Complete? && step.id == id
            then id in s.serving && Apply(s, step).answers[id] == (s.serving[id], step.body)
            else id in s.answers && s.answers[id] == Apply(s, step).answers[id]
  {
  }

  lemma {:induction false} EveryAnswerGiven(run: seq<Step>, id: nat)
    requires IsRun(run) && id in After(run).answers
    ensures Answers(run, id, After(run).answers[id].0, After(run).answers[id].1)
  {
    var n := |run| - 1;
    var s, a := After(run[..n]), After(run).answers[id];
    AnswersStep(s, run[n], id);
    if run[n].Complete? && run[n].id == id {
      assert AnswersAt(run, n, id, a.0, a.1);
    } else {
      EveryAnswerGiven(run[..n], id);
      AnswersBefore(run, id, a.0, a.1);
    }
  }

  /** Nothing on its way and nothing being served. */
  ghost predicate Quiet(s: State) {
    s.toServer == [] && s.serving == map[] && s.toClient == []
  }

  /** When all is quiet, every call whose request was sent and not dropped has had its response
      handled at some step `h`, and if it was registered before `h` its `done` has run exactly once:
      with the text with which the service completed what the call had asked. */
  lemma QuietMeansDone(run: seq<Step>, c: nat) returns (h: nat)
    requires IsRun(run) && NoStray(run) && Quiet(After(run))
    requires c in After(run).calls && After(run).calls[c].phase != HasId && !Dropped(run, After(run).calls[c].id, |run|)
    ensures HandlesAt(run, h, c)
    ensures var s, m := After(run), After(run[..h]).toClient[0];
      && m.id == s.calls[c].id && Asked(run, c, s.calls[c].request) && Answers(run, m.id, s.calls[c].request, m.body)
      && (DoneOnceWith(s, c, m) <==> Registers(run, c, h)) && (DoneBy(s, c) <==> Registers(run, c, h))
  {
    NothingLost(run, c);
    h := HandledSomewhen(run, c);
    CompletionIffRegistered(run, h, c);
    EveryCallAsked(run, c);
    EveryAnswerGiven(run, After(run).calls[c].id);
  }

  // ----- a response that comes too early

  lemma ExtendRun(run: seq<Step>, step: Step)
    requires IsRun(run) && Enabled(After(run), step)
    ensures IsRun(run + [step]) && After(run + [step]) == Apply(After(run), step)
  {
    assert (run + [step])[..|run|] == run;
  }

  /** The answer to call 0 is handled between its `send` and its registration. */
  lemma EarlyResponse(request: Text, answer: Text) returns (run: seq<Step>)
    ensures IsRun(run) && NoStray(run) && HandlesAt(run, 4, 0) && Registers(run, 0, |run|)
    ensures !DoneBy(After(run), 0)
  {
    run := [];
    ExtendRun(run, Allocate(0, request));
    run := run + [Allocate(0, request)];
    ExtendRun(run, Send(0));
    run := run + [Send(0)];
    ExtendRun(run, Receive(true));
    run := run + [Receive(true)];
    ExtendRun(run, Complete(1, answer));
    run := run + [Complete(1, answer)];
    var before := run;
    ExtendRun(run, HandleResponse);
    run := run + [HandleResponse];
    ExtendRun(run, Step.Register(0));
    run := run + [Step.Register(0)];
    assert run[..4] == before;
    assert run[5] == Step.Register(0);
  }
}

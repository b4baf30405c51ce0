/** The publish/subscribe hub: a two-way index of topics and subscriptions, and its line protocol. */
module Hub {
  import opened Basics
  import opened Streams
  import opened TextNumbers

  // ----- the server's state

  datatype Topic = Topic(published: bool, content: Bytes, audience: set<nat>)

  /** A message as it was sent to a subscriber. */
  datatype Note = Note(topic: Bytes, content: Bytes)

  /** `subs` has the subscription set of every open connection; `sent` what was sent to whom. */
  datatype Server = Server(topics: map<Bytes, Topic>, subs: map<nat, set<Bytes>>, sent: map<nat, seq<Note>>)

  function TopicOf(s: Server, t: Bytes): (r: Topic) {
    if t in s.topics then s.topics[t] else Topic(false, [], {})
  }

  function SentTo(s: Server, c: nat): (ns: seq<Note>) {
    if c in s.sent then s.sent[c] else []
  }

  function Subscribe(s: Server, c: nat, t: Bytes): (r: Server)
    requires c in s.subs
  {
    var x := TopicOf(s, t);
    Server(s.topics[t := x.(audience := x.audience + {c})],
           s.subs[c := s.subs[c] + {t}],
           if x.published then s.sent[c := SentTo(s, c) + [Note(t, x.content)]] else s.sent)
  }

  function Unsubscribe(s: Server, c: nat, t: Bytes): (r: Server)
    requires c in s.subs
  {
    var x := TopicOf(s, t);
    Server(s.topics[t := x.(audience := x.audience - {c})], s.subs[c := s.subs[c] - {t}], s.sent)
  }

  ghost function Publish(s: Server, t: Bytes, content: Bytes): (r: Server) {
    var x := TopicOf(s, t).(published := true, content := content);
    Server(s.topics[t := x], s.subs,
           map c | c in s.sent.Keys + x.audience :: if c in x.audience then SentTo(s, c) + [Note(t, content)] else s.sent[c])
  }

  function LeftBy(x: Topic, c: nat, leaves: bool): (r: Topic) {
    if leaves then x.(audience := x.audience - {c}) else x
  }

  /** A closed connection is unsubscribed from each of the topics it had when it closed. */
  ghost predicate Disconnected(s: Server, c: nat, r: Server)
    requires c in s.subs
  {
    && r.subs == s.subs - {c} && r.sent == s.sent
    && r.topics.Keys == s.topics.Keys + s.subs[c]
    && (forall t :: t in r.topics ==> r.topics[t] == LeftBy(TopicOf(s, t), c, t in s.subs[c]))
  }

  class PubSubServer {
    var topics: map<Bytes, Topic>
    var subs: map<nat, set<Bytes>>
    var sent: map<nat, seq<Note>>

    function Contents(): (s: Server)
      reads this
    {
      Server(topics, subs, sent)
    }

    constructor ()
      ensures Contents() == Server(map[], map[], map[])
    {
      topics, subs, sent := map[], map[], map[];
    }

    /** A connection the hub has not seen before opens. */
    method OnConnectionUp(c: nat)
      modifies `subs
      ensures c in subs && subs[c] == {} && forall d :: d in old(subs) && d != c ==> d in subs && subs[d] == old(subs)[d]
      ensures c !in old(subs) && c !in old(sent) ==> Next(old(Contents()), Opened(c), Contents())
    {
      subs := subs[c := {}];
    }

    /** `getTopic`: look a topic up, creating it when it is new. */
    method GetTopic(t: Bytes) returns (x: Topic)
      modifies `topics
      ensures x == TopicOf(old(Contents()), t) && topics == old(topics)[t := x]
    {
      if t !in topics {
        topics := topics[t := Topic(false, [], {})];
      }
      x := topics[t];
    }

    method DoSubscribe(c: nat, t: Bytes)
      requires c in subs
      modifies this
      ensures Contents() == Subscribe(old(Contents()), c, t)
    {
      subs := subs[c := subs[c] + {t}];
      var x := GetTopic(t);
      topics := topics[t := x.(audience := x.audience + {c})];
      if x.published {
        sent := sent[c := (if c in sent then sent[c] else []) + [Note(t, x.content)]];
      }
    }

    method DoUnsubscribe(c: nat, t: Bytes)
      requires c in subs
      modifies this
      ensures Contents() == Unsubscribe(old(Contents()), c, t)
    {
      subs := subs[c := subs[c] - {t}];
      var x := GetTopic(t);
      topics := topics[t := x.(audience := x.audience - {c})];
    }

    method DoPublish(t: Bytes, content: Bytes)
      modifies this
      ensures Contents() == Publish(old(Contents()), t, content)
    {
      var x := GetTopic(t);
      x := x.(published := true, content := content);
      topics := topics[t := x];
      ghost var s0 := old(Contents());
      var todo := x.audience;
      while todo != {}
        invariant todo <= x.audience && topics == s0.topics[t := x] && subs == s0.subs
        invariant sent.Keys == s0.sent.Keys + (x.audience - todo)
        invariant forall c :: c in sent ==> sent[c] == if c in x.audience && c !in todo then SentTo(s0, c) + [Note(t, content)] else SentTo(s0, c)
        decreases todo
      {
        assert (forall c :: c !in todo) ==> todo == {};
        var c :| c in todo;
        sent := sent[c := (if c in sent then sent[c] else []) + [Note(t, content)]];
        todo := todo - {c};
      }
    }

    /** The close handler, draining a snapshot of the connection's subscription set. */
    method OnConnectionDown(c: nat)
      requires c in subs
      modifies this
      ensures Disconnected(old(Contents()), c, Contents())
    {
      ghost var s0 := Contents();
      var mine := subs[c];
      var todo := mine;
      while todo != {}
        invariant todo <= mine && c in subs && sent == s0.sent && subs == s0.subs[c := todo]
        invariant topics.Keys == s0.topics.Keys + (mine - todo)
        invariant forall t :: t in topics ==> topics[t] == LeftBy(TopicOf(s0, t), c, t in mine && t !in todo)
        decreases todo
      {
        assert (forall t: Bytes :: t !in todo) ==> todo == {};
        var t: Bytes :| t in todo;
        DoUnsubscribe(c, t);
        todo := todo - {t};
      }
      subs := subs - {c};
    }

    /** The hub's loop: it stops at an unknown command, and shuts down after it or after garbage. */
    method OnMessage(c: nat, buf: Buffer) returns (shutdown: bool)
      requires c in subs
      modifies this, buf
      ensures (Contents(), buf.data, shutdown) == Serve(old(Contents()), c, old(buf.data))
    {
      ghost var s0, b0 := Contents(), buf.data;
      shutdown := false;
      var result := Success;
      while result == Success
        invariant c in subs
        invariant result == Success ==> !shutdown && Serve(s0, c, b0) == Serve(Contents(), c, buf.data)
        invariant result != Success ==> Serve(s0, c, b0) == (Contents(), buf.data, shutdown)
        decreases |buf.data|, result == Success
      {
        ghost var s, b := Contents(), buf.data;
        var m;
        result, m := ParseMessage(buf);
        ServeOne(s, c, b);
        if result == Success {
          if IsCommand(m.cmd) {
            DoCommand(c, m);
          } else {
            shutdown := true;
            result := Error;
          }
        } else {
          shutdown := result == Error;
        }
      }
    }

    method DoCommand(c: nat, m: Msg)
      requires c in subs && IsCommand(m.cmd)
      modifies this
      ensures Contents() == Perform(old(Contents()), c, m)
    {
      if m.cmd == Text("pub") {
        DoPublish(m.topic, m.content);
      } else if m.cmd == Text("sub") {
        DoSubscribe(c, m.topic);
      } else {
        DoUnsubscribe(c, m.topic);
      }
    }
  }

  // ----- every run of the hub

  /** Audiences and subscription sets are each other's inverse. */
  ghost predicate Indexed(s: Server) {
    forall c, t {:trigger c in TopicOf(s, t).audience} :: c in TopicOf(s, t).audience <==> c in s.subs && t in s.subs[c]
  }

  /** The last thing a connection was told about a topic. */
  function LastOn(ns: seq<Note>, t: Bytes): (n: Option<Bytes>) {
    if ns == [] then None
    else if ns[|ns| - 1].topic == t then Some(ns[|ns| - 1].content)
    else LastOn(ns[..|ns| - 1], t)
  }

  /** Everyone in the audience of a published topic was last told its current content. */
  ghost predicate UpToDate(s: Server) {
    forall c, t {:trigger c in TopicOf(s, t).audience} ::
      TopicOf(s, t).published && c in TopicOf(s, t).audience ==> LastOn(SentTo(s, c), t) == Some(TopicOf(s, t).content)
  }

  datatype Event = Opened(c: nat) | Closed(c: nat) | Subscribed(c: nat, t: Bytes) | Unsubscribed(c: nat, t: Bytes) | Published(t: Bytes, content: Bytes)

  /** One handler call; connections are not reused after they close. */
  ghost predicate Next(s: Server, e: Event, r: Server) {
    match e
    case Opened(c) => c !in s.subs && c !in s.sent && r == s.(subs := s.subs[c := {}])
    case Closed(c) => c in s.subs && Disconnected(s, c, r)
    case Subscribed(c, t) => c in s.subs && r == Subscribe(s, c, t)
    case Unsubscribed(c, t) => c in s.subs && r == Unsubscribe(s, c, t)
    case Published(t, content) => r == Publish(s, t, content)
  }

  lemma TopicsKept(s: Server, e: Event, r: Server, t: Bytes)
    requires Next(s, e, r)
    ensures match e
      case Opened(_) => TopicOf(r, t) == TopicOf(s, t)
      case Closed(c) => TopicOf(r, t) == TopicOf(s, t).(audience := if t in s.subs[c] then TopicOf(s, t).audience - {c} else TopicOf(s, t).audience)
      case Subscribed(c, u) => TopicOf(r, t) == TopicOf(s, t).(audience := if t == u then TopicOf(s, t).audience + {c} else TopicOf(s, t).audience)
      case Unsubscribed(c, u) => TopicOf(r, t) == TopicOf(s, t).(audience := if t == u then TopicOf(s, t).audience - {c} else TopicOf(s, t).audience)
      case Published(u, content) => TopicOf(r, t) == if t == u then Topic(true, content, TopicOf(s, t).audience) else TopicOf(s, t)
  {
  }

  lemma IndexedStep(s: Server, e: Event, r: Server)
    requires Indexed(s) && Next(s, e, r)
    ensures Indexed(r)
  {
    forall c, t
      ensures c in TopicOf(r, t).audience <==> c in r.subs && t in r.subs[c]
    {
      TopicsKept(s, e, r, t);
      assert c in TopicOf(s, t).audience <==> c in s.subs && t in s.subs[c];
    }
  }

  lemma LastOnAppend(ns: seq<Note>, n: Note, t: Bytes)
    ensures LastOn(ns + [n], t) == if n.topic == t then Some(n.content) else LastOn(ns, t)
  {
    assert (ns + [n])[..|ns|] == ns;
  }

  lemma UpToDateStep(s: Server, e: Event, r: Server)
    requires Indexed(s) && UpToDate(s) && Next(s, e, r)
    ensures UpToDate(r)
  {
    forall c, t | TopicOf(r, t).published && c in TopicOf(r, t).audience
      ensures LastOn(SentTo(r, c), t) == Some(TopicOf(r, t).content)
    {
      TopicsKept(s, e, r, t);
      match e
      case Subscribed(d, u) =>
        LastOnAppend(SentTo(s, d), Note(u, TopicOf(s, u).content), t);
        assert c in TopicOf(s, t).audience || (c == d && t == u);
      case Published(u, content) =>
        LastOnAppend(SentTo(s, c), Note(u, content), t);
        assert c in TopicOf(s, t).audience;
        assert c in TopicOf(s, u).audience ==> SentTo(r, c) == SentTo(s, c) + [Note(u, content)];
        assert c !in TopicOf(s, u).audience ==> SentTo(r, c) == SentTo(s, c);
      case _ =>
        assert c in TopicOf(s, t).audience && SentTo(r, c) == SentTo(s, c);
    }
  }

  ghost predicate IsRun(states: seq<Server>, es: seq<Event>) {
    && |states| == |es| + 1 && states[0] == Server(map[], map[], map[])
    && forall i :: 0 <= i < |es| ==> Next(states[i], es[i], states[i + 1])
  }

  /** In every run, a connection is in a topic's audience exactly when the topic is in its
      subscription set, and every audience member was last sent the current content. */
  lemma {:induction false} EveryState(states: seq<Server>, es: seq<Event>, k: nat)
    requires IsRun(states, es) && k < |states|
    ensures Indexed(states[k]) && UpToDate(states[k])
  {
    if k > 0 {
      EveryState(states, es, k - 1);
      assert Next(states[k - 1], es[k - 1], states[k - 1 + 1]);
      IndexedStep(states[k - 1], es[k - 1], states[k]);
      UpToDateStep(states[k - 1], es[k - 1], states[k]);
    }
  }

  /** A closed connection is in no audience. */
  lemma ClosedIsGone(s: Server, c: nat, r: Server, t: Bytes)
    requires Indexed(s) && Next(s, Closed(c), r)
    ensures c !in r.subs && c !in TopicOf(r, t).audience
  {
    IndexedStep(s, Closed(c), r);
  }

  // ----- what everybody is told, read off the events alone

  /** Whether connection `c` has subscribed to `t` and neither unsubscribed nor closed since. */
  predicate Listening(es: seq<Event>, c: nat, t: Bytes) {
    if es == [] then false
    else
      match es[|es| - 1]
      case Subscribed(d, u) => (d == c && u == t) || Listening(es[..|es| - 1], c, t)
      case Unsubscribed(d, u) => !(d == c && u == t) && Listening(es[..|es| - 1], c, t)
      case Closed(d) => d != c && Listening(es[..|es| - 1], c, t)
      case Opened(_) => Listening(es[..|es| - 1], c, t)
      case Published(_, _) => Listening(es[..|es| - 1], c, t)
  }

  /** The last thing published on a topic. */
  function News(es: seq<Event>, t: Bytes): (x: Option<Bytes>) {
    if es == [] then None
    else if es[|es| - 1].Published? && es[|es| - 1].t == t then Some(es[|es| - 1].content)
    else News(es[..|es| - 1], t)
  }

  /** What a connection is to be told: every publication on a topic while it listens, and the news of
      a topic whenever it subscribes to it. */
  function NotesFor(es: seq<Event>, c: nat): (ns: seq<Note>) {
    if es == [] then []
    else
      var before := es[..|es| - 1];
      match es[|es| - 1]
      case Published(t, x) => NotesFor(before, c) + if Listening(before, c, t) then [Note(t, x)] else []
      case Subscribed(d, t) => NotesFor(before, c) + if d == c && News(before, t).Some? then [Note(t, News(before, t).value)] else []
      case Opened(_) => NotesFor(before, c)
      case Closed(_) => NotesFor(before, c)
      case Unsubscribed(_, _) => NotesFor(before, c)
  }

  /** The hub's state is that of the events: for connection `c` and topic `t`. */
  ghost predicate Reflects(s: Server, es: seq<Event>, c: nat, t: Bytes) {
    && (c in TopicOf(s, t).audience <==> Listening(es, c, t))
    && (if TopicOf(s, t).published then News(es, t) == Some(TopicOf(s, t).content) else News(es, t) == None)
  }

  ghost predicate AllReflected(s: Server, es: seq<Event>) {
    && (forall c, t {:trigger Listening(es, c, t)} :: Reflects(s, es, c, t))
    && (forall c: nat {:trigger NotesFor(es, c)} :: SentTo(s, c) == NotesFor(es, c))
  }

  lemma NothingYet()
    ensures AllReflected(Server(map[], map[], map[]), [])
  {
    var s := Server(map[], map[], map[]);
    forall c: nat, t: Bytes
      ensures Reflects(s, [], c, t)
    {
      assert TopicOf(s, t) == Topic(false, [], {});
      assert !Listening([], c, t) && News([], t) == None;
    }
    forall c: nat
      ensures SentTo(s, c) == NotesFor([], c)
    {
      assert NotesFor([], c) == [];
    }
  }

  lemma ReflectsStep(s: Server, es: seq<Event>, e: Event, r: Server, c: nat, t: Bytes)
    requires Indexed(s) && Next(s, e, r) && Reflects(s, es, c, t)
    ensures Reflects(r, es + [e], c, t)
  {
    var all := es + [e];
    assert all[..|es|] == es && all[|es|] == e;
    TopicsKept(s, e, r, t);
    assert c in TopicOf(s, t).audience <==> c in s.subs && t in s.subs[c];
  }

  lemma NotesStep(s: Server, es: seq<Event>, e: Event, r: Server, c: nat)
    requires Indexed(s) && Next(s, e, r) && AllReflected(s, es)
    ensures SentTo(r, c) == NotesFor(es + [e], c)
  {
    var all := es + [e];
    assert all[..|es|] == es && all[|es|] == e;
    assert SentTo(s, c) == NotesFor(es, c);
    assert NotesFor(es, c) + [] == NotesFor(es, c);
    match e
    case Published(t, x) =>
      assert Listening(es, c, t) <==> c in TopicOf(s, t).audience;
    case Subscribed(d, t) =>
      assert Listening(es, d, t) || !Listening(es, d, t);
      assert Reflects(s, es, d, t);
    case Opened(d) =>
    case Closed(d) =>
    case Unsubscribed(d, t) =>
  }

  lemma AllReflectedStep(s: Server, es: seq<Event>, e: Event, r: Server)
    requires Indexed(s) && Next(s, e, r) && AllReflected(s, es)
    ensures AllReflected(r, es + [e])
  {
    forall c: nat, t: Bytes
      ensures Reflects(r, es + [e], c, t)
    {
      assert Listening(es, c, t) || !Listening(es, c, t);
      ReflectsStep(s, es, e, r, c, t);
    }
    forall c: nat
      ensures SentTo(r, c) == NotesFor(es + [e], c)
    {
      NotesStep(s, es, e, r, c);
    }
  }

  /** In every run of events each connection has been told exactly what it is to be told, in order. */
  lemma {:induction false} EveryoneToldExactly(states: seq<Server>, es: seq<Event>, k: nat)
    requires IsRun(states, es) && k < |states|
    ensures AllReflected(states[k], es[..k])
  {
    if k == 0 {
      NothingYet();
      assert es[..0] == [];
    } else {
      EveryoneToldExactly(states, es, k - 1);
      EveryState(states, es, k - 1);
      assert Next(states[k - 1], es[k - 1], states[k - 1 + 1]);
      AllReflectedStep(states[k - 1], es[..k - 1], es[k - 1], states[k]);
      assert es[..k] == es[..k - 1] + [es[k - 1]];
    }
  }

  // ----- the line protocol

  datatype Msg = Msg(cmd: Bytes, topic: Bytes, content: Bytes)

  /** Command and topic, before and after the first space. */
  function SplitLine(line: Bytes): (r: Option<(Bytes, Bytes)>) {
    var space := Search(line, [SPACE]);
    if space == |line| then None else Some((line[..space], line[space + 1..]))
  }

  /** `parseMessage` on the bytes in the buffer. */
  function MsgHead(b: Bytes): (h: Head<Msg>) {
    var i := Search(b, CRLF);
    if i == |b| then More
    else
      match SplitLine(b[..i])
      case None => Reject
      case Some((cmd, topic)) => AfterLine(cmd, topic, i + 2, b[i + 2..])
  }

  /** A publication needs one more line. */
  function AfterLine(cmd: Bytes, topic: Bytes, used: nat, rest: Bytes): (h: Head<Msg>) {
    if cmd != Text("pub") then Got(Msg(cmd, topic, []), used)
    else
      var j := Search(rest, CRLF);
      if j == |rest| then More else Got(Msg(cmd, topic, rest[..j]), used + j + 2)
  }

  /** What the client's `subscribe`, `unsubscribe` and `publish`, and the hub's topics, send. */
  function PrintMsg(m: Msg): (b: Bytes) {
    if m.cmd == Text("pub") then m.cmd + [SPACE] + m.topic + CRLF + (m.content + CRLF)
    else m.cmd + [SPACE] + m.topic + CRLF
  }

  ghost predicate Clean(b: Bytes) {
    forall k :: !Occurs(b, CRLF, k)
  }

  /** A command of the protocol; only a publication has content. */
  ghost predicate Printable(m: Msg) {
    && IsCommand(m.cmd)
    && Clean(m.topic) && Clean(m.content) && (m.cmd != Text("pub") ==> m.content == [])
  }

  lemma MsgHeadStable()
    ensures Stable(MsgHead) && Drain(MsgHead, []) == ([], [])
  {
    forall b: Bytes, x: Bytes | !MsgHead(b).More?
      ensures MsgHead(b + x) == MsgHead(b)
    {
      MsgHeadKept(b, x);
    }
  }

  lemma AfterLineKept(cmd: Bytes, topic: Bytes, used: nat, rest: Bytes, x: Bytes)
    requires AfterLine(cmd, topic, used, rest).Got?
    ensures AfterLine(cmd, topic, used, rest + x) == AfterLine(cmd, topic, used, rest)
  {
    if cmd == Text("pub") {
      var j := Search(rest, CRLF);
      SearchStable(rest, CRLF, x);
      assert (rest + x)[..j] == rest[..j];
    }
  }

  lemma MsgHeadKept(b: Bytes, x: Bytes)
    requires !MsgHead(b).More?
    ensures MsgHead(b + x) == MsgHead(b)
  {
    var i := Search(b, CRLF);
    SearchStable(b, CRLF, x);
    assert (b + x)[..i] == b[..i];
    assert i + 2 <= |b| && (b + x)[i + 2..] == b[i + 2..] + x;
    var split := SplitLine(b[..i]);
    if split.Some? {
      AfterLineKept(split.value.0, split.value.1, i + 2, b[i + 2..], x);
    }
  }

  /** The first line end after clean text is the one that was put there. */
  lemma CleanLine(line: Bytes, x: Bytes)
    requires Clean(line)
    ensures Search(line + CRLF + x, CRLF) == |line|
  {
    var b, n := line + CRLF + x, |line|;
    assert b[n..n + 2] == CRLF;
    forall k | 0 <= k < n
      ensures !Occurs(b, CRLF, k)
    {
      assert b[k..k + 2][0] == b[k] && b[k..k + 2][1] == b[k + 1];
      if k + 1 < n {
        assert b[k..k + 2] == line[k..k + 2];
        assert !Occurs(line, CRLF, k);
      } else {
        assert b[k + 1] == CR;
      }
    }
    SearchIs(b, CRLF, n);
  }

  predicate IsCommand(cmd: Bytes) {
    cmd in {Text("pub"), Text("sub"), Text("unsub")}
  }

  predicate OneWord(cmd: Bytes) {
    forall i :: 0 <= i < |cmd| ==> cmd[i] > SPACE
  }

  lemma CommandIsOneWord(cmd: Bytes)
    requires IsCommand(cmd)
    ensures OneWord(cmd)
  {
  }

  lemma CleanCommand(cmd: Bytes, topic: Bytes)
    requires OneWord(cmd) && Clean(topic)
    ensures Clean(cmd + [SPACE] + topic)
  {
    var line, n := cmd + [SPACE] + topic, |cmd|;
    forall k
      ensures !Occurs(line, CRLF, k)
    {
      if 0 <= k <= |line| - 2 {
        var pair := line[k..k + 2];
        assert pair[0] == line[k];
        if k > n {
          assert pair == topic[k - n - 1..k - n + 1];
          assert !Occurs(topic, CRLF, k - n - 1);
        } else if k < n {
          assert line[k] == cmd[k];
        }
      }
    }
  }

  lemma CommandSplits(cmd: Bytes, topic: Bytes)
    requires OneWord(cmd)
    ensures SplitLine(cmd + [SPACE] + topic) == Some((cmd, topic))
  {
    var line, n := cmd + [SPACE] + topic, |cmd|;
    assert line[n..n + 1] == [SPACE];
    forall k | 0 <= k < n
      ensures !Occurs(line, [SPACE], k)
    {
      assert line[k..k + 1][0] == line[k] == cmd[k];
    }
    SearchIs(line, [SPACE], n);
    assert line[..n] == cmd && line[n + 1..] == topic;
  }

  lemma ContentDecodes(topic: Bytes, content: Bytes, used: nat, x: Bytes)
    requires Clean(content)
    ensures AfterLine(Text("pub"), topic, used, content + CRLF + x) == Got(Msg(Text("pub"), topic, content), used + |content| + 2)
  {
    CleanLine(content, x);
    assert (content + CRLF + x)[..|content|] == content;
  }

  lemma LineDecodes(cmd: Bytes, topic: Bytes, rest: Bytes)
    requires IsCommand(cmd) && Clean(topic)
    ensures var line := cmd + [SPACE] + topic;
      MsgHead(line + CRLF + rest) == AfterLine(cmd, topic, |line| + 2, rest)
  {
    var line := cmd + [SPACE] + topic;
    CommandIsOneWord(cmd);
    CleanCommand(cmd, topic);
    CommandSplits(cmd, topic);
    CleanLine(line, rest);
    var b := line + CRLF + rest;
    assert b[..|line|] == line && b[|line| + 2..] == rest;
  }

  lemma MsgDecodes(m: Msg, x: Bytes)
    requires Printable(m)
    ensures MsgHead(PrintMsg(m) + x) == Got(m, |PrintMsg(m)|)
  {
    var line := m.cmd + [SPACE] + m.topic;
    if m.cmd == Text("pub") {
      assert PrintMsg(m) + x == line + CRLF + (m.content + CRLF + x);
      LineDecodes(m.cmd, m.topic, m.content + CRLF + x);
      ContentDecodes(m.topic, m.content, |line| + 2, x);
    } else {
      LineDecodes(m.cmd, m.topic, x);
    }
  }

  /** Messages with clean topics and contents survive printing, any chunking, and parsing. */
  lemma MessagesRoundTrip(ms: seq<Msg>, chunks: seq<Bytes>)
    requires (forall i :: 0 <= i < |ms| ==> Printable(ms[i])) && Concat(chunks) == EncodeAll(PrintMsg, ms)
    ensures Feed(MsgHead, [], chunks) == (ms, [])
  {
    MsgHeadStable();
    var good := (m: Msg) => Printable(m);
    assert Decodes(MsgHead, PrintMsg, good) by {
      forall m: Msg, x: Bytes | good(m)
        ensures MsgHead(PrintMsg(m) + x) == Got(m, |PrintMsg(m)|)
      {
        MsgDecodes(m, x);
      }
    }
    assert EncodeAll(PrintMsg, ms) + [] == EncodeAll(PrintMsg, ms);
    StreamRoundTrip(MsgHead, PrintMsg, good, ms, [], chunks);
  }

  lemma BeforeLineEnd(b: Bytes)
    ensures Clean(b[..Search(b, CRLF)])
  {
    var i := Search(b, CRLF);
    forall k
      ensures !Occurs(b[..i], CRLF, k)
    {
      if 0 <= k && k + 2 <= i {
        assert b[..i][k..k + 2] == b[k..k + 2];
        assert !Occurs(b, CRLF, k);
      }
    }
  }

  lemma SuffixClean(b: Bytes, lo: nat)
    requires Clean(b) && lo <= |b|
    ensures Clean(b[lo..])
  {
    forall k
      ensures !Occurs(b[lo..], CRLF, k)
    {
      if 0 <= k && lo + k + 2 <= |b| {
        assert b[lo..][k..k + 2] == b[lo + k..lo + k + 2];
        assert !Occurs(b, CRLF, lo + k);
      }
    }
  }

  /** Conversely a topic or content with a line end in it never survives. */
  lemma DirtyNeverSurvives(m: Msg, b: Bytes, n: nat)
    requires MsgHead(b) == Got(m, n)
    ensures Clean(m.topic) && Clean(m.content)
  {
    var i := Search(b, CRLF);
    BeforeLineEnd(b);
    SuffixClean(b[..i], Search(b[..i], [SPACE]) + 1);
    BeforeLineEnd(b[i + 2..]);
  }

  // ----- the parser and the two loops around it

  datatype ParseResult = Error | Success | Continue

  lemma MsgHeadUses(b: Bytes)
    ensures MsgHead(b).Got? ==> 0 < MsgHead(b).used <= |b|
  {
    var i := Search(b, CRLF);
    if i < |b| {
      assert Search(b[i + 2..], CRLF) < |b[i + 2..]| ==> Occurs(b[i + 2..], CRLF, Search(b[i + 2..], CRLF));
    }
  }

  method ParseMessage(buf: Buffer) returns (result: ParseResult, m: Msg)
    modifies buf
    ensures result.Success? <==> MsgHead(old(buf.data)).Got?
    ensures result.Error? <==> MsgHead(old(buf.data)).Reject?
    ensures result.Success? ==> m == MsgHead(old(buf.data)).msg && MsgHead(old(buf.data)).used <= |old(buf.data)|
                                && buf.data == old(buf.data)[MsgHead(old(buf.data)).used..] && |buf.data| < |old(buf.data)|
    ensures !result.Success? ==> buf.data == old(buf.data)
  {
    ghost var b := buf.data;
    MsgHeadUses(b);
    m := Msg([], [], []);
    result := Continue;
    var crlf := Search(buf.data, CRLF);
    if crlf < |buf.data| {
      var line := buf.data[..crlf];
      var space := Search(line, [SPACE]);
      if space == |line| {
        result := Error;
      } else {
        m := Msg(line[..space], line[space + 1..], []);
        var start := crlf + 2;
        if m.cmd == Text("pub") {
          var rest := buf.data[start..];
          var end := Search(rest, CRLF);
          if end < |rest| {
            m := m.(content := rest[..end]);
            buf.Retrieve(start + end + 2);
            result := Success;
          }
        } else {
          buf.Retrieve(start);
          result := Success;
        }
      }
    }
  }

  /** The publications among messages, as the subscriber's callback gets them. */
  function Told(ms: seq<Msg>): (ns: seq<Note>) {
    if ms == [] then []
    else
      var m := ms[|ms| - 1];
      Told(ms[..|ms| - 1]) + if m.cmd == Text("pub") then [Note(m.topic, m.content)] else []
  }

  /** The client's loop; `told` lists the calls of its callback, if it has one. */
  method ClientOnMessage(buf: Buffer, callback: bool) returns (told: seq<Note>, shutdown: bool)
    modifies buf
    ensures buf.data == Drain(MsgHead, old(buf.data)).1
    ensures told == if callback then Told(Drain(MsgHead, old(buf.data)).0) else []
    ensures shutdown <==> MsgHead(buf.data).Reject?
  {
    told, shutdown := [], false;
    ghost var whole, done := buf.data, [];
    DrainStart(MsgHead, whole);
    var result := Success;
    while result == Success
      invariant Draining(MsgHead, whole, done, buf.data) && told == if callback then Told(done) else []
      invariant result.Success? || !MsgHead(buf.data).Got?
      invariant shutdown <==> result.Error?
      invariant result.Error? ==> MsgHead(buf.data).Reject?
      invariant result.Continue? ==> MsgHead(buf.data).More?
      decreases |buf.data|, result.Success?
    {
      ghost var b := buf.data;
      var m;
      result, m := ParseMessage(buf);
      if result == Success {
        DrainStep(MsgHead, whole, done, b, m, MsgHead(b).used);
        assert (done + [m])[..|done|] == done;
        assert told + [] == told;
        if m.cmd == Text("pub") && callback {
          told := told + [Note(m.topic, m.content)];
        }
        done := done + [m];
      } else if result == Error {
        shutdown := true;
      }
    }
    DrainEnd(MsgHead, whole, done, buf.data);
  }

  // ----- what the hub makes of a connection's bytes

  function EventOf(c: nat, m: Msg): (e: Event) {
    if m.cmd == Text("pub") then Published(m.topic, m.content)
    else if m.cmd == Text("sub") then Subscribed(c, m.topic)
    else Unsubscribed(c, m.topic)
  }

  ghost function Perform(s: Server, c: nat, m: Msg): (r: Server)
    requires c in s.subs && IsCommand(m.cmd)
    ensures c in r.subs && Next(s, EventOf(c, m), r)
  {
    if m.cmd == Text("pub") then Publish(s, m.topic, m.content)
    else if m.cmd == Text("sub") then Subscribe(s, c, m.topic)
    else Unsubscribe(s, c, m.topic)
  }

  /** The hub after reading `b` from connection `c`, what it leaves unread, and whether it shuts down. */
  ghost function Serve(s: Server, c: nat, b: Bytes): (r: (Server, Bytes, bool))
    requires c in s.subs
    ensures c in r.0.subs
    decreases |b|
  {
    MsgHeadUses(b);
    match MsgHead(b)
    case More => (s, b, false)
    case Reject => (s, b, true)
    case Got(m, n) => if IsCommand(m.cmd) then Serve(Perform(s, c, m), c, b[n..]) else (s, b[n..], true)
  }

  lemma ServeOne(s: Server, c: nat, b: Bytes)
    requires c in s.subs
    ensures MsgHead(b).More? ==> Serve(s, c, b) == (s, b, false)
    ensures MsgHead(b).Reject? ==> Serve(s, c, b) == (s, b, true)
    ensures MsgHead(b).Got? ==> var m, n := MsgHead(b).msg, MsgHead(b).used;
      n <= |b| && Serve(s, c, b) == if IsCommand(m.cmd) then Serve(Perform(s, c, m), c, b[n..]) else (s, b[n..], true)
  {
    MsgHeadUses(b);
  }

  lemma HeadOfLonger(b: Bytes, x: Bytes)
    requires MsgHead(b).Got?
    ensures MsgHead(b + x) == MsgHead(b)
    ensures 0 < MsgHead(b).used <= |b| && (b + x)[MsgHead(b).used..] == b[MsgHead(b).used..] + x
  {
    MsgHeadUses(b);
    MsgHeadKept(b, x);
  }

  /** While the connection is not shut down, it does not matter where its bytes are cut. */
  lemma {:induction false} ServeInChunks(s: Server, c: nat, b: Bytes, x: Bytes)
    requires c in s.subs && !Serve(s, c, b).2
    ensures Serve(s, c, b + x) == Serve(Serve(s, c, b).0, c, Serve(s, c, b).1 + x)
    decreases |b|
  {
    ServeOne(s, c, b);
    if MsgHead(b).Got? {
      var m, n := MsgHead(b).msg, MsgHead(b).used;
      HeadOfLonger(b, x);
      ServeOne(s, c, b + x);
      ServeInChunks(Perform(s, c, m), c, b[n..], x);
    }
  }

  /** Whatever bytes a connection sends, the hub stays consistent. */
  lemma {:induction false} ServeKeeps(s: Server, c: nat, b: Bytes)
    requires c in s.subs && Consistent(s)
    ensures Consistent(Serve(s, c, b).0)
    decreases |b|
  {
    MsgHeadUses(b);
    ServeOne(s, c, b);
    if MsgHead(b).Got? && IsCommand(MsgHead(b).msg.cmd) {
      var m, n := MsgHead(b).msg, MsgHead(b).used;
      var e, r := EventOf(c, m), Perform(s, c, m);
      DirtyNeverSurvives(m, b, n);
      ConsistentStep(s, e, r);
      ServeKeeps(r, c, b[n..]);
    }
  }

  // ----- from the hub to the subscriber's callback

  ghost predicate CleanNote(n: Note) {
    Clean(n.topic) && Clean(n.content)
  }

  ghost predicate CleanEvent(e: Event) {
    e.Published? ==> Clean(e.t) && Clean(e.content)
  }

  /** Everything published and everything sent can be printed. */
  ghost predicate CleanServer(s: Server) {
    && (forall t :: t in s.topics && s.topics[t].published ==> Clean(t) && Clean(s.topics[t].content))
    && (forall c :: c in s.sent ==> forall k :: 0 <= k < |s.sent[c]| ==> CleanNote(s.sent[c][k]))
  }

  lemma CleanStep(s: Server, e: Event, r: Server)
    requires CleanServer(s) && CleanEvent(e) && Next(s, e, r)
    ensures CleanServer(r)
  {
    forall t | t in r.topics && r.topics[t].published
      ensures Clean(t) && Clean(r.topics[t].content)
    {
      TopicsKept(s, e, r, t);
    }
    forall c, k | c in r.sent && 0 <= k < |r.sent[c]|
      ensures CleanNote(r.sent[c][k])
    {
      if k < |SentTo(s, c)| {
        assert r.sent[c][k] == SentTo(s, c)[k];
      }
    }
  }

  function AsMsgs(ns: seq<Note>): (ms: seq<Msg>)
    ensures |ms| == |ns| && forall i :: 0 <= i < |ns| ==> ms[i] == Msg(Text("pub"), ns[i].topic, ns[i].content)
  {
    seq(|ns|, i requires 0 <= i < |ns| => Msg(Text("pub"), ns[i].topic, ns[i].content))
  }

  lemma {:induction false} ToldAll(ns: seq<Note>)
    ensures Told(AsMsgs(ns)) == ns
  {
    if ns != [] {
      var n := |ns| - 1;
      ToldAll(ns[..n]);
      assert AsMsgs(ns)[..n] == AsMsgs(ns[..n]);
      assert ns == ns[..n] + [ns[n]];
    }
  }

  /** What the hub sends to a subscriber, its callback is told, in order and unchanged. */
  lemma NotesArrive(ns: seq<Note>, chunks: seq<Bytes>)
    requires forall k :: 0 <= k < |ns| ==> CleanNote(ns[k])
    requires Concat(chunks) == EncodeAll(PrintMsg, AsMsgs(ns))
    ensures Told(Feed(MsgHead, [], chunks).0) == ns
  {
    forall i | 0 <= i < |ns|
      ensures Printable(AsMsgs(ns)[i])
    {
      assert CleanNote(ns[i]);
    }
    MessagesRoundTrip(AsMsgs(ns), chunks);
    ToldAll(ns);
  }

  // ----- runs of bytes

  /** The server, and the unread bytes of each open connection.  A connection that the hub has shut
      down is still read until it closes. */
  datatype Hub = Hub(server: Server, buffers: map<nat, Bytes>)

  datatype Input = Up(c: nat) | Down(c: nat) | Chunk(c: nat, bytes: Bytes) | Tick(now: Bytes)

  const UTC_TIME: Bytes := Text("utc_time")

  ghost predicate NextInput(h: Hub, i: Input, h': Hub) {
    match i
    case Up(c) =>
      && Next(h.server, Opened(c), h'.server)
      && h'.buffers == h.buffers[c := []]
    case Down(c) =>
      && Next(h.server, Closed(c), h'.server)
      && h'.buffers == h.buffers - {c}
    case Chunk(c, bytes) =>
      && c in h.server.subs && c in h.buffers
      && var (s, rest, _) := Serve(h.server, c, h.buffers[c] + bytes);
        h' == Hub(s, h.buffers[c := rest])
    case Tick(now) =>
      Clean(now) && h' == h.(server := Publish(h.server, UTC_TIME, now))
  }

  ghost predicate IsByteRun(hubs: seq<Hub>, inputs: seq<Input>) {
    && |hubs| == |inputs| + 1 && hubs[0] == Hub(Server(map[], map[], map[]), map[])
    && forall i :: 0 <= i < |inputs| ==> NextInput(hubs[i], inputs[i], hubs[i + 1])
  }

  ghost predicate Consistent(s: Server) {
    Indexed(s) && UpToDate(s) && CleanServer(s)
  }

  lemma UtcTimeClean()
    ensures Clean(UTC_TIME)
  {
    forall k
      ensures !Occurs(UTC_TIME, CRLF, k)
    {
      if 0 <= k <= |UTC_TIME| - 2 {
        assert UTC_TIME[k..k + 2][0] == UTC_TIME[k];
      }
    }
  }

  lemma ConsistentStep(s: Server, e: Event, r: Server)
    requires Consistent(s) && CleanEvent(e) && Next(s, e, r)
    ensures Consistent(r)
  {
    IndexedStep(s, e, r);
    UpToDateStep(s, e, r);
    CleanStep(s, e, r);
  }

  lemma ConsistentInput(h: Hub, i: Input, h': Hub)
    requires Consistent(h.server) && NextInput(h, i, h')
    ensures Consistent(h'.server)
  {
    match i
    case Up(c) => ConsistentStep(h.server, Opened(c), h'.server);
    case Down(c) => ConsistentStep(h.server, Closed(c), h'.server);
    case Chunk(c, bytes) => ServeKeeps(h.server, c, h.buffers[c] + bytes);
    case Tick(now) =>
      UtcTimeClean();
      ConsistentStep(h.server, Published(UTC_TIME, now), h'.server);
  }

  /** Whatever bytes arrive on whichever connections, in whatever chunks, the hub is consistent. */
  lemma {:induction false} EveryByteRun(hubs: seq<Hub>, inputs: seq<Input>, k: nat)
    requires IsByteRun(hubs, inputs) && k < |hubs|
    ensures Consistent(hubs[k].server)
  {
    if k > 0 {
      EveryByteRun(hubs, inputs, k - 1);
      assert NextInput(hubs[k - 1], inputs[k - 1], hubs[k - 1 + 1]);
      ConsistentInput(hubs[k - 1], inputs[k - 1], hubs[k]);
    }
  }

  // ----- the events in the bytes

  /** The events of what connection `c` has sent, and the bytes left unread. */
  function EventsIn(c: nat, b: Bytes): (r: (seq<Event>, Bytes))
    decreases |b|
  {
    MsgHeadUses(b);
    match MsgHead(b)
    case More => ([], b)
    case Reject => ([], b)
    case Got(m, n) =>
      if IsCommand(m.cmd) then
        var (more, rest) := EventsIn(c, b[n..]);
        ([EventOf(c, m)] + more, rest)
      else ([], b[n..])
  }

  /** The bytes of connection `c` that are unread after these inputs. */
  function Unread(inputs: seq<Input>, c: nat): (b: Bytes) {
    if inputs == [] then []
    else
      var before := inputs[..|inputs| - 1];
      match inputs[|inputs| - 1]
      case Up(d) => if d == c then [] else Unread(before, c)
      case Chunk(d, bytes) => if d == c then EventsIn(c, Unread(before, c) + bytes).1 else Unread(before, c)
      case Down(_) => Unread(before, c)
      case Tick(_) => Unread(before, c)
  }

  /** All the events in the inputs, in order. */
  function EventsOf(inputs: seq<Input>): (es: seq<Event>) {
    if inputs == [] then []
    else
      var before := inputs[..|inputs| - 1];
      match inputs[|inputs| - 1]
      case Up(c) => EventsOf(before) + [Opened(c)]
      case Down(c) => EventsOf(before) + [Closed(c)]
      case Chunk(c, bytes) => EventsOf(before) + EventsIn(c, Unread(before, c) + bytes).0
      case Tick(now) => EventsOf(before) + [Published(UTC_TIME, now)]
  }

  lemma {:induction false} ServeReflects(s: Server, es: seq<Event>, c: nat, b: Bytes)
    requires c in s.subs && Indexed(s) && AllReflected(s, es)
    ensures Serve(s, c, b).1 == EventsIn(c, b).1
    ensures AllReflected(Serve(s, c, b).0, es + EventsIn(c, b).0)
    decreases |b|
  {
    MsgHeadUses(b);
    ServeOne(s, c, b);
    if MsgHead(b).Got? && IsCommand(MsgHead(b).msg.cmd) {
      var m, n := MsgHead(b).msg, MsgHead(b).used;
      var e, r := EventOf(c, m), Perform(s, c, m);
      IndexedStep(s, e, r);
      AllReflectedStep(s, es, e, r);
      ServeReflects(r, es + [e], c, b[n..]);
      assert es + ([e] + EventsIn(c, b[n..]).0) == (es + [e]) + EventsIn(c, b[n..]).0;
    } else {
      assert es + [] == es;
    }
  }

  lemma InputReflects(h: Hub, i: Input, h': Hub, inputs: seq<Input>)
    requires Consistent(h.server) && NextInput(h, i, h') && AllReflected(h.server, EventsOf(inputs))
    requires forall c :: c in h.buffers ==> h.buffers[c] == Unread(inputs, c)
    ensures AllReflected(h'.server, EventsOf(inputs + [i]))
    ensures forall c :: c in h'.buffers ==> h'.buffers[c] == Unread(inputs + [i], c)
  {
    var all, es := inputs + [i], EventsOf(inputs);
    assert all[..|inputs|] == inputs && all[|inputs|] == i;
    match i
    case Up(c) => AllReflectedStep(h.server, es, Opened(c), h'.server);
    case Down(c) => AllReflectedStep(h.server, es, Closed(c), h'.server);
    case Chunk(c, bytes) => ServeReflects(h.server, es, c, h.buffers[c] + bytes);
    case Tick(now) => AllReflectedStep(h.server, es, Published(UTC_TIME, now), h'.server);
  }

  /** In every run of bytes the hub's state, and what everybody has been told, is that of the events
      in the bytes. */
  lemma {:induction false} EveryByteRunReflects(hubs: seq<Hub>, inputs: seq<Input>, k: nat)
    requires IsByteRun(hubs, inputs) && k < |hubs|
    ensures AllReflected(hubs[k].server, EventsOf(inputs[..k]))
    ensures forall c :: c in hubs[k].buffers ==> hubs[k].buffers[c] == Unread(inputs[..k], c)
  {
    if k == 0 {
      NothingYet();
      assert inputs[..0] == [];
    } else {
      EveryByteRunReflects(hubs, inputs, k - 1);
      EveryByteRun(hubs, inputs, k - 1);
      assert NextInput(hubs[k - 1], inputs[k - 1], hubs[k - 1 + 1]);
      InputReflects(hubs[k - 1], inputs[k - 1], hubs[k], inputs[..k - 1]);
      assert inputs[..k] == inputs[..k - 1] + [inputs[k - 1]];
    }
  }

  /** In every run of bytes, when the bytes sent to a connection have arrived, in any chunks, its
      callback has been told exactly what the events in everybody's bytes say it is to be told. */
  lemma CallbackToldExactly(hubs: seq<Hub>, inputs: seq<Input>, k: nat, c: nat, chunks: seq<Bytes>)
    requires IsByteRun(hubs, inputs) && k < |hubs|
    requires Concat(chunks) == EncodeAll(PrintMsg, AsMsgs(SentTo(hubs[k].server, c)))
    ensures Told(Feed(MsgHead, [], chunks).0) == NotesFor(EventsOf(inputs[..k]), c)
  {
    EveryByteRun(hubs, inputs, k);
    EveryByteRunReflects(hubs, inputs, k);
    NotesArrive(SentTo(hubs[k].server, c), chunks);
    assert SentTo(hubs[k].server, c) == NotesFor(EventsOf(inputs[..k]), c);
  }

  /** In every run of bytes, once the bytes sent to a subscriber of a published topic have arrived,
      in any chunks, the last thing its callback was told about the topic is its current content. */
  lemma SubscriberUpToDate(hubs: seq<Hub>, inputs: seq<Input>, k: nat, c: nat, t: Bytes, chunks: seq<Bytes>)
    requires IsByteRun(hubs, inputs) && k < |hubs|
    requires var s := hubs[k].server; TopicOf(s, t).published && c in TopicOf(s, t).audience
    requires Concat(chunks) == EncodeAll(PrintMsg, AsMsgs(SentTo(hubs[k].server, c)))
    ensures LastOn(Told(Feed(MsgHead, [], chunks).0), t) == Some(TopicOf(hubs[k].server, t).content)
  {
    EveryByteRun(hubs, inputs, k);
    NotesArrive(SentTo(hubs[k].server, c), chunks);
  }

  // ----- what a client asks for

  datatype Ask = Sub(topic: Bytes) | Unsub(topic: Bytes) | Pub(topic: Bytes, content: Bytes)

  /** The messages of the client's `subscribe`, `unsubscribe` and `publish`. */
  function PrintAsk(a: Ask): (b: Bytes) {
    match a
    case Sub(t) => Text("sub ") + t + CRLF
    case Unsub(t) => Text("unsub ") + t + CRLF
    case Pub(t, x) => Text("pub ") + t + CRLF + x + CRLF
  }

  ghost predicate CleanAsk(a: Ask) {
    Clean(a.topic) && (a.Pub? ==> Clean(a.content))
  }

  function AskedEvent(c: nat, a: Ask): (e: Event) {
    match a
    case Sub(t) => Subscribed(c, t)
    case Unsub(t) => Unsubscribed(c, t)
    case Pub(t, x) => Published(t, x)
  }

  function AskedEvents(c: nat, asks: seq<Ask>): (es: seq<Event>)
    ensures |es| == |asks| && forall i :: 0 <= i < |asks| ==> es[i] == AskedEvent(c, asks[i])
  {
    seq(|asks|, i requires 0 <= i < |asks| => AskedEvent(c, asks[i]))
  }

  function AsMsg(a: Ask): (m: Msg) {
    match a
    case Sub(t) => Msg(Text("sub"), t, [])
    case Unsub(t) => Msg(Text("unsub"), t, [])
    case Pub(t, x) => Msg(Text("pub"), t, x)
  }

  lemma AskIsMsg(a: Ask)
    requires CleanAsk(a)
    ensures PrintAsk(a) == PrintMsg(AsMsg(a)) && Printable(AsMsg(a))
  {
    assert Text("sub ") == Text("sub") + [SPACE] && Text("unsub ") == Text("unsub") + [SPACE] && Text("pub ") == Text("pub") + [SPACE];
    assert Text("sub")[0] != Text("pub")[0] && Text("unsub")[0] != Text("pub")[0];
    var none: Bytes := [];
    assert Clean(none);
    if a.Pub? {
      var line := Text("pub ") + a.topic + CRLF;
      assert line + a.content + CRLF == line + (a.content + CRLF);
    }
  }

  lemma CommandsApart(a: Ask, c: nat)
    ensures IsCommand(AsMsg(a).cmd) && EventOf(c, AsMsg(a)) == AskedEvent(c, a)
  {
    assert Text("sub")[0] != Text("pub")[0] && Text("unsub")[0] != Text("pub")[0] && Text("unsub")[0] != Text("sub")[0];
  }

  lemma FirstAskServed(c: nat, a: Ask, rest: Bytes)
    requires CleanAsk(a)
    ensures EventsIn(c, PrintAsk(a) + rest) == ([AskedEvent(c, a)] + EventsIn(c, rest).0, EventsIn(c, rest).1)
  {
    var e := PrintAsk(a);
    AskIsMsg(a);
    CommandsApart(a, c);
    MsgDecodes(AsMsg(a), rest);
    assert (e + rest)[|e|..] == rest;
  }

  lemma FirstAskedEvent(c: nat, asks: seq<Ask>)
    requires asks != []
    ensures AskedEvents(c, asks) == [AskedEvent(c, asks[0])] + AskedEvents(c, asks[1..])
  {
  }

  /** What a client asks for in clean text is what the hub takes it to ask for. */
  lemma {:induction false} AsksServed(c: nat, asks: seq<Ask>)
    requires forall i :: 0 <= i < |asks| ==> CleanAsk(asks[i])
    ensures EventsIn(c, EncodeAll(PrintAsk, asks)) == (AskedEvents(c, asks), [])
    decreases |asks|
  {
    if asks == [] {
      MsgHeadStable();
    } else {
      FirstAskServed(c, asks[0], EncodeAll(PrintAsk, asks[1..]));
      AsksServed(c, asks[1..]);
      FirstAskedEvent(c, asks);
    }
  }

  // ----- the grammar, once more and the other way round

  ghost predicate NoSpace(b: Bytes) {
    forall i :: 0 <= i < |b| ==> b[i] != SPACE
  }

  /** `b` begins with the message `m`, whatever its command; a publication has a second line. */
  ghost predicate Begins(b: Bytes, m: Msg) {
    && NoSpace(m.cmd) && Clean(m.cmd + [SPACE] + m.topic)
    && (if m.cmd == Text("pub") then Clean(m.content) else m.content == [])
    && |PrintMsg(m)| <= |b| && b[..|PrintMsg(m)|] == PrintMsg(m)
  }

  ghost predicate BeginsWithoutSpace(b: Bytes) {
    exists n :: 0 <= n && n + 2 <= |b| && b[n..n + 2] == CRLF && Clean(b[..n]) && NoSpace(b[..n])
  }

  lemma FirstLine(b: Bytes, n: nat)
    requires n + 2 <= |b| && b[n..n + 2] == CRLF && Clean(b[..n])
    ensures Search(b, CRLF) == n
  {
    var line, rest := b[..n], b[n + 2..];
    assert b == line + CRLF + rest;
    CleanLine(line, rest);
  }

  lemma NoSpaceFound(line: Bytes)
    ensures NoSpace(line) <==> Search(line, [SPACE]) == |line|
  {
    forall i | 0 <= i < |line|
      ensures line[i] == SPACE <==> Occurs(line, [SPACE], i)
    {
      assert line[i..i + 1] == [line[i]];
    }
  }

  lemma FirstSpace(cmd: Bytes, topic: Bytes)
    requires NoSpace(cmd)
    ensures SplitLine(cmd + [SPACE] + topic) == Some((cmd, topic))
  {
    var line, n := cmd + [SPACE] + topic, |cmd|;
    assert line[n..n + 1] == [SPACE];
    forall k | 0 <= k < n
      ensures !Occurs(line, [SPACE], k)
    {
      assert line[k..k + 1][0] == line[k] == cmd[k];
    }
    SearchIs(line, [SPACE], n);
    assert line[..n] == cmd && line[n + 1..] == topic;
  }

  lemma LineParts(line: Bytes, rest: Bytes)
    ensures var b := line + CRLF + rest;
      |line| + 2 <= |b| && b[..|line|] == line && b[|line| + 2..] == rest
  {
  }

  lemma LineParses(cmd: Bytes, topic: Bytes, rest: Bytes)
    requires NoSpace(cmd) && Clean(cmd + [SPACE] + topic)
    ensures var line := cmd + [SPACE] + topic;
      MsgHead(line + CRLF + rest) == AfterLine(cmd, topic, |line| + 2, rest)
  {
    var line := cmd + [SPACE] + topic;
    FirstSpace(cmd, topic);
    CleanLine(line, rest);
    LineParts(line, rest);
  }

  /** A buffer that begins with a message is parsed to it. */
  lemma BeginningParses(b: Bytes, m: Msg)
    requires Begins(b, m)
    ensures MsgHead(b) == Got(m, |PrintMsg(m)|)
  {
    var line, n := m.cmd + [SPACE] + m.topic, |PrintMsg(m)|;
    var more := b[n..];
    assert b == PrintMsg(m) + more;
    if m.cmd == Text("pub") {
      assert b == line + CRLF + (m.content + CRLF + more);
      LineParses(m.cmd, m.topic, m.content + CRLF + more);
      ContentDecodes(m.topic, m.content, |line| + 2, more);
    } else {
      LineParses(m.cmd, m.topic, more);
    }
  }

  lemma SplitJoins(line: Bytes, cmd: Bytes, topic: Bytes)
    requires SplitLine(line) == Some((cmd, topic))
    ensures line == cmd + [SPACE] + topic && NoSpace(cmd)
  {
    var j := Search(line, [SPACE]);
    assert line[j..j + 1] == [SPACE];
    forall k | 0 <= k < j
      ensures line[k] != SPACE
    {
      assert line[k..k + 1] == [line[k]] && !Occurs(line, [SPACE], k);
    }
  }

  lemma SearchSplits(b: Bytes)
    requires Search(b, CRLF) < |b|
    ensures var i := Search(b, CRLF); i + 2 <= |b| && b == b[..i] + CRLF + b[i + 2..] && Clean(b[..i])
  {
    var i := Search(b, CRLF);
    assert Occurs(b, CRLF, i);
    CutInThree(b, i, i + 2);
    BeforeLineEnd(b);
  }

  lemma CutInThree(b: Bytes, i: nat, j: nat)
    requires i <= j <= |b|
    ensures b == b[..i] + b[i..j] + b[j..]
  {
  }

  lemma ParsedPublication(line: Bytes, rest: Bytes, topic: Bytes)
    requires line == Text("pub") + [SPACE] + topic && Search(rest, CRLF) < |rest|
    ensures var m := Msg(Text("pub"), topic, rest[..Search(rest, CRLF)]);
      Search(rest, CRLF) + 2 <= |rest| && Clean(m.content) && line + CRLF + rest == PrintMsg(m) + rest[|m.content| + 2..]
  {
    SearchSplits(rest);
    var x, y := rest[..Search(rest, CRLF)], rest[Search(rest, CRLF) + 2..];
    assert line + CRLF + (x + CRLF + y) == (line + CRLF + (x + CRLF)) + y;
  }

  lemma ParsedBegins(b: Bytes, m: Msg, n: nat)
    requires MsgHead(b) == Got(m, n)
    ensures Begins(b, m) && n == |PrintMsg(m)|
  {
    var i := Search(b, CRLF);
    var line, rest := b[..i], b[i + 2..];
    SearchSplits(b);
    SplitJoins(line, m.cmd, m.topic);
    if m.cmd == Text("pub") {
      ParsedPublication(line, rest, m.topic);
    } else {
      assert b == PrintMsg(m) + rest;
    }
  }

  lemma RejectedIff(b: Bytes)
    ensures MsgHead(b).Reject? <==> BeginsWithoutSpace(b)
  {
    var i := Search(b, CRLF);
    if MsgHead(b).Reject? {
      assert b[i..i + 2] == CRLF;
      BeforeLineEnd(b);
      NoSpaceFound(b[..i]);
    }
    if n :| 0 <= n && n + 2 <= |b| && b[n..n + 2] == CRLF && Clean(b[..n]) && NoSpace(b[..n]) {
      FirstLine(b, n);
      NoSpaceFound(b[..n]);
    }
  }

  /** The parser finds a message exactly if the buffer begins with it; it reports an error exactly if
      the first line has no space; else it waits. */
  lemma Grammar(b: Bytes, m: Msg, n: nat)
    ensures MsgHead(b) == Got(m, n) <==> Begins(b, m) && n == |PrintMsg(m)|
    ensures MsgHead(b).Reject? <==> BeginsWithoutSpace(b)
  {
    if MsgHead(b) == Got(m, n) {
      ParsedBegins(b, m, n);
    }
    if Begins(b, m) {
      BeginningParses(b, m);
    }
    RejectedIff(b);
  }
}

/** The distributed word count: senders aggregate locally, shard by hash and batch; receivers add
    up what arrives.  Together they compute a plain count. */
module WordCount {
  import opened Streams
  import opened TextNumbers

  predicate IsWord(w: Bytes) {
    w != [] && forall i :: 0 <= i < |w| ==> !IsSpace(w[i])
  }

  /** What `in >> word` yields. */
  type Word = w: Bytes | IsWord(w) witness [97]

  datatype Rec = Rec(word: Word, count: nat)

  // ----- the plain count

  function Count(words: seq<Word>, w: Bytes): (n: nat) {
    if words == [] then 0 else Count(words[..|words| - 1], w) + if words[|words| - 1] == w then 1 else 0
  }

  function SumFor(rs: seq<Rec>, w: Bytes): (n: nat) {
    if rs == [] then 0 else SumFor(rs[..|rs| - 1], w) + if rs[|rs| - 1].word == w then rs[|rs| - 1].count else 0
  }

  /** The records of a sender, word by word, add up to its input. */
  ghost predicate Aggregates(words: seq<Word>, rs: seq<Rec>) {
    && (forall w: Bytes :: SumFor(rs, w) == Count(words, w))
    && (forall i :: 0 <= i < |rs| ==> rs[i].count > 0)
  }

  /** The records that go to receiver `k`; `to` is the bucket of a word. */
  function Shard(to: Bytes -> nat, rs: seq<Rec>, k: nat): (r: seq<Rec>) {
    if rs == [] then []
    else
      var last := rs[|rs| - 1];
      Shard(to, rs[..|rs| - 1], k) + if to(last.word) == k then [last] else []
  }

  lemma SumForLast(rs: seq<Rec>, r: Rec, w: Bytes)
    ensures SumFor(rs + [r], w) == SumFor(rs, w) + if r.word == w then r.count else 0
  {
    assert (rs + [r])[..|rs|] == rs;
  }

  lemma {:induction false} ShardSum(to: Bytes -> nat, rs: seq<Rec>, k: nat, w: Bytes)
    ensures SumFor(Shard(to, rs, k), w) == if to(w) == k then SumFor(rs, w) else 0
  {
    if rs != [] {
      var m := |rs| - 1;
      ShardSum(to, rs[..m], k, w);
      var s := Shard(to, rs[..m], k);
      SumForLast(s, rs[m], w);
      assert s + [] == s;
    }
  }

  lemma {:induction false} ShardPositive(to: Bytes -> nat, rs: seq<Rec>, k: nat)
    requires forall i :: 0 <= i < |rs| ==> rs[i].count > 0
    ensures forall i :: 0 <= i < |Shard(to, rs, k)| ==> Shard(to, rs, k)[i].count > 0
  {
    if rs != [] {
      ShardPositive(to, rs[..|rs| - 1], k);
    }
  }

  // ----- records as lines

  function LineOf(r: Rec): (b: Bytes) {
    r.word + ([TAB] + Print(r.count))
  }

  function EncodeLine(line: Bytes): (b: Bytes) {
    line + CRLF
  }

  function Lines(rs: seq<Rec>): (ls: seq<Bytes>)
    ensures |ls| == |rs| && forall i :: 0 <= i < |rs| ==> ls[i] == LineOf(rs[i])
  {
    seq(|rs|, i requires 0 <= i < |rs| => LineOf(rs[i]))
  }

  /** The bytes a receiver gets for these records. */
  function BytesFor(rs: seq<Rec>): (b: Bytes) {
    EncodeAll(EncodeLine, Lines(rs))
  }

  function LineHead(b: Bytes): (h: Head<Bytes>) {
    var i := Search(b, CRLF);
    if i < |b| then Got(b[..i], i + 2) else More
  }

  lemma LineHeadStable()
    ensures Stable(LineHead) && Drain(LineHead, []) == ([], [])
  {
    forall b: Bytes, x: Bytes | LineHead(b).Got?
      ensures LineHead(b + x) == LineHead(b)
    {
      SearchStable(b, CRLF, x);
      assert (b + x)[..Search(b, CRLF)] == b[..Search(b, CRLF)];
    }
  }

  predicate NoCr(b: Bytes) {
    forall i :: 0 <= i < |b| ==> b[i] != CR
  }

  lemma LineDecodes(line: Bytes, x: Bytes)
    requires NoCr(line)
    ensures LineHead(EncodeLine(line) + x) == Got(line, |EncodeLine(line)|)
  {
    var b, n := EncodeLine(line) + x, |line|;
    assert b[n..n + 2] == CRLF;
    forall k | 0 <= k < n
      ensures !Occurs(b, CRLF, k)
    {
      assert b[k] == line[k] && b[k..k + 2][0] == b[k];
    }
    SearchIs(b, CRLF, n);
    assert b[..n] == line;
  }

  lemma LinesDecode()
    ensures Decodes(LineHead, EncodeLine, NoCr)
  {
    forall line: Bytes, x: Bytes | NoCr(line)
      ensures LineHead(EncodeLine(line) + x) == Got(line, |EncodeLine(line)|)
    {
      LineDecodes(line, x);
    }
  }

  lemma LineHasNoCr(r: Rec)
    ensures NoCr(LineOf(r))
  {
  }

  // ----- the receiver

  type Counts = map<Bytes, int>

  function Lookup(m: Counts, w: Bytes): (n: int) {
    if w in m then m[w] else 0
  }

  /** One line, with the bytes behind its line end: the word before the tab, and the number that
      `atoll` finds after it, wherever that is. */
  function AddLineThen(m: Counts, line: Bytes, after: Bytes): (r: Counts) {
    var tab := Search(line, [TAB]);
    if tab < |line| then
      var word := line[..tab];
      m[word := Lookup(m, word) + Atoi(line[tab..] + CRLF + after)]
    else m
  }

  /** The receiver's loop on the buffer `b`; `beyond` is the memory behind it. */
  function ReadLines(m: Counts, b: Bytes, beyond: Bytes): (r: (Counts, Bytes))
    decreases |b|
  {
    var i := Search(b, CRLF);
    if i == |b| then (m, b)
    else
      assert b[i..i + 2] == CRLF;
      ReadLines(AddLineThen(m, b[..i], b[i + 2..] + beyond), b[i + 2..], beyond)
  }

  lemma ReadLinesStep(m: Counts, b: Bytes, beyond: Bytes, i: nat)
    requires i == Search(b, CRLF) < |b|
    ensures i + 2 <= |b| && b[i..i + 2] == CRLF
    ensures ReadLines(m, b, beyond) == ReadLines(AddLineThen(m, b[..i], b[i + 2..] + beyond), b[i + 2..], beyond)
  {
    assert Occurs(b, CRLF, i);
  }

  /** A line on which a number, or no tab, is found. */
  predicate Numbered(line: Bytes) {
    var tab := Search(line, [TAB]);
    tab < |line| ==> !AllSpaces(line[tab..])
  }

  /** One line on its own: the word before the tab, and the number after it. */
  function AddLine(m: Counts, line: Bytes): (r: Counts) {
    var tab := Search(line, [TAB]);
    if tab < |line| then
      var word := line[..tab];
      m[word := Lookup(m, word) + Atoi(line[tab..])]
    else m
  }

  function AddLines(m: Counts, lines: seq<Bytes>): (r: Counts) {
    if lines == [] then m else AddLine(AddLines(m, lines[..|lines| - 1]), lines[|lines| - 1])
  }

  /** What arrives at a receiver, in the order it arrives: chunks of the senders' streams; `beyond`
      is the memory behind the buffer when the chunk is read. */
  datatype Arrival = Arrival(sender: nat, chunk: Bytes, beyond: Bytes)

  function BytesFrom(es: seq<Arrival>, s: nat): (b: Bytes) {
    if es == [] then []
    else BytesFrom(es[..|es| - 1], s) + if es[|es| - 1].sender == s then es[|es| - 1].chunk else []
  }

  datatype Receiver = Receiver(counts: Counts, buffers: map<nat, Bytes>)

  function BufferOf(r: Receiver, s: nat): (b: Bytes) {
    if s in r.buffers then r.buffers[s] else []
  }

  function OnArrival(r: Receiver, e: Arrival): (r': Receiver) {
    var (counts, rest) := ReadLines(r.counts, BufferOf(r, e.sender) + e.chunk, e.beyond);
    Receiver(counts, r.buffers[e.sender := rest])
  }

  function Receive(es: seq<Arrival>): (r: Receiver) {
    if es == [] then Receiver(map[], map[]) else OnArrival(Receive(es[..|es| - 1]), es[|es| - 1])
  }

  /** The same for receivers that take each line on its own. */
  function OnArrivalByLine(r: Receiver, e: Arrival): (r': Receiver) {
    var (lines, rest) := Drain(LineHead, BufferOf(r, e.sender) + e.chunk);
    Receiver(AddLines(r.counts, lines), r.buffers[e.sender := rest])
  }

  function ReceiveByLine(es: seq<Arrival>): (r: Receiver) {
    if es == [] then Receiver(map[], map[]) else OnArrivalByLine(ReceiveByLine(es[..|es| - 1]), es[|es| - 1])
  }

  lemma OnItsOwn(m: Counts, line: Bytes, x: Bytes)
    requires Numbered(line)
    ensures AddLineThen(m, line, x) == AddLine(m, line)
  {
    var tab := Search(line, [TAB]);
    if tab < |line| {
      AtoiStops(line[tab..], x);
    }
  }

  /** What a line counts is the same whatever comes behind it, if and only if it has its number. */
  lemma NumberedIffOnItsOwn(m: Counts, line: Bytes)
    ensures Numbered(line) <==> forall x, y :: AddLineThen(m, line, x) == AddLineThen(m, line, y)
  {
    if Numbered(line) {
      forall x, y
        ensures AddLineThen(m, line, x) == AddLineThen(m, line, y)
      {
        OnItsOwn(m, line, x);
        OnItsOwn(m, line, y);
      }
    } else {
      var tab := Search(line, [TAB]);
      var word, b := line[..tab], line[tab..];
      NumberFromNextLine(b, [55]);
      NumberFromNextLine(b, []);
      assert Atoi([55]) == 7 + ReadDigits([], 0);
      assert AddLineThen(m, line, [55])[word] != AddLineThen(m, line, [])[word];
    }
  }

  lemma NumberFromNextLine(b: Bytes, x: Bytes)
    requires AllSpaces(b)
    ensures Atoi(b + CRLF + x) == Atoi(x)
  {
    AtoiReadsOn(b + CRLF, x);
  }

  predicate LinesNumbered(ls: seq<Bytes>) {
    forall i :: 0 <= i < |ls| ==> Numbered(ls[i])
  }

  lemma NumberedParts(a: seq<Bytes>, b: seq<Bytes>)
    requires LinesNumbered(a + b)
    ensures LinesNumbered(a) && LinesNumbered(b)
  {
    assert forall i :: 0 <= i < |a| ==> a[i] == (a + b)[i];
    assert forall i :: 0 <= i < |b| ==> b[i] == (a + b)[|a| + i];
  }

  lemma DrainLine(b: Bytes, i: nat)
    requires i == Search(b, CRLF) < |b|
    ensures i + 2 <= |b| && Drain(LineHead, b) == ([b[..i]] + Drain(LineHead, b[i + 2..]).0, Drain(LineHead, b[i + 2..]).1)
  {
    assert b[i..i + 2] == CRLF;
    DrainGot(LineHead, b, b[..i], i + 2);
  }

  lemma ReadLine(m: Counts, b: Bytes, beyond: Bytes, i: nat)
    requires i == Search(b, CRLF) < |b| && Numbered(b[..i])
    ensures i + 2 <= |b| && ReadLines(m, b, beyond) == ReadLines(AddLine(m, b[..i]), b[i + 2..], beyond)
  {
    ReadLinesStep(m, b, beyond, i);
    OnItsOwn(m, b[..i], b[i + 2..] + beyond);
  }

  /** If every complete line has its number, the loop adds up the lines. */
  lemma {:induction false} ReadLinesByLine(m: Counts, b: Bytes, beyond: Bytes)
    requires LinesNumbered(Drain(LineHead, b).0)
    ensures ReadLines(m, b, beyond) == (AddLines(m, Drain(LineHead, b).0), Drain(LineHead, b).1)
    decreases |b|
  {
    var i := Search(b, CRLF);
    if i < |b| {
      DrainLine(b, i);
      var line, rest := b[..i], b[i + 2..];
      var more := Drain(LineHead, rest).0;
      NumberedParts([line], more);
      assert Numbered([line][0]);
      ReadLine(m, b, beyond, i);
      ReadLinesByLine(AddLine(m, line), rest, beyond);
      AddLinesFirst(m, line, more);
    }
  }

  lemma {:induction false} AddLinesFirst(m: Counts, line: Bytes, more: seq<Bytes>)
    ensures AddLines(m, [line] + more) == AddLines(AddLine(m, line), more)
  {
    var all := [line] + more;
    if more == [] {
      assert all == [line] && all[..0] == [];
    } else {
      var n := |more| - 1;
      AddLinesFirst(m, line, more[..n]);
      assert |all| - 1 == n + 1 && all[n + 1] == more[n];
      assert all[..n + 1] == [line] + more[..n];
    }
  }

  class WordCountReceiver {
    var wordcounts: Counts

    constructor ()
      ensures wordcounts == map[]
    {
      wordcounts := map[];
    }

    /** The line that ends at `crlf`; `atoll` may read on behind it, and behind the buffer. */
    method OnLine(b: Bytes, crlf: nat, beyond: Bytes) returns (wrongFormat: bool)
      requires crlf + 2 <= |b| && b[crlf..crlf + 2] == CRLF
      modifies this
      ensures wordcounts == AddLineThen(old(wordcounts), b[..crlf], b[crlf + 2..] + beyond)
      ensures wrongFormat <==> forall i :: 0 <= i < crlf ==> b[i] != TAB
    {
      ghost var line := b[..crlf];
      var tab := Search(b[..crlf], [TAB]);
      wrongFormat := tab == crlf;
      if !wrongFormat {
        assert line[tab..tab + 1][0] == line[tab] == b[tab];
        assert b[tab..] + beyond == line[tab..] + CRLF + (b[crlf + 2..] + beyond);
        var word, cnt := b[..tab], Atoi(b[tab..] + beyond);
        assert word == line[..tab];
        wordcounts := wordcounts[word := (if word in wordcounts then wordcounts[word] else 0) + cnt];
      } else {
        forall i | 0 <= i < crlf
          ensures b[i] != TAB
        {
          assert line[i] == b[i] && line[i..i + 1] == [line[i]] && !Occurs(line, [TAB], i);
        }
      }
    }

    method OnMessage(buf: Buffer, beyond: Bytes)
      modifies this, buf
      ensures (wordcounts, buf.data) == ReadLines(old(wordcounts), old(buf.data), beyond)
    {
      ghost var whole, m0 := buf.data, wordcounts;
      var crlf := Search(buf.data, CRLF);
      while crlf < |buf.data|
        invariant crlf == Search(buf.data, CRLF)
        invariant ReadLines(m0, whole, beyond) == ReadLines(wordcounts, buf.data, beyond)
        decreases |buf.data|
      {
        ReadLinesStep(wordcounts, buf.data, beyond, crlf);
        var wrongFormat := OnLine(buf.data, crlf, beyond);
        buf.Retrieve(crlf + 2);
        crlf := Search(buf.data, CRLF);
      }
    }
  }

  // ----- what the receiver's map means

  /** What lines say about a word. */
  function Tally(lines: seq<Bytes>, w: Bytes): (n: int) {
    if lines == [] then 0 else Tally(lines[..|lines| - 1], w) + LineTally(lines[|lines| - 1], w)
  }

  function LineTally(line: Bytes, w: Bytes): (n: int) {
    var tab := Search(line, [TAB]);
    if tab < |line| && line[..tab] == w then Atoi(line[tab..]) else 0
  }

  predicate Mentions(line: Bytes, w: Bytes) {
    var tab := Search(line, [TAB]);
    tab < |line| && line[..tab] == w
  }

  lemma {:induction false} AddLinesTally(m: Counts, lines: seq<Bytes>, w: Bytes)
    ensures Lookup(AddLines(m, lines), w) == Lookup(m, w) + Tally(lines, w)
    ensures w in AddLines(m, lines) <==> w in m || MentionedIn(lines, w)
  {
    if lines != [] {
      var n := |lines| - 1;
      AddLinesTally(m, lines[..n], w);
      MentionedLast(lines[..n], lines[n], w);
      assert lines == lines[..n] + [lines[n]];
    }
  }

  lemma MentionedLast(ls: seq<Bytes>, l: Bytes, w: Bytes)
    ensures MentionedIn(ls + [l], w) <==> MentionedIn(ls, w) || Mentions(l, w)
  {
    MentionedAppend(ls, [l], w);
    assert MentionedIn([l], w) <==> Mentions([l][0], w);
  }

  lemma TallyLast(ls: seq<Bytes>, l: Bytes, w: Bytes)
    ensures Tally(ls + [l], w) == Tally(ls, w) + LineTally(l, w)
  {
    assert (ls + [l])[..|ls|] == ls;
  }

  lemma {:induction false} TallyAppend(a: seq<Bytes>, b: seq<Bytes>, w: Bytes)
    ensures Tally(a + b, w) == Tally(a, w) + Tally(b, w)
  {
    if b == [] {
      assert a + b == a;
    } else {
      var n := |b| - 1;
      TallyAppend(a, b[..n], w);
      TallyLast(b[..n], b[n], w);
      TallyLast(a + b[..n], b[n], w);
      assert b == b[..n] + [b[n]] && a + b == a + b[..n] + [b[n]];
    }
  }

  /** All the lines completed so far from one sender. */
  function LinesFrom(es: seq<Arrival>, s: nat): (ls: seq<Bytes>) {
    Drain(LineHead, BytesFrom(es, s)).0
  }

  ghost function AllLines(es: seq<Arrival>): (f: nat -> seq<Bytes>) {
    (s: nat) => LinesFrom(es, s)
  }

  /** The tally over the lines `f(0) .. f(senders - 1)` of the senders. */
  ghost function TotalTally(f: nat -> seq<Bytes>, senders: nat, w: Bytes): (n: int) {
    if senders == 0 then 0 else TotalTally(f, senders - 1, w) + Tally(f(senders - 1), w)
  }

  ghost predicate MentionedIn(lines: seq<Bytes>, w: Bytes) {
    exists i :: 0 <= i < |lines| && Mentions(lines[i], w)
  }

  /** `g` is `f` with some more lines from one sender. */
  ghost predicate Extends(f: nat -> seq<Bytes>, g: nat -> seq<Bytes>, sender: nat, lines: seq<Bytes>) {
    forall s: nat {:trigger g(s)} :: g(s) == if s == sender then f(s) + lines else f(s)
  }

  lemma ArrivalDrains(es: seq<Arrival>, e: Arrival, s: nat)
    requires BufferOf(ReceiveByLine(es), s) == Drain(LineHead, BytesFrom(es, s)).1
    ensures var lines := Drain(LineHead, BufferOf(ReceiveByLine(es), e.sender) + e.chunk).0;
      && LinesFrom(es + [e], s) == (if s == e.sender then LinesFrom(es, s) + lines else LinesFrom(es, s))
      && BufferOf(ReceiveByLine(es + [e]), s) == Drain(LineHead, BytesFrom(es + [e], s)).1
  {
    assert (es + [e])[..|es|] == es;
    if s == e.sender {
      LineHeadStable();
      DrainAppend(LineHead, BytesFrom(es, s), e.chunk);
    } else {
      assert BytesFrom(es, s) + [] == BytesFrom(es, s);
    }
  }

  lemma {:induction false} TotalTallyStep(f: nat -> seq<Bytes>, g: nat -> seq<Bytes>, sender: nat, lines: seq<Bytes>, senders: nat, w: Bytes)
    requires Extends(f, g, sender, lines)
    ensures TotalTally(g, senders, w) == TotalTally(f, senders, w) + if sender < senders then Tally(lines, w) else 0
  {
    if senders > 0 {
      TotalTallyStep(f, g, sender, lines, senders - 1, w);
      var s := senders - 1;
      TallyAppend(f(s), lines, w);
      assert g(s) == if s == sender then f(s) + lines else f(s);
    }
  }

  lemma MentionedAppend(a: seq<Bytes>, b: seq<Bytes>, w: Bytes)
    ensures MentionedIn(a + b, w) <==> MentionedIn(a, w) || MentionedIn(b, w)
  {
    if i :| 0 <= i < |a| && Mentions(a[i], w) {
      assert Mentions((a + b)[i], w);
    }
    if i :| 0 <= i < |b| && Mentions(b[i], w) {
      assert Mentions((a + b)[|a| + i], w);
    }
  }

  lemma MentionStep(f: nat -> seq<Bytes>, g: nat -> seq<Bytes>, sender: nat, lines: seq<Bytes>, w: Bytes)
    requires Extends(f, g, sender, lines)
    ensures (exists s: nat :: MentionedIn(g(s), w)) <==> (exists s: nat :: MentionedIn(f(s), w)) || MentionedIn(lines, w)
  {
    assert g(sender) == f(sender) + lines;
    MentionedAppend(f(sender), lines, w);
    if s: nat :| MentionedIn(f(s), w) {
      assert s != sender ==> g(s) == f(s);
      assert MentionedIn(g(s), w);
    }
    if s: nat :| MentionedIn(g(s), w) {
      assert s != sender ==> g(s) == f(s);
    }
  }

  lemma {:induction false} BuffersHold(es: seq<Arrival>, s: nat)
    ensures BufferOf(ReceiveByLine(es), s) == Drain(LineHead, BytesFrom(es, s)).1
  {
    if es == [] {
      LineHeadStable();
    } else {
      var n := |es| - 1;
      assert es == es[..n] + [es[n]];
      BuffersHold(es[..n], s);
      ArrivalDrains(es[..n], es[n], s);
    }
  }

  /** An arrival adds its lines to its sender's, and to nobody else's. */
  lemma ArrivalExtends(es: seq<Arrival>, e: Arrival) returns (lines: seq<Bytes>)
    ensures Extends(AllLines(es), AllLines(es + [e]), e.sender, lines)
    ensures ReceiveByLine(es + [e]).counts == AddLines(ReceiveByLine(es).counts, lines)
  {
    assert (es + [e])[..|es|] == es;
    lines := Drain(LineHead, BufferOf(ReceiveByLine(es), e.sender) + e.chunk).0;
    forall s: nat
      ensures AllLines(es + [e])(s) == if s == e.sender then AllLines(es)(s) + lines else AllLines(es)(s)
    {
      BuffersHold(es, s);
      ArrivalDrains(es, e, s);
    }
  }

  lemma {:induction false} ByLineTally(es: seq<Arrival>, senders: nat, w: Bytes)
    requires forall i :: 0 <= i < |es| ==> es[i].sender < senders
    ensures Lookup(ReceiveByLine(es).counts, w) == TotalTally(AllLines(es), senders, w)
    ensures w in ReceiveByLine(es).counts <==> exists s: nat :: MentionedIn(AllLines(es)(s), w)
  {
    if es == [] {
      LineHeadStable();
      assert forall s: nat :: AllLines(es)(s) == [];
      NoLines(AllLines(es), senders, w);
    } else {
      var n := |es| - 1;
      var pre, e := es[..n], es[n];
      assert es == pre + [e];
      ByLineTally(pre, senders, w);
      var lines := ArrivalExtends(pre, e);
      TotalTallyStep(AllLines(pre), AllLines(es), e.sender, lines, senders, w);
      MentionStep(AllLines(pre), AllLines(es), e.sender, lines, w);
      AddLinesTally(ReceiveByLine(pre).counts, lines, w);
    }
  }

  /** Every complete line of every sender has its number. */
  ghost predicate AllNumbered(es: seq<Arrival>) {
    forall s: nat :: LinesNumbered(LinesFrom(es, s))
  }

  lemma NumberedBeforeFrom(es: seq<Arrival>, e: Arrival, s: nat)
    requires LinesNumbered(LinesFrom(es + [e], s))
    ensures LinesNumbered(LinesFrom(es, s))
    ensures s == e.sender ==> LinesNumbered(Drain(LineHead, BufferOf(ReceiveByLine(es), e.sender) + e.chunk).0)
  {
    BuffersHold(es, s);
    ArrivalDrains(es, e, s);
    if s == e.sender {
      NumberedParts(LinesFrom(es, s), Drain(LineHead, BufferOf(ReceiveByLine(es), s) + e.chunk).0);
    }
  }

  lemma NumberedBefore(es: seq<Arrival>, e: Arrival)
    requires AllNumbered(es + [e])
    ensures AllNumbered(es)
    ensures LinesNumbered(Drain(LineHead, BufferOf(ReceiveByLine(es), e.sender) + e.chunk).0)
  {
    forall s: nat
      ensures LinesNumbered(LinesFrom(es, s))
    {
      NumberedBeforeFrom(es, e, s);
    }
    NumberedBeforeFrom(es, e, e.sender);
  }

  /** Then it does not matter what lies behind a line. */
  lemma {:induction false} ReceiveIsByLine(es: seq<Arrival>)
    requires AllNumbered(es)
    ensures Receive(es) == ReceiveByLine(es)
  {
    if es != [] {
      var n := |es| - 1;
      var pre, e := es[..n], es[n];
      assert es == pre + [e];
      NumberedBefore(pre, e);
      ReceiveIsByLine(pre);
      var r := Receive(pre);
      ReadLinesByLine(r.counts, BufferOf(r, e.sender) + e.chunk, e.beyond);
    }
  }

  /** However the senders' chunks interleave, the receiver has counted exactly the complete lines
      of each stream. */
  lemma ReceivedTally(es: seq<Arrival>, senders: nat, w: Bytes)
    requires (forall i :: 0 <= i < |es| ==> es[i].sender < senders) && AllNumbered(es)
    ensures Lookup(Receive(es).counts, w) == TotalTally(AllLines(es), senders, w)
    ensures w in Receive(es).counts <==> exists s: nat :: MentionedIn(AllLines(es)(s), w)
  {
    ReceiveIsByLine(es);
    ByLineTally(es, senders, w);
  }

  lemma {:induction false} NoLines(f: nat -> seq<Bytes>, senders: nat, w: Bytes)
    requires forall s: nat {:trigger f(s)} :: f(s) == []
    ensures TotalTally(f, senders, w) == 0
  {
    if senders > 0 {
      NoLines(f, senders - 1, w);
    }
  }

  // ----- the lines of the senders' records

  lemma RecLine(r: Rec, w: Bytes)
    ensures LineTally(LineOf(r), w) == if r.word == w then r.count else 0
    ensures Mentions(LineOf(r), w) <==> r.word == w
    ensures Numbered(LineOf(r))
  {
    var line, n := LineOf(r), |r.word|;
    assert line[n] == TAB && line[n..n + 1] == [TAB];
    forall k | 0 <= k < n
      ensures !Occurs(line, [TAB], k)
    {
      assert line[k] == r.word[k] && !IsSpace(r.word[k]);
      assert line[k..k + 1][0] == line[k];
    }
    SearchIs(line, [TAB], n);
    assert line[..n] == r.word && line[n..] == [TAB] + Print(r.count);
    assert line[n..][1] == Print(r.count)[0] && !IsSpace(Print(r.count)[0]);
    AtoiSkipsTab(Print(r.count));
    AtoiPrinted(r.count, []);
    assert Print(r.count) + [] == Print(r.count);
  }

  lemma {:induction false} RecsTally(rs: seq<Rec>, w: Bytes)
    requires forall i :: 0 <= i < |rs| ==> rs[i].count > 0
    ensures Tally(Lines(rs), w) == SumFor(rs, w)
    ensures MentionedIn(Lines(rs), w) <==> SumFor(rs, w) > 0
  {
    if rs != [] {
      var n := |rs| - 1;
      RecsTally(rs[..n], w);
      var ls := Lines(rs[..n]);
      assert Lines(rs) == ls + [LineOf(rs[n])];
      RecLine(rs[n], w);
      MentionedLast(ls, LineOf(rs[n]), w);
      TallyLast(ls, LineOf(rs[n]), w);
    }
  }

  lemma RecsDrain(rs: seq<Rec>)
    ensures Drain(LineHead, BytesFor(rs)) == (Lines(rs), [])
  {
    LineHeadStable();
    LinesDecode();
    forall i | 0 <= i < |rs|
      ensures NoCr(Lines(rs)[i])
    {
      LineHasNoCr(rs[i]);
    }
    DrainEncodedExact(LineHead, EncodeLine, NoCr, Lines(rs), []);
    assert BytesFor(rs) + [] == BytesFor(rs);
  }

  lemma RecsNumbered(rs: seq<Rec>)
    ensures Drain(LineHead, BytesFor(rs)).0 == Lines(rs) && LinesNumbered(Lines(rs))
  {
    RecsDrain(rs);
    forall i | 0 <= i < |rs|
      ensures Numbered(Lines(rs)[i])
    {
      RecLine(rs[i], []);
    }
  }

  // ----- the whole system

  ghost function TotalCount(inputs: seq<seq<Word>>, w: Bytes): (n: nat) {
    if inputs == [] then 0 else TotalCount(inputs[..|inputs| - 1], w) + Count(inputs[|inputs| - 1], w)
  }

  lemma ShardLines(to: Bytes -> nat, k: nat, words: seq<Word>, rs: seq<Rec>, w: Bytes)
    requires Aggregates(words, rs)
    ensures Tally(Lines(Shard(to, rs, k)), w) == if to(w) == k then Count(words, w) else 0
    ensures MentionedIn(Lines(Shard(to, rs, k)), w) <==> to(w) == k && Count(words, w) > 0
  {
    ShardSum(to, rs, k, w);
    ShardPositive(to, rs, k);
    RecsTally(Shard(to, rs, k), w);
    assert SumFor(rs, w) == Count(words, w);
  }

  lemma {:induction false} TotalsAgree(to: Bytes -> nat, k: nat, inputs: seq<seq<Word>>, f: nat -> seq<Bytes>, w: Bytes)
    requires forall s: nat :: s < |inputs| ==> Tally(f(s), w) == if to(w) == k then Count(inputs[s], w) else 0
    requires forall s: nat :: s < |inputs| ==> (MentionedIn(f(s), w) <==> to(w) == k && Count(inputs[s], w) > 0)
    ensures TotalTally(f, |inputs|, w) == if to(w) == k then TotalCount(inputs, w) else 0
    ensures (exists s: nat :: s < |inputs| && MentionedIn(f(s), w)) <==> to(w) == k && TotalCount(inputs, w) > 0
  {
    if inputs != [] {
      var n := |inputs| - 1;
      assert forall s: nat :: s < n ==> inputs[..n][s] == inputs[s];
      TotalsAgree(to, k, inputs[..n], f, w);
      assert MentionedIn(f(n), w) <==> to(w) == k && Count(inputs[n], w) > 0;
    }
  }

  /** What a receiver counts when it has been sent its shards of the senders' records. */
  lemma CountOfShards(to: Bytes -> nat, k: nat, inputs: seq<seq<Word>>, recs: seq<seq<Rec>>, es: seq<Arrival>, w: Bytes)
    requires |recs| == |inputs| && forall s :: 0 <= s < |inputs| ==> Aggregates(inputs[s], recs[s])
    requires forall i :: 0 <= i < |es| ==> es[i].sender < |inputs|
    requires forall s: nat :: s < |inputs| ==> BytesFrom(es, s) == BytesFor(Shard(to, recs[s], k))
    ensures var counts := Receive(es).counts;
      && Lookup(counts, w) == (if to(w) == k then TotalCount(inputs, w) else 0)
      && (w in counts <==> to(w) == k && TotalCount(inputs, w) > 0)
  {
    var f := AllLines(es);
    forall s: nat | s < |inputs|
      ensures Tally(f(s), w) == if to(w) == k then Count(inputs[s], w) else 0
      ensures MentionedIn(f(s), w) <==> to(w) == k && Count(inputs[s], w) > 0
    {
      RecsDrain(Shard(to, recs[s], k));
      assert f(s) == Lines(Shard(to, recs[s], k));
      ShardLines(to, k, inputs[s], recs[s], w);
    }
    forall s: nat
      ensures LinesNumbered(LinesFrom(es, s))
    {
      if s < |inputs| {
        RecsNumbered(Shard(to, recs[s], k));
      } else {
        NobodyElse(es, s);
      }
    }
    ReceivedTally(es, |inputs|, w);
    TotalsAgree(to, k, inputs, f, w);
    forall s: nat | s >= |inputs|
      ensures !MentionedIn(f(s), w)
    {
      NobodyElse(es, s);
    }
  }

  lemma {:induction false} NobodyElse(es: seq<Arrival>, s: nat)
    requires forall i :: 0 <= i < |es| ==> es[i].sender < s
    ensures BytesFrom(es, s) == [] && LinesFrom(es, s) == []
  {
    LineHeadStable();
    if es != [] {
      NobodyElse(es[..|es| - 1], s);
    }
  }

  // ----- the sender

  class SendThrottler {
    const batchSize: nat
    var buffer: Bytes
    var sent: Bytes

    /** Everything handed over for this receiver, sent or still in the batch. */
    function Out(): (b: Bytes)
      reads this
    {
      sent + buffer
    }

    constructor (batch: nat)
      ensures Out() == [] && batchSize == batch
    {
      batchSize, buffer, sent := batch, [], [];
    }

    method Send(word: Word, count: nat)
      modifies this
      ensures Out() == old(Out()) + EncodeLine(LineOf(Rec(word, count)))
      ensures batchSize > 0 ==> |buffer| < batchSize
      ensures sent == old(sent) || (buffer == [] && |Out()| >= |old(sent)| + batchSize)
    {
      buffer := buffer + word;
      buffer := buffer + ([TAB] + Print(count) + CRLF);
      assert sent + buffer == old(Out()) + EncodeLine(LineOf(Rec(word, count)));
      if |buffer| >= batchSize {
        sent := sent + buffer;
        buffer := [];
      }
    }

    method Disconnect()
      modifies this
      ensures buffer == [] && sent == old(Out())
    {
      if |buffer| > 0 {
        sent := sent + buffer;
        buffer := [];
      }
    }
  }

  /** Which receiver a word belongs to. */
  ghost function BucketOf(hash: Bytes -> nat, n: nat): (to: Bytes -> nat)
    requires n > 0
  {
    (w: Bytes) => hash(w) % n
  }

  lemma {:induction false} EncodeAllLast(ls: seq<Bytes>, l: Bytes)
    ensures EncodeAll(EncodeLine, ls + [l]) == EncodeAll(EncodeLine, ls) + EncodeLine(l)
  {
    if ls == [] {
      assert ls + [l] == [l] && EncodeAll(EncodeLine, [l]) == EncodeLine(l) + [];
    } else {
      assert (ls + [l])[1..] == ls[1..] + [l];
      EncodeAllLast(ls[1..], l);
    }
  }

  lemma ShardBytesLast(to: Bytes -> nat, rs: seq<Rec>, r: Rec, k: nat)
    ensures BytesFor(Shard(to, rs + [r], k)) ==
            if to(r.word) == k then BytesFor(Shard(to, rs, k)) + EncodeLine(LineOf(r)) else BytesFor(Shard(to, rs, k))
  {
    assert (rs + [r])[..|rs|] == rs;
    var s := Shard(to, rs, k);
    if to(r.word) == k {
      assert Lines(s + [r]) == Lines(s) + [LineOf(r)];
      EncodeAllLast(Lines(s), LineOf(r));
    } else {
      assert s + [] == s;
    }
  }

  /** The records for what a map has counted, and for nothing else, in some order. */
  ghost predicate Flushed(base: seq<Rec>, recs: seq<Rec>, counts: map<Word, nat>, todo: set<Word>) {
    && (forall w: Bytes :: SumFor(recs, w) == SumFor(base, w) + if w in counts && w !in todo then counts[w] else 0)
    && (forall i :: 0 <= i < |recs| ==> recs[i].count > 0)
  }

  lemma FlushOne(base: seq<Rec>, recs: seq<Rec>, counts: map<Word, nat>, todo: set<Word>, w: Word)
    requires Flushed(base, recs, counts, todo) && w in todo && w in counts && counts[w] > 0
    ensures Flushed(base, recs + [Rec(w, counts[w])], counts, todo - {w})
  {
    forall x: Bytes
      ensures SumFor(recs + [Rec(w, counts[w])], x) == SumFor(base, x) + if x in counts && x !in todo - {w} then counts[x] else 0
    {
      SumForLast(recs, Rec(w, counts[w]), x);
      assert SumFor(recs, x) == SumFor(base, x) + if x in counts && x !in todo then counts[x] else 0;
    }
  }

  lemma CountLast(words: seq<Word>, i: nat, w: Bytes)
    requires i < |words|
    ensures Count(words[..i + 1], w) == Count(words[..i], w) + if words[i] == w then 1 else 0
  {
    assert words[..i + 1][..i] == words[..i];
  }

  ghost predicate CountsSince(words: seq<Word>, start: nat, pos: nat, counts: map<Word, nat>)
    requires start <= pos <= |words|
  {
    && (forall w: Bytes :: Count(words[..pos], w) == Count(words[..start], w) + if w in counts then counts[w] else 0)
    && (forall w :: w in counts ==> counts[w] > 0)
  }

  /** `wordcounts[word] += 1`. */
  function Counted(counts: map<Word, nat>, word: Word): (r: map<Word, nat>)
    ensures r.Keys == counts.Keys + {word} && |r| <= |counts| + 1
  {
    counts[word := (if word in counts then counts[word] else 0) + 1]
  }

  lemma CountedStep(words: seq<Word>, start: nat, pos: nat, counts: map<Word, nat>)
    requires start <= pos < |words| && CountsSince(words, start, pos, counts)
    ensures CountsSince(words, start, pos + 1, Counted(counts, words[pos]))
  {
    var r := Counted(counts, words[pos]);
    forall w: Bytes
      ensures Count(words[..pos + 1], w) == Count(words[..start], w) + if w in r then r[w] else 0
    {
      CountLast(words, pos, w);
      assert Count(words[..pos], w) == Count(words[..start], w) + if w in counts then counts[w] else 0;
    }
  }

  /** The inner reading loop: count words until the input ends or the map is full. */
  method CountSome(words: seq<Word>, start: nat, maxHashSize: nat) returns (pos: nat, counts: map<Word, nat>, eof: bool)
    requires start <= |words|
    ensures start <= pos <= |words| && CountsSince(words, start, pos, counts)
    ensures eof ==> pos == |words| && |counts| <= maxHashSize
    ensures !eof ==> start < pos && |counts| == maxHashSize + 1
  {
    counts, pos, eof := map[], start, false;
    while true
      invariant start <= pos <= |words| && CountsSince(words, start, pos, counts) && |counts| <= maxHashSize
      decreases |words| - pos
    {
      if pos == |words| {
        eof := true;
        return;
      }
      CountedStep(words, start, pos, counts);
      counts := Counted(counts, words[pos]);
      pos := pos + 1;
      if |counts| > maxHashSize {
        return;
      }
    }
  }

  ghost predicate Apart(buckets: seq<SendThrottler>) {
    forall i, j :: 0 <= i < j < |buckets| ==> buckets[i] != buckets[j]
  }

  /** Beyond `outs`, each bucket has been handed the lines of its shard of `recs`. */
  ghost predicate Handed(buckets: seq<SendThrottler>, outs: seq<Bytes>, to: Bytes -> nat, recs: seq<Rec>)
    reads buckets
  {
    |outs| == |buckets| && forall k: nat :: k < |buckets| ==> buckets[k].Out() == outs[k] + BytesFor(Shard(to, recs, k))
  }

  /** What each bucket has been handed after one more record. */
  lemma HandedOne(was: Bytes, out: Bytes, to: Bytes -> nat, recs: seq<Rec>, r: Rec, k: nat)
    requires was == out + BytesFor(Shard(to, recs, k))
    ensures (if to(r.word) == k then was + EncodeLine(LineOf(r)) else was) == out + BytesFor(Shard(to, recs + [r], k))
  {
    ShardBytesLast(to, recs, r, k);
    Reassociate(out, BytesFor(Shard(to, recs, k)), EncodeLine(LineOf(r)));
  }

  lemma Reassociate(a: Bytes, b: Bytes, c: Bytes)
    ensures (a + b) + c == a + (b + c)
  {
  }

  method SendOne(word: Word, count: nat, buckets: seq<SendThrottler>, hash: Bytes -> nat, ghost outs: seq<Bytes>, ghost recs: seq<Rec>)
    requires |buckets| > 0 && Apart(buckets) && Handed(buckets, outs, BucketOf(hash, |buckets|), recs)
    modifies buckets
    ensures Handed(buckets, outs, BucketOf(hash, |buckets|), recs + [Rec(word, count)])
  {
    ghost var to, r := BucketOf(hash, |buckets|), Rec(word, count);
    ghost var was: seq<Bytes> := seq(|buckets|, k requires 0 <= k < |buckets| reads buckets => buckets[k].Out());
    forall k: nat | k < |buckets|
      ensures (if to(word) == k then was[k] + EncodeLine(LineOf(r)) else was[k]) == outs[k] + BytesFor(Shard(to, recs + [r], k))
    {
      HandedOne(was[k], outs[k], to, recs, r, k);
    }
    var idx := hash(word) % |buckets|;
    assert to(word) == idx;
    buckets[idx].Send(word, count);
    assert forall k: nat :: k < |buckets| && k != idx ==> buckets[k] != buckets[idx] && buckets[k].Out() == was[k];
  }

  /** The sending loop: one record per counted word, to the bucket of its hash. */
  method SendCounts(counts: map<Word, nat>, buckets: seq<SendThrottler>, hash: Bytes -> nat, ghost outs: seq<Bytes>, ghost base: seq<Rec>)
      returns (ghost recs: seq<Rec>)
    requires |buckets| > 0 && Apart(buckets) && (forall w :: w in counts ==> counts[w] > 0)
    requires forall i :: 0 <= i < |base| ==> base[i].count > 0
    requires Handed(buckets, outs, BucketOf(hash, |buckets|), base)
    modifies buckets
    ensures Flushed(base, recs, counts, {}) && Handed(buckets, outs, BucketOf(hash, |buckets|), recs)
  {
    ghost var to := BucketOf(hash, |buckets|);
    recs := base;
    var todo := counts.Keys;
    while todo != {}
      invariant todo <= counts.Keys && Flushed(base, recs, counts, todo) && Handed(buckets, outs, to, recs)
      decreases todo
    {
      assert (forall w: Word :: w !in todo) ==> todo == {};
      var word: Word :| word in todo;
      SendOne(word, counts[word], buckets, hash, outs, recs);
      FlushOne(base, recs, counts, todo, word);
      recs := recs + [Rec(word, counts[word])];
      todo := todo - {word};
    }
  }

  lemma {:induction false} CountAppend(a: seq<Word>, b: seq<Word>, w: Bytes)
    ensures Count(a + b, w) == Count(a, w) + Count(b, w)
  {
    if b == [] {
      assert a + b == a;
    } else {
      var n := |b| - 1;
      CountAppend(a, b[..n], w);
      assert (a + b)[..|a| + n] == a + b[..n];
    }
  }

  /** What a flushed batch adds to what was handed over before. */
  lemma BatchAggregates(pre: seq<Word>, words: seq<Word>, start: nat, pos: nat, counts: map<Word, nat>, base: seq<Rec>, recs: seq<Rec>)
    requires start <= pos <= |words| && Aggregates(pre + words[..start], base)
    requires CountsSince(words, start, pos, counts) && Flushed(base, recs, counts, {})
    ensures Aggregates(pre + words[..pos], recs)
  {
    forall w: Bytes
      ensures SumFor(recs, w) == Count(pre + words[..pos], w)
    {
      CountAppend(pre, words[..start], w);
      CountAppend(pre, words[..pos], w);
      assert Count(words[..pos], w) == Count(words[..start], w) + if w in counts then counts[w] else 0;
    }
  }

  /** Read a whole file in batches, after a sender has already read `pre` and handed over `base`;
      the records handed to the buckets add up to all its words. */
  method ProcessFile(words: seq<Word>, buckets: seq<SendThrottler>, hash: Bytes -> nat, maxHashSize: nat,
                     ghost outs: seq<Bytes>, ghost pre: seq<Word>, ghost base: seq<Rec>) returns (ghost recs: seq<Rec>)
    requires |buckets| > 0 && Apart(buckets) && Aggregates(pre, base)
    requires Handed(buckets, outs, BucketOf(hash, |buckets|), base)
    modifies buckets
    ensures Aggregates(pre + words, recs) && Handed(buckets, outs, BucketOf(hash, |buckets|), recs)
  {
    recs := base;
    var pos, eof := 0, false;
    assert pre + words[..0] == pre;
    while !eof
      invariant pos <= |words| && Aggregates(pre + words[..pos], recs) && (eof ==> pos == |words|)
      invariant Handed(buckets, outs, BucketOf(hash, |buckets|), recs)
      decreases |words| - pos, !eof
    {
      ghost var start, before := pos, recs;
      var counts;
      pos, counts, eof := CountSome(words, pos, maxHashSize);
      recs := SendCounts(counts, buckets, hash, outs, recs);
      BatchAggregates(pre, words, start, pos, counts, before, recs);
    }
    assert words[..pos] == words;
  }

  /** The words of several files. */
  function AllWords(files: seq<seq<Word>>): (ws: seq<Word>) {
    if files == [] then [] else AllWords(files[..|files| - 1]) + files[|files| - 1]
  }

  /** `disconnectAll`: everything handed over for any receiver has been sent. */
  method DisconnectAll(buckets: seq<SendThrottler>, ghost all: seq<Bytes>)
    requires Apart(buckets) && |all| == |buckets| && forall k :: 0 <= k < |buckets| ==> buckets[k].Out() == all[k]
    modifies buckets
    ensures forall k :: 0 <= k < |buckets| ==> buckets[k].sent == all[k] && buckets[k].buffer == []
  {
    for i := 0 to |buckets|
      invariant forall k :: 0 <= k < i ==> buckets[k].sent == all[k] && buckets[k].buffer == []
      invariant forall k :: i <= k < |buckets| ==> buckets[k].Out() == all[k]
    {
      buckets[i].Disconnect();
    }
  }

  /** A whole sender: all its files, then disconnecting. */
  method SendFiles(files: seq<seq<Word>>, buckets: seq<SendThrottler>, hash: Bytes -> nat, maxHashSize: nat) returns (ghost sent: seq<Bytes>)
    requires |buckets| > 0 && Apart(buckets) && forall k :: 0 <= k < |buckets| ==> buckets[k].Out() == []
    modifies buckets
    ensures HasSent(files, BucketOf(hash, |buckets|), sent) && |sent| == |buckets|
    ensures forall k :: 0 <= k < |buckets| ==> buckets[k].sent == sent[k] && buckets[k].buffer == []
  {
    ghost var to := BucketOf(hash, |buckets|);
    ghost var outs: seq<Bytes> := seq(|buckets|, k => []);
    ghost var recs: seq<Rec> := [];
    for i := 0 to |files|
      invariant Aggregates(AllWords(files[..i]), recs) && Handed(buckets, outs, to, recs)
    {
      recs := ProcessFile(files[i], buckets, hash, maxHashSize, outs, AllWords(files[..i]), recs);
      assert files[..i + 1][..i] == files[..i];
    }
    assert files[..|files|] == files;
    sent := seq(|buckets|, k requires 0 <= k < |buckets| => BytesFor(Shard(to, recs, k)));
    assert SentRecords(files, to, sent, recs);
    DisconnectAll(buckets, sent);
  }

  // ----- senders and receiver together

  /** A finished sender: its receivers have been sent their shards of records that add up to the
      words of its files. */
  ghost predicate HasSent(files: seq<seq<Word>>, to: Bytes -> nat, sent: seq<Bytes>) {
    exists recs: seq<Rec> :: SentRecords(files, to, sent, recs)
  }

  ghost predicate SentRecords(files: seq<seq<Word>>, to: Bytes -> nat, sent: seq<Bytes>, recs: seq<Rec>) {
    Aggregates(AllWords(files), recs) && forall k: nat :: k < |sent| ==> sent[k] == BytesFor(Shard(to, recs, k))
  }

  ghost function RecordsOf(files: seq<seq<Word>>, to: Bytes -> nat, sent: seq<Bytes>): (recs: seq<Rec>)
    requires HasSent(files, to, sent)
    ensures SentRecords(files, to, sent, recs)
  {
    var recs :| SentRecords(files, to, sent, recs);
    recs
  }

  /** The input of every sender, file after file. */
  function Inputs(files: seq<seq<seq<Word>>>): (ws: seq<seq<Word>>)
    ensures |ws| == |files| && forall s :: 0 <= s < |files| ==> ws[s] == AllWords(files[s])
  {
    seq(|files|, s requires 0 <= s < |files| => AllWords(files[s]))
  }

  /** After all senders have finished and all their bytes are delivered, in any chunks and any
      interleaving, receiver `k` of `n` has for each word of its shard the number of its occurrences
      in all files, and no other word. */
  lemma DistributedCount(hash: Bytes -> nat, n: nat, k: nat, files: seq<seq<seq<Word>>>, sent: seq<seq<Bytes>>, es: seq<Arrival>, w: Bytes)
    requires k < n && |sent| == |files|
    requires forall s :: 0 <= s < |files| ==> |sent[s]| == n && HasSent(files[s], BucketOf(hash, n), sent[s])
    requires forall i :: 0 <= i < |es| ==> es[i].sender < |files|
    requires forall s: nat :: s < |files| ==> BytesFrom(es, s) == sent[s][k]
    ensures var counts := Receive(es).counts;
      && Lookup(counts, w) == (if hash(w) % n == k then TotalCount(Inputs(files), w) else 0)
      && (w in counts <==> hash(w) % n == k && TotalCount(Inputs(files), w) > 0)
  {
    var to := BucketOf(hash, n);
    var recs := seq(|files|, s requires 0 <= s < |files| => RecordsOf(files[s], to, sent[s]));
    forall s: nat | s < |files|
      ensures Aggregates(Inputs(files)[s], recs[s]) && BytesFrom(es, s) == BytesFor(Shard(to, recs[s], k))
    {
      assert SentRecords(files[s], to, sent[s], recs[s]);
    }
    CountOfShards(to, k, Inputs(files), recs, es, w);
  }
}

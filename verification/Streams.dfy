/** Byte streams cut by TCP at arbitrary points, and decoders that drain a buffer one message at
    a time.  A decoder is given by what it sees at the head of the buffer. */
module Streams {

  type Byte = x: int | 0 <= x < 256
  type Bytes = seq<Byte>

  /** The head of a buffer: nothing complete yet, a message and its length, or garbage. */
  datatype Head<M> = More | Got(msg: M, used: nat) | Reject

  type Decoder<!M> = Bytes -> Head<M>

  /** What a decoder has decided, further bytes do not change. */
  ghost predicate Stable<M>(p: Decoder<M>) {
    && (forall b: Bytes, x: Bytes {:trigger p(b + x)} :: p(b).Got? ==> p(b + x) == p(b))
    && (forall b: Bytes, x: Bytes {:trigger p(b + x)} :: p(b).Reject? ==> p(b + x).Reject?)
    && (forall b: Bytes {:trigger p(b)} :: p(b).Got? ==> 0 < p(b).used <= |b|)
  }

  /** The messages a draining loop delivers, and what it leaves in the buffer. */
  function Drain<M>(p: Decoder<M>, b: Bytes): (r: (seq<M>, Bytes))
    ensures |r.1| <= |b|
    decreases |b|
  {
    match p(b)
    case Got(m, n) =>
      if 0 < n <= |b| then
        var (ms, rest) := Drain(p, b[n..]);
        ([m] + ms, rest)
      else ([], b)
    case _ => ([], b)
  }

  function Concat(chunks: seq<Bytes>): (b: Bytes) {
    if chunks == [] then [] else chunks[0] + Concat(chunks[1..])
  }

  /** Chunks arrive one by one; after each the loop drains what has accumulated. */
  function Feed<M>(p: Decoder<M>, rest: Bytes, chunks: seq<Bytes>): (r: (seq<M>, Bytes))
    decreases |chunks|
  {
    if chunks == [] then ([], rest)
    else
      var (ms, rest1) := Drain(p, rest + chunks[0]);
      var (ms2, rest2) := Feed(p, rest1, chunks[1..]);
      (ms + ms2, rest2)
  }

  lemma {:induction false} DrainAppend<M>(p: Decoder<M>, b: Bytes, x: Bytes)
    requires Stable(p)
    ensures var (ms, rest) := Drain(p, b);
      var (ms2, rest2) := Drain(p, rest + x);
      Drain(p, b + x) == (ms + ms2, rest2)
    decreases |b|
  {
    var h := p(b);
    if h.Got? {
      var n := h.used;
      assert p(b + x) == h;
      assert (b + x)[n..] == b[n..] + x;
      DrainAppend(p, b[n..], x);
      var (ms, rest) := Drain(p, b[n..]);
      var (ms2, rest2) := Drain(p, rest + x);
      assert [h.msg] + (ms + ms2) == ([h.msg] + ms) + ms2;
    } else {
      var ms2 := Drain(p, b + x).0;
      assert Drain(p, b) == ([], b) && [] + ms2 == ms2;
    }
  }

  lemma {:induction false} DrainLeavesNothing<M>(p: Decoder<M>, b: Bytes)
    requires Stable(p)
    ensures Drain(p, Drain(p, b).1) == ([], Drain(p, b).1) && !p(Drain(p, b).1).Got?
    decreases |b|
  {
    if p(b).Got? {
      DrainLeavesNothing(p, b[p(b).used..]);
    }
  }

  /** How TCP cuts the stream makes no difference. */
  lemma {:induction false} ChunkingIrrelevant<M>(p: Decoder<M>, rest: Bytes, chunks: seq<Bytes>)
    requires Stable(p) && Drain(p, rest) == ([], rest)
    ensures Feed(p, rest, chunks) == Drain(p, rest + Concat(chunks))
    decreases |chunks|
  {
    if chunks == [] {
      assert rest + Concat(chunks) == rest;
    } else {
      var b := rest + chunks[0];
      var (ms, rest1) := Drain(p, b);
      DrainLeavesNothing(p, b);
      ChunkingIrrelevant(p, rest1, chunks[1..]);
      DrainAppend(p, b, Concat(chunks[1..]));
      assert rest + Concat(chunks) == b + Concat(chunks[1..]);
    }
  }

  // ----- the loop that drains

  /** A draining loop that started with `whole` has delivered `done` and still holds `b`. */
  ghost predicate Draining<M>(p: Decoder<M>, whole: Bytes, done: seq<M>, b: Bytes) {
    Drain(p, whole) == (done + Drain(p, b).0, Drain(p, b).1)
  }

  lemma DrainStart<M>(p: Decoder<M>, whole: Bytes)
    ensures Draining(p, whole, [], whole)
  {
    assert [] + Drain(p, whole).0 == Drain(p, whole).0;
  }

  lemma DrainStep<M>(p: Decoder<M>, whole: Bytes, done: seq<M>, b: Bytes, m: M, n: nat)
    requires Draining(p, whole, done, b) && p(b) == Got(m, n) && 0 < n <= |b|
    ensures Draining(p, whole, done + [m], b[n..])
  {
    var rest := Drain(p, b[n..]).0;
    assert done + ([m] + rest) == (done + [m]) + rest;
  }

  lemma DrainEnd<M>(p: Decoder<M>, whole: Bytes, done: seq<M>, b: Bytes)
    requires Draining(p, whole, done, b) && !p(b).Got?
    ensures Drain(p, whole) == (done, b)
  {
    assert done + [] == done;
  }

  // ----- encoders

  /** Every good message is recognised at the head of a buffer, whatever follows it. */
  ghost predicate Decodes<M(!new)>(p: Decoder<M>, enc: M -> Bytes, good: M -> bool) {
    forall m: M, x: Bytes {:trigger p(enc(m) + x)} :: good(m) ==> p(enc(m) + x) == Got(m, |enc(m)|)
  }

  function EncodeAll<M>(enc: M -> Bytes, ms: seq<M>): (b: Bytes) {
    if ms == [] then [] else enc(ms[0]) + EncodeAll(enc, ms[1..])
  }

  lemma DrainGot<M>(p: Decoder<M>, b: Bytes, m: M, n: nat)
    requires p(b) == Got(m, n) && 0 < n <= |b|
    ensures Drain(p, b) == ([m] + Drain(p, b[n..]).0, Drain(p, b[n..]).1)
  {
  }

  lemma DrainNothing<M>(p: Decoder<M>, b: Bytes)
    requires !p(b).Got?
    ensures Drain(p, b) == ([], b)
  {
  }

  lemma DrainOne<M>(p: Decoder<M>, e: Bytes, more: Bytes, m: M)
    requires p(e + more) == Got(m, |e|) && e != []
    ensures Drain(p, e + more) == ([m] + Drain(p, more).0, Drain(p, more).1)
  {
    assert (e + more)[|e|..] == more;
  }

  lemma {:induction false} DrainEncoded<M(!new)>(p: Decoder<M>, enc: M -> Bytes, good: M -> bool, ms: seq<M>, tail: Bytes)
    requires Stable(p) && Decodes(p, enc, good) && forall i :: 0 <= i < |ms| ==> good(ms[i])
    ensures Drain(p, EncodeAll(enc, ms) + tail) == (ms + Drain(p, tail).0, Drain(p, tail).1)
  {
    if ms == [] {
      assert EncodeAll(enc, ms) + tail == tail && ms + Drain(p, tail).0 == Drain(p, tail).0;
    } else {
      var e, more := enc(ms[0]), EncodeAll(enc, ms[1..]) + tail;
      assert EncodeAll(enc, ms) + tail == e + more;
      assert p(e + more) == Got(ms[0], |e|);
      DrainEncoded(p, enc, good, ms[1..], tail);
      DrainOne(p, e, more, ms[0]);
      assert [ms[0]] + (ms[1..] + Drain(p, tail).0) == ms + Drain(p, tail).0;
    }
  }

  lemma DrainEncodedExact<M(!new)>(p: Decoder<M>, enc: M -> Bytes, good: M -> bool, ms: seq<M>, tail: Bytes)
    requires Stable(p) && Decodes(p, enc, good) && forall i :: 0 <= i < |ms| ==> good(ms[i])
    requires Drain(p, tail) == ([], tail)
    ensures Drain(p, EncodeAll(enc, ms) + tail) == (ms, tail)
  {
    DrainEncoded(p, enc, good, ms, tail);
    assert ms + [] == ms;
  }

  lemma ChunkingFromEmpty<M>(p: Decoder<M>, chunks: seq<Bytes>)
    requires Stable(p) && Drain(p, []) == ([], [])
    ensures Feed(p, [], chunks) == Drain(p, Concat(chunks))
  {
    ChunkingIrrelevant(p, [], chunks);
    assert [] + Concat(chunks) == Concat(chunks);
  }

  /** Round trip over a stream: any messages, sent one after the other and cut anywhere, arrive
      once each, in order and unchanged; only an unfinished tail stays in the buffer. */
  lemma StreamRoundTrip<M(!new)>(p: Decoder<M>, enc: M -> Bytes, good: M -> bool, ms: seq<M>, tail: Bytes, chunks: seq<Bytes>)
    requires Stable(p) && Decodes(p, enc, good) && forall i :: 0 <= i < |ms| ==> good(ms[i])
    requires Drain(p, []) == ([], []) && Drain(p, tail) == ([], tail)
    requires Concat(chunks) == EncodeAll(enc, ms) + tail
    ensures Feed(p, [], chunks) == (ms, tail)
  {
    ChunkingFromEmpty(p, chunks);
    DrainEncodedExact(p, enc, good, ms, tail);
  }

  lemma {:induction false} ConcatAppend(a: seq<Bytes>, b: seq<Bytes>)
    ensures Concat(a + b) == Concat(a) + Concat(b)
  {
    if a == [] {
      assert a + b == b;
    } else {
      assert (a + b)[1..] == a[1..] + b;
      ConcatAppend(a[1..], b);
    }
  }

  /** The input buffer a connection hands to its message callback. */
  class Buffer {
    var data: Bytes

    constructor ()
      ensures data == []
    {
      data := [];
    }

    method Append(b: Bytes)
      modifies this
      ensures data == old(data) + b
    {
      data := data + b;
    }

    method Prepend(b: Bytes)
      modifies this
      ensures data == b + old(data)
    {
      data := b + data;
    }

    method Retrieve(n: nat)
      requires n <= |data|
      modifies this
      ensures data == old(data)[n..]
    {
      data := data[n..];
    }

    method RetrieveAll()
      modifies this
      ensures data == []
    {
      data := [];
    }
  }
}

/** The length-prefixed, checksummed frames of the two protobuf codecs:
    length (4 bytes), content, Adler-32 of the content (4 bytes), all big-endian.
    The codecs differ only in their content and in the least length they accept. */
module Frames {
  import opened Basics
  import opened Streams
  import opened TextNumbers

  const HEADER_LEN := 4
  const MAX_MESSAGE_LEN := 64 * 1024 * 1024

  // ----- Adler-32, as in section 2.2 of RFC 1950

  const ADLER_BASE := 65521

  function Adler(b: Bytes): (s: (int, int))
    ensures 0 <= s.0 < ADLER_BASE && 0 <= s.1 < ADLER_BASE
  {
    if b == [] then (1, 0)
    else
      var (s1, s2) := Adler(b[..|b| - 1]);
      var t := (s1 + b[|b| - 1]) % ADLER_BASE;
      (t, (s2 + t) % ADLER_BASE)
  }

  function CheckSum(b: Bytes): (c: int)
    ensures 0 <= c < 0x1_0000_0000
  {
    Adler(b).1 * 65536 + Adler(b).0
  }

  function Sum(b: Bytes): (n: int) {
    if b == [] then 0 else Sum(b[..|b| - 1]) + b[|b| - 1]
  }

  lemma ModIs(n: int, q: int, r: int)
    requires n == 65521 * q + r && 0 <= r < 65521
    ensures n % 65521 == r
  {
  }

  lemma ModAdd(a: int, x: int)
    ensures (a % ADLER_BASE + x) % ADLER_BASE == (a + x) % ADLER_BASE
  {
    var q, r := a / 65521, a % 65521;
    var q2, r2 := (r + x) / 65521, (r + x) % 65521;
    assert a == 65521 * q + r && r + x == 65521 * q2 + r2;
    ModIs(a + x, q + q2, r2);
  }

  lemma {:induction false} AdlerLow(b: Bytes)
    ensures Adler(b).0 == (1 + Sum(b)) % ADLER_BASE
  {
    if b != [] {
      var n := |b| - 1;
      AdlerLow(b[..n]);
      ModAdd(1 + Sum(b[..n]), b[n]);
    }
  }

  /** Every byte as often as it has been added up at the end. */
  function Weighted(b: Bytes): (n: int) {
    if b == [] then 0 else |b| * b[0] + Weighted(b[1..])
  }

  lemma {:induction false} SumFirst(x: Byte, b: Bytes)
    ensures Sum([x] + b) == x + Sum(b)
  {
    if b == [] {
      assert [x] + b == [x] && [x][..0] == [];
    } else {
      SumFirst(x, b[..|b| - 1]);
      assert ([x] + b)[..|b|] == [x] + b[..|b| - 1];
    }
  }

  lemma {:induction false} WeightedLast(b: Bytes, x: Byte)
    ensures Weighted(b + [x]) == Weighted(b) + Sum(b) + x
  {
    if b == [] {
      assert b + [x] == [x] && [x][1..] == [];
    } else {
      WeightedLast(b[1..], x);
      assert (b + [x])[1..] == b[1..] + [x];
      SumFirst(b[0], b[1..]);
      assert b == [b[0]] + b[1..];
      assert (|b| + 1) * b[0] == |b| * b[0] + b[0];
    }
  }

  /** The closed form of RFC 1950: s1 is one and the sum of the bytes, s2 is the sum of all the s1 on
      the way, both modulo 65521; the checksum has s2 in its upper half. */
  lemma {:induction false} AdlerClosed(b: Bytes)
    ensures Adler(b).0 == (1 + Sum(b)) % 65521
    ensures Adler(b).1 == (|b| + Weighted(b)) % 65521
    ensures CheckSum(b) == (|b| + Weighted(b)) % 65521 * 65536 + (1 + Sum(b)) % 65521
  {
    AdlerLow(b);
    if b != [] {
      var n := |b| - 1;
      AdlerClosed(b[..n]);
      WeightedLast(b[..n], b[n]);
      assert b == b[..n] + [b[n]];
      ModAdd(n + Weighted(b[..n]), Adler(b).0);
      ModAdd(1 + Sum(b), n + Weighted(b[..n]));
    }
  }

  lemma {:induction false} SumUpdate(b: Bytes, i: nat, v: Byte)
    requires i < |b|
    ensures Sum(b[i := v]) == Sum(b) - b[i] + v
  {
    var n := |b| - 1;
    if i < n {
      SumUpdate(b[..n], i, v);
      assert b[i := v][..n] == b[..n][i := v];
    } else {
      assert b[i := v][..n] == b[..n];
    }
  }

  lemma ModApart(x: int, d: int)
    requires 0 < d < ADLER_BASE || -ADLER_BASE < d < 0
    ensures x % ADLER_BASE != (x + d) % ADLER_BASE
  {
  }

  /** Changing one byte always changes the checksum, whatever the length. */
  lemma OneByteChangesCheckSum(b: Bytes, i: nat, v: Byte)
    requires i < |b| && v != b[i]
    ensures CheckSum(b[i := v]) != CheckSum(b)
  {
    AdlerLow(b);
    AdlerLow(b[i := v]);
    SumUpdate(b, i, v);
    ModApart(1 + Sum(b), v - b[i]);
    SumsDiffer(Adler(b), Adler(b[i := v]));
  }

  lemma SumsDiffer(s: (int, int), t: (int, int))
    requires 0 <= s.0 < 65536 && 0 <= t.0 < 65536 && s.0 != t.0
    ensures s.1 * 65536 + s.0 != t.1 * 65536 + t.0
  {
  }

  // ----- 32-bit integers in network byte order

  function Be32(n: int): (b: Bytes)
    ensures |b| == 4
  {
    [n / 0x100_0000 % 256, n / 0x1_0000 % 256, n / 0x100 % 256, n % 256]
  }

  function U32(b: Bytes): (n: int)
    requires |b| == 4
    ensures 0 <= n < 0x1_0000_0000
  {
    b[0] as int * 0x100_0000 + b[1] as int * 0x1_0000 + b[2] as int * 0x100 + b[3] as int
  }

  /** `asInt32`: the same four bytes as a signed number. */
  function I32(b: Bytes): (n: int)
    requires |b| == 4
    ensures -0x8000_0000 <= n < 0x8000_0000
  {
    if U32(b) < 0x8000_0000 then U32(b) else U32(b) - 0x1_0000_0000
  }

  lemma Be32RoundTrip(n: int)
    requires 0 <= n < 0x1_0000_0000
    ensures U32(Be32(n)) == n
    ensures n < 0x8000_0000 ==> I32(Be32(n)) == n
  {
    var h1 := n / 0x100;
    var h2 := h1 / 0x100;
    var h3 := h2 / 0x100;
    assert n == h1 * 0x100 + n % 0x100 && h1 == h2 * 0x100 + h1 % 0x100 && h2 == h3 * 0x100 + h2 % 0x100;
    assert n / 0x1_0000 == h2 by {
      Quotient16(n, h2, h1 % 0x100 * 0x100 + n % 0x100);
    }
    assert n / 0x100_0000 == h3 by {
      Quotient24(n, h3, h2 % 0x100 * 0x1_0000 + h1 % 0x100 * 0x100 + n % 0x100);
    }
  }

  lemma Quotient16(n: int, q: int, r: int)
    requires n == q * 0x1_0000 + r && 0 <= r < 0x1_0000
    ensures n / 0x1_0000 == q
  {
  }

  lemma Quotient24(n: int, q: int, r: int)
    requires n == q * 0x100_0000 + r && 0 <= r < 0x100_0000
    ensures n / 0x100_0000 == q
  {
  }

  lemma U32Injective(a: Bytes, b: Bytes)
    requires |a| == |b| == 4 && U32(a) == U32(b)
    ensures a == b
  {
    assert a[0] == b[0] && a[1] == b[1] && a[2] == b[2] && a[3] == b[3];
  }

  // ----- content formats

  datatype Result<+M> = NoError(msg: M) | CheckSumError | InvalidNameLen | UnknownMessageType | ParseError

  /** A content format: how a message is written, and how content is read back. */
  datatype Format<!M> = Format(minLen: nat, write: M -> Bytes, read: Bytes -> Result<M>)

  /** Content that the codec writes and its peer accepts. */
  ghost predicate Good<M>(f: Format<M>, m: M) {
    f.read(f.write(m)) == NoError(m) && f.minLen <= |f.write(m)| + HEADER_LEN <= MAX_MESSAGE_LEN
  }

  ghost predicate FormatOk<M>(f: Format<M>) {
    f.minLen >= HEADER_LEN
  }

  function Body<M>(f: Format<M>, m: M): (b: Bytes) {
    f.write(m) + Be32(CheckSum(f.write(m)))
  }

  function EncodeFrame<M>(f: Format<M>, m: M): (b: Bytes) {
    Be32(|Body(f, m)|) + Body(f, m)
  }

  /** The checksum is compared as a 32-bit signed integer, as both sides compute it. */
  function ParseBody<M>(f: Format<M>, body: Bytes): (r: Result<M>)
    requires |body| >= HEADER_LEN
  {
    var n := |body| - HEADER_LEN;
    if I32(body[n..]) != I32(Be32(CheckSum(body[..n]))) then CheckSumError else f.read(body[..n])
  }

  function FrameHead<M>(f: Format<M>, b: Bytes): (h: Head<M>)
    requires FormatOk(f)
  {
    if |b| < f.minLen + HEADER_LEN then More
    else
      var len := I32(b[..4]);
      if len > MAX_MESSAGE_LEN || len < f.minLen then Reject
      else if |b| < len + HEADER_LEN then More
      else
        match ParseBody(f, b[4..4 + len])
        case NoError(m) => Got(m, len + HEADER_LEN)
        case _ => Reject
  }

  ghost function FrameDecoder<M>(f: Format<M>): (p: Decoder<M>)
    requires FormatOk(f)
  {
    (b: Bytes) => FrameHead(f, b)
  }

  lemma FrameStable<M>(f: Format<M>)
    requires FormatOk(f)
    ensures Stable(FrameDecoder(f)) && Drain(FrameDecoder(f), []) == ([], [])
  {
    var p := FrameDecoder(f);
    forall b: Bytes, x: Bytes | !p(b).More?
      ensures p(b + x) == p(b)
    {
      assert (b + x)[..4] == b[..4];
      var len := I32(b[..4]);
      if f.minLen <= len <= MAX_MESSAGE_LEN {
        assert (b + x)[4..4 + len] == b[4..4 + len];
      }
    }
  }

  lemma BodyParses<M>(f: Format<M>, m: M)
    requires Good(f, m)
    ensures ParseBody(f, Body(f, m)) == NoError(m)
  {
    var w, body := f.write(m), Body(f, m);
    var n := |body| - HEADER_LEN;
    assert body[..n] == w && body[n..] == Be32(CheckSum(w));
  }

  lemma FrameDecodes<M(!new)>(f: Format<M>)
    requires FormatOk(f)
    ensures Decodes(FrameDecoder(f), (m: M) => EncodeFrame(f, m), (m: M) => Good(f, m))
  {
    forall m: M, x: Bytes | Good(f, m)
      ensures FrameHead(f, EncodeFrame(f, m) + x) == Got(m, |EncodeFrame(f, m)|)
    {
      var body := Body(f, m);
      var len := |body|;
      var b := EncodeFrame(f, m) + x;
      Be32RoundTrip(len);
      assert b[..4] == Be32(len);
      assert b[4..4 + len] == body;
      BodyParses(f, m);
    }
  }

  /** Any messages within the length limit, framed and cut by TCP anywhere, are delivered once
      each, in order and unchanged; only an incomplete frame stays in the buffer. */
  lemma FramesRoundTrip<M(!new)>(f: Format<M>, ms: seq<M>, tail: Bytes, chunks: seq<Bytes>)
    requires FormatOk(f) && forall i :: 0 <= i < |ms| ==> Good(f, ms[i])
    requires FrameHead(f, tail).More?
    requires Concat(chunks) == EncodeAll((m: M) => EncodeFrame(f, m), ms) + tail
    ensures Feed(FrameDecoder(f), [], chunks) == (ms, tail)
  {
    FrameStable(f);
    FrameDecodes(f);
    var p := FrameDecoder(f);
    assert p(tail).More?;
    StreamRoundTrip(p, (m: M) => EncodeFrame(f, m), (m: M) => Good(f, m), ms, tail, chunks);
  }

  /** Changing any single byte of a frame body, of the content or of the checksum, is reported. */
  lemma OneByteDetected<M>(f: Format<M>, m: M, i: nat, v: Byte)
    requires i < |Body(f, m)| && v != Body(f, m)[i]
    ensures ParseBody(f, Body(f, m)[i := v]) == CheckSumError
  {
    var w, body := f.write(m), Body(f, m);
    var n := |w|;
    var bad := body[i := v];
    if i < n {
      assert bad[..n] == w[i := v] && bad[n..] == Be32(CheckSum(w));
      OneByteChangesCheckSum(w, i, v);
      Be32RoundTrip(CheckSum(w));
      Be32RoundTrip(CheckSum(w[i := v]));
    } else {
      assert bad[..n] == w;
      assert body[n..] == Be32(CheckSum(w)) && bad[n..] == body[n..][i - n := v];
      if U32(bad[n..]) == U32(body[n..]) {
        U32Injective(bad[n..], body[n..]);
      }
    }
  }

  /** Where everything is: the length of the body in network byte order, the content, and the checksum
      of the content in network byte order. */
  lemma FrameLayout<M>(f: Format<M>, m: M)
    requires |f.write(m)| + HEADER_LEN < 0x8000_0000
    ensures var b, w := EncodeFrame(f, m), f.write(m);
      var n := |w|;
      && |b| == n + 8
      && b[0] as int * 0x100_0000 + b[1] as int * 0x1_0000 + b[2] as int * 0x100 + b[3] == n + 4
      && b[4..4 + n] == w
      && b[4 + n] as int * 0x100_0000 + b[5 + n] as int * 0x1_0000 + b[6 + n] as int * 0x100 + b[7 + n] == CheckSum(w)
  {
    var w := f.write(m);
    Be32RoundTrip(|w| + 4);
    Be32RoundTrip(CheckSum(w));
    var b, n := EncodeFrame(f, m), |w|;
    assert b[..4] == Be32(n + 4) && b[4 + n..] == Be32(CheckSum(w));
    assert b[4 + n] == Be32(CheckSum(w))[0] && b[5 + n] == Be32(CheckSum(w))[1];
    assert b[6 + n] == Be32(CheckSum(w))[2] && b[7 + n] == Be32(CheckSum(w))[3];
  }

  // ----- the receiving loop

  /** One turn of the loop: leave it, or go round again with this buffer.  A rejected frame is
      reported but neither removed nor followed by leaving the loop. */
  datatype Turn = Leave | Again(b: Bytes)

  function OneTurn<M>(f: Format<M>, b: Bytes): (t: Turn)
    requires FormatOk(f)
  {
    match FrameHead(f, b)
    case More => Leave
    case Reject => Again(b)
    case Got(_, n) => if n <= |b| then Again(b[n..]) else Leave
  }

  predicate LeavesWithin<M>(f: Format<M>, b: Bytes, turns: nat)
    requires FormatOk(f)
    decreases turns
  {
    turns > 0 && (OneTurn(f, b).Leave? || LeavesWithin(f, OneTurn(f, b).b, turns - 1))
  }

  ghost predicate Terminates<M>(f: Format<M>, b: Bytes)
    requires FormatOk(f)
  {
    exists turns: nat :: LeavesWithin(f, b, turns)
  }

  lemma {:induction false} StuckForever<M>(f: Format<M>, b: Bytes, turns: nat)
    requires FormatOk(f) && FrameHead(f, b).Reject?
    ensures !LeavesWithin(f, b, turns)
  {
    if turns > 0 {
      StuckForever(f, b, turns - 1);
    }
  }

  lemma {:induction false} LoopLeaves<M>(f: Format<M>, b: Bytes) returns (turns: nat)
    requires FormatOk(f) && !FrameHead(f, Drain(FrameDecoder(f), b).1).Reject?
    ensures LeavesWithin(f, b, turns)
    decreases |b|
  {
    FrameStable(f);
    var p := FrameDecoder(f);
    var h := p(b);
    if h.Got? {
      var t := LoopLeaves(f, b[h.used..]);
      turns := t + 1;
    } else {
      turns := 1;
    }
  }

  lemma {:induction false} LoopSpins<M>(f: Format<M>, b: Bytes, turns: nat)
    requires FormatOk(f) && FrameHead(f, Drain(FrameDecoder(f), b).1).Reject?
    ensures !LeavesWithin(f, b, turns)
    decreases turns
  {
    FrameStable(f);
    var p := FrameDecoder(f);
    var h := p(b);
    if turns > 0 {
      if h.Got? {
        LoopSpins(f, b[h.used..], turns - 1);
      } else {
        StuckForever(f, b, turns);
      }
    }
  }

  lemma SpinsIffDrainRejects<M>(f: Format<M>, b: Bytes)
    requires FormatOk(f)
    ensures Terminates(f, b) <==> !FrameHead(f, Drain(FrameDecoder(f), b).1).Reject?
  {
    if FrameHead(f, Drain(FrameDecoder(f), b).1).Reject? {
      forall turns: nat
        ensures !LeavesWithin(f, b, turns)
      {
        LoopSpins(f, b, turns);
      }
    } else {
      var turns := LoopLeaves(f, b);
    }
  }

  /** The first `n` bytes of `b` are acceptable frames. */
  predicate Boundary<M>(f: Format<M>, b: Bytes, n: nat)
    requires FormatOk(f)
    decreases n
  {
    n == 0 ||
    match FrameHead(f, b)
    case Got(_, used) => 0 < used <= n && used <= |b| && Boundary(f, b[used..], n - used)
    case More => false
    case Reject => false
  }

  lemma BoundaryNext<M>(f: Format<M>, b: Bytes, used: nat, k: nat)
    requires FormatOk(f) && FrameHead(f, b).Got? && FrameHead(f, b).used == used && 0 < used <= |b|
    requires Boundary(f, b[used..], k)
    ensures Boundary(f, b, used + k)
  {
  }

  lemma {:induction false} DrainIsBoundary<M>(f: Format<M>, b: Bytes) returns (n: nat)
    requires FormatOk(f)
    ensures n <= |b| && Boundary(f, b, n) && b[n..] == Drain(FrameDecoder(f), b).1
    decreases |b|
  {
    FrameStable(f);
    var p := FrameDecoder(f);
    var h := p(b);
    n := 0;
    if h.Got? {
      var k := DrainIsBoundary(f, b[h.used..]);
      TailOfTail(b, h.used, k);
      BoundaryNext(f, b, h.used, k);
      n := h.used + k;
    } else {
      assert b[0..] == b;
    }
  }

  lemma TailOfTail(b: Bytes, n: nat, k: nat)
    requires n + k <= |b|
    ensures b[n..][k..] == b[n + k..]
  {
  }

  lemma {:induction false} RejectStopsDrain<M>(f: Format<M>, p: Decoder<M>, b: Bytes, n: nat)
    requires FormatOk(f) && p == FrameDecoder(f) && n <= |b| && Boundary(f, b, n) && FrameHead(f, b[n..]).Reject?
    ensures Drain(p, b).1 == b[n..]
    decreases n
  {
    var h := p(b);
    if n > 0 {
      TailOfTail(b, h.used, n - h.used);
      RejectStopsDrain(f, p, b[h.used..], n - h.used);
      DrainGot(p, b, h.msg, h.used);
    } else {
      assert b[0..] == b;
      DrainNothing(p, b);
    }
  }

  /** The receiving loop terminates if and only if the buffer is not some acceptable frames with a
      frame behind them that is rejected. */
  lemma TerminatesIffNothingRejected<M>(f: Format<M>, b: Bytes)
    requires FormatOk(f)
    ensures Terminates(f, b) <==> !exists n: nat :: n <= |b| && Boundary(f, b, n) && FrameHead(f, b[n..]).Reject?
  {
    SpinsIffDrainRejects(f, b);
    var k := DrainIsBoundary(f, b);
    if n: nat :| n <= |b| && Boundary(f, b, n) && FrameHead(f, b[n..]).Reject? {
      RejectStopsDrain(f, FrameDecoder(f), b, n);
    }
  }

  lemma CorruptFrameRejected<M>(f: Format<M>, m: M, i: nat, v: Byte, x: Bytes)
    requires FormatOk(f) && Good(f, m) && i < |Body(f, m)| && v != Body(f, m)[i]
    ensures FrameHead(f, Be32(|Body(f, m)|) + Body(f, m)[i := v] + x).Reject?
  {
    var bad := Body(f, m)[i := v];
    var len := |bad|;
    var b := Be32(len) + bad + x;
    Be32RoundTrip(len);
    assert b[..4] == Be32(len) && b[4..4 + len] == bad;
    OneByteDetected(f, m, i, v);
  }

  /** Any message with one corrupted byte in its frame makes the loop spin, wherever it comes in the
      stream and whatever follows it. */
  lemma CorruptFrameSpins<M(!new)>(f: Format<M>, ms: seq<M>, m: M, i: nat, v: Byte, x: Bytes)
    requires FormatOk(f) && (forall k :: 0 <= k < |ms| ==> Good(f, ms[k]))
    requires Good(f, m) && i < |Body(f, m)| && v != Body(f, m)[i]
    ensures !Terminates(f, EncodeAll((m: M) => EncodeFrame(f, m), ms) + (Be32(|Body(f, m)|) + Body(f, m)[i := v] + x))
  {
    var p, bad := FrameDecoder(f), Be32(|Body(f, m)|) + Body(f, m)[i := v] + x;
    var enc := (m: M) => EncodeFrame(f, m);
    FrameStable(f);
    FrameDecodes(f);
    CorruptFrameRejected(f, m, i, v, x);
    assert p(bad).Reject?;
    DrainEncodedExact(p, enc, (m: M) => Good(f, m), ms, bad);
    SpinsIffDrainRejects(f, EncodeAll(enc, ms) + bad);
  }

  lemma LengthRejected<M>(f: Format<M>, len: int, x: Bytes)
    requires FormatOk(f) && -0x8000_0000 <= len < 0x8000_0000 && (len < f.minLen || len > MAX_MESSAGE_LEN) && |x| >= f.minLen
    ensures FrameHead(f, Be32(if len < 0 then len + 0x1_0000_0000 else len) + x).Reject?
  {
    var n := if len < 0 then len + 0x1_0000_0000 else len;
    Be32RoundTrip(n);
    assert (Be32(n) + x)[..4] == Be32(n);
  }

  /** Any length outside the limits, negative ones included, makes the loop spin as soon as it has
      enough bytes to look at it. */
  lemma BadLengthSpins<M(!new)>(f: Format<M>, ms: seq<M>, len: int, x: Bytes)
    requires FormatOk(f) && forall k :: 0 <= k < |ms| ==> Good(f, ms[k])
    requires -0x8000_0000 <= len < 0x8000_0000 && (len < f.minLen || len > MAX_MESSAGE_LEN) && |x| >= f.minLen
    ensures !Terminates(f, EncodeAll((m: M) => EncodeFrame(f, m), ms) + (Be32(if len < 0 then len + 0x1_0000_0000 else len) + x))
  {
    var p, bad := FrameDecoder(f), Be32(if len < 0 then len + 0x1_0000_0000 else len) + x;
    var enc := (m: M) => EncodeFrame(f, m);
    FrameStable(f);
    FrameDecodes(f);
    LengthRejected(f, len, x);
    assert p(bad).Reject?;
    DrainEncodedExact(p, enc, (m: M) => Good(f, m), ms, bad);
    SpinsIffDrainRejects(f, EncodeAll(enc, ms) + bad);
  }

  /** The receiving loop.  `stuck` means that the original goes round for ever on a rejected frame. */
  method OnMessage<M>(f: Format<M>, buf: Buffer) returns (delivered: seq<M>, stuck: bool)
    requires FormatOk(f)
    modifies buf
    ensures Drain(FrameDecoder(f), old(buf.data)) == (delivered, buf.data)
    ensures stuck <==> !Terminates(f, old(buf.data))
  {
    delivered, stuck := [], false;
    ghost var whole, p := buf.data, FrameDecoder(f);
    DrainStart(p, whole);
    while |buf.data| >= f.minLen + HEADER_LEN
      invariant Draining(p, whole, delivered, buf.data) && !stuck
      invariant forall b: Bytes {:trigger p(b)} :: p(b) == FrameHead(f, b)
      decreases |buf.data|
    {
      var len := I32(buf.data[..4]);
      if len > MAX_MESSAGE_LEN || len < f.minLen {
        stuck := true;
        break;
      } else if |buf.data| >= len + HEADER_LEN {
        match ParseBody(f, buf.data[4..4 + len]) {
          case NoError(m) =>
            assert p(buf.data) == Got(m, len + HEADER_LEN);
            DrainStep(p, whole, delivered, buf.data, m, len + HEADER_LEN);
            delivered := delivered + [m];
            buf.Retrieve(len + HEADER_LEN);
          case _ =>
            stuck := true;
            break;
        }
      } else {
        break;
      }
    }
    assert stuck == p(buf.data).Reject? && !p(buf.data).Got?;
    DrainEnd(p, whole, delivered, buf.data);
    SpinsIffDrainRejects(f, whole);
  }

  /** Building a frame in an empty buffer: content, checksum behind it, length in front. */
  method FillEmptyBuffer<M>(f: Format<M>, m: M, buf: Buffer)
    requires buf.data == []
    modifies buf
    ensures buf.data == EncodeFrame(f, m)
  {
    buf.Append(f.write(m));
    assert buf.data == f.write(m);
    var checkSum := CheckSum(buf.data);
    buf.Append(Be32(checkSum));
    var len := |buf.data|;
    buf.Prepend(Be32(len));
  }

  // ----- the two contents

  /** What protobuf provides: names, serialisation, and its inverse for the types it knows. */
  datatype Schema<!M> = Schema(typeName: M -> Bytes, serialize: M -> Bytes, known: Bytes -> bool, parse: (Bytes, Bytes) -> Option<M>)

  ghost predicate Knows<M>(sc: Schema<M>, m: M) {
    && sc.typeName(m) != [] && sc.known(sc.typeName(m))
    && sc.parse(sc.typeName(m), sc.serialize(m)) == Some(m)
  }

  /** Name length (with the terminating zero), name, zero, serialised message. */
  function WriteNamed<M>(sc: Schema<M>, m: M): (b: Bytes) {
    Be32(|sc.typeName(m)| + 1) + sc.typeName(m) + [0] + sc.serialize(m)
  }

  function ReadNamed<M>(sc: Schema<M>, b: Bytes): (r: Result<M>) {
    if |b| < HEADER_LEN then InvalidNameLen
    else
      var nameLen := I32(b[..4]);
      if 2 <= nameLen <= |b| - HEADER_LEN then
        var name := b[4..4 + nameLen - 1];
        if sc.known(name) then
          match sc.parse(name, b[4 + nameLen..])
          case Some(m) => NoError(m)
          case None => ParseError
        else UnknownMessageType
      else InvalidNameLen
  }

  function ProtobufFormat<M>(sc: Schema<M>): (f: Format<M>) {
    Format(2 * HEADER_LEN + 2, (m: M) => WriteNamed(sc, m), (b: Bytes) => ReadNamed(sc, b))
  }

  function RpcFormat<M>(sc: Schema<M>): (f: Format<M>) {
    Format(2 * HEADER_LEN, (m: M) => WriteRpc(sc, m), (b: Bytes) => ReadRpc(sc, b))
  }

  function WriteRpc<M>(sc: Schema<M>, m: M): (b: Bytes) {
    Text("RPC0") + sc.serialize(m)
  }

  function ReadRpc<M>(sc: Schema<M>, b: Bytes): (r: Result<M>) {
    if |b| < HEADER_LEN || b[..4] != Text("RPC0") then UnknownMessageType
    else
      match sc.parse(Text("RpcMessage"), b[4..])
      case Some(m) => NoError(m)
      case None => ParseError
  }

  /** Every message of a known type that fits is delivered by the message codec. */
  lemma ProtobufGood<M>(sc: Schema<M>, m: M)
    requires Knows(sc, m) && |WriteNamed(sc, m)| + HEADER_LEN <= MAX_MESSAGE_LEN
    ensures FormatOk(ProtobufFormat(sc)) && Good(ProtobufFormat(sc), m)
  {
    var name, data := sc.typeName(m), sc.serialize(m);
    var b, nameLen := WriteNamed(sc, m), |name| + 1;
    Be32RoundTrip(nameLen);
    assert b[..4] == Be32(nameLen);
    assert b[4..4 + nameLen - 1] == name;
    assert b[4 + nameLen..] == data;
  }

  /** Every RPC message that fits is delivered by the RPC codec. */
  lemma RpcGood<M>(sc: Schema<M>, m: M)
    requires Knows(sc, m) && sc.typeName(m) == Text("RpcMessage") && |WriteRpc(sc, m)| + HEADER_LEN <= MAX_MESSAGE_LEN
    ensures FormatOk(RpcFormat(sc)) && Good(RpcFormat(sc), m)
  {
    var b := WriteRpc(sc, m);
    assert b[..4] == Text("RPC0") && b[4..] == sc.serialize(m);
  }

  /** Content of the message codec: the length of the name with the byte behind it, the name, that
      byte, and the data. */
  ghost predicate Named(b: Bytes, name: Bytes, data: Bytes) {
    |name| >= 1 && |b| == 4 + |name| + 1 + |data| && |b| < 0x8000_0000
    && b[..4] == Be32(|name| + 1) && b[4..4 + |name|] == name && b[4 + |name| + 1..] == data
  }

  /** What the message codec makes of content: the result follows the name and the data, and it is an
      invalid name length exactly if there are none. */
  lemma NamedResult<M>(sc: Schema<M>, b: Bytes, name: Bytes, data: Bytes)
    requires Named(b, name, data)
    ensures ReadNamed(sc, b) ==
      if !sc.known(name) then UnknownMessageType
      else match sc.parse(name, data) case Some(m) => NoError(m) case None => ParseError
  {
    Be32RoundTrip(|name| + 1);
  }

  lemma InvalidNameIff<M>(sc: Schema<M>, b: Bytes)
    requires |b| < 0x8000_0000
    ensures ReadNamed(sc, b) == InvalidNameLen <==> forall name, data :: !Named(b, name, data)
  {
    if ReadNamed(sc, b) == InvalidNameLen {
      forall name, data
        ensures !Named(b, name, data)
      {
        if Named(b, name, data) {
          NamedResult(sc, b, name, data);
        }
      }
    } else {
      var n := I32(b[..4]);
      Be32RoundTrip(n);
      U32Injective(Be32(n), b[..4]);
      assert Named(b, b[4..4 + n - 1], b[4 + n..]);
    }
  }

  /** Content of the RPC codec is accepted exactly if it is the tag and data that can be parsed. */
  lemma RpcResult<M>(sc: Schema<M>, b: Bytes)
    requires |b| >= 4
    ensures ReadRpc(sc, b) == UnknownMessageType <==> !(b[0] == 82 && b[1] == 80 && b[2] == 67 && b[3] == 48)
    ensures ReadRpc(sc, b) == ParseError <==> b[0] == 82 && b[1] == 80 && b[2] == 67 && b[3] == 48 && sc.parse(Text("RpcMessage"), b[4..]) == None
    ensures forall m :: ReadRpc(sc, b) == NoError(m) <==>
      b[0] == 82 && b[1] == 80 && b[2] == 67 && b[3] == 48 && sc.parse(Text("RpcMessage"), b[4..]) == Some(m)
  {
    var tag := Text("RPC0");
    assert tag[0] == 82 && tag[1] == 80 && tag[2] == 67 && tag[3] == 48;
    assert b[..4] == tag <==> b[0] == tag[0] && b[1] == tag[1] && b[2] == tag[2] && b[3] == tag[3];
  }
}

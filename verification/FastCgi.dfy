/** The FastCGI codec: records (section 3.3 of the FastCGI Specification 1.0), name-value pairs
    (section 3.4), and the request they add up to. */
module FastCgi {
  import opened Basics
  import opened Streams
  import opened Frames

  const RECORD_HEADER := 8
  const BEGIN_REQUEST: Byte := 1
  const END_REQUEST: Byte := 3
  const PARAMS: Byte := 4
  const STDIN: Byte := 5
  const STDOUT: Byte := 6
  const RESPONDER := 1
  const KEEP_CONN: Byte := 1

  // ----- records

  datatype Record = Record(kind: Byte, content: Bytes)

  function U16(hi: Byte, lo: Byte): (n: int)
    ensures 0 <= n < 65536
  {
    hi as int * 256 + lo as int
  }

  function RecordHead(b: Bytes): (h: Head<Record>) {
    if |b| < RECORD_HEADER then More
    else
      var length, padding := U16(b[4], b[5]), b[6];
      var total := RECORD_HEADER + length + padding;
      if |b| >= total then Got(Record(b[1], b[RECORD_HEADER..RECORD_HEADER + length]), total) else More
  }

  /** A record on the wire: version 1, any request id, any padding. */
  function EncodeRecord(r: Record, id: nat, padding: Bytes): (b: Bytes) {
    [1, r.kind, id / 256 % 256, id % 256, |r.content| / 256 % 256, |r.content| % 256, |padding| % 256, 0]
    + r.content + padding
  }

  /** The fields of section 3.3: version, type, request id, content length, padding length, reserved. */
  lemma RecordLayout(r: Record, id: nat, padding: Bytes)
    requires |r.content| < 65536 && |padding| < 256 && id < 65536
    ensures var b := EncodeRecord(r, id, padding);
      && |b| == 8 + |r.content| + |padding|
      && b[0] == 1 && b[1] == r.kind && b[2] as int * 256 + b[3] == id
      && b[4] as int * 256 + b[5] == |r.content| && b[6] == |padding| && b[7] == 0
      && b[8..8 + |r.content|] == r.content && b[8 + |r.content|..] == padding
  {
    var n := |r.content|;
    assert n / 256 * 256 + n % 256 == n && id / 256 * 256 + id % 256 == id;
  }

  lemma RecordHeadStable()
    ensures Stable(RecordHead) && Drain(RecordHead, []) == ([], [])
  {
    forall b: Bytes, x: Bytes | RecordHead(b).Got?
      ensures RecordHead(b + x) == RecordHead(b)
    {
      var length := U16(b[4], b[5]);
      assert (b + x)[RECORD_HEADER..RECORD_HEADER + length] == b[RECORD_HEADER..RECORD_HEADER + length];
    }
  }

  lemma RecordDecodes(r: Record, id: nat, padding: Bytes, x: Bytes)
    requires |r.content| < 65536 && |padding| < 256
    ensures RecordHead(EncodeRecord(r, id, padding) + x) == Got(r, |EncodeRecord(r, id, padding)|)
  {
    var b, n := EncodeRecord(r, id, padding) + x, |r.content|;
    assert n / 256 * 256 + n % 256 == n;
    assert b[1] == r.kind && b[4] == n / 256 && b[5] == n % 256 && b[6] == |padding|;
    assert b[RECORD_HEADER..RECORD_HEADER + n] == r.content;
  }

  // ----- name-value pairs

  const TWO31 := 0x8000_0000
  const TWO32 := 0x1_0000_0000

  /** A length at the head of the stream: one byte below 128, or four with the top bit set. */
  function ReadLen(s: Bytes): (r: Option<(int, Bytes)>)
    ensures r.Some? ==> 0 <= r.value.0 < TWO31 && |r.value.1| < |s|
  {
    if |s| >= 1 then
      if s[0] >= 128 then
        if |s| >= 4 then Some((U32(s[..4]) % TWO31, s[4..])) else None
      else Some((s[0], s[1..]))
    else None
  }

  type ParamMap = map<Bytes, Bytes>

  /** The parser's state after reading the stream: what is left, the map, whether it succeeded. */
  function ParseAll(s: Bytes, params: ParamMap): (r: (Bytes, ParamMap, bool))
    decreases |s|
  {
    if s == [] then (s, params, true)
    else
      match ReadLen(s)
      case None => (s, params, false)
      case Some((nameLen, s1)) =>
        match ReadLen(s1)
        case None => (s1, params, false)
        case Some((valueLen, s2)) =>
          if |s2| >= (nameLen + valueLen) % TWO32 then
            LengthsDoNotWrap(nameLen, valueLen);
            ParseAll(s2[nameLen + valueLen..], params[s2[..nameLen] := s2[nameLen..nameLen + valueLen]])
          else (s2, params, false)
  }

  /** Two lengths never add up to more than 32 bits hold, and none is the error value. */
  lemma LengthsDoNotWrap(n: int, v: int)
    requires 0 <= n < TWO31 && 0 <= v < TWO31
    ensures (n + v) % TWO32 == n + v && n != TWO32 - 1 && v != TWO32 - 1
  {
  }

  /** A pair, and whether each length is written in four bytes although one would do. */
  datatype Pair = Pair(name: Bytes, value: Bytes, longName: bool, longValue: bool)

  ghost predicate PairOk(p: Pair) {
    |p.name| < TWO31 && |p.value| < TWO31
  }

  function EncodeLen(n: nat, long: bool): (b: Bytes) {
    if n < 128 && !long then [n] else Be32(n + TWO31)
  }

  function EncodePair(p: Pair): (b: Bytes) {
    EncodeLen(|p.name|, p.longName) + (EncodeLen(|p.value|, p.longValue) + (p.name + p.value))
  }

  function EncodePairs(ps: seq<Pair>): (b: Bytes) {
    if ps == [] then [] else EncodePair(ps[0]) + EncodePairs(ps[1..])
  }

  function LastWins(params: ParamMap, ps: seq<Pair>): (m: ParamMap)
    decreases |ps|
  {
    if ps == [] then params else LastWins(params[ps[0].name := ps[0].value], ps[1..])
  }

  /** Pair `i` is the last one with its name. */
  ghost predicate IsLast(ps: seq<Pair>, i: nat) {
    i < |ps| && forall j :: i < j < |ps| ==> ps[j].name != ps[i].name
  }

  /** The names are those there were and those of the pairs; the value of a pair's name is that of
      the last pair with the name, and other values stay. */
  lemma {:induction false} LastWinsMeaning(params: ParamMap, ps: seq<Pair>, n: Bytes)
    ensures n in LastWins(params, ps) <==> n in params || exists i :: 0 <= i < |ps| && ps[i].name == n
    ensures forall i: nat :: IsLast(ps, i) && ps[i].name == n ==> n in LastWins(params, ps) && LastWins(params, ps)[n] == ps[i].value
    ensures (forall i :: 0 <= i < |ps| ==> ps[i].name != n) && n in params ==> LastWins(params, ps)[n] == params[n]
    decreases |ps|
  {
    if ps != [] {
      var params', rest := params[ps[0].name := ps[0].value], ps[1..];
      LastWinsMeaning(params', rest, n);
      if i :| 0 <= i < |rest| && rest[i].name == n {
        assert ps[i + 1].name == n;
      }
      forall i: nat | IsLast(ps, i) && ps[i].name == n
        ensures n in LastWins(params, ps) && LastWins(params, ps)[n] == ps[i].value
      {
        assert forall j :: 0 <= j < |rest| ==> rest[j] == ps[j + 1];
        assert i > 0 ==> IsLast(rest, i - 1);
      }
    }
  }

  lemma ReadLenEncoded(n: nat, long: bool, x: Bytes)
    requires n < TWO31
    ensures ReadLen(EncodeLen(n, long) + x) == Some((n, x))
  {
    var b := EncodeLen(n, long) + x;
    if n < 128 && !long {
      assert b[0] == n && b[1..] == x;
    } else {
      Be32RoundTrip(n + TWO31);
      assert b[..4] == Be32(n + TWO31) && b[4..] == x;
      TopBit(n);
      assert b[0] == Be32(n + TWO31)[0];
    }
  }

  lemma TopBit(n: nat)
    requires n < TWO31
    ensures Be32(n + TWO31)[0] >= 128 && (n + TWO31) % TWO31 == n
  {
    var q := (n + TWO31) / 0x100_0000;
    assert 128 <= q < 256;
  }

  lemma ParseLengths(s: Bytes, s1: Bytes, s2: Bytes, n: nat, v: nat, params: ParamMap)
    requires s != [] && ReadLen(s) == Some((n, s1)) && ReadLen(s1) == Some((v, s2))
    requires n < TWO31 && v < TWO31 && n + v <= |s2|
    ensures ParseAll(s, params) == ParseAll(s2[n + v..], params[s2[..n] := s2[n..n + v]])
  {
    LengthsDoNotWrap(n, v);
  }

  lemma PairParts(p: Pair, rest: Bytes)
    ensures var s2 := p.name + p.value + rest;
      && EncodePair(p) + rest == EncodeLen(|p.name|, p.longName) + (EncodeLen(|p.value|, p.longValue) + s2)
      && s2[..|p.name|] == p.name && s2[|p.name|..|p.name| + |p.value|] == p.value && s2[|p.name| + |p.value|..] == rest
  {
  }

  lemma ParseOnePair(p: Pair, rest: Bytes, params: ParamMap)
    requires PairOk(p)
    ensures ParseAll(EncodePair(p) + rest, params) == ParseAll(rest, params[p.name := p.value])
  {
    var n, v := |p.name|, |p.value|;
    var s2 := p.name + p.value + rest;
    var s1 := EncodeLen(v, p.longValue) + s2;
    PairParts(p, rest);
    ReadLenEncoded(n, p.longName, s1);
    ReadLenEncoded(v, p.longValue, s2);
    ParseLengths(EncodePair(p) + rest, s1, s2, n, v, params);
  }

  /** Any list of pairs, with short or long lengths, decodes to the map in which the last value of
      a name wins. */
  lemma {:induction false} PairsRoundTrip(ps: seq<Pair>, params: ParamMap)
    requires forall i :: 0 <= i < |ps| ==> PairOk(ps[i])
    ensures ParseAll(EncodePairs(ps), params) == ([], LastWins(params, ps), true)
  {
    if ps != [] {
      ParseOnePair(ps[0], EncodePairs(ps[1..]), params);
      PairsRoundTrip(ps[1..], params[ps[0].name := ps[0].value]);
    }
  }

  // ----- streams that are not pairs

  lemma ReadLenIs(s: Bytes)
    requires ReadLen(s).Some?
    ensures var (n, s1) := ReadLen(s).value; n < TWO31 && s == EncodeLen(n, s[0] >= 128) + s1
  {
    if s[0] >= 128 {
      var h := s[..4];
      TopBitIs(h);
      Be32RoundTrip(U32(h));
      U32Injective(Be32(U32(h)), h);
      assert s == h + s[4..];
    } else {
      assert s == [s[0]] + s[1..];
    }
  }

  lemma TopBitIs(h: Bytes)
    requires |h| == 4 && h[0] >= 128
    ensures TWO31 <= U32(h) < TWO32 && U32(h) % TWO31 + TWO31 == U32(h)
  {
  }

  ghost predicate StartsWithPair(s: Bytes) {
    exists p: Pair, rest: Bytes :: PairOk(p) && s == EncodePair(p) + rest
  }

  lemma NoPair(s: Bytes)
    requires ReadLen(s) == None || ReadLen(ReadLen(s).value.1) == None
             || |ReadLen(ReadLen(s).value.1).value.1| < ReadLen(s).value.0 + ReadLen(ReadLen(s).value.1).value.0
    ensures !StartsWithPair(s)
  {
    forall p: Pair, rest: Bytes | PairOk(p) && s == EncodePair(p) + rest
      ensures false
    {
      var s2 := p.name + p.value + rest;
      PairParts(p, rest);
      ReadLenEncoded(|p.name|, p.longName, EncodeLen(|p.value|, p.longValue) + s2);
      ReadLenEncoded(|p.value|, p.longValue, s2);
    }
  }

  lemma HeadPair(s: Bytes, s1: Bytes, s2: Bytes, n: nat, v: nat) returns (p: Pair)
    requires s != [] && ReadLen(s) == Some((n, s1)) && ReadLen(s1) == Some((v, s2)) && n + v <= |s2|
    ensures PairOk(p) && s == EncodePair(p) + s2[n + v..] && p.name == s2[..n] && p.value == s2[n..n + v]
  {
    ReadLenIs(s);
    ReadLenIs(s1);
    p := Pair(s2[..n], s2[n..n + v], s[0] >= 128, s1[0] >= 128);
    ThreeParts(s2, n, v);
    PairParts(p, s2[n + v..]);
  }

  lemma ThreeParts(s: Bytes, n: nat, v: nat)
    requires n + v <= |s|
    ensures s == s[..n] + s[n..n + v] + s[n + v..] && |s[..n]| == n && |s[n..n + v]| == v
  {
  }

  ghost predicate IsSuffix(a: Bytes, b: Bytes) {
    exists k :: 0 <= k <= |b| && a == b[k..]
  }

  lemma SuffixOf(a: Bytes, b: Bytes, k: nat)
    requires k <= |b| && a == b[k..]
    ensures IsSuffix(a, b)
  {
  }

  lemma LenSuffix(s: Bytes)
    requires ReadLen(s).Some?
    ensures IsSuffix(ReadLen(s).value.1, s)
  {
    SuffixOf(ReadLen(s).value.1, s, if s[0] >= 128 then 4 else 1);
  }

  lemma SuffixTransitive(a: Bytes, b: Bytes, c: Bytes)
    requires IsSuffix(a, b) && IsSuffix(b, c)
    ensures IsSuffix(a, c)
  {
    var i :| 0 <= i <= |b| && a == b[i..];
    var j :| 0 <= j <= |c| && b == c[j..];
    TailOfTail(c, j, i);
    SuffixOf(a, c, j + i);
  }

  /** What parsing a stream of pairs `ps` and a tail comes to. */
  ghost predicate Parsed(s: Bytes, params: ParamMap, ps: seq<Pair>, tail: Bytes) {
    && (forall i :: 0 <= i < |ps| ==> PairOk(ps[i])) && s == EncodePairs(ps) + tail && !StartsWithPair(tail)
    && var (left, m, ok) := ParseAll(s, params);
      m == LastWins(params, ps) && (ok <==> tail == []) && IsSuffix(left, tail)
  }

  lemma ParsesNothing(s: Bytes, params: ParamMap)
    requires !StartsWithPair(s) && ParseAll(s, params).1 == params && (ParseAll(s, params).2 <==> s == []) && IsSuffix(ParseAll(s, params).0, s)
    ensures Parsed(s, params, [], s)
  {
    assert EncodePairs([]) + s == s;
  }

  lemma ParsesPair(s: Bytes, params: ParamMap, p: Pair, rest: Bytes, ps: seq<Pair>, tail: Bytes)
    requires PairOk(p) && s == EncodePair(p) + rest && Parsed(rest, params[p.name := p.value], ps, tail)
    ensures Parsed(s, params, [p] + ps, tail)
  {
    ParseOnePair(p, rest, params);
    var all := [p] + ps;
    assert all[0] == p && all[1..] == ps;
    assert EncodePairs(all) + tail == EncodePair(p) + (EncodePairs(ps) + tail);
  }

  lemma NoName(s: Bytes, params: ParamMap)
    requires s != [] && ReadLen(s) == None
    ensures Parsed(s, params, [], s)
  {
    NoPair(s);
    SuffixOf(s, s, 0);
    ParsesNothing(s, params);
  }

  lemma NoValue(s: Bytes, params: ParamMap, s1: Bytes, n: nat)
    requires s != [] && ReadLen(s) == Some((n, s1)) && ReadLen(s1) == None
    ensures Parsed(s, params, [], s)
  {
    NoPair(s);
    LenSuffix(s);
    ParsesNothing(s, params);
  }

  lemma TooShort(s: Bytes, params: ParamMap, s1: Bytes, s2: Bytes, n: nat, v: nat)
    requires s != [] && ReadLen(s) == Some((n, s1)) && ReadLen(s1) == Some((v, s2)) && |s2| < n + v
    ensures Parsed(s, params, [], s)
  {
    NoPair(s);
    LenSuffix(s);
    LenSuffix(s1);
    SuffixTransitive(s2, s1, s);
    LengthsDoNotWrap(n, v);
    assert ParseAll(s, params) == (s2, params, false);
    ParsesNothing(s, params);
  }

  /** Any stream whatsoever is some pairs and a tail that does not start with a pair.  The parser puts
      the pairs into the map, and succeeds if and only if the tail is empty. */
  lemma {:induction false} ParseMeaning(s: Bytes, params: ParamMap) returns (ps: seq<Pair>, tail: Bytes)
    ensures Parsed(s, params, ps, tail)
    decreases |s|
  {
    ps, tail := [], s;
    if s == [] {
      NoPair(s);
      SuffixOf([], [], 0);
      ParsesNothing(s, params);
    } else if ReadLen(s) == None {
      NoName(s, params);
    } else {
      var (n, s1) := ReadLen(s).value;
      if ReadLen(s1) == None {
        NoValue(s, params, s1, n);
      } else {
        var (v, s2) := ReadLen(s1).value;
        if |s2| < n + v {
          TooShort(s, params, s1, s2, n, v);
        } else {
          var p := HeadPair(s, s1, s2, n, v);
          ps, tail := ParseMeaning(s2[n + v..], params[p.name := p.value]);
          ParsesPair(s, params, p, s2[n + v..], ps, tail);
          ps := [p] + ps;
        }
      }
    }
  }

  // ----- the codec's state

  datatype Codec = Codec(gotRequest: bool, keepConn: bool, stdin: Bytes, paramsStream: Bytes, params: ParamMap)

  function Fresh(keepConn: bool): (c: Codec) {
    Codec(false, keepConn, [], [], map[])
  }

  function OnRecord(c: Codec, r: Record): (c': Codec) {
    if r.kind == BEGIN_REQUEST then
      if |r.content| >= RECORD_HEADER && U16(r.content[0], r.content[1]) == RESPONDER
      then c.(keepConn := r.content[2] == KEEP_CONN) else c
    else if r.kind == PARAMS then
      if |r.content| > 0 then c.(paramsStream := c.paramsStream + r.content)
      else
        var (s, params, _) := ParseAll(c.paramsStream, c.params);
        c.(paramsStream := s, params := params)
    else if r.kind == STDIN then
      if |r.content| > 0 then c.(stdin := c.stdin + r.content) else c.(gotRequest := true)
    else c
  }

  function OnRecords(c: Codec, rs: seq<Record>): (c': Codec) {
    if rs == [] then c else OnRecord(OnRecords(c, rs[..|rs| - 1]), rs[|rs| - 1])
  }

  class FastCgiCodec {
    var gotRequest: bool
    var keepConn: bool
    var stdin: Bytes
    var paramsStream: Bytes
    var params: ParamMap

    function Contents(): (c: Codec)
      reads this
    {
      Codec(gotRequest, keepConn, stdin, paramsStream, params)
    }

    constructor ()
      ensures Contents() == Fresh(false)
    {
      gotRequest, keepConn, stdin, paramsStream, params := false, false, [], [], map[];
    }

    /** -1 stands for the all-ones error value. */
    method TakeLen() returns (n: int)
      modifies `paramsStream
      ensures match ReadLen(old(paramsStream))
        case Some((k, s)) => n == k && paramsStream == s
        case None => n == -1 && paramsStream == old(paramsStream)
    {
      n := -1;
      if |paramsStream| >= 1 {
        if paramsStream[0] >= 128 {
          if |paramsStream| >= 4 {
            n := U32(paramsStream[..4]) % TWO31;
            paramsStream := paramsStream[4..];
          }
        } else {
          n := paramsStream[0];
          paramsStream := paramsStream[1..];
        }
      }
    }

    method ParseAllParams() returns (ok: bool)
      modifies `paramsStream, `params
      ensures (paramsStream, params, ok) == ParseAll(old(paramsStream), old(params))
    {
      while |paramsStream| > 0
        invariant ParseAll(paramsStream, params) == ParseAll(old(paramsStream), old(params))
        decreases |paramsStream|
      {
        var nameLen := TakeLen();
        if nameLen == -1 {
          return false;
        }
        var valueLen := TakeLen();
        if valueLen == -1 {
          return false;
        }
        LengthsDoNotWrap(nameLen, valueLen);
        if |paramsStream| >= (nameLen + valueLen) % TWO32 {
          var name := paramsStream[..nameLen];
          params := params[name := paramsStream[nameLen..nameLen + valueLen]];
          paramsStream := paramsStream[nameLen + valueLen..];
        } else {
          return false;
        }
      }
      return true;
    }

    method HandleRecord(kind: Byte, content: Bytes)
      modifies this
      ensures Contents() == OnRecord(old(Contents()), Record(kind, content))
    {
      if kind == BEGIN_REQUEST {
        if |content| >= RECORD_HEADER {
          var role, flags := U16(content[0], content[1]), content[2];
          if role == RESPONDER {
            keepConn := flags == KEEP_CONN;
          }
        }
      } else if kind == PARAMS {
        if |content| > 0 {
          paramsStream := paramsStream + content;
        } else {
          var ok := ParseAllParams();
        }
      } else if kind == STDIN {
        if |content| > 0 {
          stdin := stdin + content;
        } else {
          gotRequest := true;
        }
      }
    }

    method ParseRequest(buf: Buffer)
      modifies this, buf
      ensures buf.data == Drain(RecordHead, old(buf.data)).1
      ensures Contents() == OnRecords(old(Contents()), Drain(RecordHead, old(buf.data)).0)
    {
      ghost var whole, done, c0 := buf.data, [], Contents();
      DrainStart(RecordHead, whole);
      while |buf.data| >= RECORD_HEADER
        invariant Draining(RecordHead, whole, done, buf.data) && Contents() == OnRecords(c0, done)
        decreases |buf.data|
      {
        var length, padding := U16(buf.data[4], buf.data[5]), buf.data[6];
        var total := RECORD_HEADER + length + padding;
        if |buf.data| < total {
          break;
        }
        var kind, content := buf.data[1], buf.data[RECORD_HEADER..RECORD_HEADER + length];
        ghost var r := Record(kind, content);
        DrainStep(RecordHead, whole, done, buf.data, r, total);
        assert (done + [r])[..|done|] == done;
        HandleRecord(kind, content);
        buf.Retrieve(total);
        done := done + [r];
      }
      DrainEnd(RecordHead, whole, done, buf.data);
    }

    /** The callback's arguments, if it was called; `close` asks for the connection to be shut down. */
    method OnMessage(buf: Buffer) returns (called: Option<(ParamMap, Bytes)>, close: bool)
      modifies this, buf
      ensures (called, Contents(), buf.data) == OnChunk(old(Contents()), old(buf.data))
      ensures close <==> called.Some? && !keepConn
    {
      ParseRequest(buf);
      called, close := None, false;
      if gotRequest {
        called := Some((params, stdin));
        stdin, paramsStream, params, gotRequest := [], [], map[], false;
        close := !keepConn;
      }
    }
  }

  // ----- requests

  /** Drain the buffer, then call back if the request is complete. */
  function OnChunk(c: Codec, b: Bytes): (r: (Option<(ParamMap, Bytes)>, Codec, Bytes)) {
    var (rs, rest) := Drain(RecordHead, b);
    var c1 := OnRecords(c, rs);
    if c1.gotRequest then (Some((c1.params, c1.stdin)), Fresh(c1.keepConn), rest) else (None, c1, rest)
  }

  /** Every callback made while the chunks arrive, and the final state. */
  function OnChunks(c: Codec, buf: Bytes, chunks: seq<Bytes>): (r: (seq<(ParamMap, Bytes)>, Codec, Bytes))
    decreases |chunks|
  {
    if chunks == [] then ([], c, buf)
    else
      var (called, c1, rest) := OnChunk(c, buf + chunks[0]);
      var (more, c2, rest2) := OnChunks(c1, rest, chunks[1..]);
      ((if called.Some? then [called.value] else []) + more, c2, rest2)
  }

  /** Only the last of these records completes the request. */
  ghost predicate Finishes(c: Codec, rs: seq<Record>) {
    OnRecords(c, rs).gotRequest && forall k :: 0 <= k < |rs| ==> !OnRecords(c, rs[..k]).gotRequest
  }

  lemma {:induction false} OnRecordsAppend(c: Codec, a: seq<Record>, b: seq<Record>)
    ensures OnRecords(c, a + b) == OnRecords(OnRecords(c, a), b)
  {
    if b == [] {
      assert a + b == a;
    } else {
      var n := |b| - 1;
      OnRecordsAppend(c, a, b[..n]);
      assert (a + b)[..|a| + n] == a + b[..n];
    }
  }

  lemma FinishesRest(c: Codec, a: seq<Record>, b: seq<Record>)
    requires Finishes(c, a + b) && b != []
    ensures Finishes(OnRecords(c, a), b) && !OnRecords(c, a).gotRequest
  {
    OnRecordsAppend(c, a, b);
    assert (a + b)[..|a|] == a;
    forall k | 0 <= k < |b|
      ensures !OnRecords(OnRecords(c, a), b[..k]).gotRequest
    {
      OnRecordsAppend(c, a, b[..k]);
      assert (a + b)[..|a| + k] == a + b[..k];
    }
  }

  lemma {:induction false} NothingMore(c: Codec, chunks: seq<Bytes>)
    requires !c.gotRequest && Concat(chunks) == []
    ensures OnChunks(c, [], chunks) == ([], c, [])
    decreases |chunks|
  {
    if chunks != [] {
      assert chunks[0] == [] && [] + chunks[0] == [];
      NothingMore(c, chunks[1..]);
    }
  }

  /** The callback of one chunk, if it made one, before those of the next. */
  function With(called: Option<(ParamMap, Bytes)>, more: seq<(ParamMap, Bytes)>): (calls: seq<(ParamMap, Bytes)>) {
    if called.Some? then [called.value] + more else more
  }

  lemma ChunksStep(c: Codec, buf: Bytes, chunks: seq<Bytes>, called: Option<(ParamMap, Bytes)>, c1: Codec, rest: Bytes)
    requires chunks != [] && OnChunk(c, buf + chunks[0]) == (called, c1, rest)
    ensures var (more, c2, rest2) := OnChunks(c1, rest, chunks[1..]);
      OnChunks(c, buf, chunks) == (With(called, more), c2, rest2)
  {
    var more := OnChunks(c1, rest, chunks[1..]).0;
    assert [] + more == more;
  }

  lemma WithAppend(called: Option<(ParamMap, Bytes)>, a: seq<(ParamMap, Bytes)>, b: seq<(ParamMap, Bytes)>)
    ensures With(called, a) + b == With(called, a + b)
  {
    if called.Some? {
      assert ([called.value] + a) + b == [called.value] + (a + b);
    }
  }

  lemma SplitDrain(b: Bytes, tail: Bytes, rs: seq<Record>) returns (rs1: seq<Record>, rest: Bytes, rs2: seq<Record>)
    requires Drain(RecordHead, b + tail) == (rs, [])
    ensures Drain(RecordHead, b) == (rs1, rest) && Drain(RecordHead, rest) == ([], rest)
    ensures rs == rs1 + rs2 && Drain(RecordHead, rest + tail) == (rs2, [])
    ensures rs2 == [] ==> rest + tail == [] && rs1 == rs
  {
    RecordHeadStable();
    DrainAppend(RecordHead, b, tail);
    DrainLeavesNothing(RecordHead, b);
    rs1, rest := Drain(RecordHead, b).0, Drain(RecordHead, b).1;
    rs2 := Drain(RecordHead, rest + tail).0;
    if rs2 == [] {
      assert rs1 + rs2 == rs1;
    }
  }

  /** The bytes of one request, however they are cut, cause exactly one callback. */
  lemma {:induction false} OneCallback(c: Codec, buf: Bytes, chunks: seq<Bytes>, rs: seq<Record>)
    requires Drain(RecordHead, buf) == ([], buf) && Drain(RecordHead, buf + Concat(chunks)) == (rs, [])
    requires rs != [] && Finishes(c, rs)
    ensures var c1 := OnRecords(c, rs);
      OnChunks(c, buf, chunks) == ([(c1.params, c1.stdin)], Fresh(c1.keepConn), [])
    decreases |chunks|
  {
    assert chunks == [] ==> buf + Concat(chunks) == buf;
    if chunks != [] {
      var b, tail := buf + chunks[0], Concat(chunks[1..]);
      assert buf + Concat(chunks) == b + tail;
      var rs1, rest, rs2 := SplitDrain(b, tail, rs);
      var c1 := OnRecords(c, rs1);
      if rs2 == [] {
        assert OnChunk(c, b) == (Some((c1.params, c1.stdin)), Fresh(c1.keepConn), []);
        NothingMore(Fresh(c1.keepConn), chunks[1..]);
        ChunksStep(c, buf, chunks, Some((c1.params, c1.stdin)), Fresh(c1.keepConn), []);
        assert [(c1.params, c1.stdin)] + [] == [(c1.params, c1.stdin)];
      } else {
        FinishesRest(c, rs1, rs2);
        assert OnChunk(c, b) == (None, c1, rest);
        OneCallback(c1, rest, chunks[1..], rs2);
        OnRecordsAppend(c, rs1, rs2);
        ChunksStep(c, buf, chunks, None, c1, rest);
      }
    }
  }

  /** A record as a web server sends it. */
  datatype Sent = Sent(record: Record, id: nat, padding: Bytes)

  ghost predicate SentOk(w: Sent) {
    |w.record.content| < 65536 && |w.padding| < 256
  }

  function Wire(ws: seq<Sent>): (b: Bytes) {
    if ws == [] then [] else EncodeRecord(ws[0].record, ws[0].id, ws[0].padding) + Wire(ws[1..])
  }

  function Records(ws: seq<Sent>): (rs: seq<Record>)
    ensures |rs| == |ws| && forall i :: 0 <= i < |ws| ==> rs[i] == ws[i].record
  {
    seq(|ws|, i requires 0 <= i < |ws| => ws[i].record)
  }

  lemma {:induction false} WireDrains(ws: seq<Sent>)
    requires forall i :: 0 <= i < |ws| ==> SentOk(ws[i])
    ensures Drain(RecordHead, Wire(ws)) == (Records(ws), [])
  {
    if ws != [] {
      var e, rest := EncodeRecord(ws[0].record, ws[0].id, ws[0].padding), Wire(ws[1..]);
      RecordDecodes(ws[0].record, ws[0].id, ws[0].padding, rest);
      assert (e + rest)[|e|..] == rest;
      WireDrains(ws[1..]);
      assert Records(ws) == [ws[0].record] + Records(ws[1..]);
    }
  }

  // ----- what the records of a request add up to

  function Parts(kind: Byte, cs: seq<Bytes>): (rs: seq<Record>)
    ensures |rs| == |cs| && forall i :: 0 <= i < |cs| ==> rs[i] == Record(kind, cs[i])
  {
    seq(|cs|, i requires 0 <= i < |cs| => Record(kind, cs[i]))
  }

  lemma {:induction false} ParamsAccumulate(c: Codec, cs: seq<Bytes>)
    requires forall i :: 0 <= i < |cs| ==> cs[i] != []
    ensures OnRecords(c, Parts(PARAMS, cs)) == c.(paramsStream := c.paramsStream + Concat(cs))
  {
    if cs == [] {
      assert c.paramsStream + [] == c.paramsStream;
    } else {
      var n := |cs| - 1;
      var rs := Parts(PARAMS, cs);
      ParamsAccumulate(c, cs[..n]);
      assert rs[..n] == Parts(PARAMS, cs[..n]);
      ConcatLast(cs);
      assert (c.paramsStream + Concat(cs[..n])) + cs[n] == c.paramsStream + Concat(cs);
    }
  }

  lemma {:induction false} StdinAccumulates(c: Codec, cs: seq<Bytes>)
    requires forall i :: 0 <= i < |cs| ==> cs[i] != []
    ensures OnRecords(c, Parts(STDIN, cs)) == c.(stdin := c.stdin + Concat(cs))
  {
    if cs == [] {
      assert c.stdin + [] == c.stdin;
    } else {
      var n := |cs| - 1;
      var rs := Parts(STDIN, cs);
      StdinAccumulates(c, cs[..n]);
      assert rs[..n] == Parts(STDIN, cs[..n]);
      ConcatLast(cs);
      assert (c.stdin + Concat(cs[..n])) + cs[n] == c.stdin + Concat(cs);
    }
  }

  lemma ConcatLast(cs: seq<Bytes>)
    requires cs != []
    ensures Concat(cs) == Concat(cs[..|cs| - 1]) + cs[|cs| - 1]
  {
    var n := |cs| - 1;
    assert cs == cs[..n] + [cs[n]];
    ConcatAppend(cs[..n], [cs[n]]);
    assert Concat([cs[n]]) == cs[n] + [];
  }

  /** The records of a request, in the order of the specification; `begin` opens it. */
  function RequestRecords(begin: Bytes, params: seq<Bytes>, input: seq<Bytes>): (rs: seq<Record>) {
    [Record(BEGIN_REQUEST, begin)] + Parts(PARAMS, params) + [Record(PARAMS, [])] + Parts(STDIN, input) + [Record(STDIN, [])]
  }

  lemma BeginOnly(keep: bool, begin: Bytes)
    ensures OnRecords(Fresh(keep), [Record(BEGIN_REQUEST, begin)]) == Fresh(KeepAfter(keep, begin))
  {
    assert [Record(BEGIN_REQUEST, begin)][..0] == [];
  }

  /** The state once the parameters are complete. */
  lemma ParamsAddUp(keep: bool, begin: Bytes, params: seq<Bytes>, ps: seq<Pair>) returns (c: Codec)
    requires forall i :: 0 <= i < |params| ==> params[i] != []
    requires (forall i :: 0 <= i < |ps| ==> PairOk(ps[i])) && Concat(params) == EncodePairs(ps)
    ensures c == OnRecords(Fresh(keep), [Record(BEGIN_REQUEST, begin)] + Parts(PARAMS, params) + [Record(PARAMS, [])])
    ensures !c.gotRequest && c.params == LastWins(map[], ps) && c.stdin == [] && c.keepConn == KeepAfter(keep, begin)
  {
    var c0, r0, rp := Fresh(keep), [Record(BEGIN_REQUEST, begin)], Parts(PARAMS, params);
    BeginOnly(keep, begin);
    OnRecordsAppend(c0, r0, rp);
    ParamsAccumulate(Fresh(KeepAfter(keep, begin)), params);
    assert [] + Concat(params) == Concat(params);
    PairsRoundTrip(ps, map[]);
    LastRecord(c0, r0 + rp, Record(PARAMS, []));
    c := OnRecords(c0, r0 + rp + [Record(PARAMS, [])]);
  }

  lemma LastRecord(c: Codec, rs: seq<Record>, r: Record)
    ensures OnRecords(c, rs + [r]) == OnRecord(OnRecords(c, rs), r)
  {
    assert (rs + [r])[..|rs|] == rs;
  }

  /** The keep-connection flag after a request: that of a responder's BEGIN_REQUEST record (role 1,
      flags 1 or not), else what it was. */
  function KeepAfter(keep: bool, begin: Bytes): (k: bool) {
    if |begin| >= 8 && begin[0] == 0 && begin[1] == 1 then begin[2] == 1 else keep
  }

  lemma RequestAddsUp(keep: bool, begin: Bytes, params: seq<Bytes>, input: seq<Bytes>, ps: seq<Pair>)
    requires forall i :: 0 <= i < |params| ==> params[i] != []
    requires forall i :: 0 <= i < |input| ==> input[i] != []
    requires (forall i :: 0 <= i < |ps| ==> PairOk(ps[i])) && Concat(params) == EncodePairs(ps)
    ensures var c := OnRecords(Fresh(keep), RequestRecords(begin, params, input));
      c.gotRequest && c.params == LastWins(map[], ps) && c.stdin == Concat(input) && c.keepConn == KeepAfter(keep, begin)
  {
    var c := ParamsAddUp(keep, begin, params, ps);
    var ra := [Record(BEGIN_REQUEST, begin)] + Parts(PARAMS, params) + [Record(PARAMS, [])];
    OnRecordsAppend(Fresh(keep), ra, Parts(STDIN, input));
    StdinAccumulates(c, input);
    assert [] + Concat(input) == Concat(input);
    LastRecord(Fresh(keep), ra + Parts(STDIN, input), Record(STDIN, []));
  }

  // ----- records of other kinds in between

  predicate Matters(r: Record) {
    r.kind == 1 || r.kind == 4 || r.kind == 5
  }

  /** Only BEGIN_REQUEST, PARAMS and STDIN records. */
  function Relevant(rs: seq<Record>): (r: seq<Record>) {
    if rs == [] then []
    else Relevant(rs[..|rs| - 1]) + if Matters(rs[|rs| - 1]) then [rs[|rs| - 1]] else []
  }

  lemma {:induction false} OthersIgnored(c: Codec, rs: seq<Record>)
    ensures OnRecords(c, rs) == OnRecords(c, Relevant(rs))
  {
    if rs != [] {
      var n := |rs| - 1;
      OthersIgnored(c, rs[..n]);
      if Matters(rs[n]) {
        LastRecord(c, Relevant(rs[..n]), rs[n]);
      } else {
        assert Relevant(rs[..n]) + [] == Relevant(rs[..n]);
      }
    }
  }

  ghost predicate NoEnd(rs: seq<Record>) {
    forall i :: 0 <= i < |rs| ==> !(rs[i].kind == STDIN && rs[i].content == [])
  }

  lemma {:induction false} NoEndAmongOthers(rs: seq<Record>)
    requires NoEnd(Relevant(rs))
    ensures NoEnd(rs)
  {
    if rs != [] {
      var n := |rs| - 1;
      var pre := Relevant(rs[..n]);
      assert forall i :: 0 <= i < |pre| ==> pre[i] == Relevant(rs)[i];
      NoEndAmongOthers(rs[..n]);
      assert Matters(rs[n]) ==> Relevant(rs)[|pre|] == rs[n];
    }
  }

  lemma {:induction false} NotYet(c: Codec, rs: seq<Record>)
    requires !c.gotRequest && NoEnd(rs)
    ensures !OnRecords(c, rs).gotRequest
  {
    if rs != [] {
      NotYet(c, rs[..|rs| - 1]);
    }
  }

  lemma OnlyLastEnds(keep: bool, rs: seq<Record>, k: nat)
    requires NoEnd(rs) && k <= |rs|
    ensures !OnRecords(Fresh(keep), (rs + [Record(STDIN, [])])[..k]).gotRequest
  {
    assert (rs + [Record(STDIN, [])])[..k] == rs[..k];
    NotYet(Fresh(keep), rs[..k]);
  }

  /** A request as a web server sends it: the records of the specification in their order, with any
      records of other kinds in between, then cut by TCP anywhere. */
  datatype Request = Request(begin: Bytes, params: seq<Bytes>, input: seq<Bytes>, pairs: seq<Pair>, wire: seq<Sent>, chunks: seq<Bytes>)

  ghost predicate RequestOk(r: Request) {
    && (forall i :: 0 <= i < |r.params| ==> r.params[i] != [])
    && (forall i :: 0 <= i < |r.input| ==> r.input[i] != [])
    && (forall i :: 0 <= i < |r.pairs| ==> PairOk(r.pairs[i])) && Concat(r.params) == EncodePairs(r.pairs)
    && (forall i :: 0 <= i < |r.wire| ==> SentOk(r.wire[i])) && Concat(r.chunks) == Wire(r.wire)
    && r.wire != [] && r.wire[|r.wire| - 1].record == Record(STDIN, [])
    && Relevant(Records(r.wire)) == RequestRecords(r.begin, r.params, r.input)
  }

  lemma RequestFinishes(keep: bool, r: Request)
    requires RequestOk(r) && OnRecords(Fresh(keep), Records(r.wire)).gotRequest
    ensures Finishes(Fresh(keep), Records(r.wire))
  {
    var rs := Records(r.wire);
    var n := |rs| - 1;
    var rb := [Record(BEGIN_REQUEST, r.begin)] + Parts(PARAMS, r.params) + [Record(PARAMS, [])] + Parts(STDIN, r.input);
    assert Relevant(rs) == Relevant(rs[..n]) + [Record(STDIN, [])] && RequestRecords(r.begin, r.params, r.input) == rb + [Record(STDIN, [])];
    SameLast(Relevant(rs[..n]), Record(STDIN, []), rb, Record(STDIN, []));
    NoEndAmongOthers(rs[..n]);
    forall k | 0 <= k < |rs|
      ensures !OnRecords(Fresh(keep), rs[..k]).gotRequest
    {
      assert rs == rs[..n] + [Record(STDIN, [])];
      OnlyLastEnds(keep, rs[..n], k);
    }
  }

  /** One request: its pairs split into PARAMS records at arbitrary points, its input into STDIN
      records, the bytes cut by TCP anywhere: the callback runs exactly once, with the last-wins
      map and the whole input; nothing is left behind but the flag of the request. */
  lemma RequestRoundTrip(keep: bool, r: Request)
    requires RequestOk(r)
    ensures OnChunks(Fresh(keep), [], r.chunks) ==
            ([(LastWins(map[], r.pairs), Concat(r.input))], Fresh(KeepAfter(keep, r.begin)), [])
  {
    RequestAddsUp(keep, r.begin, r.params, r.input, r.pairs);
    OthersIgnored(Fresh(keep), Records(r.wire));
    RequestFinishes(keep, r);
    WireDrains(r.wire);
    assert [] + Concat(r.chunks) == Concat(r.chunks);
    OneCallback(Fresh(keep), [], r.chunks, Records(r.wire));
  }

  // ----- several requests on one connection

  lemma {:induction false} ChunksInTurn(c: Codec, buf: Bytes, a: seq<Bytes>, b: seq<Bytes>)
    ensures var (calls, c1, rest) := OnChunks(c, buf, a);
      var (more, c2, rest2) := OnChunks(c1, rest, b);
      OnChunks(c, buf, a + b) == (calls + more, c2, rest2)
    decreases |a|
  {
    if a == [] {
      assert a + b == b;
      assert [] + OnChunks(c, buf, b).0 == OnChunks(c, buf, b).0;
    } else {
      var (called, c1, rest) := OnChunk(c, buf + a[0]);
      var (calls, c2, rest2) := OnChunks(c1, rest, a[1..]);
      var more := OnChunks(c2, rest2, b).0;
      ChunksInTurn(c1, rest, a[1..], b);
      assert (a + b)[0] == a[0] && (a + b)[1..] == a[1..] + b;
      ChunksStep(c, buf, a, called, c1, rest);
      ChunksStep(c, buf, a + b, called, c1, rest);
      WithAppend(called, calls, more);
    }
  }

  function AllChunks(rs: seq<Request>): (chunks: seq<Bytes>) {
    if rs == [] then [] else rs[0].chunks + AllChunks(rs[1..])
  }

  function Calls(rs: seq<Request>): (calls: seq<(ParamMap, Bytes)>)
    ensures |calls| == |rs| && forall i :: 0 <= i < |rs| ==> calls[i] == (LastWins(map[], rs[i].pairs), Concat(rs[i].input))
  {
    seq(|rs|, i requires 0 <= i < |rs| => (LastWins(map[], rs[i].pairs), Concat(rs[i].input)))
  }

  function KeepAfterAll(keep: bool, rs: seq<Request>): (k: bool)
    decreases |rs|
  {
    if rs == [] then keep else KeepAfterAll(KeepAfter(keep, rs[0].begin), rs[1..])
  }

  lemma FirstCall(rs: seq<Request>)
    requires rs != []
    ensures Calls(rs) == [(LastWins(map[], rs[0].pairs), Concat(rs[0].input))] + Calls(rs[1..])
  {
  }

  /** Requests one after the other, each beginning with a chunk of its own: one callback for each, in
      order, unaffected by the others. */
  lemma {:induction false} ConnectionRoundTrip(keep: bool, rs: seq<Request>)
    requires forall i :: 0 <= i < |rs| ==> RequestOk(rs[i])
    ensures OnChunks(Fresh(keep), [], AllChunks(rs)) == (Calls(rs), Fresh(KeepAfterAll(keep, rs)), [])
    decreases |rs|
  {
    if rs != [] {
      RequestRoundTrip(keep, rs[0]);
      ConnectionRoundTrip(KeepAfter(keep, rs[0].begin), rs[1..]);
      ChunksInTurn(Fresh(keep), [], rs[0].chunks, AllChunks(rs[1..]));
      FirstCall(rs);
    }
  }

  // ----- the response

  function Padding(n: nat): (b: Bytes)
    ensures |b| < 8 && (n + |b|) % 8 == 0
  {
    seq((8 - n % 8) % 8, i => 0)
  }

  const EIGHT_ZEROS: Bytes := [0, 0, 0, 0, 0, 0, 0, 0]

  function EndStdout(): (b: Bytes) {
    [1, STDOUT, 0, 1, 0, 0, 0, 0]
  }

  function EndRequest(): (b: Bytes) {
    [1, END_REQUEST, 0, 1, 0, 8, 0, 0] + EIGHT_ZEROS
  }

  function ResponseRecords(content: Bytes): (ws: seq<Sent>) {
    [Sent(Record(STDOUT, content), 1, Padding(|content|)), Sent(Record(STDOUT, []), 1, []), Sent(Record(END_REQUEST, EIGHT_ZEROS), 1, [])]
  }

  /** `endStdout` and `endRequest`. */
  method EndResponse(response: Buffer)
    modifies response
    ensures response.data == old(response.data) + (EndStdout() + EndRequest())
  {
    response.Append([1, STDOUT, 0, 1, 0, 0, 0, 0]);
    response.Append([1, END_REQUEST, 0, 1, 0, 8, 0, 0]);
    response.Append([0, 0, 0, 0]);
    response.Append([0, 0, 0, 0]);
  }

  /** `respond`; `prependable` is the room in front of the buffer's data. */
  method Respond(response: Buffer, prependable: nat)
    modifies response
    ensures |old(response.data)| < 65536 && prependable >= RECORD_HEADER ==>
              response.data == Wire(ResponseRecords(old(response.data)))
    ensures |old(response.data)| >= 65536 || prependable < RECORD_HEADER ==>
              response.data == old(response.data) + (EndStdout() + EndRequest())
  {
    ghost var content := response.data;
    var n := |response.data|;
    if n < 65536 && prependable >= RECORD_HEADER {
      var padding := Padding(n);
      response.Prepend([1, STDOUT, 0, 1, n / 256 % 256, n % 256, |padding|, 0]);
      response.Append(padding);
      assert response.data == EncodeRecord(Record(STDOUT, content), 1, Padding(n));
    }
    EndResponse(response);
    ResponseWire(content);
  }

  lemma WireThree(w0: Sent, w1: Sent, w2: Sent)
    ensures Wire([w0, w1, w2]) == EncodeRecord(w0.record, w0.id, w0.padding)
                                  + (EncodeRecord(w1.record, w1.id, w1.padding) + EncodeRecord(w2.record, w2.id, w2.padding))
  {
    assert [w0, w1, w2][1..] == [w1, w2] && [w1, w2][1..] == [w2] && [w2][1..] == [];
    assert Wire([w2]) == EncodeRecord(w2.record, w2.id, w2.padding);
  }

  lemma ResponseWire(content: Bytes)
    ensures Wire(ResponseRecords(content)) == EncodeRecord(Record(STDOUT, content), 1, Padding(|content|)) + (EndStdout() + EndRequest())
  {
    var ws := ResponseRecords(content);
    WireThree(ws[0], ws[1], ws[2]);
    assert EncodeRecord(ws[1].record, 1, []) == EndStdout();
    assert EncodeRecord(ws[2].record, 1, []) == EndRequest();
  }

  lemma RecordLength(w: Sent)
    requires (|w.record.content| + |w.padding|) % 8 == 0
    ensures |EncodeRecord(w.record, w.id, w.padding)| % 8 == 0
  {
    var n := |w.record.content| + |w.padding|;
    assert |EncodeRecord(w.record, w.id, w.padding)| == 8 + n;
  }

  /** The three records of a response are 8-byte aligned. */
  lemma ResponseAligned(content: Bytes, i: nat)
    requires i < 3
    ensures var w := ResponseRecords(content)[i]; |EncodeRecord(w.record, w.id, w.padding)| % 8 == 0
  {
    RecordLength(ResponseRecords(content)[i]);
  }

  lemma ResponseList(content: Bytes)
    ensures Records(ResponseRecords(content)) == [Record(STDOUT, content), Record(STDOUT, []), Record(END_REQUEST, EIGHT_ZEROS)]
  {
  }

  /** A response decodes to exactly the content, end of output and end of request. */
  lemma ResponseDecodes(content: Bytes)
    requires |content| < 65536
    ensures Drain(RecordHead, Wire(ResponseRecords(content))) ==
            ([Record(STDOUT, content), Record(STDOUT, []), Record(END_REQUEST, EIGHT_ZEROS)], [])
  {
    ResponseList(content);
    WireDrains(ResponseRecords(content));
  }
}

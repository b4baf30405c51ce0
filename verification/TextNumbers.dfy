/** Decimal numbers as the text protocols print and read them. */
module TextNumbers {
  import opened Streams

  const TAB: Byte := 9
  const LF: Byte := 10
  const CR: Byte := 13
  const CRLF: Bytes := [CR, LF]
  const SPACE: Byte := 32

  /** ASCII text as bytes. */
  function Text(s: string): (b: Bytes)
    ensures |b| == |s|
  {
    seq(|s|, i requires 0 <= i < |s| => if s[i] as int < 256 then s[i] as int else 63)
  }

  predicate IsDigit(c: Byte) { 48 <= c <= 57 }
  predicate IsSpace(c: Byte) { c == SPACE || 9 <= c <= 13 }

  /** `%d` for a non-negative number. */
  function Print(n: nat): (b: Bytes)
    ensures b != [] && forall i :: 0 <= i < |b| ==> IsDigit(b[i])
  {
    if n < 10 then [48 + n] else Print(n / 10) + [48 + n % 10]
  }

  /** The digits at the head of `b`, added to what was read before. */
  function ReadDigits(b: Bytes, acc: int): (n: int) {
    if b == [] || !IsDigit(b[0]) then acc else ReadDigits(b[1..], acc * 10 + (b[0] - 48))
  }

  /** `atoi` and `atoll`: skip white space, take a sign, read digits. */
  function Atoi(b: Bytes): (n: int) {
    if b == [] then 0
    else if IsSpace(b[0]) then Atoi(b[1..])
    else if b[0] == 45 then -ReadDigits(b[1..], 0)
    else if b[0] == 43 then ReadDigits(b[1..], 0)
    else ReadDigits(b, 0)
  }

  lemma {:induction false} ReadDigitsAppend(d: Bytes, rest: Bytes, acc: int)
    requires forall i :: 0 <= i < |d| ==> IsDigit(d[i])
    ensures ReadDigits(d + rest, acc) == ReadDigits(rest, ReadDigits(d, acc))
  {
    if d == [] {
      assert d + rest == rest;
    } else {
      assert (d + rest)[1..] == d[1..] + rest && (d + rest)[0] == d[0];
      ReadDigitsAppend(d[1..], rest, acc * 10 + (d[0] - 48));
    }
  }

  lemma {:induction false} ReadPrinted(n: nat, rest: Bytes)
    requires rest == [] || !IsDigit(rest[0])
    ensures ReadDigits(Print(n) + rest, 0) == n
  {
    if n < 10 {
      var b := Print(n) + rest;
      assert b[0] == 48 + n && b[1..] == rest;
    } else {
      var last: Byte := 48 + n % 10;
      var tail: Bytes := [last] + rest;
      assert Print(n) + rest == Print(n / 10) + tail;
      ReadDigitsAppend(Print(n / 10), tail, 0);
      ReadPrinted(n / 10, []);
      assert Print(n / 10) + [] == Print(n / 10);
      assert tail[1..] == rest;
    }
  }

  lemma AtoiDigits(b: Bytes)
    requires b != [] && IsDigit(b[0])
    ensures Atoi(b) == ReadDigits(b, 0)
  {
  }

  lemma AtoiSkipsTab(b: Bytes)
    ensures Atoi([TAB] + b) == Atoi(b)
  {
    assert ([TAB] + b)[0] == TAB && ([TAB] + b)[1..] == b;
  }

  /** A printed number is read back, before anything but a digit. */
  lemma AtoiPrinted(n: nat, rest: Bytes)
    requires rest == [] || !IsDigit(rest[0])
    ensures Atoi(Print(n) + rest) == n
  {
    ReadPrinted(n, rest);
    var d := Print(n);
    assert (d + rest)[0] == d[0];
    AtoiDigits(d + rest);
  }

  predicate AllSpaces(b: Bytes) {
    forall i :: 0 <= i < |b| ==> IsSpace(b[i])
  }

  lemma {:induction false} ReadDigitsStop(d: Bytes, x: Bytes, acc: int)
    ensures ReadDigits(d + CRLF + x, acc) == ReadDigits(d, acc)
  {
    var b := d + CRLF + x;
    if d == [] {
      assert b[0] == CR;
    } else {
      assert b[0] == d[0] && b[1..] == d[1..] + CRLF + x;
      if IsDigit(d[0]) {
        ReadDigitsStop(d[1..], x, acc * 10 + (d[0] - 48));
      }
    }
  }

  /** A number that is on the line is read up to the end of the line. */
  lemma {:induction false} AtoiStops(b: Bytes, x: Bytes)
    requires !AllSpaces(b)
    ensures Atoi(b + CRLF + x) == Atoi(b)
  {
    var c := b + CRLF + x;
    assert b != [] && c[0] == b[0] && c[1..] == b[1..] + CRLF + x;
    if IsSpace(b[0]) {
      assert !AllSpaces(b[1..]) by {
        var i :| 0 <= i < |b| && !IsSpace(b[i]);
        assert b[1..][i - 1] == b[i];
      }
      AtoiStops(b[1..], x);
    } else {
      ReadDigitsStop(b[1..], x, 0);
      ReadDigitsStop(b, x, 0);
    }
  }

  /** A line without a number makes it read on. */
  lemma {:induction false} AtoiReadsOn(b: Bytes, x: Bytes)
    requires AllSpaces(b)
    ensures Atoi(b + x) == Atoi(x)
  {
    if b == [] {
      assert b + x == x;
    } else {
      assert (b + x)[0] == b[0] && (b + x)[1..] == b[1..] + x;
      AtoiReadsOn(b[1..], x);
    }
  }

  // ----- searching

  predicate Occurs(b: Bytes, pat: Bytes, k: int) {
    0 <= k <= |b| - |pat| && b[k..k + |pat|] == pat
  }

  /** The first place where `pat` occurs in `b`, or |b| if there is none: `std::search`. */
  function Search(b: Bytes, pat: Bytes): (i: nat)
    ensures i <= |b|
    ensures i < |b| ==> Occurs(b, pat, i)
    ensures forall k :: 0 <= k < i ==> !Occurs(b, pat, k)
  {
    if b == [] || Occurs(b, pat, 0) then 0
    else
      OccursShift(b, pat);
      Search(b[1..], pat) + 1
  }

  lemma OccursShift(b: Bytes, pat: Bytes)
    requires b != []
    ensures forall k :: k > 0 ==> (Occurs(b, pat, k) <==> Occurs(b[1..], pat, k - 1))
  {
    forall k | k > 0
      ensures Occurs(b, pat, k) <==> Occurs(b[1..], pat, k - 1)
    {
      if k + |pat| <= |b| {
        SliceOfTail(b, k, k + |pat|);
      }
    }
  }

  lemma SliceOfTail(b: Bytes, lo: int, hi: int)
    requires 1 <= lo <= hi <= |b|
    ensures b[lo..hi] == b[1..][lo - 1..hi - 1]
  {
    var s, t := b[lo..hi], b[1..][lo - 1..hi - 1];
    assert forall i :: 0 <= i < |s| ==> s[i] == b[lo + i] && t[i] == b[lo + i];
  }

  predicate Contains(b: Bytes, pat: Bytes) {
    Search(b, pat) < |b|
  }

  lemma OccursPrefix(b: Bytes, pat: Bytes, x: Bytes, k: int)
    requires k + |pat| <= |b|
    ensures Occurs(b + x, pat, k) <==> Occurs(b, pat, k)
  {
    if 0 <= k {
      assert (b + x)[k..k + |pat|] == b[k..k + |pat|];
    }
  }

  /** The first occurrence, if it is known to be one. */
  lemma SearchIs(b: Bytes, pat: Bytes, i: nat)
    requires i < |b| && Occurs(b, pat, i) && forall k :: 0 <= k < i ==> !Occurs(b, pat, k)
    ensures Search(b, pat) == i
  {
  }

  /** Further bytes do not change where a pattern was found. */
  lemma SearchStable(b: Bytes, pat: Bytes, x: Bytes)
    requires Search(b, pat) < |b|
    ensures Search(b + x, pat) == Search(b, pat)
  {
    var i := Search(b, pat);
    OccursPrefix(b, pat, x, i);
    forall k | 0 <= k < i
      ensures !Occurs(b + x, pat, k)
    {
      OccursPrefix(b, pat, x, k);
    }
    SearchIs(b + x, pat, i);
  }
}

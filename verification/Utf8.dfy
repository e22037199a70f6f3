/** Cutting UTF-8 text at a byte budget, for terminal events and previews. */
module Utf8 {
  import opened Json

  type Bytes = seq<bv8>

  // ---------------------------------------------------------------- section 4 of RFC 3629

  predicate Tail(b: bv8) { 0x80 <= b <= 0xBF }

  /** The length of the well-formed character at the front, or 0. */
  function CharLength(s: Bytes): (n: nat)
    ensures n <= |s| && n <= 4
    ensures n > 0 ==> !Tail(s[0]) && forall k | 0 < k < n :: Tail(s[k])
  {
    if s == [] then 0
    else if s[0] <= 0x7F then 1
    else if 0xC2 <= s[0] <= 0xDF then (if |s| > 1 && Tail(s[1]) then 2 else 0)
    else if 0xE0 <= s[0] <= 0xEF then
      if |s| > 2 && Tail(s[1]) && Tail(s[2]) && (s[0] == 0xE0 ==> 0xA0 <= s[1])
          && (s[0] == 0xED ==> s[1] <= 0x9F) then 3 else 0
    else if 0xF0 <= s[0] <= 0xF4 then
      if |s| > 3 && Tail(s[1]) && Tail(s[2]) && Tail(s[3]) && (s[0] == 0xF0 ==> 0x90 <= s[1])
          && (s[0] == 0xF4 ==> s[1] <= 0x8F) then 4 else 0
    else 0
  }

  predicate WellFormed(s: Bytes) {
    s == [] || (CharLength(s) > 0 && WellFormed(s[CharLength(s)..]))
  }

  /** Index `i` is reached by whole characters. */
  predicate Boundary(s: Bytes, i: nat)
    decreases |s|
  {
    i == 0 || (0 < CharLength(s) <= i && Boundary(s[CharLength(s)..], i - CharLength(s)))
  }

  /** The greatest boundary at or before `pos`. */
  ghost predicate IsFloor(s: Bytes, pos: nat, i: nat) {
    i <= pos && Boundary(s, i) && forall k | i < k <= pos :: !Boundary(s, k)
  }

  lemma {:induction false} BoundaryByByte(s: Bytes, i: nat)
    requires WellFormed(s) && i <= |s|
    ensures Boundary(s, i) <==> i == 0 || i == |s| || !Tail(s[i])
    decreases |s|
  {
    var n := CharLength(s);
    if 0 < i && n <= i && s != [] { BoundaryByByte(s[n..], i - n); }
  }

  lemma {:induction false} BoundarySplits(s: Bytes, i: nat)
    requires WellFormed(s) && i <= |s| && Boundary(s, i)
    ensures WellFormed(s[..i]) && WellFormed(s[i..])
    decreases |s|
  {
    if i > 0 {
      var n := CharLength(s);
      BoundarySplits(s[n..], i - n);
      assert s[..i][n..] == s[n..][..i - n] && s[i..] == s[n..][i - n..];
      assert CharLength(s[..i]) == n;
    }
  }

  lemma CharLengthOfConcat(a: Bytes, b: Bytes)
    requires CharLength(a) > 0
    ensures CharLength(a + b) == CharLength(a)
  {
    var s := a + b;
    assert s[0] == a[0] && (|a| > 1 ==> s[1] == a[1]) && (|a| > 2 ==> s[2] == a[2]) && (|a| > 3 ==> s[3] == a[3]);
  }

  lemma {:induction false} WellFormedConcat(a: Bytes, b: Bytes)
    requires WellFormed(a) && WellFormed(b)
    ensures WellFormed(a + b)
  {
    if a == [] {
      assert a + b == b;
    } else {
      var n, s := CharLength(a), a + b;
      CharLengthOfConcat(a, b);
      assert s[n..] == a[n..] + b;
      WellFormedConcat(a[n..], b);
      assert CharLength(s) == n && WellFormed(s[n..]);
    }
  }

  /** No more than three bytes lie between a position and the boundary below it. */
  lemma {:induction false} FloorIsNear(s: Bytes, pos: nat, i: nat)
    requires WellFormed(s) && pos < |s| && i <= pos && Boundary(s, i) && forall k | i < k <= pos :: Tail(s[k])
    ensures pos - i <= 3
    decreases |s|
  {
    var n := CharLength(s);
    assert n < |s| ==> CharLength(s[n..]) > 0 && s[n..][0] == s[n];
    if i > 0 {
      forall k | i - n < k <= pos - n ensures Tail(s[n..][k]) { assert s[n..][k] == s[k + n]; }
      FloorIsNear(s[n..], pos - n, i - n);
    }
  }

  // ---------------------------------------------------------------- the two floors

  /** The mask test of the event buffer. */
  predicate IsContinuation(b: bv8) { b & 0xC0 == 0x80 }

  lemma ContinuationIsTail(b: bv8)
    ensures IsContinuation(b) <==> Tail(b)
  {
  }

  method Utf8Floor(bytes: Bytes, pos: nat) returns (i: nat)
    requires pos < |bytes|
    ensures i <= pos && (i == 0 || !Tail(bytes[i])) && forall k | i < k <= pos :: Tail(bytes[k])
    ensures WellFormed(bytes) ==> IsFloor(bytes, pos, i) && pos - i <= 3
  {
    i := pos;
    while i > 0 && IsContinuation(bytes[i])
      invariant i <= pos && forall k | i < k <= pos :: Tail(bytes[k])
    {
      ContinuationIsTail(bytes[i]);
      i := i - 1;
    }
    ContinuationIsTail(bytes[i]);
    if WellFormed(bytes) { FloorOf(bytes, pos, i); }
  }

  lemma FloorOf(s: Bytes, pos: nat, i: nat)
    requires WellFormed(s) && pos < |s| && i <= pos && (i == 0 || !Tail(s[i])) && forall k | i < k <= pos :: Tail(s[k])
    ensures IsFloor(s, pos, i) && pos - i <= 3
  {
    forall k | i <= k <= pos ensures Boundary(s, k) <==> k == 0 || !Tail(s[k]) { BoundaryByByte(s, k); }
    FloorIsNear(s, pos, i);
  }

  /** `str::is_char_boundary`. */
  predicate IsCharBoundary(s: Bytes, i: nat) { i == 0 || i == |s| || (i < |s| && !IsContinuation(s[i])) }

  /** On text of any kind, and for any position: the greatest boundary at or before it. */
  method FloorCharBoundary(s: Bytes, pos: nat) returns (i: nat)
    requires WellFormed(s)
    ensures i <= |s| && IsFloor(s, if pos < |s| then pos else |s|, i)
    ensures pos < |s| ==> pos - i <= 3
  {
    if pos >= |s| {
      BoundaryByByte(s, |s|);
      return |s|;
    }
    i := pos;
    while i > 0 && !IsCharBoundary(s, i)
      invariant i <= pos && forall k | i < k <= pos :: Tail(s[k])
    {
      ContinuationIsTail(s[i]);
      i := i - 1;
    }
    ContinuationIsTail(s[i]);
    FloorOf(s, pos, i);
  }

  /** There is one greatest boundary, so inside well-formed text the two floors agree. */
  lemma FloorIsUnique(s: Bytes, pos: nat, i: nat, j: nat)
    requires IsFloor(s, pos, i) && IsFloor(s, pos, j)
    ensures i == j
  {
  }

  // ---------------------------------------------------------------- truncation

  predicate IsAscii(s: string) { forall i | 0 <= i < |s| :: s[i] < '\U{80}' }

  function Ascii(s: string): Bytes
    requires IsAscii(s)
  {
    seq(|s|, i requires 0 <= i < |s| => s[i] as bv8)
  }

  lemma {:induction false} BytesBelow80(b: Bytes)
    requires forall i | 0 <= i < |b| :: b[i] <= 0x7F
    ensures WellFormed(b)
  {
    if b != [] { BytesBelow80(b[1..]); }
  }

  lemma AsciiIsWellFormed(s: string)
    requires IsAscii(s)
    ensures WellFormed(Ascii(s))
  {
    BytesBelow80(Ascii(s));
  }

  lemma {:induction false} DigitsAreAscii(n: nat)
    ensures IsAscii(Digits(n))
  {
    if n >= 10 { DigitsAreAscii(n / 10); }
  }

  /** What is appended to an event of `n` bytes when it is cut. */
  function Suffix(n: nat): Bytes {
    DigitsAreAscii(n);
    Ascii("...[" + Decimal(n) + "B total]\n")
  }

  const NEWLINE: bv8 := 0x0A

  /** The kept prefix of a cut event, without a newline at its end. */
  function Trimmed(s: Bytes): Bytes {
    if s != [] && s[|s| - 1] == NEWLINE then s[..|s| - 1] else s
  }

  /** The event is cut at `cut`, the greatest boundary within the budget when it is well formed: all before it is kept
      but for one newline at its end, and the size of the whole event is told. */
  ghost predicate IsCutAt(s: Bytes, max: nat, cut: nat, output: Bytes) {
    && cut <= |s| && IsAscii(Decimal(|s|))
    && (WellFormed(s) ==> IsFloor(s, max, cut) && max - cut <= 3)
    && output == (if cut > 0 && s[cut - 1] == 0x0A then s[..cut - 1] else s[..cut])
                 + Ascii("...[" + Decimal(|s|) + "B total]\n")
  }

  class EventBuffer {
    var buf: Bytes
    const maxBytes: nat

    constructor (maxBytes: nat)
      ensures buf == [] && this.maxBytes == maxBytes
    {
      this.buf, this.maxBytes := [], maxBytes;
    }

    method Write(data: Bytes) returns (written: nat)
      modifies this
      ensures buf == old(buf) + data && written == |data|
    {
      buf := buf + data;
      written := |data|;
    }

    /** What dropping the buffer writes to the terminal. */
    method Drop() returns (output: Bytes)
      ensures |buf| <= maxBytes ==> output == buf
      ensures |buf| > maxBytes ==> exists cut: nat :: cut <= maxBytes && IsCutAt(buf, maxBytes, cut, output)
      ensures WellFormed(buf) ==> WellFormed(output)
    {
      if buf == [] { return []; }
      if |buf| <= maxBytes { return buf; }
      var cut := Utf8Floor(buf, maxBytes);
      var cutSlice := buf[..cut];
      var trimmed := if cutSlice != [] && cutSlice[|cutSlice| - 1] == NEWLINE then cutSlice[..|cutSlice| - 1]
          else cutSlice;
      output := trimmed + Suffix(|buf|);
      DigitsAreAscii(|buf|);
      assert IsCutAt(buf, maxBytes, cut, output);
      if WellFormed(buf) { CutIsWellFormed(buf, cut); }
    }
  }

  lemma TrimmedIsWellFormed(kept: Bytes)
    requires WellFormed(kept)
    ensures WellFormed(Trimmed(kept))
  {
    if kept != [] && kept[|kept| - 1] == NEWLINE {
      BoundaryByByte(kept, |kept| - 1);
      BoundarySplits(kept, |kept| - 1);
    }
  }

  lemma SuffixIsWellFormed(n: nat)
    ensures WellFormed(Suffix(n))
  {
    DigitsAreAscii(n);
    AsciiIsWellFormed("...[" + Decimal(n) + "B total]\n");
  }

  lemma CutIsWellFormed(s: Bytes, cut: nat)
    requires WellFormed(s) && cut <= |s| && Boundary(s, cut)
    ensures WellFormed(Trimmed(s[..cut])) && WellFormed(Trimmed(s[..cut]) + Suffix(|s|))
  {
    BoundarySplits(s, cut);
    TrimmedIsWellFormed(s[..cut]);
    SuffixIsWellFormed(|s|);
    WellFormedConcat(Trimmed(s[..cut]), Suffix(|s|));
  }

  /** The preview: the text itself, or a prefix of at most `max` bytes and an ellipsis. */
  method TruncateForPreview(s: Bytes, max: nat) returns (preview: Bytes)
    requires WellFormed(s)
    ensures WellFormed(preview)
    ensures |s| <= max ==> preview == s
    ensures |s| > max ==>
              exists end: nat ::
                end <= |s| && IsFloor(s, max, end) && max - end <= 3 && preview == s[..end] + Ascii("...")
  {
    if |s| <= max { return s; }
    var end := FloorCharBoundary(s, max);
    BoundarySplits(s, end);
    AsciiIsWellFormed("...");
    WellFormedConcat(s[..end], Ascii("..."));
    preview := s[..end] + Ascii("...");
  }
}

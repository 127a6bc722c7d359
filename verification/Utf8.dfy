/**
 The UTF-8 helpers of console.cpp (UTF-8 as in section 3 of RFC 3629). A byte is an integer below 256;
 shifts and masks are written as divisions and remainders by powers of two.
 */
module Utf8 {
  type Byte = b: int | 0 <= b < 0x100

  /** What append_utf8 encodes; surrogates are encoded like any other three-byte value. */
  type CodePoint = c: int | 0 <= c <= 0x10_FFFF

  const REPLACEMENT: CodePoint := 0xFFFD

  /** (b & 0xC0) == 0x80 */
  predicate IsContinuation(b: Byte) {
    0x80 <= b < 0xC0
  }

  function Encode(c: CodePoint): (r: seq<Byte>)
    ensures 1 <= |r| <= 4
    ensures !IsContinuation(r[0])
    ensures forall k :: 1 <= k < |r| ==> IsContinuation(r[k])
  {
    if c <= 0x7F then [c]
    else if c <= 0x7FF then [0xC0 + c / 0x40, 0x80 + c % 0x40]
    else if c <= 0xFFFF then [0xE0 + c / 0x1000, 0x80 + c / 0x40 % 0x40, 0x80 + c % 0x40]
    else [0xF0 + c / 0x4_0000, 0x80 + c / 0x1000 % 0x40, 0x80 + c / 0x40 % 0x40, 0x80 + c % 0x40]
  }

  /** append_utf8, whose argument is any char32_t. */
  method AppendUtf8(ch: nat, out: seq<Byte>) returns (r: seq<Byte>)
    ensures r == if ch <= 0x10_FFFF then out + Encode(ch) else out
  {
    r := out;
    if ch <= 0x7F {
      r := r + [ch];
    } else if ch <= 0x7FF {
      r := r + [0xC0 + ch / 0x40 % 0x20];
      r := r + [0x80 + ch % 0x40];
    } else if ch <= 0xFFFF {
      r := r + [0xE0 + ch / 0x1000 % 0x10];
      r := r + [0x80 + ch / 0x40 % 0x40];
      r := r + [0x80 + ch % 0x40];
    } else if ch <= 0x10_FFFF {
      r := r + [0xF0 + ch / 0x4_0000 % 8];
      r := r + [0x80 + ch / 0x1000 % 0x40];
      r := r + [0x80 + ch / 0x40 % 0x40];
      r := r + [0x80 + ch % 0x40];
    }
  }

  /** A char32_t and the number of bytes it was read from. */
  datatype Decoded = Decoded(cp: nat, advance: nat)

  /** b & 0x3F */
  function Low6(b: Byte): (r: nat) {
    b % 0x40
  }

  /** decode_utf8: malformed input yields U+FFFD and advances by one byte. */
  function Decode(input: seq<Byte>, pos: nat): (r: Decoded)
    requires pos < |input|
    ensures 1 <= r.advance <= 4 && pos + r.advance <= |input|
  {
    var c: int := input[pos];
    if c < 0x80 then Decoded(c, 1)
    else if 0xC0 <= c < 0xE0 && pos + 1 < |input| then
      if !IsContinuation(input[pos + 1]) then Decoded(REPLACEMENT, 1)
      else Decoded(c % 0x20 * 0x40 + Low6(input[pos + 1]), 2)
    else if 0xE0 <= c < 0xF0 && pos + 2 < |input| then
      if !IsContinuation(input[pos + 1]) || !IsContinuation(input[pos + 2]) then Decoded(REPLACEMENT, 1)
      else Decoded(c % 0x10 * 0x1000 + Low6(input[pos + 1]) * 0x40 + Low6(input[pos + 2]), 3)
    else if 0xF0 <= c < 0xF8 && pos + 3 < |input| then
      if !IsContinuation(input[pos + 1]) || !IsContinuation(input[pos + 2]) || !IsContinuation(input[pos + 3]) then
        Decoded(REPLACEMENT, 1)
      else
        Decoded(c % 8 * 0x4_0000 + Low6(input[pos + 1]) * 0x1000 + Low6(input[pos + 2]) * 0x40 +
                Low6(input[pos + 3]), 4)
    else Decoded(REPLACEMENT, 1)
  }

  lemma TwoBytes(c: int)
    requires 0x80 <= c <= 0x7FF
    ensures (0xC0 + c / 0x40) % 0x20 == c / 0x40 && (0x80 + c % 0x40) % 0x40 == c % 0x40
    ensures 0xC0 <= 0xC0 + c / 0x40 < 0xE0
  {
  }

  lemma ThreeBytes(c: int)
    requires 0x800 <= c <= 0xFFFF
    ensures (0xE0 + c / 0x1000) % 0x10 == c / 0x1000 && 0xE0 <= 0xE0 + c / 0x1000 < 0xF0
    ensures (0x80 + c / 0x40 % 0x40) % 0x40 == c / 0x40 % 0x40 && (0x80 + c % 0x40) % 0x40 == c % 0x40
    ensures c == c / 0x1000 * 0x1000 + c / 0x40 % 0x40 * 0x40 + c % 0x40
  {
  }

  lemma FourBytes(c: int)
    requires 0x1_0000 <= c <= 0x10_FFFF
    ensures (0xF0 + c / 0x4_0000) % 8 == c / 0x4_0000 && 0xF0 <= 0xF0 + c / 0x4_0000 < 0xF8
    ensures (0x80 + c / 0x1000 % 0x40) % 0x40 == c / 0x1000 % 0x40
    ensures (0x80 + c / 0x40 % 0x40) % 0x40 == c / 0x40 % 0x40 && (0x80 + c % 0x40) % 0x40 == c % 0x40
    ensures c == c / 0x4_0000 * 0x4_0000 + c / 0x1000 % 0x40 * 0x1000 + c / 0x40 % 0x40 * 0x40 + c % 0x40
  {
    var d := c / 0x40;
    var e := c / 0x1000;
    assert d / 0x40 == e && e / 0x40 == c / 0x4_0000;
    assert c == d * 0x40 + c % 0x40 && d == e * 0x40 + d % 0x40 && e == e / 0x40 * 0x40 + e % 0x40;
  }

  /** Decoding at the start of an encoded code point reads exactly that code point, whatever follows. */
  lemma DecodeEncode(input: seq<Byte>, pos: nat, c: CodePoint)
    requires pos + |Encode(c)| <= |input| && forall k :: 0 <= k < |Encode(c)| ==> input[pos + k] == Encode(c)[k]
    ensures Decode(input, pos) == Decoded(c, |Encode(c)|)
  {
    var e := Encode(c);
    assert input[pos + 0] == e[0];
    if c <= 0x7F {
    } else if c <= 0x7FF {
      TwoBytes(c);
      assert input[pos + 1] == e[1];
    } else if c <= 0xFFFF {
      ThreeBytes(c);
      assert input[pos + 1] == e[1] && input[pos + 2] == e[2];
    } else {
      FourBytes(c);
      assert input[pos + 1] == e[1] && input[pos + 2] == e[2] && input[pos + 3] == e[3];
    }
  }

  function EncodeAll(cs: seq<CodePoint>): seq<Byte> {
    if cs == [] then [] else Encode(cs[0]) + EncodeAll(cs[1..])
  }

  lemma {:induction false} EncodeAllConcat(a: seq<CodePoint>, b: seq<CodePoint>)
    ensures EncodeAll(a + b) == EncodeAll(a) + EncodeAll(b)
  {
    if a == [] {
      assert a + b == b;
    } else {
      assert (a + b)[1..] == a[1..] + b;
      EncodeAllConcat(a[1..], b);
    }
  }

  lemma EncodeAllOne(c: CodePoint)
    ensures EncodeAll([c]) == Encode(c)
  {
    assert [c][1..] == [];
  }

  /** The byte position at which the code point with index i starts. */
  function Offset(cs: seq<CodePoint>, i: nat): nat
    requires i <= |cs|
  {
    |EncodeAll(cs[..i])|
  }

  lemma SplitAt(cs: seq<CodePoint>, i: nat)
    requires i < |cs|
    ensures EncodeAll(cs) == EncodeAll(cs[..i]) + Encode(cs[i]) + EncodeAll(cs[i + 1..])
    ensures Offset(cs, i + 1) == Offset(cs, i) + |Encode(cs[i])|
  {
    hide Encode;
    var left, right := cs[..i], cs[i + 1..];
    assert cs[..i + 1] == left + [cs[i]];
    assert cs == (left + [cs[i]]) + right;
    EncodeAllConcat(left + [cs[i]], right);
    EncodeAllConcat(left, [cs[i]]);
    EncodeAllOne(cs[i]);
  }

  /** Two code point sequences with the same encoding are equal. */
  lemma {:induction false} EncodeAllInjective(a: seq<CodePoint>, b: seq<CodePoint>)
    requires EncodeAll(a) == EncodeAll(b)
    ensures a == b
  {
    if a != [] && b != [] {
      hide Encode, Decode;
      DecodeEncode(EncodeAll(a), 0, a[0]);
      DecodeEncode(EncodeAll(b), 0, b[0]);
      assert EncodeAll(a[1..]) == EncodeAll(a)[|Encode(a[0])|..];
      assert EncodeAll(b[1..]) == EncodeAll(b)[|Encode(b[0])|..];
      EncodeAllInjective(a[1..], b[1..]);
    }
  }

  /** The first position at or after p that does not hold a continuation byte. */
  function SkipContinuations(s: seq<Byte>, p: nat): (r: nat)
    requires p <= |s|
    ensures p <= r <= |s|
    decreases |s| - p
  {
    if p < |s| && IsContinuation(s[p]) then SkipContinuations(s, p + 1) else p
  }

  function BackOverContinuations(s: seq<Byte>, p: nat): (r: nat)
    requires p < |s|
    ensures r <= p
  {
    if p > 0 && IsContinuation(s[p]) then BackOverContinuations(s, p - 1) else p
  }

  method PrevUtf8CharPos(line: seq<Byte>, pos: nat) returns (r: nat)
    requires pos <= |line|
    ensures r == if pos == 0 then 0 else BackOverContinuations(line, pos - 1)
  {
    if pos == 0 {
      return 0;
    }
    r := pos - 1;
    while r > 0 && IsContinuation(line[r])
      invariant r < |line|
      invariant BackOverContinuations(line, r) == BackOverContinuations(line, pos - 1)
    {
      r := r - 1;
    }
  }

  method NextUtf8CharPos(line: seq<Byte>, pos: nat) returns (r: nat)
    ensures r == if pos >= |line| then |line| else SkipContinuations(line, pos + 1)
  {
    if pos >= |line| {
      return |line|;
    }
    r := pos + 1;
    while r < |line| && IsContinuation(line[r])
      invariant r <= |line|
      invariant SkipContinuations(line, r) == SkipContinuations(line, pos + 1)
    {
      r := r + 1;
    }
  }

  lemma {:induction false} SkipsTo(s: seq<Byte>, p: nat, q: nat)
    requires p <= q <= |s| && forall k :: p <= k < q ==> IsContinuation(s[k])
    requires q < |s| ==> !IsContinuation(s[q])
    ensures SkipContinuations(s, p) == q
    decreases q - p
  {
    if p < q {
      SkipsTo(s, p + 1, q);
    }
  }

  lemma {:induction false} BacksTo(s: seq<Byte>, p: nat, q: nat)
    requires q <= p < |s| && forall k :: q < k <= p ==> IsContinuation(s[k])
    requires !IsContinuation(s[q])
    ensures BackOverContinuations(s, p) == q
    decreases p - q
  {
    if q < p {
      BacksTo(s, p - 1, q);
    }
  }

  /**
   In the encoding of a code point sequence, the byte scans of the editor step exactly from one code point
   to its neighbour, and decoding at a boundary reads the code point that starts there.
   */
  lemma BoundaryStep(cs: seq<CodePoint>, i: nat)
    requires i < |cs|
    ensures var s, p, q := EncodeAll(cs), Offset(cs, i), Offset(cs, i + 1);
      && p < q <= |s|
      && SkipContinuations(s, p + 1) == q
      && BackOverContinuations(s, q - 1) == p
      && Decode(s, p) == Decoded(cs[i], q - p)
  {
    hide Encode, Decode, EncodeAll;
    EncodedAt(cs, i);
    var s, p, q := EncodeAll(cs), Offset(cs, i), Offset(cs, i + 1);
    SkipsTo(s, p + 1, q);
    BacksTo(s, q - 1, p);
    DecodeEncode(s, p, cs[i]);
  }

  lemma EncodedAt(cs: seq<CodePoint>, i: nat)
    requires i < |cs|
    ensures var s, p, q, e := EncodeAll(cs), Offset(cs, i), Offset(cs, i + 1), Encode(cs[i]);
      && p < q <= |s| && q == p + |e|
      && (forall k :: 0 <= k < |e| ==> s[p + k] == e[k])
      && !IsContinuation(s[p])
      && (forall k :: p < k < q ==> IsContinuation(s[k]))
      && (q < |s| ==> !IsContinuation(s[q]))
  {
    hide EncodeAll;
    var a, e, rest := EncodeAll(cs[..i]), Encode(cs[i]), EncodeAll(cs[i + 1..]);
    SplitAt(cs, i);
    StartsAtBoundary(cs[i + 1..]);
    var s := EncodeAll(cs);
    assert s == (a + e) + rest;
    forall k | 0 <= k < |e| ensures s[|a| + k] == e[k] {
      assert s[|a| + k] == (a + e)[|a| + k];
    }
    forall k | |a| < k < |a| + |e| ensures IsContinuation(s[k]) {
      assert s[|a| + (k - |a|)] == e[k - |a|];
    }
    assert s[|a| + 0] == e[0];
    assert |a + e| < |s| ==> s[|a + e|] == rest[0];
  }

  lemma StartsAtBoundary(cs: seq<CodePoint>)
    ensures EncodeAll(cs) != [] ==> !IsContinuation(EncodeAll(cs)[0])
  {
  }

  /** The examples of section 7 of RFC 3629, and one more of two bytes. */
  lemma Examples()
    ensures Encode(0x41) == [0x41] && Encode(0x391) == [0xCE, 0x91] && Encode(0xE9) == [0xC3, 0xA9]
    ensures Encode(0x2262) == [0xE2, 0x89, 0xA2] && Encode(0x233B4) == [0xF0, 0xA3, 0x8E, 0xB4]
  {
  }
}

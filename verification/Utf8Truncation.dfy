/** utf8_truncate_safe of chat-parser-xml-toolcall.cpp: text that may break off inside a character is cut before it. */
module Utf8Truncation {
  import opened Utf8

  /** The length of a sequence that begins with this byte, which is neither ASCII nor a continuation. */
  function ExpectedLength(lead: Byte): nat {
    if lead < 0xE0 then 2 else if lead < 0xF0 then 3 else if lead < 0xF8 then 4 else 0
  }

  /** What is left after `back` continuation bytes have been passed, the scan standing before s[i]. */
  function Scanned(s: seq<Byte>, i: nat, back: nat): (r: nat)
    requires i <= |s|
    ensures r <= |s|
    decreases i
  {
    if back >= 4 || i == 0 then if |s| < 3 then 0 else |s| - 3
    else
      var c := s[i - 1];
      if c < 0x80 then |s|
      else if c >= 0xC0 then
        if ExpectedLength(c) == 0 then i - 1
        else if |s| - (i - 1) >= ExpectedLength(c) then |s|
        else i - 1
      else Scanned(s, i - 1, back + 1)
  }

  function Truncated(s: seq<Byte>): (r: nat)
    ensures r <= |s|
  {
    if s == [] then 0 else Scanned(s, |s|, 0)
  }

  method Utf8TruncateSafe(s: seq<Byte>) returns (r: nat)
    ensures r == Truncated(s)
  {
    var len := |s|;
    if len == 0 {
      return 0;
    }
    var i, back := len, 0;
    while back < 4 && i > 0
      invariant 0 <= i <= len && 0 <= back <= 4
      invariant Scanned(s, i, back) == Truncated(s)
    {
      i := i - 1;
      var c := s[i];
      if c < 0x80 {
        return len;
      } else if c >= 0xC0 {
        var expected := 0;
        if c < 0xE0 {
          expected := 2;
        } else if c < 0xF0 {
          expected := 3;
        } else if c < 0xF8 {
          expected := 4;
        } else {
          return i;
        }
        if len - i >= expected {
          return len;
        } else {
          return i;
        }
      }
      back := back + 1;
    }
    return len - if len < 3 then len else 3;
  }

  lemma LeadTellsLength(c: CodePoint)
    ensures var (e, n) := (Encode(c), |Encode(c)|);
      if n == 1 then e[0] < 0x80 else 0xC0 <= e[0] < 0xF8 && ExpectedLength(e[0]) == n
  {
  }

  /** Continuation bytes are passed until the byte at `lead`. */
  lemma {:induction false} ScanPasses(s: seq<Byte>, lead: nat, i: nat, back: nat)
    requires lead < i <= |s| && back + (i - lead) <= 4
    requires !IsContinuation(s[lead]) && forall k :: lead < k < i ==> IsContinuation(s[k])
    ensures Scanned(s, i, back) == Scanned(s, lead + 1, back + (i - lead - 1))
    decreases i
  {
    if i > lead + 1 {
      ScanPasses(s, lead, i - 1, back + 1);
    }
  }

  /** Where the last, perhaps incomplete, character begins, the scan decides about the rest. */
  lemma LastCharacter(s: seq<Byte>, at: nat, c: CodePoint, k: nat)
    requires 0 < k <= |Encode(c)| && at + k == |s| && s[at..] == Encode(c)[..k]
    ensures Truncated(s) == if k == |Encode(c)| then |s| else at
  {
    hide Encode;
    var e := Encode(c);
    assert forall j :: 0 <= j < k ==> s[at + j] == s[at..][j] == e[j];
    assert s[at] == e[0];
    forall j | at < j < |s| ensures IsContinuation(s[j]) {
      assert s[j] == e[j - at];
    }
    ScanPasses(s, at, |s|, 0);
    LeadTellsLength(c);
  }

  /**
   * Whole characters are kept, and the beginning of one more is cut off: of a text in UTF-8 that arrives byte by
   * byte, exactly the complete characters are shown.
   */
  lemma TruncatesToWholeCharacters(cs: seq<CodePoint>, c: CodePoint, k: nat)
    requires k < |Encode(c)|
    ensures Truncated(EncodeAll(cs) + Encode(c)[..k]) == |EncodeAll(cs)|
  {
    hide Encode;
    var (whole, s) := (EncodeAll(cs), EncodeAll(cs) + Encode(c)[..k]);
    if k > 0 {
      LastCharacter(s, |whole|, c, k);
    } else {
      assert s == whole;
      if cs != [] {
        var n := |cs| - 1;
        SplitAt(cs, n);
        assert cs[n + 1..] == [] && whole == EncodeAll(cs[..n]) + Encode(cs[n]);
        var last := Encode(cs[n]);
        assert last[..|last|] == last;
        LastCharacter(whole, |EncodeAll(cs[..n])|, cs[n], |last|);
      }
    }
  }

  /** Every position in encoded text is within a code point or at the start of one. */
  lemma {:induction false} PositionOf(cs: seq<CodePoint>, n: nat) returns (j: nat, k: nat)
    requires n < |EncodeAll(cs)|
    ensures j < |cs| && k < |Encode(cs[j])| && n == |EncodeAll(cs[..j])| + k
    ensures EncodeAll(cs)[..n] == EncodeAll(cs[..j]) + Encode(cs[j])[..k] && EncodeAll(cs)[n] == Encode(cs[j])[k]
  {
    hide Encode;
    var first := Encode(cs[0]);
    if n < |first| {
      j, k := 0, n;
    } else {
      j, k := PositionOf(cs[1..], n - |first|);
      j := j + 1;
      assert cs[..j][0] == cs[0] && cs[..j][1..] == cs[1..][..j - 1];
    }
  }

  lemma EncodedGrows(cs: seq<CodePoint>, i: nat, j: nat)
    requires i <= j <= |cs|
    ensures |EncodeAll(cs[..i])| <= |EncodeAll(cs[..j])|
  {
    assert cs[..j] == cs[..i] + cs[i..j];
    EncodeAllConcat(cs[..i], cs[i..j]);
  }

  lemma KeptOf(cs: seq<CodePoint>, n: nat) returns (j: nat)
    requires n <= |EncodeAll(cs)|
    ensures j <= |cs| && Truncated(EncodeAll(cs)[..n]) == |EncodeAll(cs[..j])| <= n
    ensures n == |EncodeAll(cs)| || EncodeAll(cs)[n] < 0x80 ==> |EncodeAll(cs[..j])| == n
    ensures n < |EncodeAll(cs)| ==> j < |cs| && n < |EncodeAll(cs[..j + 1])|
  {
    hide Encode, Truncated;
    if n == |EncodeAll(cs)| {
      j := |cs|;
      TruncatesToWholeCharacters(cs, 0x41, 0);
      assert cs[..j] == cs && EncodeAll(cs)[..n] == EncodeAll(cs) + Encode(0x41)[..0];
    } else {
      var k: nat;
      j, k := PositionOf(cs, n);
      TruncatesToWholeCharacters(cs[..j], cs[j], k);
      assert cs[..j + 1] == cs[..j] + [cs[j]];
      EncodeAllConcat(cs[..j], [cs[j]]);
      EncodeAllOne(cs[j]);
      assert k > 0 ==> IsContinuation(Encode(cs[j])[k]);
    }
  }

  /** Of text in UTF-8, more bytes never keep less, and all is kept before an ASCII character. */
  lemma TruncationGrows(cs: seq<CodePoint>, m: nat, n: nat)
    requires m <= n <= |EncodeAll(cs)|
    ensures Truncated(EncodeAll(cs)[..m]) <= Truncated(EncodeAll(cs)[..n]) <= n
    ensures n < |EncodeAll(cs)| && EncodeAll(cs)[n] < 0x80 ==> Truncated(EncodeAll(cs)[..n]) == n
  {
    hide Encode, Truncated;
    var i := KeptOf(cs, m);
    var j := KeptOf(cs, n);
    if i <= j {
      EncodedGrows(cs, i, j);
    } else if n < |EncodeAll(cs)| {
      EncodedGrows(cs, j + 1, i);
    }
  }
}

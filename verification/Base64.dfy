/** base64.hpp: the encoder and the decoder, over bytes. Shifts and masks are written as arithmetic. */
module Base64 {
  import opened Wrappers
  import Utf8

  type Byte = Utf8.Byte

  datatype Alphabet = Auto | Standard | UrlSafe

  const PAD: Byte := 61

  // ---- symbols -------------------------------------------------------------------------------

  /** The character for a value of six bits. Encoding with `Auto` uses the standard alphabet. */
  function Symbol(alphabet: Alphabet, v: nat): Byte
    requires v < 64
  {
    if v < 26 then 'A' as int + v
    else if v < 52 then 'a' as int + v - 26
    else if v < 62 then '0' as int + v - 52
    else if alphabet == UrlSafe then if v == 62 then '-' as int else '_' as int
    else if v == 62 then '+' as int else '/' as int
  }

  /** _base64_value: the value, and the alphabet from there on. */
  function SextetOf(alphabet: Alphabet, c: Byte): (r: Option<(Alphabet, nat)>)
    ensures r.Some? ==> r.value.1 < 64
  {
    if 'A' as int <= c <= 'Z' as int then Some((alphabet, c - 'A' as int))
    else if 'a' as int <= c <= 'z' as int then Some((alphabet, c - 'a' as int + 26))
    else if '0' as int <= c <= '9' as int then Some((alphabet, c - '0' as int + 52))
    else if alphabet != UrlSafe && c == '+' as int then Some((Standard, 62))
    else if alphabet != UrlSafe && c == '/' as int then Some((Standard, 63))
    else if alphabet != Standard && c == '-' as int then Some((UrlSafe, 62))
    else if alphabet != Standard && c == '_' as int then Some((UrlSafe, 63))
    else None
  }

  /** The alphabets with which a text in `alphabet` can be decoded. */
  predicate Reads(decoding: Alphabet, alphabet: Alphabet) {
    decoding == Auto || decoding == (if alphabet == Auto then Standard else alphabet)
  }

  lemma SymbolsAreRead(decoding: Alphabet, alphabet: Alphabet, v: nat)
    requires v < 64 && Reads(decoding, alphabet)
    ensures Symbol(alphabet, v) != PAD
    ensures var r := SextetOf(decoding, Symbol(alphabet, v));
      r.Some? && r.value.1 == v && Reads(r.value.0, alphabet)
  {
  }

  // ---- encoding ------------------------------------------------------------------------------

  /** The characters for up to three bytes. */
  function EncodedGroup(alphabet: Alphabet, b: seq<Byte>): (r: seq<Byte>)
    requires 1 <= |b| <= 3
    ensures |r| == 4
  {
    var i0 := b[0];
    if |b| == 1 then
      [Symbol(alphabet, i0 / 4), Symbol(alphabet, i0 % 4 * 16), PAD, PAD]
    else
      var i1 := b[1];
      if |b| == 2 then
        [Symbol(alphabet, i0 / 4), Symbol(alphabet, i0 % 4 * 16 + i1 / 16), Symbol(alphabet, i1 % 16 * 4), PAD]
      else
        var i2 := b[2];
        [Symbol(alphabet, i0 / 4), Symbol(alphabet, i0 % 4 * 16 + i1 / 16), Symbol(alphabet, i1 % 16 * 4 + i2 / 64),
         Symbol(alphabet, i2 % 64)]
  }

  function Encoded(alphabet: Alphabet, bytes: seq<Byte>): seq<Byte> {
    if bytes == [] then []
    else if |bytes| <= 3 then EncodedGroup(alphabet, bytes)
    else EncodedGroup(alphabet, bytes[..3]) + Encoded(alphabet, bytes[3..])
  }

  method Encode(bytes: seq<Byte>, alphabet: Alphabet) returns (out: seq<Byte>)
    ensures out == Encoded(alphabet, bytes)
  {
    hide Symbol, Encoded;
    out := [];
    var at := 0;
    EncodedNothing(alphabet, bytes);
    while at != |bytes|
      invariant 0 <= at <= |bytes|
      invariant out + Encoded(alphabet, bytes[at..]) == Encoded(alphabet, bytes)
    {
      ghost var (was, rest) := (out, bytes[at..]);
      var i0 := bytes[at];
      at := at + 1;
      out := out + [Symbol(alphabet, i0 / 4)];
      if at == |bytes| {
        out := out + [Symbol(alphabet, i0 % 4 * 16)];
        out := out + [PAD];
        out := out + [PAD];
        assert rest == [i0];
        EncodedLast(alphabet, rest);
        FourAppended(was, Symbol(alphabet, i0 / 4), Symbol(alphabet, i0 % 4 * 16), PAD, PAD);
        return;
      }
      var i1 := bytes[at];
      at := at + 1;
      out := out + [Symbol(alphabet, i0 % 4 * 16 + i1 / 16)];
      if at == |bytes| {
        out := out + [Symbol(alphabet, i1 % 16 * 4)];
        out := out + [PAD];
        assert rest == [i0, i1];
        EncodedLast(alphabet, rest);
        FourAppended(was, Symbol(alphabet, i0 / 4), Symbol(alphabet, i0 % 4 * 16 + i1 / 16),
                     Symbol(alphabet, i1 % 16 * 4), PAD);
        return;
      }
      var i2 := bytes[at];
      at := at + 1;
      out := out + [Symbol(alphabet, i1 % 16 * 4 + i2 / 64)];
      out := out + [Symbol(alphabet, i2 % 64)];
      assert rest == [i0, i1, i2] + bytes[at..];
      EncodedStep(alphabet, [i0, i1, i2], bytes[at..]);
      FourAppended(was, Symbol(alphabet, i0 / 4), Symbol(alphabet, i0 % 4 * 16 + i1 / 16),
                   Symbol(alphabet, i1 % 16 * 4 + i2 / 64), Symbol(alphabet, i2 % 64));
      Reassociate(was, EncodedGroup(alphabet, [i0, i1, i2]), Encoded(alphabet, bytes[at..]));
    }
    EncodedNothing(alphabet, bytes[at..]);
    assert out + [] == out;
  }

  lemma FourAppended(s: seq<Byte>, a: Byte, b: Byte, c: Byte, d: Byte)
    ensures s + [a] + [b] + [c] + [d] == s + [a, b, c, d]
  {
  }

  lemma Reassociate(a: seq<Byte>, b: seq<Byte>, c: seq<Byte>)
    ensures a + (b + c) == a + b + c
  {
  }

  lemma EncodedNothing(alphabet: Alphabet, bytes: seq<Byte>)
    ensures [] + Encoded(alphabet, bytes[0..]) == Encoded(alphabet, bytes)
    ensures Encoded(alphabet, []) == []
  {
    assert bytes[0..] == bytes;
  }

  lemma EncodedLast(alphabet: Alphabet, bytes: seq<Byte>)
    requires 1 <= |bytes| <= 3
    ensures Encoded(alphabet, bytes) == EncodedGroup(alphabet, bytes)
  {
  }

  lemma EncodedStep(alphabet: Alphabet, group: seq<Byte>, rest: seq<Byte>)
    requires |group| == 3
    ensures Encoded(alphabet, group + rest) == EncodedGroup(alphabet, group) + Encoded(alphabet, rest)
  {
    hide EncodedGroup;
    var all := group + rest;
    if rest == [] {
      assert all == group && EncodedGroup(alphabet, group) + [] == EncodedGroup(alphabet, group);
    } else {
      assert all[..3] == group && all[3..] == rest;
    }
  }

  function RequiredEncodeSize(size: nat): nat {
    (size / 3 + if size % 3 != 0 then 1 else 0) * 4
  }

  function MaxDecodeSize(size: nat): nat {
    (size / 4 + if size % 4 != 0 then 1 else 0) * 3
  }

  lemma {:induction false} EncodedSize(alphabet: Alphabet, bytes: seq<Byte>)
    ensures |Encoded(alphabet, bytes)| == RequiredEncodeSize(|bytes|)
  {
    if |bytes| > 3 {
      hide EncodedGroup, RequiredEncodeSize;
      EncodedSize(alphabet, bytes[3..]);
      SizeOfGroup(|bytes|);
    }
  }

  lemma SizeOfGroup(size: nat)
    requires size >= 3
    ensures RequiredEncodeSize(size) == 4 + RequiredEncodeSize(size - 3)
  {
    var rest := size - 3;
    assert size / 3 == rest / 3 + 1 && size % 3 == rest % 3;
  }

  // ---- decoding ------------------------------------------------------------------------------

  /** The byte made of the last value's remaining bits and the next value's first ones; the others are shifted out. */
  function Joined(last: nat, part: nat, bits: nat): Byte
    requires last < 64 && part < 64 && (bits == 2 || bits == 4 || bits == 6)
  {
    if bits == 6 then last * 4 + part / 16
    else if bits == 4 then last % 16 * 16 + part / 4
    else last % 4 * 64 + part
  }

  predicate AllPads(s: seq<Byte>) {
    forall i :: 0 <= i < |s| ==> s[i] == PAD
  }

  predicate Aligned(bits: nat, last: nat) {
    bits % 2 == 0 && bits <= 6 && last < 64
  }

  function Before(head: seq<Byte>, r: Result<seq<Byte>>): Result<seq<Byte>> {
    if r.Err? then r else Ok(head + r.value)
  }

  /** Decoding with `bits` bits of `last` still to be written. */
  function DecodedFrom(s: seq<Byte>, alphabet: Alphabet, bits: nat, last: nat, loose: bool): Result<seq<Byte>>
    requires Aligned(bits, last)
    decreases |s|
  {
    if s == [] then Ok([])
    else if s[0] == PAD then if loose || AllPads(s[1..]) then Ok([]) else Err("invalid base64 character.")
    else
      match SextetOf(alphabet, s[0])
      case None => Err("invalid base64 character.")
      case Some((next, part)) =>
        if bits + 6 >= 8 then
          Before([Joined(last, part, bits)], DecodedFrom(s[1..], next, bits - 2, part, loose))
        else DecodedFrom(s[1..], next, bits + 6, part, loose)
  }

  function Decoded(s: seq<Byte>, alphabet: Alphabet, loose: bool): Result<seq<Byte>> {
    DecodedFrom(s, alphabet, 0, 0, loose)
  }

  /** decode_inplace: the result replaces the beginning of the text and never runs into what is still to be read. */
  method DecodeInPlace(str: array<Byte>, alphabet: Alphabet, loose: bool) returns (r: Result<nat>)
    modifies str
    ensures r.Ok? <==> Decoded(old(str[..]), alphabet, loose).Ok?
    ensures r.Ok? ==> r.value <= str.Length && Ok(str[..r.value]) == Decoded(old(str[..]), alphabet, loose)
  {
    hide DecodedFrom, Joined, SextetOf, AllPads;
    var at, out, last: nat, bits: nat, current := 0, 0, 0, 0, alphabet;
    ghost var text := str[..];
    DecodedNothing(text, alphabet, loose);
    while at != str.Length
      invariant 0 <= out <= at <= str.Length && Aligned(bits, last)
      invariant str[at..] == text[at..]
      invariant Before(str[..out], DecodedFrom(text[at..], current, bits, last, loose))
                == Decoded(text, alphabet, loose)
    {
      ghost var rest := text[at..];
      var c := str[at];
      assert c == str[at..][0] == rest[0] && rest[1..] == text[at + 1..];
      DecodedStep(rest, current, bits, last, loose, str[..out]);
      at := at + 1;
      if c == PAD {
        assert str[..out] + [] == str[..out];
        r := CheckPadding(str, at, loose, out);
        return;
      }
      var part := SextetOf(current, c);
      if part.None? {
        return Err("invalid base64 character.");
      }
      ghost var was := str[..out];
      if bits + 6 >= 8 {
        str[out] := Joined(last, part.value.1, bits);
        out := out + 1;
        assert str[..out] == was + [Joined(last, part.value.1, bits)];
        bits := bits - 2;
      } else {
        bits := bits + 6;
      }
      current, last := part.value.0, part.value.1;
    }
    DecodedNothing(text[at..], current, loose);
    assert str[..out] + [] == str[..out];
    r := CheckPadding(str, at, loose, out);
  }

  /** The end of decode: from a padding character on there is nothing else, unless that does not matter. */
  method CheckPadding(str: array<Byte>, from: nat, loose: bool, out: nat) returns (r: Result<nat>)
    requires from <= str.Length
    ensures r == if loose || AllPads(str[from..]) then Ok(out) else Err("invalid base64 character.")
  {
    var at := from;
    if !loose {
      while at != str.Length
        invariant from <= at <= str.Length && AllPads(str[from..at])
      {
        if str[at] != PAD {
          assert str[from..][at - from] != PAD;
          return Err("invalid base64 character.");
        }
        at := at + 1;
      }
      assert str[from..at] == str[from..];
    }
    return Ok(out);
  }

  lemma DecodedNothing(s: seq<Byte>, alphabet: Alphabet, loose: bool)
    ensures Before([], DecodedFrom(s[0..], alphabet, 0, 0, loose)) == Decoded(s, alphabet, loose)
    ensures forall bits, last :: Aligned(bits, last) ==> DecodedFrom([], alphabet, bits, last, loose) == Ok([])
    ensures AllPads([])
  {
    hide AllPads;
    assert s[0..] == s;
    var r := DecodedFrom(s, alphabet, 0, 0, loose);
    assert r.Ok? ==> [] + r.value == r.value;
    assert AllPads([]) by { NoPads(); }
  }

  lemma NoPads()
    ensures AllPads([])
  {
  }

  /** What one character does to the state of the decoder, `head` having been written before. */
  lemma DecodedStep(s: seq<Byte>, alphabet: Alphabet, bits: nat, last: nat, loose: bool, head: seq<Byte>)
    requires Aligned(bits, last) && s != []
    ensures var (r, part) := (DecodedFrom(s, alphabet, bits, last, loose), SextetOf(alphabet, s[0]));
      if s[0] == PAD then r == if loose || AllPads(s[1..]) then Ok([]) else Err("invalid base64 character.")
      else if part.None? then r.Err?
      else if bits + 6 >= 8 then
        Before(head, r)
          == Before(head + [Joined(last, part.value.1, bits)],
                    DecodedFrom(s[1..], part.value.0, bits - 2, part.value.1, loose))
      else r == DecodedFrom(s[1..], part.value.0, bits + 6, part.value.1, loose)
  {
    hide AllPads, SextetOf, Joined, Before;
    var part := SextetOf(alphabet, s[0]);
    if s[0] != PAD && part.Some? && bits + 6 >= 8 {
      BeforeTwice(head, [Joined(last, part.value.1, bits)],
                  DecodedFrom(s[1..], part.value.0, bits - 2, part.value.1, loose));
    }
  }

  // ---- laws ----------------------------------------------------------------------------------

  /** A symbol of the encoder is read as the value that it was made from. */
  lemma SymbolStep(decoding: Alphabet, alphabet: Alphabet, v: nat, rest: seq<Byte>, bits: nat, last: nat, loose: bool)
    returns (next: Alphabet)
    requires v < 64 && Reads(decoding, alphabet) && Aligned(bits, last)
    ensures Reads(next, alphabet)
    ensures DecodedFrom([Symbol(alphabet, v)] + rest, decoding, bits, last, loose)
         == if bits == 0 then DecodedFrom(rest, next, 6, v, loose)
            else Before([Joined(last, v, bits)], DecodedFrom(rest, next, bits - 2, v, loose))
  {
    hide Symbol, SextetOf, AllPads, Joined;
    SymbolsAreRead(decoding, alphabet, v);
    next := SextetOf(decoding, Symbol(alphabet, v)).value.0;
    assert ([Symbol(alphabet, v)] + rest)[1..] == rest;
  }

  lemma BeforeTwice(a: seq<Byte>, b: seq<Byte>, r: Result<seq<Byte>>)
    ensures Before(a, Before(b, r)) == Before(a + b, r)
  {
    if r.Ok? {
      Reassociate(a, b, r.value);
    }
  }

  lemma Joins(i0: Byte, i1: Byte, i2: Byte)
    ensures Joined(i0 / 4, i0 % 4 * 16 + i1 / 16, 6) == i0
    ensures Joined(i0 % 4 * 16 + i1 / 16, i1 % 16 * 4 + i2 / 64, 4) == i1
    ensures Joined(i1 % 16 * 4 + i2 / 64, i2 % 64, 2) == i2
  {
  }

  /** Four characters of a full group give its bytes and leave no bits over. */
  lemma GroupIsDecoded(decoding: Alphabet, alphabet: Alphabet, b: seq<Byte>, rest: seq<Byte>, last: nat, loose: bool)
    returns (next: Alphabet)
    requires |b| == 3 && Reads(decoding, alphabet) && last < 64
    ensures Reads(next, alphabet)
    ensures DecodedFrom(EncodedGroup(alphabet, b) + rest, decoding, 0, last, loose)
         == Before(b, DecodedFrom(rest, next, 0, b[2] % 64, loose))
  {
    hide Symbol, SextetOf, AllPads, DecodedFrom, Joined, Reads, Before;
    var (v0, v1, v2, v3) := (b[0] / 4, b[0] % 4 * 16 + b[1] / 16, b[1] % 16 * 4 + b[2] / 64, b[2] % 64);
    var r3 := [Symbol(alphabet, v3)] + rest;
    var r2 := [Symbol(alphabet, v2)] + r3;
    var r1 := [Symbol(alphabet, v1)] + r2;
    assert EncodedGroup(alphabet, b) + rest == [Symbol(alphabet, v0)] + r1;
    next := SymbolStep(decoding, alphabet, v0, r1, 0, last, loose);
    next := SymbolStep(next, alphabet, v1, r2, 6, v0, loose);
    next := SymbolStep(next, alphabet, v2, r3, 4, v1, loose);
    next := SymbolStep(next, alphabet, v3, rest, 2, v2, loose);
    Joins(b[0], b[1], b[2]);
    var end := DecodedFrom(rest, next, 0, v3, loose);
    BeforeTwice([b[1]], [b[2]], end);
    BeforeTwice([b[0]], [b[1]] + [b[2]], end);
    assert [b[0]] + ([b[1]] + [b[2]]) == b;
  }

  lemma LastGroupIsDecoded(decoding: Alphabet, alphabet: Alphabet, b: seq<Byte>, last: nat, loose: bool)
    requires 1 <= |b| <= 3 && Reads(decoding, alphabet) && last < 64
    ensures DecodedFrom(EncodedGroup(alphabet, b), decoding, 0, last, loose) == Ok(b)
  {
    hide Symbol, SextetOf, Joined, Reads;
    var (i0, i1) := (b[0], if |b| > 1 then b[1] else 0);
    var (v0, v1, v2) := (i0 / 4, i0 % 4 * 16 + i1 / 16, i1 % 16 * 4);
    Joins(i0, i1, 0);
    if |b| == 3 {
      var next := GroupIsDecoded(decoding, alphabet, b, [], last, loose);
      assert EncodedGroup(alphabet, b) + [] == EncodedGroup(alphabet, b) && b + [] == b;
    } else if |b| == 1 {
      var r1 := [Symbol(alphabet, v1)] + [PAD, PAD];
      assert EncodedGroup(alphabet, b) == [Symbol(alphabet, v0)] + r1;
      var next := SymbolStep(decoding, alphabet, v0, r1, 0, last, loose);
      next := SymbolStep(next, alphabet, v1, [PAD, PAD], 6, v0, loose);
      assert DecodedFrom([PAD, PAD], next, 4, v1, loose) == Ok([]) && [i0] + [] == b;
    } else {
      var r2 := [Symbol(alphabet, v2)] + [PAD];
      var r1 := [Symbol(alphabet, v1)] + r2;
      assert EncodedGroup(alphabet, b) == [Symbol(alphabet, v0)] + r1;
      var next := SymbolStep(decoding, alphabet, v0, r1, 0, last, loose);
      next := SymbolStep(next, alphabet, v1, r2, 6, v0, loose);
      next := SymbolStep(next, alphabet, v2, [PAD], 4, v1, loose);
      assert DecodedFrom([PAD], next, 2, v2, loose) == Ok([]);
      assert [i0] + ([i1] + []) == b;
    }
  }

  lemma {:induction false} DecodesEncoded(decoding: Alphabet, alphabet: Alphabet, bytes: seq<Byte>, last: nat,
                                          loose: bool)
    requires Reads(decoding, alphabet) && last < 64
    ensures DecodedFrom(Encoded(alphabet, bytes), decoding, 0, last, loose) == Ok(bytes)
    decreases |bytes|
  {
    hide EncodedGroup, DecodedFrom, Reads;
    if bytes == [] {
      DecodedNothing([], decoding, loose);
    } else if |bytes| <= 3 {
      LastGroupIsDecoded(decoding, alphabet, bytes, last, loose);
    } else {
      var rest := bytes[3..];
      var next := GroupIsDecoded(decoding, alphabet, bytes[..3], Encoded(alphabet, rest), last, loose);
      DecodesEncoded(next, alphabet, rest, bytes[2] % 64, loose);
      assert bytes[..3] + rest == bytes;
    }
  }

  /** Decoding undoes encoding: with the same alphabet or with detection, strictly or loosely. */
  lemma DecodeUndoesEncode(decoding: Alphabet, alphabet: Alphabet, bytes: seq<Byte>, loose: bool)
    requires Reads(decoding, alphabet)
    ensures Decoded(Encoded(alphabet, bytes), decoding, loose) == Ok(bytes)
  {
    DecodesEncoded(decoding, alphabet, bytes, 0, loose);
  }

  // ---- which texts are accepted --------------------------------------------------------------

  /** The text before the first padding character. */
  function Body(s: seq<Byte>): (r: seq<Byte>)
    ensures |r| <= |s| && r <= s
  {
    if s == [] || s[0] == PAD then [] else [s[0]] + Body(s[1..])
  }

  /** All the characters belong to one alphabet, the given one if it is given. */
  predicate InOneAlphabet(alphabet: Alphabet, s: seq<Byte>) {
    exists a :: a != Auto && (alphabet == Auto || a == alphabet) && InAlphabet(a, s)
  }

  predicate InAlphabet(a: Alphabet, s: seq<Byte>) {
    forall i :: 0 <= i < |s| ==> SextetOf(a, s[i]).Some?
  }

  /** Detection settles on an alphabet at the first character that only that one has. */
  lemma OneMoreCharacter(alphabet: Alphabet, c: Byte, s: seq<Byte>)
    ensures InOneAlphabet(alphabet, [c] + s) <==>
      SextetOf(alphabet, c).Some? && InOneAlphabet(SextetOf(alphabet, c).value.0, s)
  {
    hide InAlphabet;
    InAlphabetCons(Standard, c, s);
    InAlphabetCons(UrlSafe, c, s);
    assert InOneAlphabet(alphabet, [c] + s) <==>
      (alphabet != UrlSafe && InAlphabet(Standard, [c] + s)) || (alphabet != Standard && InAlphabet(UrlSafe, [c] + s));
    if SextetOf(alphabet, c).Some? {
      var next := SextetOf(alphabet, c).value.0;
      assert InOneAlphabet(next, s) <==>
        (next != UrlSafe && InAlphabet(Standard, s)) || (next != Standard && InAlphabet(UrlSafe, s));
    }
  }

  lemma InAlphabetCons(a: Alphabet, c: Byte, s: seq<Byte>)
    ensures InAlphabet(a, [c] + s) <==> SextetOf(a, c).Some? && InAlphabet(a, s)
  {
    var all := [c] + s;
    assert all[0] == c && all[1..] == s;
    if InAlphabet(a, all) {
      forall i | 0 <= i < |s| ensures SextetOf(a, s[i]).Some? {
        assert SextetOf(a, all[i + 1]).Some?;
      }
    }
  }

  lemma {:induction false} AcceptedFrom(s: seq<Byte>, alphabet: Alphabet, bits: nat, last: nat, loose: bool)
    requires Aligned(bits, last)
    ensures DecodedFrom(s, alphabet, bits, last, loose).Ok? <==>
      InOneAlphabet(alphabet, Body(s)) && (loose || AllPads(s[|Body(s)|..]))
    ensures var r := DecodedFrom(s, alphabet, bits, last, loose);
      r.Ok? ==> |r.value| == (bits + 6 * |Body(s)|) / 8
    decreases |s|
  {
    hide SextetOf, InOneAlphabet, AllPads, Joined;
    if s == [] || s[0] == PAD {
      assert InOneAlphabet(alphabet, []) by { NothingIsInOneAlphabet(alphabet); }
      assert s[0..] == s;
      PadsCons(s);
    } else {
      var rest := s[1..];
      OneMoreCharacter(alphabet, s[0], Body(rest));
      assert s[|Body(s)|..] == rest[|Body(rest)|..];
      var part := SextetOf(alphabet, s[0]);
      if part.Some? {
        AcceptedFrom(rest, part.value.0, if bits + 6 >= 8 then bits - 2 else bits + 6, part.value.1, loose);
      }
    }
  }

  lemma NothingIsInOneAlphabet(alphabet: Alphabet)
    ensures InOneAlphabet(alphabet, [])
  {
    assert InAlphabet(Standard, []) && InAlphabet(UrlSafe, []);
  }

  lemma PadsCons(s: seq<Byte>)
    ensures s == [] ==> AllPads(s)
    ensures s != [] && s[0] == PAD ==> (AllPads(s) <==> AllPads(s[1..]))
  {
    assert forall i :: 1 <= i < |s| ==> s[i] == s[1..][i - 1];
  }

  /**
   * A text is accepted exactly if everything before the first padding character is of one alphabet and, unless
   * that does not matter, only padding follows. Every character but the padding then counts for six bits.
   */
  lemma AcceptedIff(s: seq<Byte>, alphabet: Alphabet, loose: bool)
    ensures Decoded(s, alphabet, loose).Ok? <==>
      InOneAlphabet(alphabet, Body(s)) && (loose || AllPads(s[|Body(s)|..]))
    ensures var r := Decoded(s, alphabet, loose);
      r.Ok? ==> |r.value| == 3 * |Body(s)| / 4 && |r.value| <= MaxDecodeSize(|s|)
  {
    hide InOneAlphabet, AllPads, DecodedFrom;
    AcceptedFrom(s, alphabet, 0, 0, loose);
  }

  // ---- section 10 of RFC 4648 ----------------------------------------------------------------

  function Ascii(s: string): (r: seq<Byte>)
    requires forall i :: 0 <= i < |s| ==> s[i] as int < 128
    ensures |r| == |s| && forall i :: 0 <= i < |r| ==> r[i] == s[i] as int
  {
    seq(|s|, i requires 0 <= i < |s| => s[i] as int)
  }

  /** "f", "fo" and "foo" in the standard alphabet, and two bytes on which the alphabets differ. */
  lemma TestVectors()
    ensures Encoded(Standard, []) == [] && Encoded(Standard, [102]) == Ascii("Zg==")
    ensures Encoded(Standard, [102, 111]) == Ascii("Zm8=") && Encoded(Standard, [102, 111, 111]) == Ascii("Zm9v")
    ensures Encoded(Standard, [0xFB, 0xFF]) == Ascii("+/8=") && Encoded(UrlSafe, [0xFB, 0xFF]) == Ascii("-_8=")
  {
  }
}

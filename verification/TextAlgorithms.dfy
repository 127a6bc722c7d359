/** Splitting, joining, replacing and unescaping strings, from common.cpp. */
module TextAlgorithms {
  import opened Wrappers
  import opened Text

  // ---- split, join, replace ------------------------------------------------------------------

  function Join(values: seq<string>, separator: string): string {
    if values == [] then ""
    else if |values| == 1 then values[0]
    else values[0] + separator + Join(values[1..], separator)
  }

  /** The pieces of s[start..] between the occurrences of a delimiter, leftmost first. */
  function Pieces(s: string, delimiter: string, start: nat): (r: seq<string>)
    requires delimiter != "" && start <= |s|
    ensures |r| > 0
    decreases |s| - start
  {
    match Find(s, delimiter, start)
    case None => [s[start..]]
    case Some(at) => [s[start..at]] + Pieces(s, delimiter, at + |delimiter|)
  }

  method StringJoin(values: seq<string>, separator: string) returns (r: string)
    ensures r == Join(values, separator)
  {
    r := "";
    var i := 0;
    while i < |values|
      invariant 0 <= i <= |values|
      invariant r == Join(values[..i], separator)
    {
      JoinSnoc(values[..i], values[i], separator);
      assert values[..i + 1] == values[..i] + [values[i]];
      if i > 0 {
        r := r + separator;
      }
      r := r + values[i];
      i := i + 1;
    }
    assert values[..|values|] == values;
  }

  lemma {:induction false} JoinSnoc(values: seq<string>, last: string, separator: string)
    ensures Join(values + [last], separator)
         == if values == [] then last else Join(values, separator) + separator + last
  {
    if |values| > 1 {
      JoinSnoc(values[1..], last, separator);
      assert (values + [last])[1..] == values[1..] + [last];
    } else if |values| == 1 {
      assert (values + [last])[1..] == [last];
    }
  }

  method StringSplit(str: string, delimiter: string) returns (parts: seq<string>)
    requires delimiter != ""
    ensures parts == Pieces(str, delimiter, 0)
  {
    hide Find;
    parts := [];
    var start := 0;
    var end := Find(str, delimiter, 0);
    while end.Some?
      invariant start <= |str| && end == Find(str, delimiter, start)
      invariant parts + Pieces(str, delimiter, start) == Pieces(str, delimiter, 0)
      decreases |str| - start
    {
      parts := parts + [str[start..end.value]];
      start := end.value + |delimiter|;
      end := Find(str, delimiter, start);
    }
    parts := parts + [str[start..]];
  }

  method StringReplaceAll(s: string, search: string, replace: string) returns (r: string)
    ensures r == if search == "" then s else Join(Pieces(s, search, 0), replace)
  {
    hide Find;
    if search == "" {
      return s;
    }
    r := "";
    var last := 0;
    var pos := Find(s, search, last);
    while pos.Some?
      invariant last <= |s| && pos == Find(s, search, last)
      invariant r + Join(Pieces(s, search, last), replace) == Join(Pieces(s, search, 0), replace)
      decreases |s| - last
    {
      ghost var was := r;
      var rest := Pieces(s, search, pos.value + |search|);
      assert Pieces(s, search, last)[1..] == rest;
      r := r + s[last..pos.value];
      r := r + replace;
      Regroup(was, s[last..pos.value], replace, Join(rest, replace));
      last := pos.value + |search|;
      pos := Find(s, search, last);
    }
    r := r + s[last..];
  }

  lemma Regroup(a: string, b: string, c: string, d: string)
    ensures a + (b + c + d) == a + b + c + d
  {
  }

  /** Joining the pieces with their delimiter gives the string back. */
  lemma {:induction false} JoinUndoesSplit(s: string, delimiter: string, start: nat)
    requires delimiter != "" && start <= |s|
    ensures Join(Pieces(s, delimiter, start), delimiter) == s[start..]
    decreases |s| - start
  {
    hide Find;
    var at := Find(s, delimiter, start);
    if at.Some? {
      FindIsLeast(s, delimiter, start);
      var next := at.value + |delimiter|;
      JoinUndoesSplit(s, delimiter, next);
      assert Pieces(s, delimiter, start)[1..] == Pieces(s, delimiter, next);
      assert s[start..] == s[start..at.value] + s[at.value..next] + s[next..];
    }
  }

  /** The pieces that splitting can produce: none but the last is cut short, and the last holds no delimiter. */
  predicate AreSplit(values: seq<string>, delimiter: string) {
    && |values| > 0
    && (forall i :: 0 <= i < |values| - 1 ==> Ends(values[i], delimiter))
    && Find(values[|values| - 1], delimiter, 0) == None
  }

  lemma FindShifts(s: string, needle: string, start: nat, shift: nat)
    requires shift <= start <= |s|
    ensures Find(s, needle, start)
         == (match Find(s[shift..], needle, start - shift) case None => None case Some(at) => Some(at + shift))
    decreases |s| - start
  {
    var t := s[shift..];
    if start + |needle| <= |s| {
      assert t[start - shift..start - shift + |needle|] == s[start..start + |needle|];
      if start < |s| {
        FindShifts(s, needle, start + 1, shift);
      }
    }
  }

  lemma {:induction false} PiecesShift(s: string, delimiter: string, start: nat, shift: nat)
    requires delimiter != "" && shift <= start <= |s|
    ensures Pieces(s, delimiter, start) == Pieces(s[shift..], delimiter, start - shift)
    decreases |s| - start
  {
    hide Find;
    FindShifts(s, delimiter, start, shift);
    var (t, at) := (s[shift..], Find(s, delimiter, start));
    if at.Some? {
      PiecesShift(s, delimiter, at.value + |delimiter|, shift);
      assert t[start - shift..at.value - shift] == s[start..at.value];
    } else {
      assert t[start - shift..] == s[start..];
    }
  }

  /** An occurrence that is found is found in every text that begins in the same way up to its end. */
  lemma FindInBoth(s: string, t: string, needle: string)
    requires Find(t, needle, 0) == Some(|t| - |needle|) && t <= s
    ensures Find(s, needle, 0) == Find(t, needle, 0)
  {
    hide Find;
    FindIsLeast(t, needle, 0);
    FindIsLeast(s, needle, 0);
    hide OccursAt;
    var at := |t| - |needle|;
    OccursInPrefix(t, s, needle, at);
    OccursInPrefix(t, s, needle, Min(at, Find(s, needle, 0).value));
  }

  lemma FoundEndsPiece(s: string, delimiter: string, start: nat)
    requires start <= |s| && Find(s, delimiter, start).Some?
    ensures Ends(s[start..Find(s, delimiter, start).value], delimiter)
  {
    hide Find;
    FindShifts(s, delimiter, start, start);
    var (rest, at) := (s[start..], Find(s, delimiter, start).value - start);
    FindIsLeast(s, delimiter, start);
    hide OccursAt;
    var piece := s[start..start + at];
    var t := piece + delimiter;
    EndOfPiece(s, delimiter, start, at);
    FindIsLeast(rest, delimiter, 0);
    FindIsLeast(t, delimiter, 0);
    OccursInPrefix(t, rest, delimiter, at);
    OccursInPrefix(t, rest, delimiter, Find(t, delimiter, 0).value);
  }

  lemma EndOfPiece(s: string, delimiter: string, start: nat, at: nat)
    requires start + at <= |s| && OccursAt(s, delimiter, start + at)
    ensures var t := s[start..start + at] + delimiter;
      t <= s[start..] && OccursAt(t, delimiter, at)
  {
    var (rest, t) := (s[start..], s[start..start + at] + delimiter);
    SliceOfSlice(s, start, |s|, at, at + |delimiter|);
    assert rest[..at + |delimiter|] == rest[..at] + rest[at..at + |delimiter|];
    assert rest[..at] == s[start..start + at];
    assert t[at..] == delimiter;
  }

  lemma {:induction false} PiecesAreSplit(s: string, delimiter: string, start: nat)
    requires delimiter != "" && start <= |s|
    ensures AreSplit(Pieces(s, delimiter, start), delimiter)
    decreases |s| - start
  {
    hide Find, Ends;
    var at := Find(s, delimiter, start);
    if at.Some? {
      FoundEndsPiece(s, delimiter, start);
      PiecesAreSplit(s, delimiter, at.value + |delimiter|);
    } else {
      FindShifts(s, delimiter, start, start);
    }
  }

  lemma {:induction false} SplitUndoesJoin(values: seq<string>, delimiter: string)
    requires delimiter != "" && AreSplit(values, delimiter)
    ensures Pieces(Join(values, delimiter), delimiter, 0) == values
  {
    hide Find;
    var s := Join(values, delimiter);
    if |values| == 1 {
      assert s[0..] == s;
    } else {
      var rest := values[1..];
      forall i | 0 <= i < |rest| - 1 ensures Ends(rest[i], delimiter) {
        assert Ends(values[i + 1], delimiter);
      }
      SplitUndoesJoin(rest, delimiter);
      assert Ends(values[0], delimiter);
      FindInBoth(s, values[0] + delimiter, delimiter);
      var next := |values[0]| + |delimiter|;
      assert s[next..] == Join(rest, delimiter) && s[0..|values[0]|] == values[0];
      PiecesShift(s, delimiter, next, next);
    }
  }

  /** Splitting undoes joining exactly for the lists that splitting produces. */
  lemma SplitUndoesJoinIff(values: seq<string>, delimiter: string)
    requires delimiter != ""
    ensures Pieces(Join(values, delimiter), delimiter, 0) == values <==> AreSplit(values, delimiter)
  {
    hide AreSplit;
    PiecesAreSplit(Join(values, delimiter), delimiter, 0);
    if AreSplit(values, delimiter) {
      SplitUndoesJoin(values, delimiter);
    }
  }

  // ---- escapes -------------------------------------------------------------------------------

  function HexDigit(c: char): Option<nat> {
    if '0' <= c <= '9' then Some(c as nat - '0' as nat)
    else if 'a' <= c <= 'f' then Some(c as nat - 'a' as nat + 10)
    else if 'A' <= c <= 'F' then Some(c as nat - 'A' as nat + 10)
    else None
  }

  /** strtol on two characters in base 16, if it takes both: white space or a sign may stand for the first digit. */
  function HexPair(x: char, y: char): Option<char> {
    match HexDigit(y)
    case None => None
    case Some(low) =>
      if HexDigit(x).Some? then Some((HexDigit(x).value * 16 + low) as char)
      else if IsSpace(x) || x == '+' then Some(low as char)
      else if x == '-' then Some((if low == 0 then 0 else 256 - low) as char)
      else None
  }

  /** The character that a one-letter escape stands for. */
  function SimpleEscape(c: char): Option<char> {
    match c
    case 'n' => Some('\n')
    case 'r' => Some('\r')
    case 't' => Some('\t')
    case '\'' => Some('\'')
    case '"' => Some('"')
    case '\\' => Some('\\')
    case _ => None
  }

  function Unescaped(s: string): string {
    if s == "" then ""
    else if s[0] == '\\' && |s| > 1 then
      if SimpleEscape(s[1]).Some? then [SimpleEscape(s[1]).value] + Unescaped(s[2..])
      else if s[1] == 'x' && |s| > 3 && HexPair(s[2], s[3]).Some? then
        [HexPair(s[2], s[3]).value] + Unescaped(s[4..])
      else ['\\', s[1]] + Unescaped(s[2..])
    else [s[0]] + Unescaped(s[1..])
  }

  /** Every character that has a one-letter escape is written as that. */
  function Escaped(s: string): string {
    if s == "" then "" else EscapedChar(s[0]) + Escaped(s[1..])
  }

  function EscapedChar(c: char): string {
    match c
    case '\n' => "\\n"
    case '\r' => "\\r"
    case '\t' => "\\t"
    case '\'' => "\\'"
    case '"' => "\\\""
    case '\\' => "\\\\"
    case _ => [c]
  }

  /** What one step of the loop reads, and what it writes for it. */
  lemma UnescapedStep(s: string)
    requires s != ""
    ensures s[0] != '\\' || |s| == 1 ==> Unescaped(s) == [s[0]] + Unescaped(s[1..])
    ensures s[0] == '\\' && |s| > 1 ==>
      Unescaped(s)
        == if SimpleEscape(s[1]).Some? then [SimpleEscape(s[1]).value] + Unescaped(s[2..])
           else if s[1] == 'x' && |s| > 3 && HexPair(s[2], s[3]).Some? then
             [HexPair(s[2], s[3]).value] + Unescaped(s[4..])
           else ['\\', s[1]] + Unescaped(s[2..])
  {
    hide HexPair, SimpleEscape;
  }

  lemma UnescapedAt(s: string, i: nat)
    requires i < |s|
    ensures s[i] != '\\' || i + 1 == |s| ==> Unescaped(s[i..]) == [s[i]] + Unescaped(s[i + 1..])
    ensures s[i] == '\\' && i + 1 < |s| ==>
      Unescaped(s[i..])
        == if SimpleEscape(s[i + 1]).Some? then [SimpleEscape(s[i + 1]).value] + Unescaped(s[i + 2..])
           else if s[i + 1] == 'x' && i + 3 < |s| && HexPair(s[i + 2], s[i + 3]).Some? then
             [HexPair(s[i + 2], s[i + 3]).value] + Unescaped(s[i + 4..])
           else ['\\', s[i + 1]] + Unescaped(s[i + 2..])
  {
    hide Unescaped, HexPair, SimpleEscape;
    UnescapedStep(s[i..]);
    assert s[i..][1..] == s[i + 1..];
    assert i + 1 < |s| ==> s[i..][2..] == s[i + 2..];
    assert i + 3 < |s| ==> s[i..][4..] == s[i + 4..];
  }

  lemma {:induction false} UnescapeUndoesEscape(s: string)
    ensures Unescaped(Escaped(s)) == s
  {
    hide Unescaped, HexPair;
    if s == "" {
      assert Unescaped("") == "" by { NothingToUnescape(); }
    } else {
      UnescapeUndoesEscape(s[1..]);
      var (c, rest) := (s[0], Escaped(s[1..]));
      var all := EscapedChar(c) + rest;
      UnescapedStep(all);
      EscapedCharIsRead(c);
      assert all[|EscapedChar(c)|..] == rest;
      assert s == [c] + s[1..];
    }
  }

  lemma NothingToUnescape()
    ensures Unescaped("") == ""
  {
  }

  lemma EscapedCharIsRead(c: char)
    ensures var e := EscapedChar(c);
      if |e| == 1 then e[0] == c && c != '\\' else |e| == 2 && e[0] == '\\' && SimpleEscape(e[1]) == Some(c)
  {
  }

  /** string_process_escapes: the characters are overwritten from the left, never ahead of what is read. */
  method ProcessEscapes(input: array<char>) returns (length: nat)
    modifies input
    ensures length <= input.Length && input[..length] == Unescaped(old(input[..]))
  {
    hide Unescaped, HexPair, SimpleEscape;
    var (at, out) := (0, 0);
    ghost var (text, done) := (input[..], "");
    assert text[0..] == text && done + Unescaped(text) == Unescaped(text);
    while at < input.Length
      invariant 0 <= out <= at <= input.Length
      invariant forall k :: at <= k < input.Length ==> input[k] == text[k]
      invariant input[..out] == done && done + Unescaped(text[at..]) == Unescaped(text)
    {
      UnescapedAt(text, at);
      ghost var written: string;
      if input[at] == '\\' && at + 1 < input.Length {
        at := at + 1;
        var c := input[at];
        if SimpleEscape(c).Some? {
          written := [SimpleEscape(c).value];
          input[out] := SimpleEscape(c).value;
          out := out + 1;
        } else if c == 'x' && at + 2 < input.Length && HexPair(input[at + 1], input[at + 2]).Some? {
          var value := HexPair(input[at + 1], input[at + 2]).value;
          written := [value];
          at := at + 2;
          input[out] := value;
          out := out + 1;
        } else {
          written := ['\\', c];
          input[out] := '\\';
          out := out + 1;
          input[out] := input[at];
          out := out + 1;
        }
      } else {
        written := [input[at]];
        input[out] := input[at];
        out := out + 1;
      }
      at := at + 1;
      assert input[..out] == done + written;
      Appended(done, written, Unescaped(text[at..]));
      done := done + written;
    }
    assert text[at..] == "" && done + "" == done;
    NothingToUnescape();
    length := out;
  }

  lemma Appended(a: string, b: string, c: string)
    ensures a + (b + c) == a + b + c
  {
  }

  // ---- hexadecimal escapes -------------------------------------------------------------------

  const DIGITS := "0123456789abcdef"
  const CAPITALS := "0123456789ABCDEF"

  function Digit(d: nat, capital: bool): char
    requires d < 16
  {
    if capital then CAPITALS[d] else DIGITS[d]
  }

  /** A byte in two hexadecimal digits of either case is read as that byte. */
  lemma HexadecimalIsRead(n: nat, capital: bool, capital': bool, rest: string)
    requires n < 256
    ensures var (x, y) := (Digit(n / 16, capital), Digit(n % 16, capital'));
      Unescaped("\\x" + [x, y] + rest) == [n as char] + Unescaped(rest)
  {
    hide Unescaped, HexDigit;
    var (x, y) := (Digit(n / 16, capital), Digit(n % 16, capital'));
    DigitIsRead(n / 16, capital);
    DigitIsRead(n % 16, capital');
    var s := "\\x" + [x, y] + rest;
    UnescapedStep(s);
    assert s[4..] == rest && s[0] == '\\' && s[1] == 'x' && s[2] == x && s[3] == y;
  }

  lemma DigitIsRead(d: nat, capital: bool)
    requires d < 16
    ensures HexDigit(Digit(d, capital)) == Some(d)
  {
  }

  /** Where strtol would not take two characters, nothing is read. */
  lemma HexPairIff(x: char, y: char)
    ensures HexPair(x, y).Some? <==> HexDigit(y).Some? && (HexDigit(x).Some? || IsSpace(x) || x == '+' || x == '-')
    ensures HexDigit(y).Some? <==> y in DIGITS || y in CAPITALS
  {
    var c := y;
    if HexDigit(c).Some? {
      var d := HexDigit(c).value;
      assert DIGITS[d] == c || CAPITALS[d] == c;
    }
  }

  lemma OneLetterEscapes(rest: string)
    ensures Unescaped("\\n" + rest) == "\n" + Unescaped(rest) && Unescaped("\\r" + rest) == "\r" + Unescaped(rest)
    ensures Unescaped("\\t" + rest) == "\t" + Unescaped(rest) && Unescaped("\\\\" + rest) == "\\" + Unescaped(rest)
    ensures Unescaped("\\\"" + rest) == "\"" + Unescaped(rest) && Unescaped("\\'" + rest) == "'" + Unescaped(rest)
  {
    hide Unescaped;
    UnescapedStep("\\n" + rest);
    UnescapedStep("\\r" + rest);
    UnescapedStep("\\t" + rest);
    UnescapedStep("\\\\" + rest);
    UnescapedStep("\\\"" + rest);
    UnescapedStep("\\'" + rest);
    assert ("\\n" + rest)[2..] == rest && ("\\r" + rest)[2..] == rest && ("\\t" + rest)[2..] == rest;
    assert ("\\\\" + rest)[2..] == rest && ("\\\"" + rest)[2..] == rest && ("\\'" + rest)[2..] == rest;
  }
}

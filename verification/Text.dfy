/**
 String searching and trimming from common.cpp, together with the few members of
 std::string that the chat code relies on. A char stands for one byte.
 */
module Text {
  import opened Wrappers

  /** std::isspace in the "C" locale. */
  predicate IsSpace(c: char) {
    c == ' ' || '\t' <= c <= '\r'
  }

  predicate AllSpace(s: string) {
    forall i :: 0 <= i < |s| ==> IsSpace(s[i])
  }

  predicate OccursAt(s: string, needle: string, at: nat) {
    at + |needle| <= |s| && s[at..at + |needle|] == needle
  }

  /** std::string::find: the least occurrence at or after `from`. */
  function Find(s: string, needle: string, from: nat): (r: Option<nat>)
    ensures r.Some? ==> from <= r.value && r.value + |needle| <= |s|
    decreases |s| - from
  {
    if from + |needle| > |s| then None
    else if OccursAt(s, needle, from) then Some(from)
    else Find(s, needle, from + 1)
  }

  lemma {:induction false} FindIsLeast(s: string, needle: string, from: nat)
    ensures Find(s, needle, from).Some? ==> OccursAt(s, needle, Find(s, needle, from).value)
    ensures forall i: nat :: from <= i && OccursAt(s, needle, i) ==>
              Find(s, needle, from).Some? && Find(s, needle, from).value <= i
    decreases |s| - from
  {
    if from + |needle| <= |s| && !OccursAt(s, needle, from) {
      FindIsLeast(s, needle, from + 1);
    }
  }

  lemma OccursInPrefix(p: string, q: string, needle: string, at: nat)
    requires p <= q
    ensures at + |needle| <= |p| ==> (OccursAt(p, needle, at) <==> OccursAt(q, needle, at))
  {
    assert at + |needle| <= |p| ==> q[at..at + |needle|] == q[..|p|][at..at + |needle|];
  }

  lemma OccursBehind(s: string, from: nat, needle: string, at: nat)
    requires from <= |s|
    ensures OccursAt(s[from..], needle, at) <==> OccursAt(s, needle, from + at)
  {
    if at + |needle| <= |s| - from {
      SliceOfSlice(s, from, |s|, at, at + |needle|);
      assert s[from..|s|] == s[from..];
    }
  }

  /** Searching from a position is searching the text behind it. */
  lemma FindBehind(s: string, from: nat, needle: string)
    requires from <= |s|
    ensures var (all, rest) := (Find(s, needle, from), Find(s[from..], needle, 0));
      all == match rest case None => None case Some(at) => Some(from + at)
  {
    hide Find, OccursAt;
    FindIsLeast(s, needle, from);
    FindIsLeast(s[from..], needle, 0);
    var (all, rest) := (Find(s, needle, from), Find(s[from..], needle, 0));
    if all.Some? { OccursBehind(s, from, needle, all.value - from); }
    if rest.Some? { OccursBehind(s, from, needle, rest.value); }
  }

  /** The literal follows the text and does not occur any earlier, not even reaching into itself. */
  predicate Ends(text: string, literal: string) {
    Find(text + literal, literal, 0) == Some(|text|)
  }

  lemma StandsAt(s: string, literal: string, at: nat)
    requires at + |literal| <= |s| && s[at..at + |literal|] == literal
    ensures OccursAt(s, literal, at)
  {
  }

  lemma OccursInParts(s: string, a: string, b: string, at: nat)
    ensures OccursAt(s, a + b, at) <==> OccursAt(s, a, at) && OccursAt(s, b, at + |a|)
  {
    if at + |a| + |b| <= |s| {
      var whole := s[at..at + |a + b|];
      assert whole[..|a|] == s[at..at + |a|] && whole[|a|..] == s[at + |a|..at + |a| + |b|];
      assert whole == whole[..|a|] + whole[|a|..];
    }
  }

  lemma OccursInside(input: string, pos: nat, whole: string, literal: string, i: nat)
    requires OccursAt(input, whole, pos) && OccursAt(input, literal, pos + i) && i + |literal| <= |whole|
    ensures OccursAt(whole, literal, i)
  {
    var (stretch, found) := (input[pos..pos + |whole|], input[pos + i..pos + i + |literal|]);
    forall k | 0 <= k < |literal| ensures whole[i + k] == literal[k] {
      assert stretch[i + k] == input[pos + i + k] == found[k];
    }
  }

  lemma EndsWhereWritten(input: string, pos: nat, text: string, literal: string)
    requires pos <= |input| && OccursAt(input, text + literal, pos) && Ends(text, literal)
    ensures Find(input, literal, pos) == Some(pos + |text|)
  {
    hide Find;
    OccursInParts(input, text, literal, pos);
    FindIsLeast(input, literal, pos);
    FindIsLeast(text + literal, literal, 0);
    var at := Find(input, literal, pos).value;
    if at < pos + |text| {
      OccursInside(input, pos, text + literal, literal, at - pos);
    }
  }

  /** The first position at or after `from` that does not hold white space. */
  function SkipSpaces(s: string, from: nat): (r: nat)
    requires from <= |s|
    ensures from <= r <= |s|
    decreases |s| - from
  {
    if from < |s| && IsSpace(s[from]) then SkipSpaces(s, from + 1) else from
  }

  lemma {:induction false} SkipsExactlySpaces(s: string, from: nat)
    requires from <= |s|
    ensures forall i :: from <= i < SkipSpaces(s, from) ==> IsSpace(s[i])
    ensures SkipSpaces(s, from) < |s| ==> !IsSpace(s[SkipSpaces(s, from)])
    decreases |s| - from
  {
    if from < |s| && IsSpace(s[from]) {
      SkipsExactlySpaces(s, from + 1);
    }
  }

  /** The length that is left of `s` once its trailing white space is dropped. */
  function TrimmedLength(s: string): (r: nat)
    ensures r <= |s|
  {
    if |s| > 0 && IsSpace(s[|s| - 1]) then TrimmedLength(s[..|s| - 1]) else |s|
  }

  lemma {:induction false} TrimsExactlySpaces(s: string)
    ensures forall i :: TrimmedLength(s) <= i < |s| ==> IsSpace(s[i])
    ensures TrimmedLength(s) > 0 ==> !IsSpace(s[TrimmedLength(s) - 1])
  {
    if |s| > 0 && IsSpace(s[|s| - 1]) {
      TrimsExactlySpaces(s[..|s| - 1]);
    }
  }

  /** What string_strip computes: `s` without its leading and trailing white space. */
  function Strip(s: string): string {
    var start, end := SkipSpaces(s, 0), TrimmedLength(s);
    if start < end then s[start..end] else ""
  }

  method StringStrip(str: string) returns (r: string)
    ensures r == Strip(str)
  {
    var start, end := 0, |str|;
    while start < end && IsSpace(str[start])
      invariant 0 <= start <= end
      invariant forall i :: 0 <= i < start ==> IsSpace(str[i])
    {
      start := start + 1;
    }
    while end > start && IsSpace(str[end - 1])
      invariant start <= end <= |str|
      invariant forall i :: end <= i < |str| ==> IsSpace(str[i])
    {
      end := end - 1;
    }
    r := str[start..end];
    StripUnique(str, start, end);
  }

  /** `Strip` is pinned down by what it removes and by how its result begins and ends. */
  lemma StripUnique(s: string, start: nat, end: nat)
    requires start <= end <= |s|
    requires AllSpace(s[..start]) && AllSpace(s[end..])
    requires start < end ==> !IsSpace(s[start]) && !IsSpace(s[end - 1])
    ensures Strip(s) == s[start..end]
  {
    var a, b := SkipSpaces(s, 0), TrimmedLength(s);
    SkipsExactlySpaces(s, 0);
    TrimsExactlySpaces(s);
    forall i | 0 <= i < start ensures IsSpace(s[i]) {
      assert s[..start][i] == s[i];
    }
    forall i | end <= i < |s| ensures IsSpace(s[i]) {
      assert s[end..][i - end] == s[i];
    }
    if start < end {
      assert a == start;
      assert b == end;
    } else {
      assert forall i :: 0 <= i < |s| ==> IsSpace(s[i]);
      assert a == |s|;
    }
  }

  /** Every string is white space, its stripped form, white space. */
  lemma StripDecomposes(s: string) returns (left: string, right: string)
    ensures s == left + Strip(s) + right && AllSpace(left) && AllSpace(right)
    ensures Strip(s) != "" ==> !IsSpace(Strip(s)[0]) && !IsSpace(Strip(s)[|Strip(s)| - 1])
    ensures Strip(s) == "" <==> AllSpace(s)
  {
    var a, b := SkipSpaces(s, 0), TrimmedLength(s);
    SkipsExactlySpaces(s, 0);
    TrimsExactlySpaces(s);
    if a < b {
      left, right := s[..a], s[b..];
      assert s == s[..a] + s[a..b] + s[b..];
      assert !IsSpace(s[a]);
    } else {
      left, right := s, "";
      assert forall i :: b <= i < |s| ==> IsSpace(s[i]);
    }
  }

  /** Stripping keeps prefixes: text that grows has a stripped form that grows. */
  lemma StripKeepsPrefixes(p: string, q: string)
    requires p <= q
    ensures Strip(p) <= Strip(q)
  {
    var a, b := SkipSpaces(p, 0), TrimmedLength(p);
    SkipsExactlySpaces(p, 0);
    SkipsExactlySpaces(q, 0);
    TrimsExactlySpaces(p);
    TrimsExactlySpaces(q);
    if a < b {
      assert !IsSpace(q[a]) && !IsSpace(q[b - 1]);
      assert SkipSpaces(q, 0) == a;
      assert b <= TrimmedLength(q);
    }
  }

  predicate EndsWith(s: string, suffix: string) {
    |suffix| <= |s| && s[|s| - |suffix|..] == suffix
  }

  /** The text from `at` on is nonempty and could be the beginning of `stop`. */
  predicate HeldBackAt(s: string, stop: string, at: nat) {
    at < |s| && s[at..] <= stop
  }

  lemma HeldBackBehind(s: string, from: nat, literal: string, i: nat)
    requires from <= |s|
    ensures HeldBackAt(s[from..], literal, i) <==> HeldBackAt(s, literal, from + i)
  {
    if i < |s| - from {
      assert s[from..][i..] == s[from + i..];
    }
  }

  /** The least position from which the rest of `s` could be the beginning of `stop`. */
  function PartialStop(s: string, stop: string, from: nat := 0): (r: Option<nat>)
    requires from <= |s|
    ensures r.Some? ==> from <= r.value < |s|
    decreases |s| - from
  {
    if from == |s| then None
    else if HeldBackAt(s, stop, from) then Some(from)
    else PartialStop(s, stop, from + 1)
  }

  lemma {:induction false} PartialStopIsLeast(s: string, stop: string, from: nat)
    requires from <= |s|
    ensures PartialStop(s, stop, from).Some? ==> HeldBackAt(s, stop, PartialStop(s, stop, from).value)
    ensures forall i: nat :: from <= i && HeldBackAt(s, stop, i) ==>
              PartialStop(s, stop, from).Some? && PartialStop(s, stop, from).value <= i
    decreases |s| - from
  {
    if from < |s| && !HeldBackAt(s, stop, from) {
      PartialStopIsLeast(s, stop, from + 1);
    }
  }

  /** string_find_partial_stop: scans `stop` backwards and so meets the longest held-back suffix first. */
  method StringFindPartialStop(str: string, stop: string) returns (r: Option<nat>)
    ensures r == PartialStop(str, stop)
  {
    PartialStopIsLeast(str, stop, 0);
    if str != "" && stop != "" {
      var textLastChar := str[|str| - 1];
      var charIndex := |stop| - 1;
      while charIndex >= 0
        invariant -1 <= charIndex < |stop|
        invariant forall i: nat :: HeldBackAt(str, stop, i) ==> |str| - i <= charIndex + 1
      {
        if stop[charIndex] == textLastChar {
          var currentPartial := stop[..charIndex + 1];
          if EndsWith(str, currentPartial) {
            assert HeldBackAt(str, stop, |str| - charIndex - 1);
            return Some(|str| - charIndex - 1);
          }
        }
        forall i: nat | HeldBackAt(str, stop, i)
          ensures EndsWith(str, stop[..|str| - i]) && stop[|str| - i - 1] == textLastChar
        {
          assert str[i..] == stop[..|str| - i];
          assert str[i..][|str| - i - 1] == textLastChar;
        }
        charIndex := charIndex - 1;
      }
    }
    return None;
  }
}

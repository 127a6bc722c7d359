/** Finding literals where they were written. */
module XmlLiterals {
  import opened Wrappers
  import opened Text
  import opened ChatParser
  import opened XmlSpec

  // ---- literals in place ---------------------------------------------------------------------

  lemma FoundWhereWritten(input: string, pos: nat, partial: bool, text: string, literal: string)
    requires pos <= |input| && OccursAt(input, text + literal, pos) && Ends(text, literal)
    ensures FoundLiteral(input, pos, partial, literal)
         == Some(Match(text, pos + |text|, pos + |text| + |literal|))
  {
    hide Find, PartialStop;
    EndsWhereWritten(input, pos, text, literal);
    OccursInParts(input, text, literal, pos);
  }

  lemma NothingBefore(literal: string)
    ensures Ends("", literal)
  {
    assert "" + literal == literal;
  }

  predicate Visible(literal: string) {
    literal != "" && !IsSpace(literal[0])
  }

  predicate Differ(a: string, b: string) {
    exists i :: 0 <= i < |a| && i < |b| && a[i] != b[i]
  }

  lemma SameLetter(input: string, pos: nat, here: string, literal: string, i: nat)
    requires OccursAt(input, here, pos) && i < |here| && i < |literal|
    ensures OccursAt(input, literal, pos) || HeldBackAt(input, literal, pos) ==> here[i] == literal[i]
  {
    assert input[pos..pos + |here|][i] == here[i] == input[pos + i];
    if OccursAt(input, literal, pos) {
      assert input[pos..pos + |literal|][i] == literal[i];
    } else if HeldBackAt(input, literal, pos) {
      assert input[pos..][i] == literal[i];
    }
  }

  /** Where one literal stands, another one is found only behind something visible. */
  lemma OtherLiteralIsBehind(input: string, pos: nat, partial: bool, here: string, literal: string)
    requires pos <= |input| && OccursAt(input, here, pos) && Visible(here) && Differ(here, literal)
    ensures var r := FoundLiteral(input, pos, partial, literal); r.Some? ==> !AllSpace(r.value.prelude)
  {
    hide Find, PartialStop;
    var r := FoundLiteral(input, pos, partial, literal);
    FindIsLeast(input, literal, pos);
    PartialStopIsLeast(input, literal, 0);
    var i :| 0 <= i < |here| && i < |literal| && here[i] != literal[i];
    SameLetter(input, pos, here, literal, i);
    if r.Some? {
      assert input[pos..pos + |here|][0] == here[0];
      assert r.value.prelude[0] == here[0];
    }
  }

  /** Where one literal stands, one that differs from it is not found. */
  lemma OtherLiteralIsLater(input: string, pos: nat, partial: bool, here: string, literal: string)
    requires pos <= |input| && OccursAt(input, here, pos) && Differ(here, literal)
    ensures var r := FoundLiteral(input, pos, partial, literal); r.Some? ==> r.value.begin > pos
  {
    hide Find, PartialStop;
    FindIsLeast(input, literal, pos);
    PartialStopIsLeast(input, literal, 0);
    var i :| 0 <= i < |here| && i < |literal| && here[i] != literal[i];
    SameLetter(input, pos, here, literal, i);
  }

  lemma FoundHere(input: string, pos: nat, partial: bool, literal: string)
    requires pos <= |input| && OccursAt(input, literal, pos)
    ensures FoundLiteral(input, pos, partial, literal) == Some(Match("", pos, pos + |literal|))
  {
    hide Find, PartialStop, Ends;
    NothingBefore(literal);
    assert "" + literal == literal;
    FoundWhereWritten(input, pos, partial, "", literal);
  }

  lemma InBounds(s: string, needle: string, at: nat)
    requires OccursAt(s, needle, at)
    ensures at + |needle| <= |s| && s[at..at + |needle|] == needle
    ensures forall i :: 0 <= i < |needle| ==> s[at + i] == needle[i]
  {
    assert forall i :: 0 <= i < |needle| ==> s[at..at + |needle|][i] == needle[i];
  }

  /** A literal is not found in text without its first letter. */
  lemma WithoutLetter(text: string, literal: string)
    requires literal != "" && literal[0] !in text
    ensures Find(text, literal, 0) == None && Ends(text, literal)
  {
    hide Find, OccursAt, HeldBackAt;
    FindIsLeast(text, literal, 0);
    if Find(text, literal, 0).Some? {
      FirstLetter(text, literal, Find(text, literal, 0).value);
    }
    var (s, n) := (text + literal, |text|);
    FindIsLeast(s, literal, 0);
    assert s[n..n + |literal|] == literal;
    StandsAt(s, literal, n);
    FirstLetter(s, literal, Find(s, literal, 0).value);
  }

  lemma FirstLetter(s: string, literal: string, i: nat)
    requires literal != ""
    ensures OccursAt(s, literal, i) || HeldBackAt(s, literal, i) ==> i < |s| && s[i] == literal[0]
  {
    if OccursAt(s, literal, i) {
      InBounds(s, literal, i);
      assert s[i + 0] == literal[0];
    } else if HeldBackAt(s, literal, i) {
      assert s[i..][0] == s[i];
    }
  }

  lemma NoSpaceInNothing()
    ensures AllSpace("")
  {
  }

  // ---- pairs of literals ---------------------------------------------------------------------

  /** Two literals side by side are found as a pair. */
  lemma PairHere(cx: Context, pos: nat, first: string, second: string)
    requires pos <= |cx.input| && OccursAt(cx.input, first + second, pos) && Visible(second)
    ensures var r := FoundTwoFrom(cx, pos, first, second);
      r.Some? && r.value.begin == pos && r.value.prelude == ""
  {
    hide FoundLiteral, FoundTwo, OccursAt;
    OccursInParts(cx.input, first, second, pos);
    if first == "" {
      FoundHere(cx.input, pos, cx.partial, second);
    } else {
      FoundHere(cx.input, pos, cx.partial, first);
      FoundTwoStep(cx, pos, pos, first, second);
      SecondFollows(cx.input, pos + |first|, second);
    }
  }

  lemma SecondFollows(input: string, at: nat, second: string)
    requires OccursAt(input, second, at) && Visible(second)
    ensures at <= |input| && SkipSpaces(input, at) == at && Follows(input, at, second)
  {
    InBounds(input, second, at);
    assert input[at + 0] == second[0];
  }

  // ---- closing literals ----------------------------------------------------------------------

  /** A closing literal that stands right here is found whatever the alternatives are. */
  lemma CloseHere(cx: Context, pos: nat, end: string, alt: Option<string>, next: string, altNext: Option<string>)
    requires pos <= |cx.input| && OccursAt(cx.input, end, pos)
    ensures FoundClose(cx, pos, end, alt, next, altNext) == Close(|end|, Some(Match("", pos, pos + |end|)))
  {
    hide FoundLiteral, FoundTwoFrom, OccursAt;
    FoundHere(cx.input, pos, cx.partial, end);
  }

  /** So is the alternative one before what must follow it, where the other differs from them. */
  lemma AlternativeHere(cx: Context, pos: nat, end: string, alt: string, next: string, altNext: Option<string>,
                        follower: string)
    requires pos <= |cx.input| && OccursAt(cx.input, alt + follower, pos)
    requires (follower == next || altNext == Some(follower)) && Visible(follower) && Differ(alt + follower, end)
    ensures FoundClose(cx, pos, end, Some(alt), next, altNext) == Close(|alt|, Some(Match("", pos, pos + |alt|)))
  {
    hide FoundLiteral, FoundTwoFrom, OccursAt, Visible, Differ;
    PairHere(cx, pos, alt, follower);
    OtherLiteralIsLater(cx.input, pos, cx.partial, alt + follower, end);
    InBounds(cx.input, alt + follower, pos);
  }
}

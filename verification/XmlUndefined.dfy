/** When parse_xml_tool_calls reads an empty std::optional: at which positions, on which inputs, in which formats. */
module XmlUndefined {
  import opened Wrappers
  import opened Text
  import opened ChatTypes
  import opened ChatParser
  import opened XmlSpec
  import opened XmlLiterals
  import opened XmlForms

  // ---- the read at the name ------------------------------------------------------------------

  lemma ContainedIsFound(s: string, needle: string, from: nat, to: nat)
    requires from <= to <= |s| && Contains(s[from..to], needle)
    ensures Find(s, needle, from).Some? && Find(s, needle, from).value + |needle| <= to
  {
    hide Find;
    var part := s[from..to];
    FindIsLeast(part, needle, 0);
    FindIsLeast(s, needle, from);
    var at := Find(part, needle, 0).value;
    SliceOfSlice(s, from, to, at, at + |needle|);
    assert OccursAt(s, needle, from + at);
  }

  /**
   * The name is read through an empty optional exactly if what precedes its separator holds the alternative
   * end of a tool, and no end of a tool is found there that counts.
   */
  lemma NameIsUndefinedIff(cx: Context, pos: nat)
    requires Good(cx) && pos <= |cx.input|
    ensures ParseName(cx, pos) == Undefined <==>
      var before := FoundLiteral(cx.input, pos, cx.partial, NameLiteral(cx.form));
      && before.Some? && cx.form.lastToolEnd.Some? && Contains(before.value.prelude, cx.form.lastToolEnd.value)
      && FoundToolEnd(cx, pos).found.None?
  {
    hide Find, FoundTwoFrom, Strip, PartialStop;
    var first := FoundLiteral(cx.input, pos, cx.partial, NameLiteral(cx.form));
    if first.Some? && Contains(first.value.prelude, cx.form.toolEnd) {
      ContainedIsFound(cx.input, cx.form.toolEnd, pos, first.value.begin);
    }
  }

  // ---- where an end of a tool counts ---------------------------------------------------------

  /** The alternative end of a tool with the end of the scope behind it, as far as the text goes. */
  predicate PairAt(form: Form, s: string, i: nat)
    requires form.lastToolEnd.Some?
  {
    var end := form.lastToolEnd.value;
    if end == "" then OccursAt(s, form.scopeEnd, i)
    else OccursAt(s, end, i) && Follows(s, SkipSpaces(s, i + |end|), form.scopeEnd)
  }

  /** The literal that a search for the alternative end looks for first. */
  function Leading(form: Form): string
    requires form.lastToolEnd.Some?
  {
    if form.lastToolEnd.value == "" then form.scopeEnd else form.lastToolEnd.value
  }

  predicate EndAt(form: Form, partial: bool, s: string, i: nat)
    requires form.lastToolEnd.Some?
  {
    || OccursAt(s, form.toolEnd, i) || PairAt(form, s, i)
    || (partial && (HeldBackAt(s, form.toolEnd, i) || HeldBackAt(s, Leading(form), i)))
  }

  ghost predicate Quiet(form: Form, partial: bool, s: string, from: nat)
    requires form.lastToolEnd.Some?
  {
    forall i: nat :: from <= i ==> !EndAt(form, partial, s, i)
  }

  /** No beginning of the literal at the end of the text starts before `pos`. */
  ghost predicate Fresh(s: string, literal: string, pos: nat) {
    forall i: nat :: HeldBackAt(s, literal, i) ==> pos <= i
  }

  lemma FoundIff(input: string, pos: nat, partial: bool, literal: string)
    requires pos <= |input|
    ensures var r := FoundLiteral(input, pos, partial, literal);
      && (r.None? ==> forall i: nat :: pos <= i ==> !OccursAt(input, literal, i))
      && (r.None? && partial && Fresh(input, literal, pos) ==>
            forall i: nat :: pos <= i ==> !HeldBackAt(input, literal, i))
      && (r.Some? ==>
            var at := r.value.begin;
            || (OccursAt(input, literal, at) && r.value.end == at + |literal|)
            || (partial && HeldBackAt(input, literal, at) && r.value.end == |input|
                && forall i: nat :: pos <= i ==> !OccursAt(input, literal, i)))
      && (r.Some? ==> forall i: nat :: pos <= i < r.value.begin ==> !OccursAt(input, literal, i))
  {
    hide Find, PartialStop;
    FindIsLeast(input, literal, pos);
    PartialStopIsLeast(input, literal, 0);
  }

  lemma FollowsAtEnd(input: string, second: string)
    ensures SkipSpaces(input, |input|) == |input| && Follows(input, |input|, second)
  {
  }

  lemma StaysFresh(input: string, literal: string, from: nat, at: nat)
    requires Fresh(input, literal, from) && OccursAt(input, literal, at) && at + |literal| < |input|
    ensures Fresh(input, literal, at + 1)
  {
    forall i: nat | HeldBackAt(input, literal, i) ensures at + 1 <= i {
      assert |input[i..]| <= |literal|;
    }
  }

  /** The search for two literals fails exactly if no pair and no beginning of one is there. */
  lemma {:induction false} PairIff(cx: Context, saved: nat, from: nat, end: string)
    requires saved <= from <= |cx.input| && end != "" && cx.form.lastToolEnd == Some(end)
    requires cx.partial ==> Fresh(cx.input, end, from)
    ensures FoundTwo(cx, saved, from, end, cx.form.scopeEnd).None? <==>
      forall i: nat :: from <= i ==> !PairAt(cx.form, cx.input, i) && !(cx.partial && HeldBackAt(cx.input, end, i))
    decreases |cx.input| - from
  {
    hide FoundLiteral, OccursAt, HeldBackAt, Follows, SkipSpaces, FoundTwo;
    var (input, next) := (cx.input, cx.form.scopeEnd);
    FoundIff(input, from, cx.partial, end);
    FoundTwoStep(cx, saved, from, end, next);
    var m := FoundLiteral(input, from, cx.partial, end);
    if m.Some? {
      var (b, at) := (m.value.begin, SkipSpaces(input, m.value.end));
      FollowsAtEnd(input, next);
      if Follows(input, at, next) {
        assert PairAt(cx.form, input, b) || (cx.partial && HeldBackAt(input, end, b));
      } else {
        assert OccursAt(input, end, b) && m.value.end == b + |end|;
        if cx.partial { StaysFresh(input, end, from, b); }
        PairIff(cx, saved, b + 1, end);
        assert !PairAt(cx.form, input, b);
        assert forall i: nat :: from <= i < b ==> !PairAt(cx.form, input, i);
      }
    }
  }

  /** No end of a tool is found exactly if none that counts begins anywhere. */
  lemma QuietIff(cx: Context, pos: nat)
    requires pos <= |cx.input| && cx.form.lastToolEnd.Some?
    requires cx.partial ==> Fresh(cx.input, cx.form.toolEnd, pos) && Fresh(cx.input, Leading(cx.form), pos)
    ensures FoundToolEnd(cx, pos).found.None? <==> Quiet(cx.form, cx.partial, cx.input, pos)
  {
    hide FoundLiteral, OccursAt, HeldBackAt, Follows, SkipSpaces, FoundTwo, Fresh;
    var (input, form) := (cx.input, cx.form);
    FoundIff(input, pos, cx.partial, form.toolEnd);
    var (one, two) := (FoundLiteral(input, pos, cx.partial, form.toolEnd),
                       FoundTwoFrom(cx, pos, form.lastToolEnd.value, form.scopeEnd));
    assert one.Some? ==> EndAt(form, cx.partial, input, one.value.begin);
    if form.lastToolEnd.value == "" {
      FoundIff(input, pos, cx.partial, form.scopeEnd);
      assert two.Some? ==> EndAt(form, cx.partial, input, two.value.begin);
    } else {
      PairIff(cx, pos, pos, form.lastToolEnd.value);
      if two.Some? {
        var i: nat :| pos <= i && (PairAt(form, input, i) || (cx.partial && HeldBackAt(input, Leading(form), i)));
        assert EndAt(form, cx.partial, input, i);
      }
    }
    assert one.None? && two.None? ==> Quiet(form, cx.partial, input, pos);
  }

  // ---- shifting ------------------------------------------------------------------------------

  lemma {:induction false} SkipsBehind(s: string, from: nat, i: nat)
    requires from + i <= |s|
    ensures SkipSpaces(s, from + i) == from + SkipSpaces(s[from..], i)
    decreases |s| - i
  {
    if from + i < |s| && IsSpace(s[from + i]) {
      SkipsBehind(s, from, i + 1);
    }
  }

  lemma FollowsBehind(s: string, from: nat, i: nat, second: string)
    requires from + i <= |s|
    ensures Follows(s[from..], i, second) <==> Follows(s, from + i, second)
  {
    var length := Min(|second|, |s| - from - i);
    SliceOfSlice(s, from, |s|, i, i + length);
    assert s[from..|s|] == s[from..];
  }

  lemma EndBehind(form: Form, partial: bool, s: string, from: nat, i: nat)
    requires from <= |s| && form.lastToolEnd.Some?
    ensures EndAt(form, partial, s[from..], i) <==> EndAt(form, partial, s, from + i)
  {
    hide OccursAt, HeldBackAt, Follows, SkipSpaces;
    var (rest, end) := (s[from..], form.lastToolEnd.value);
    OccursBehind(s, from, form.toolEnd, i);
    OccursBehind(s, from, form.scopeEnd, i);
    OccursBehind(s, from, end, i);
    HeldBackBehind(s, from, form.toolEnd, i);
    HeldBackBehind(s, from, Leading(form), i);
    if end != "" && OccursAt(rest, end, i) {
      InBounds(rest, end, i);
      SkipsBehind(s, from, i + |end|);
      FollowsBehind(s, from, SkipSpaces(rest, i + |end|), form.scopeEnd);
    }
  }

  lemma QuietBehind(form: Form, partial: bool, s: string, from: nat)
    requires from <= |s| && form.lastToolEnd.Some?
    ensures Quiet(form, partial, s[from..], 0) <==> Quiet(form, partial, s, from)
  {
    hide EndAt;
    forall i: nat ensures EndAt(form, partial, s[from..], i) <==> EndAt(form, partial, s, from + i) {
      EndBehind(form, partial, s, from, i);
    }
    if Quiet(form, partial, s[from..], 0) {
      forall i: nat | from <= i ensures !EndAt(form, partial, s, i) {
        assert !EndAt(form, partial, s[from..], i - from);
      }
    }
  }

  // ---- what an undefined read needs ----------------------------------------------------------

  /** Both ends within the text, whatever stands behind it. */
  predicate PairWithin(form: Form, text: string, i: nat)
    requires form.lastToolEnd.Some?
  {
    var end := form.lastToolEnd.value;
    OccursAt(text, end, i) && OccursAt(text, form.scopeEnd, if end == "" then i else SkipSpaces(text, i + |end|))
  }

  /** No end of a tool is found at the separator, or at its first k letters if the input ends there. */
  ghost predicate PassesOver(form: Form, partial: bool, k: nat)
    requires form.lastToolEnd.Some? && k <= |NameLiteral(form)|
  {
    var separator := NameLiteral(form);
    if k < |separator| then partial && Quiet(form, true, separator[..k], 0)
    else forall i: nat :: !OccursAt(separator, form.toolEnd, i) && !PairWithin(form, separator, i)
  }

  /** The literals leave room for an alternative end that does not count, before the separator. */
  ghost predicate LetsThrough(form: Form, partial: bool) {
    && form.lastToolEnd.Some? && form.scopeEnd != ""
    && !Contains(form.lastToolEnd.value, NameLiteral(form)) && !Contains(form.lastToolEnd.value, form.toolEnd)
    && exists k :: 0 < k <= |NameLiteral(form)| && PassesOver(form, partial, k)
  }

  lemma OccursOutside(input: string, pos: nat, whole: string, literal: string, i: nat)
    requires OccursAt(input, whole, pos) && OccursAt(whole, literal, i)
    ensures OccursAt(input, literal, pos + i)
  {
    SliceOfSlice(input, pos, pos + |whole|, i, i + |literal|);
  }

  lemma SkipsWithin(input: string, pos: nat, whole: string, i: nat)
    requires OccursAt(input, whole, pos) && i <= |whole| && SkipSpaces(whole, i) < |whole|
    ensures SkipSpaces(input, pos + i) == pos + SkipSpaces(whole, i)
  {
    InBounds(input, whole, pos);
    var (a, b) := (SkipSpaces(whole, i), SkipSpaces(input, pos + i));
    SkipsExactlySpaces(whole, i);
    SkipsExactlySpaces(input, pos + i);
    assert input[pos + a] == whole[a];
    assert b < |input| && pos <= b < pos + |whole| ==> whole[b - pos] == input[b];
  }

  lemma PairOutside(form: Form, input: string, pos: nat, whole: string, i: nat)
    requires form.lastToolEnd.Some? && form.scopeEnd != "" && OccursAt(input, whole, pos) && PairWithin(form, whole, i)
    ensures PairAt(form, input, pos + i)
  {
    hide OccursAt, SkipSpaces;
    var (end, next) := (form.lastToolEnd.value, form.scopeEnd);
    OccursOutside(input, pos, whole, end, i);
    InBounds(whole, end, i);
    if end == "" {
      OccursOutside(input, pos, whole, next, i);
    } else {
      var at := SkipSpaces(whole, i + |end|);
      InBounds(whole, next, at);
      OccursOutside(input, pos, whole, next, at);
      InBounds(input, next, pos + at);
      SkipsWithin(input, pos, whole, i + |end|);
    }
  }

  lemma ContainedInside(input: string, pos: nat, whole: string, literal: string) returns (i: nat)
    requires OccursAt(input, whole, pos) && Contains(whole, literal)
    ensures pos <= i && i + |literal| <= pos + |whole| && OccursAt(input, literal, i)
  {
    hide OccursAt;
    FindIsLeast(whole, literal, 0);
    var at := Find(whole, literal, 0).value;
    OccursOutside(input, pos, whole, literal, at);
    i := pos + at;
  }

  lemma ScopeIsNeeded(form: Form, partial: bool, input: string, at: nat)
    requires form.lastToolEnd.Some? && OccursAt(input, form.lastToolEnd.value, at) && form.scopeEnd == ""
    ensures EndAt(form, partial, input, at)
  {
  }

  /** What the whole separator in the input says about the format. */
  lemma WholeSeparator(form: Form, partial: bool, input: string, pos: nat)
    requires form.lastToolEnd.Some? && form.scopeEnd != "" && Quiet(form, partial, input, pos)
    requires OccursAt(input, NameLiteral(form), pos)
    ensures PassesOver(form, partial, |NameLiteral(form)|)
  {
    hide OccursAt, PairAt, PairWithin;
    var separator := NameLiteral(form);
    forall i: nat ensures !OccursAt(separator, form.toolEnd, i) && !PairWithin(form, separator, i) {
      assert !EndAt(form, partial, input, pos + i);
      if OccursAt(separator, form.toolEnd, i) {
        OccursOutside(input, pos, separator, form.toolEnd, i);
      }
      if PairWithin(form, separator, i) {
        PairOutside(form, input, pos, separator, i);
      }
    }
  }

  /** And what its beginning at the end of the input says. */
  lemma BegunSeparator(form: Form, input: string, pos: nat)
    requires form.lastToolEnd.Some? && Quiet(form, true, input, pos) && HeldBackAt(input, NameLiteral(form), pos)
    requires !OccursAt(input, NameLiteral(form), pos)
    ensures 0 < |input| - pos < |NameLiteral(form)| && PassesOver(form, true, |input| - pos)
  {
    hide EndAt;
    var (separator, k) := (NameLiteral(form), |input| - pos);
    assert input[pos..] == separator[..k];
    assert input[pos..pos + k] == input[pos..];
    QuietBehind(form, true, input, pos);
  }

  lemma UndefinedNeeds(cx: Context, pos: nat)
    requires Good(cx) && pos <= |cx.input| && ParseName(cx, pos) == Undefined
    requires cx.partial && cx.form.lastToolEnd.Some? ==>
      Fresh(cx.input, cx.form.toolEnd, pos) && Fresh(cx.input, Leading(cx.form), pos)
    ensures LetsThrough(cx.form, cx.partial)
  {
    hide FoundLiteral, FoundToolEnd, ParseName, Find, OccursAt, HeldBackAt, EndAt, Fresh, PassesOver;
    var (input, form, separator) := (cx.input, cx.form, NameLiteral(cx.form));
    NameIsUndefinedIff(cx, pos);
    QuietIff(cx, pos);
    FoundIff(input, pos, cx.partial, separator);
    var (b, end) := (FoundLiteral(input, pos, cx.partial, separator).value.begin, form.lastToolEnd.value);
    ContainedIsFound(input, end, pos, b);
    FindIsLeast(input, end, pos);
    var at := Find(input, end, pos).value;
    if form.scopeEnd == "" {
      ScopeIsNeeded(form, cx.partial, input, at);
    }
    if Contains(end, separator) {
      var i := ContainedInside(input, at, end, separator);
    }
    if Contains(end, form.toolEnd) {
      var i := ContainedInside(input, at, end, form.toolEnd);
      ToolEndIsEnd(form, cx.partial, input, i);
    }
    var k := if OccursAt(input, separator, b) then |separator| else |input| - b;
    if OccursAt(input, separator, b) {
      WholeSeparator(form, cx.partial, input, b);
    } else {
      BegunSeparator(form, input, b);
    }
    SeparatorIsNonempty(form);
    assert 0 < k <= |separator| && PassesOver(form, cx.partial, k);
  }

  lemma ToolEndIsEnd(form: Form, partial: bool, input: string, i: nat)
    requires form.lastToolEnd.Some? && OccursAt(input, form.toolEnd, i)
    ensures EndAt(form, partial, input, i)
  {
  }

  lemma SeparatorIsNonempty(form: Form)
    requires Proper(form)
    ensures NameLiteral(form) != ""
  {
    NoSpaceInNothing();
  }

  // ---- whole parses --------------------------------------------------------------------------

  /** A beginning of an end of a tool cannot reach back over the literal that opens the tool. */
  predicate ClosedOff(form: Form)
    requires Proper(form)
  {
    var last := form.toolStart[|form.toolStart| - 1];
    form.lastToolEnd.Some? ==> last !in form.toolEnd && last !in Leading(form)
  }

  lemma HeldBackHolds(s: string, literal: string, i: nat, j: nat)
    ensures HeldBackAt(s, literal, i) && i <= j < |s| ==> s[j] in literal
  {
    if HeldBackAt(s, literal, i) && i <= j < |s| {
      assert s[i..][j - i] == literal[j - i];
    }
  }

  lemma FreshBehind(s: string, literal: string, pos: nat)
    requires 0 < pos <= |s| && s[pos - 1] !in literal
    ensures Fresh(s, literal, pos)
  {
    forall i: nat | HeldBackAt(s, literal, i) ensures pos <= i {
      HeldBackHolds(s, literal, i, pos - 1);
    }
  }

  lemma NameIsDefined(cx: Context, from: nat)
    requires Good(cx) && from <= |cx.input| && (cx.partial ==> ClosedOff(cx.form))
    requires FoundLiteral(cx.input, from, cx.partial, cx.form.toolStart).Some? && !LetsThrough(cx.form, cx.partial)
    ensures !ParseName(cx, FoundLiteral(cx.input, from, cx.partial, cx.form.toolStart).value.end).Undefined?
  {
    hide FoundLiteral, ParseName, LetsThrough, FoundToolEnd, Contains;
    var (input, form) := (cx.input, cx.form);
    var m := FoundLiteral(input, from, cx.partial, form.toolStart).value;
    FoundIff(input, from, cx.partial, form.toolStart);
    if ParseName(cx, m.end).Undefined? {
      if OccursAt(input, form.toolStart, m.begin) && m.end == m.begin + |form.toolStart| {
        InBounds(input, form.toolStart, m.begin);
        assert input[m.end - 1] == form.toolStart[|form.toolStart| - 1];
        if cx.partial && form.lastToolEnd.Some? {
          FreshBehind(input, form.toolEnd, m.end);
          FreshBehind(input, Leading(form), m.end);
        }
        UndefinedNeeds(cx, m.end);
      } else {
        NameIsUndefinedIff(cx, m.end);
        FoundIff(input, m.end, cx.partial, NameLiteral(form));
        SeparatorIsNonempty(form);
        assert false;
      }
    }
  }

  lemma {:induction false} ToolsAreDefined(cx: Context, calls: seq<ToolCall>, recovery: bool, pos: nat)
    requires Good(cx) && pos <= |cx.input| && (cx.partial ==> ClosedOff(cx.form)) && !LetsThrough(cx.form, cx.partial)
    ensures !ParseTools(cx, calls, recovery, pos).Undefined?
    decreases |cx.input| - pos
  {
    hide FoundLiteral, ParseName, AllSpace, ParseToolEnd, ParseArgs, LetsThrough, ClosedOff;
    var m := FoundLiteral(cx.input, pos, cx.partial, cx.form.toolStart);
    if m.Some? && AllSpace(m.value.prelude) {
      FoundIsNonempty(cx.input, pos, cx.partial, cx.form.toolStart);
      NameIsDefined(cx, pos);
      var tool := ParseTool(cx, recovery, m.value.end);
      var name := ParseName(cx, m.value.end);
      if name.Next? {
        ArgsAreDefined(cx, name.value, [], recovery, name.pos);
        var gathered := ParseArgs(cx, name.value, [], recovery, name.pos);
        if gathered.Next? {
          ToolEndIsDefined(cx, name.value, gathered.value, gathered.pos);
        }
      }
      if tool.Next? {
        ToolsAreDefined(cx, calls + [tool.value], false, tool.pos);
      }
    }
  }

  lemma ToolEndIsDefined(cx: Context, name: string, gathered: Gathered, pos: nat)
    requires Good(cx) && pos <= |cx.input|
    ensures !ParseToolEnd(cx, name, gathered, pos).Undefined?
  {
    hide FoundToolEnd, AllSpace;
  }

  lemma {:induction false} ArgsAreDefined(cx: Context, name: string, args: Arguments, recovery: bool, pos: nat)
    requires Good(cx) && pos <= |cx.input|
    ensures !ParseArgs(cx, name, args, recovery, pos).Undefined?
    decreases |cx.input| - pos
  {
    hide FoundLiteral, AllSpace, Set, OpenCall, ParsePlain, PartialCall, HealedCall, ReadJson, FoundValEnd;
    var m := FoundLiteral(cx.input, pos, cx.partial, cx.form.keyStart);
    if m.Some? {
      FoundIsNonempty(cx.input, pos, cx.partial, cx.form.keyStart);
      var key := ParseKey(cx, name, args, m.value.end);
      if key.Next? {
        var sep2 := ParseSep2(cx, name, args, key.value, key.pos);
        if sep2.Next? {
          ValueIsDefined(cx, name, args, key.value, sep2.pos);
          var value := ParseValue(cx, name, args, key.value, sep2.pos);
          if value.Next? {
            ArgsAreDefined(cx, name, Set(args, key.value, value.value), false, value.pos);
          }
        }
      }
    }
  }

  lemma ValueIsDefined(cx: Context, name: string, args: Arguments, key: string, pos: nat)
    requires Good(cx) && pos <= |cx.input|
    ensures !ParseValue(cx, name, args, key, pos).Undefined?
  {
    hide AllSpace, Set, PartialCall, HealedCall, ReadJson, FoundValEnd;
  }

  /** Formats that do not let such an end through never read an empty optional, on any input. */
  lemma OthersAreDefined(cx: Context, pos: nat)
    requires Good(cx) && pos <= |cx.input| && (cx.partial ==> ClosedOff(cx.form)) && !LetsThrough(cx.form, cx.partial)
    ensures !ParseXml(cx, pos).Undefined?
  {
    hide FoundLiteral, AllSpace, ParseTools, LetsThrough, ClosedOff;
    var start := ParseScopeStart(cx, pos);
    if start.Next? {
      ToolsAreDefined(cx, [], true, start.pos);
    }
  }

  /** In particular, formats without an alternative end of a tool. */
  lemma PlainEndsAreDefined(cx: Context, pos: nat)
    requires Good(cx) && cx.form.lastToolEnd.None? && pos <= |cx.input|
    ensures !ParseXml(cx, pos).Undefined?
  {
    hide ParseXml;
    OthersAreDefined(cx, pos);
  }

  // ---- inputs on which it happens ------------------------------------------------------------

  /** A visible character that no literal behind the name holds. */
  predicate Unused(form: Form, c: char) {
    && !IsSpace(c) && c !in NameLiteral(form) && c !in form.toolEnd && c !in form.scopeEnd
    && (form.lastToolEnd.Some? ==> c !in form.lastToolEnd.value)
  }

  lemma OccursHolds(s: string, literal: string, i: nat, j: nat)
    requires OccursAt(s, literal, i) && i <= j < i + |literal|
    ensures s[j] in literal
  {
    assert s[i..i + |literal|][j - i] == literal[j - i];
  }

  /** The separator with a foreign character behind it holds no end of a tool. */
  lemma SeparatorIsQuiet(form: Form, partial: bool, c: char)
    requires Proper(form) && form.lastToolEnd.Some? && form.scopeEnd != "" && Unused(form, c)
    requires PassesOver(form, partial, |NameLiteral(form)|)
    ensures Quiet(form, partial, NameLiteral(form) + [c], 0)
  {
    hide EndAt, PassesOver;
    forall i: nat ensures !EndAt(form, partial, NameLiteral(form) + [c], i) {
      NoEndAtSeparator(form, partial, c, i);
    }
  }

  lemma BeforeForeign(text: string, c: char, literal: string, i: nat)
    requires c !in literal && literal != ""
    ensures OccursAt(text + [c], literal, i) ==> OccursAt(text, literal, i)
    ensures !HeldBackAt(text + [c], literal, i)
  {
    var s := text + [c];
    if OccursAt(s, literal, i) {
      if i + |literal| == |s| {
        OccursHolds(s, literal, i, |text|);
      }
      OccursInPrefix(text, s, literal, i);
    }
    if HeldBackAt(s, literal, i) {
      HeldBackHolds(s, literal, i, |text|);
    }
  }

  lemma {:induction false} SkipsBeforeForeign(text: string, c: char, i: nat)
    requires i <= |text| && !IsSpace(c)
    ensures SkipSpaces(text + [c], i) == SkipSpaces(text, i)
    decreases |text| - i
  {
    if i < |text| && IsSpace(text[i]) {
      SkipsBeforeForeign(text, c, i + 1);
    }
  }

  lemma FollowsHolds(s: string, at: nat, second: string, j: nat)
    requires at <= |s|
    ensures Follows(s, at, second) && at <= j < |s| && j < at + |second| ==> s[j] in second
  {
    if at <= j < |s| && j < at + |second| {
      var length := Min(|second|, |s| - at);
      assert s[at..at + length][j - at] == s[j];
      assert second[..length][j - at] == second[j - at];
    }
  }

  lemma FollowsBeforeForeign(text: string, c: char, at: nat, second: string)
    requires at <= |text| && c !in second && Follows(text + [c], at, second)
    ensures OccursAt(text, second, at)
  {
    var s := text + [c];
    FollowsHolds(s, at, second, |text|);
    OccursInPrefix(text, s, second, at);
  }

  lemma NoEndAtSeparator(form: Form, partial: bool, c: char, i: nat)
    requires Proper(form) && form.lastToolEnd.Some? && form.scopeEnd != "" && Unused(form, c)
    requires PassesOver(form, partial, |NameLiteral(form)|)
    ensures !EndAt(form, partial, NameLiteral(form) + [c], i)
  {
    hide OccursAt, HeldBackAt, SkipSpaces, Follows;
    var (separator, end) := (NameLiteral(form), form.lastToolEnd.value);
    BeforeForeign(separator, c, form.toolEnd, i);
    BeforeForeign(separator, c, Leading(form), i);
    assert !PairWithin(form, separator, i);
    if end == "" {
      EmptyOccurs(separator, i);
      if OccursAt(separator, form.scopeEnd, i) { InBounds(separator, form.scopeEnd, i); }
    } else if OccursAt(separator, end, i) {
      InBounds(separator, end, i);
      SkipsBeforeForeign(separator, c, i + |end|);
      var at := SkipSpaces(separator, i + |end|);
      if Follows(separator + [c], at, form.scopeEnd) {
        FollowsBeforeForeign(separator, c, at, form.scopeEnd);
      }
    }
  }

  lemma EmptyOccurs(s: string, i: nat)
    ensures OccursAt(s, "", i) <==> i <= |s|
  {
  }

  /** An alternative end with a foreign character behind it does not count. */
  lemma HeadIsQuiet(form: Form, partial: bool, s: string, c: char, i: nat)
    requires Proper(form) && form.lastToolEnd.Some? && form.scopeEnd != "" && Unused(form, c)
    requires !Contains(form.lastToolEnd.value, form.toolEnd)
    requires OccursAt(s, form.lastToolEnd.value + [c], 0) && i <= |form.lastToolEnd.value|
    ensures !EndAt(form, partial, s, i)
  {
    hide OccursAt, HeldBackAt, Contains, SkipSpaces;
    var end := form.lastToolEnd.value;
    var n := |end|;
    InBounds(s, end + [c], 0);
    assert (end + [c])[n] == c == s[0 + n];
    OccursInParts(s, end, [c], 0);
    if OccursAt(s, form.toolEnd, i) {
      NotBefore(s, end, c, form.toolEnd, i);
    }
    if HeldBackAt(s, form.toolEnd, i) { HeldBackHolds(s, form.toolEnd, i, n); }
    if HeldBackAt(s, Leading(form), i) { HeldBackHolds(s, Leading(form), i, n); }
    if end == "" {
      if OccursAt(s, form.scopeEnd, i) { OccursHolds(s, form.scopeEnd, i, n); }
    } else if OccursAt(s, end, i) {
      if i > 0 { OccursHolds(s, end, i, n); }
      ForeignDoesNotFollow(s, n, c, form.scopeEnd);
    }
  }

  lemma NotBefore(s: string, end: string, c: char, literal: string, i: nat)
    requires OccursAt(s, end, 0) && |end| < |s| && s[|end|] == c && c !in literal && i <= |end|
    requires OccursAt(s, literal, i)
    ensures Contains(end, literal)
  {
    hide OccursAt, Find;
    if i + |literal| > |end| {
      OccursHolds(s, literal, i, |end|);
    } else {
      OccursInside(s, 0, end, literal, i);
      FindIsLeast(end, literal, 0);
    }
  }

  lemma ForeignDoesNotFollow(s: string, at: nat, c: char, second: string)
    requires at < |s| && s[at] == c && !IsSpace(c) && c !in second && second != ""
    ensures SkipSpaces(s, at) == at && !Follows(s, at, second)
  {
    FollowsHolds(s, at, second, at);
  }

  /** What stands behind the opening of a tool: an end that does not count, and what is left of the separator. */
  function Tail(form: Form, c: char, k: nat): string
    requires k <= |NameLiteral(form)|
  {
    if k == |NameLiteral(form)| then NameLiteral(form) + [c] else NameLiteral(form)[..k]
  }

  lemma TailIsQuiet(form: Form, partial: bool, c: char, k: nat)
    requires Proper(form) && LetsThrough(form, partial) && Unused(form, c)
    requires 0 < k <= |NameLiteral(form)| && PassesOver(form, partial, k)
    ensures Quiet(form, partial, form.lastToolEnd.value + [c] + Tail(form, c, k), 0)
  {
    hide EndAt, Contains;
    var end := form.lastToolEnd.value;
    var s := end + [c] + Tail(form, c, k);
    assert s[|end| + 1..] == Tail(form, c, k);
    assert s[0..|end + [c]|] == end + [c];
    if k == |NameLiteral(form)| { SeparatorIsQuiet(form, partial, c); }
    QuietBehind(form, partial, s, |end| + 1);
    forall i: nat ensures !EndAt(form, partial, s, i) {
      if i <= |end| { HeadIsQuiet(form, partial, s, c, i); }
    }
  }

  /** The separator, or what is left of it, is found behind the foreign character. */
  lemma SeparatorFound(form: Form, partial: bool, c: char, k: nat, input: string, pos: nat)
    requires Proper(form) && LetsThrough(form, partial) && Unused(form, c) && pos <= |input|
    requires 0 < k <= |NameLiteral(form)| && PassesOver(form, partial, k)
    requires input[pos..] == form.lastToolEnd.value + [c] + Tail(form, c, k)
    ensures var r := FoundLiteral(input, pos, partial, NameLiteral(form));
      r.Some? && r.value.prelude == form.lastToolEnd.value + [c]
  {
    hide Quiet, Find, PartialStop, Contains, FoundLiteral;
    var (separator, text, rest) := (NameLiteral(form), form.lastToolEnd.value + [c], input[pos..]);
    var b := pos + |text|;
    assert rest[..|text|] == text == input[pos..b];
    assert rest[|text|..] == input[b..];
    FoundIff(input, pos, partial, separator);
    forall i: nat | pos <= i < b ensures !OccursAt(input, separator, i) && !HeldBackAt(input, separator, i) {
      NoSeparatorBefore(form, c, input, pos, i);
    }
    if k == |separator| {
      assert input[b..b + k] == separator;
      FoundWhole(input, pos, partial, separator, b);
    } else {
      FoundBegun(input, pos, separator, b, c);
    }
  }

  lemma NoSeparatorBefore(form: Form, c: char, input: string, pos: nat, i: nat)
    requires form.lastToolEnd.Some? && !Contains(form.lastToolEnd.value, NameLiteral(form)) && Unused(form, c)
    requires OccursAt(input, form.lastToolEnd.value + [c], pos) && pos <= i <= pos + |form.lastToolEnd.value|
    ensures !OccursAt(input, NameLiteral(form), i) && !HeldBackAt(input, NameLiteral(form), i)
  {
    hide OccursAt, Contains, HeldBackAt;
    var (separator, end) := (NameLiteral(form), form.lastToolEnd.value);
    InBounds(input, end + [c], pos);
    assert (end + [c])[|end|] == c == input[pos + |end|];
    OccursInParts(input, end, [c], pos);
    if HeldBackAt(input, separator, i) { HeldBackHolds(input, separator, i, pos + |end|); }
    if OccursAt(input, separator, i) {
      OccursBehind(input, pos, end, 0);
      OccursBehind(input, pos, separator, i - pos);
      NotBefore(input[pos..], end, c, separator, i - pos);
    }
  }

  lemma FoundWhole(input: string, pos: nat, partial: bool, literal: string, at: nat)
    requires pos <= at && OccursAt(input, literal, at)
    requires forall i: nat :: pos <= i < at ==> !OccursAt(input, literal, i)
    ensures pos <= |input|
    ensures FoundLiteral(input, pos, partial, literal) == Some(Match(input[pos..at], at, at + |literal|))
  {
    FindIsLeast(input, literal, pos);
  }

  lemma FoundBegun(input: string, pos: nat, literal: string, at: nat, c: char)
    requires pos < at < |input| && HeldBackAt(input, literal, at) && |input| - at < |literal|
    requires input[at - 1] == c && c !in literal
    requires forall i: nat :: pos <= i < at ==> !OccursAt(input, literal, i)
    ensures FoundLiteral(input, pos, true, literal) == Some(Match(input[pos..at], at, |input|))
  {
    hide Find, PartialStop;
    FindIsLeast(input, literal, pos);
    PartialStopIsLeast(input, literal, 0);
    var stop := PartialStop(input, literal).value;
    if stop < at {
      HeldBackHolds(input, literal, stop, at - 1);
    }
  }

  function Opened(form: Form): string {
    (if AllSpace(form.scopeStart) then "" else form.scopeStart) + form.toolStart
  }

  /** An undefined read behind the first opening of a tool is one of the whole parse. */
  lemma UndefinedBehindOpening(cx: Context)
    requires Good(cx) && Opened(cx.form) <= cx.input && ParseName(cx, |Opened(cx.form)|) == Undefined
    ensures ParseXml(cx, 0) == Undefined
  {
    hide FoundLiteral, ParseName, OccursAt, AllSpace;
    var (input, form, head) := (cx.input, cx.form, Opened(cx.form));
    assert input[0..|head|] == head;
    StandsAt(input, head, 0);
    var scope := if AllSpace(form.scopeStart) then "" else form.scopeStart;
    OccursInParts(input, scope, form.toolStart, 0);
    FoundHere(input, 0, cx.partial, scope);
    FoundHere(input, |scope|, cx.partial, form.toolStart);
    NoSpaceInNothing();
    assert ParseTool(cx, true, |head|) == Undefined;
    assert ParseTools(cx, [], true, |scope|) == Undefined;
  }

  lemma UndefinedName(cx: Context, pos: nat, end: string)
    requires Good(cx) && 0 < pos <= |cx.input| && cx.form.lastToolEnd == Some(end)
    requires var before := FoundLiteral(cx.input, pos, cx.partial, NameLiteral(cx.form));
      before.Some? && Contains(before.value.prelude, end)
    requires cx.partial ==> Fresh(cx.input, cx.form.toolEnd, pos) && Fresh(cx.input, Leading(cx.form), pos)
    requires Quiet(cx.form, cx.partial, cx.input[pos..], 0)
    ensures ParseName(cx, pos) == Undefined
  {
    hide FoundLiteral, ParseName, Contains, FoundToolEnd, Quiet, Fresh;
    NameIsUndefinedIff(cx, pos);
    QuietBehind(cx.form, cx.partial, cx.input, pos);
    QuietIff(cx, pos);
  }

  /** An input on which a format that lets an end through reads an empty optional. */
  function Witness(form: Form, c: char, k: nat): string
    requires form.lastToolEnd.Some? && k <= |NameLiteral(form)|
  {
    Opened(form) + (form.lastToolEnd.value + [c] + Tail(form, c, k))
  }

  lemma ForeignIsFresh(s: string, literal: string, pos: nat, at: nat)
    requires pos <= at < |s| && s[at] !in literal
    ensures Fresh(s, literal, pos)
  {
    forall i: nat | HeldBackAt(s, literal, i) ensures pos <= i {
      HeldBackHolds(s, literal, i, at);
    }
  }

  lemma UndefinedOnWitness(form: Form, lib: Library, partial: bool, c: char, k: nat)
    requires Proper(form) && Forward(lib) && Unused(form, c) && LetsThrough(form, partial)
    requires 0 < k <= |NameLiteral(form)| && PassesOver(form, partial, k)
    ensures ParseXml(Context(Witness(form, c, k), partial, form, lib), 0) == Undefined
  {
    hide FoundLiteral, Quiet, Contains, ParseName, ParseXml, Tail, PassesOver, Opened, Fresh;
    var (cx, pos, end) := (Context(Witness(form, c, k), partial, form, lib), |Opened(form)|, form.lastToolEnd.value);
    var (input, rest) := (cx.input, end + [c] + Tail(form, c, k));
    assert input[pos..] == rest;
    assert input[pos + |end|] == rest[|end|] == c;
    OpenedIsNonempty(form);
    SeparatorFound(form, partial, c, k, input, pos);
    TailIsQuiet(form, partial, c, k);
    ContainsAtStart(end, [c]);
    ForeignIsFresh(input, form.toolEnd, pos, pos + |end|);
    ForeignIsFresh(input, Leading(form), pos, pos + |end|);
    UndefinedName(cx, pos, end);
    UndefinedBehindOpening(cx);
  }

  lemma OpenedIsNonempty(form: Form)
    requires Proper(form)
    ensures Opened(form) != ""
  {
  }

  lemma ContainsAtStart(literal: string, more: string)
    ensures Contains(literal + more, literal)
  {
    var s := literal + more;
    assert s[0..|literal|] == literal;
    FindIsLeast(s, literal, 0);
  }

  /** A format can be made to read an empty optional exactly if its literals let such an end through. */
  lemma UndefinedIsPossibleIff(form: Form, lib: Library, partial: bool, c: char)
    requires Proper(form) && Forward(lib) && Unused(form, c) && (partial ==> ClosedOff(form))
    ensures (exists input :: ParseXml(Context(input, partial, form, lib), 0) == Undefined) <==>
            LetsThrough(form, partial)
  {
    hide ParseXml, PassesOver, ClosedOff, Witness, Unused, Contains;
    if LetsThrough(form, partial) {
      var k :| 0 < k <= |NameLiteral(form)| && PassesOver(form, partial, k);
      UndefinedOnWitness(form, lib, partial, c, k);
      assert ParseXml(Context(Witness(form, c, k), partial, form, lib), 0) == Undefined;
    } else {
      forall input ensures ParseXml(Context(input, partial, form, lib), 0) != Undefined {
        OthersAreDefined(Context(input, partial, form, lib), 0);
      }
    }
  }

  // ---- the configured formats ----------------------------------------------------------------

  /** What matters of the format here. */
  predicate EndsInBraces(form: Form) {
    && Proper(form) && form.lastToolEnd == Some("}") && form.toolEnd == "}, "
    && form.scopeEnd != "" && form.scopeEnd[0] == ']'
    && !AllSpace(form.toolSep) && form.toolSep != "" && form.toolSep[0] == '"' && '}' !in form.toolSep
  }

  lemma AprielEndsInBraces()
    ensures EndsInBraces(APRIEL_1_5)
  {
    NotAllSpace(APRIEL_1_5.toolSep, 0);
  }

  lemma BraceDoesNotEnd(s: string)
    requires |s| > 2 && s[1] == '}' && s[2] == 'b'
    ensures !OccursAt(s, "}, ", 1) && !HeldBackAt(s, "}, ", 1) && !HeldBackAt(s, "}", 1)
  {
    HeldBackHolds(s, "}, ", 1, 2);
    HeldBackHolds(s, "}", 1, 2);
    if OccursAt(s, "}, ", 1) {
      OccursHolds(s, "}, ", 1, 2);
    }
  }

  /** The brace in the name is not an end that counts. */
  lemma BracedIsQuiet(form: Form, partial: bool, s: string, i: nat)
    requires EndsInBraces(form) && s == "a}b" + form.toolSep
    ensures !EndAt(form, partial, s, i)
  {
    hide OccursAt, HeldBackAt, Follows, SkipSpaces, AllSpace;
    FirstLetter(s, "}", i);
    FirstLetter(s, form.toolEnd, i);
    if i == 1 {
      BraceDoesNotEnd(s);
      NoScopeBehind(s, form.scopeEnd);
    }
  }

  lemma NoScopeBehind(s: string, second: string)
    requires |s| > 2 && s[2] == 'b' && second != "" && second[0] == ']'
    ensures SkipSpaces(s, 2) == 2 && !Follows(s, 2, second)
  {
    var length := Min(|second|, |s| - 2);
    assert s[2..2 + length][0] == 'b' && second[..length][0] == ']';
  }

  lemma HasBrace()
    ensures Contains("a}b", "}")
  {
    assert "a}b"[1..2] == "}";
    StandsAt("a}b", "}", 1);
    FindIsLeast("a}b", "}", 0);
  }

  lemma BracedSeparator(form: Form, partial: bool, input: string, pos: nat)
    requires EndsInBraces(form) && pos <= |input| && input[pos..] == "a}b" + form.toolSep
    ensures var r := FoundLiteral(input, pos, partial, NameLiteral(form)); r.Some? && r.value.prelude == "a}b"
  {
    hide FoundLiteral, Ends, OccursAt;
    var written := "a}b" + form.toolSep;
    assert input[pos..pos + |written|] == written;
    StandsAt(input, written, pos);
    WithoutLetter("a}b", form.toolSep);
    FoundWhereWritten(input, pos, partial, "a}b", form.toolSep);
  }

  lemma BracedInput(cx: Context)
    requires Good(cx) && EndsInBraces(cx.form) && cx.input == Opened(cx.form) + ("a}b" + cx.form.toolSep)
    ensures ParseXml(cx, 0) == Undefined
  {
    hide FoundLiteral, Quiet, Contains, ParseName, ParseXml, Fresh, Opened, EndAt, NameLiteral;
    var (input, form, pos) := (cx.input, cx.form, |Opened(cx.form)|);
    var rest := "a}b" + form.toolSep;
    OpenedIsNonempty(form);
    assert input[pos..] == rest;
    assert input[pos] == rest[0] == 'a';
    BracedSeparator(form, cx.partial, input, pos);
    HasBrace();
    ForeignIsFresh(input, form.toolEnd, pos, pos);
    ForeignIsFresh(input, Leading(form), pos, pos);
    BracedAllQuiet(form, cx.partial);
    UndefinedName(cx, pos, "}");
    UndefinedBehindOpening(cx);
  }

  lemma BracedAllQuiet(form: Form, partial: bool)
    requires EndsInBraces(form)
    ensures Quiet(form, partial, "a}b" + form.toolSep, 0)
  {
    hide EndAt;
    forall i: nat ensures !EndAt(form, partial, "a}b" + form.toolSep, i) {
      BracedIsQuiet(form, partial, "a}b" + form.toolSep, i);
    }
  }

  const BRACED := "<tool_calls>[" + "{\"name\": \"" + ("a}b" + "\", \"arguments\": {")

  /** In the one configured format with an alternative end, a brace in the name of a tool is such an input. */
  lemma BracedNameIsUndefined(lib: Library, partial: bool)
    requires Forward(lib)
    ensures ParseXml(Context(BRACED, partial, APRIEL_1_5, lib), 0) == Undefined
  {
    hide ParseXml, EndsInBraces;
    AprielEndsInBraces();
    NotAllSpace(APRIEL_1_5.scopeStart, 0);
    BracedInput(Context(BRACED, partial, APRIEL_1_5, lib));
  }

  /** Of the configured formats it is the only one that can be made to read an empty optional. */
  lemma OnlyAprielIsUndefined(form: Form, lib: Library, partial: bool)
    requires Configured(form) && Proper(form) && Forward(lib)
    ensures (exists input :: ParseXml(Context(input, partial, form, lib), 0) == Undefined) <==> form == APRIEL_1_5
  {
    hide ParseXml;
    if form == APRIEL_1_5 {
      BracedNameIsUndefined(lib, partial);
      assert ParseXml(Context(BRACED, partial, form, lib), 0) == Undefined;
    } else {
      forall input ensures ParseXml(Context(input, partial, form, lib), 0) != Undefined {
        PlainEndsAreDefined(Context(input, partial, form, lib), 0);
      }
    }
  }
}

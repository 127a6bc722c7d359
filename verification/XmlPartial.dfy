/** What a parse adds that ends inside a call: wherever the input breaks off, and from one place to the next. */
module XmlPartial {
  import opened Wrappers
  import opened Text
  import opened ChatTypes
  import opened ChatParser
  import opened XmlSpec
  import opened XmlLiterals
  import opened XmlLaws
  import opened XmlDump

  // ---- text that breaks off ------------------------------------------------------------------

  /** The first letter of the literal does not come again in it. */
  predicate LeadsOnce(literal: string) {
    literal != "" && forall i :: 1 <= i < |literal| ==> literal[i] != literal[0]
  }

  /** What is taken of text before a literal that has not come: up to a beginning of it, or whole characters. */
  function Taken(lib: Library, text: string, literal: string): string {
    match PartialStop(text, literal)
    case Some(at) => text[..at]
    case None => lib.truncate(text)
  }

  lemma HeldOnce(s: string, literal: string, i: nat, j: nat)
    requires LeadsOnce(literal) && HeldBackAt(s, literal, i) && HeldBackAt(s, literal, j)
    ensures i == j
  {
    HeldLetter(s, literal, i, j);
    HeldLetter(s, literal, j, i);
    HeldLetter(s, literal, i, i);
    HeldLetter(s, literal, j, j);
  }

  lemma HeldLetter(s: string, literal: string, i: nat, j: nat)
    ensures HeldBackAt(s, literal, i) && i <= j < |s| ==> j - i < |literal| && s[j] == literal[j - i]
  {
    if HeldBackAt(s, literal, i) && i <= j < |s| {
      assert s[i..][j - i] == s[j];
    }
  }

  /** The search for the literal finds that beginning, and nothing else. */
  lemma TakenIs(cx: Context, pos: nat, literal: string)
    requires cx.partial && pos <= |cx.input| && LeadsOnce(literal) && Find(cx.input, literal, pos) == None
    ensures var (m, rest) := (FoundLiteral(cx.input, pos, true, literal), cx.input[pos..]);
      match PartialStop(rest, literal)
      case Some(k) => m == Some(Match(rest[..k], pos + k, |cx.input|)) && |rest| - k != |literal|
      case None => m == None
  {
    hide Find, PartialStop, HeldBackAt, LeadsOnce;
    var (input, rest) := (cx.input, cx.input[pos..]);
    PartialStopIsLeast(input, literal, 0);
    PartialStopIsLeast(rest, literal, 0);
    var (all, part) := (PartialStop(input, literal), PartialStop(rest, literal));
    if part.Some? {
      HeldBackBehind(input, pos, literal, part.value);
      HeldOnce(input, literal, all.value, pos + part.value);
      NotWhole(input, pos, literal, part.value);
    } else if all.Some? && all.value >= pos {
      HeldBackBehind(input, pos, literal, all.value - pos);
    }
  }

  lemma NotWhole(input: string, pos: nat, literal: string, k: nat)
    requires pos + k <= |input| && Find(input, literal, pos) == None && HeldBackAt(input, literal, pos + k)
    ensures input[pos..][..k] == input[pos..pos + k] && |input| - pos - k != |literal|
  {
    FindIsLeast(input, literal, pos);
    if |input| - pos - k == |literal| {
      assert input[pos + k..] == literal;
      assert input[pos + k..pos + k + |literal|] == input[pos + k..];
      assert OccursAt(input, literal, pos + k);
    }
  }

  /** Truncation to whole characters: it keeps more of more, and all of what a beginning of the literal follows. */
  ghost predicate Truncates(lib: Library, text: string, literal: string) {
    && (forall m, n :: 0 <= m <= n <= |text| ==> lib.truncate(text[..m]) <= lib.truncate(text[..n]) <= text[..n])
    && (forall n :: 0 <= n < |text| && literal != "" && text[n] == literal[0] ==> lib.truncate(text[..n]) == text[..n])
  }

  /** No more than the text itself is taken, though the input may end in a beginning of the literal behind it. */
  lemma TakenIsText(lib: Library, text: string, literal: string, part: string)
    requires LeadsOnce(literal) && Ends(text, literal) && Truncates(lib, text, literal)
    requires part <= text + literal && part != text + literal
    ensures Taken(lib, part, literal) <= text
    ensures |part| > |text| ==> Taken(lib, part, literal) == text
  {
    hide Ends, Find;
    PartialStopIsLeast(part, literal, 0);
    if |part| > |text| {
      assert part[|text|..] <= literal by { assert part[|text|..] == (text + literal)[..|part|][|text|..]; }
      assert HeldBackAt(part, literal, |text|);
      HeldOnce(part, literal, |text|, PartialStop(part, literal).value);
      assert part[..|text|] == text;
    } else {
      assert part == text[..|part|];
      var stop := PartialStop(part, literal);
      if stop.Some? {
        assert part[..stop.value] == text[..stop.value];
      }
    }
  }

  /** More input never takes back what was taken. */
  lemma TakenGrows(lib: Library, text: string, literal: string, p: string, q: string)
    requires LeadsOnce(literal) && Ends(text, literal) && Truncates(lib, text, literal)
    requires p <= q <= text + literal && q != text + literal
    ensures Taken(lib, p, literal) <= Taken(lib, q, literal)
  {
    hide Ends, Find;
    TakenIsText(lib, text, literal, p);
    TakenIsText(lib, text, literal, q);
    PartialStopIsLeast(p, literal, 0);
    PartialStopIsLeast(q, literal, 0);
    if |q| <= |text| {
      var (a, b) := (PartialStop(p, literal), PartialStop(q, literal));
      assert p == text[..|p|] && q == text[..|q|];
      if b.Some? && b.value < |p| {
        assert p[b.value..] <= q[b.value..];
        assert HeldBackAt(p, literal, b.value);
        HeldOnce(p, literal, b.value, a.value);
      } else if b.Some? {
        TakenWithin(lib, text, literal, p);
        assert q[..b.value] == text[..b.value];
      } else if a.Some? {
        assert text[a.value] == p[a.value..][0] == literal[0];
        assert text[..a.value] == p[..a.value];
      }
    }
  }

  lemma TakenWithin(lib: Library, text: string, literal: string, p: string)
    requires LeadsOnce(literal) && Truncates(lib, text, literal) && p <= text
    ensures Taken(lib, p, literal) <= p
  {
    assert p == text[..|p|];
  }

  // ---- where the input breaks off ------------------------------------------------------------

  /** The unfinished part: no key yet, within a key or its separator, or within a value or its end. */
  datatype Part = NoKey(text: string) | InKey(key: string, text: string) | InValue(arg: Arg, text: string, plain: bool)

  function WrittenPart(form: Form, p: Part): string {
    match p
    case NoKey(text) => text
    case InKey(_, text) => form.keyStart + text
    case InValue(arg, text, _) => Opening(form, arg) + text
  }

  predicate Within(text: string, whole: string) {
    text <= whole && text != whole
  }

  /** JSON reading does nothing with the beginning of a value at the end of the input, or it waits for more. */
  ghost predicate JsonSees(cx: Context, text: string, plain: bool) {
    if cx.form.rawArgval == Some(true) then plain
    else
      forall s, i: nat {:trigger cx.lib.consume(s, i)} :: i <= |s| && s[i..] == text ==>
        match cx.lib.consume(s, i)
        case None => cx.lib.scalar(s[SkipSpaces(s, i)..]) == !plain
        case Some((json, end)) =>
          !plain && end <= |s| && SkipSpaces(s, end) == |s| && !(cx.form.rawArgval == Some(false) && json.structured)
  }

  ghost predicate GoodPart(cx: Context, p: Part) {
    var form := cx.form;
    match p
    case NoKey(text) =>
      LeadsOnce(form.keyStart) && LeadsOnce(form.toolEnd)
      && (text == "" || Within(text, form.keyStart) || Within(text, form.toolEnd))
    case InKey(key, text) =>
      LeadsOnce(form.keyValSep) && Within(text, key + form.keyValSep) && Ends(key, form.keyValSep)
      && Truncates(cx.lib, key, form.keyValSep)
    case InValue(arg, text, plain) =>
      LeadsOnce(form.valEnd) && Within(text, arg.text + form.valEnd) && Ends(arg.text, form.valEnd)
      && Ends(arg.key, form.keyValSep) && form.lastValEnd.None? && Truncates(cx.lib, arg.text, form.valEnd)
      && JsonSees(cx, text, plain)
  }

  /** What is known of the value. */
  function ValueTaken(cx: Context, text: string, plain: bool): string {
    if plain then Trimmed(cx, Taken(cx.lib, text, cx.form.valEnd)) else ""
  }

  /** The arguments that are sent. */
  function Sent(cx: Context, w: Writer, args: Arguments, p: Part): string {
    match p
    case NoKey(_) => "{" + Members(w, args)
    case InKey(_, text) => WithoutQuote("{" + Before(w, args) + Begun(w, Taken(cx.lib, text, cx.form.keyValSep)))
    case InValue(arg, text, plain) =>
      WithoutQuote("{" + Before(w, args) + (Quoted(w, arg.key) + ":") + Begun(w, ValueTaken(cx, text, plain)))
  }

  predicate FreshIn(cx: Context, args: Arguments, p: Part) {
    match p
    case NoKey(_) => true
    case InKey(_, text) => FreshKey(args, Taken(cx.lib, text, cx.form.keyValSep) + Flag())
    case InValue(arg, _, _) => FreshKey(args, arg.key)
  }

  /** The text stands at `pos` and ends the input. */
  predicate EndsAt(input: string, pos: nat, text: string) {
    pos <= |input| && input[pos..] == text
  }

  lemma EndsInParts(input: string, pos: nat, a: string, b: string)
    requires EndsAt(input, pos, a + b)
    ensures OccursAt(input, a, pos) && EndsAt(input, pos + |a|, b)
  {
    assert input[pos..][..|a|] == a && input[pos..][|a|..] == b;
    assert input[pos..pos + |a|] == input[pos..][..|a|];
  }

  lemma EndOccurs(input: string, pos: nat, a: string)
    requires EndsAt(input, pos, a)
    ensures OccursAt(input, a, pos) && |input| == pos + |a|
  {
    assert input[pos..pos + |a|] == input[pos..];
  }

  /** The literal is not there yet. */
  lemma NotYet(input: string, pos: nat, part: string, text: string, literal: string)
    requires EndsAt(input, pos, part) && Within(part, text + literal) && Ends(text, literal)
    ensures Find(input, literal, pos) == None
  {
    hide Find;
    var whole := text + literal;
    FindBehind(input, pos, literal);
    FindIsLeast(part, literal, 0);
    FindIsLeast(whole, literal, 0);
    var at := Find(part, literal, 0);
    if at.Some? {
      OccursInPrefix(part, whole, literal, at.value);
    }
  }

  // ---- keys and values -----------------------------------------------------------------------

  lemma KeyWaits(cx: Context, name: string, args: Arguments, pos: nat, key: string, text: string)
    requires cx.partial && EndsAt(cx.input, pos, text) && GoodPart(cx, InKey(key, text))
    ensures ParseKey(cx, name, args, pos)
         == Waiting(PartialCall(cx, name, Set(args, Taken(cx.lib, text, cx.form.keyValSep) + Flag(), Text(""))))
  {
    hide FoundLiteral, Find, PartialStop, PartialCall, Set, Flag, LeadsOnce, Ends, Truncates;
    NotYet(cx.input, pos, text, key, cx.form.keyValSep);
    TakenIs(cx, pos, cx.form.keyValSep);
  }

  lemma ValueWaits(cx: Context, name: string, args: Arguments, pos: nat, arg: Arg, text: string, plain: bool)
    requires Good(cx) && cx.partial && EndsAt(cx.input, pos, text) && GoodPart(cx, InValue(arg, text, plain))
    ensures ParseValue(cx, name, args, arg.key, pos)
         == Waiting(PartialCall(cx, name, Set(args, arg.key, Text(ValueTaken(cx, text, plain) + Flag()))))
  {
    hide FoundLiteral, Find, PartialStop, PartialCall, HealedCall, Set, Flag, LeadsOnce, Ends, Truncates, Trimmed;
    if plain {
      NotYet(cx.input, pos, text, arg.text, cx.form.valEnd);
      TakenIs(cx, pos, cx.form.valEnd);
    } else {
      assert "" + Flag() == Flag();
      assert SkipSpaces(cx.input, |cx.input|) == |cx.input|;
    }
  }

  lemma Named(cx: Context, name: string, arguments: string)
    requires name != ""
    ensures Call(name, arguments) == [ToolCall(name, arguments, "")]
  {
  }

  /** What is sent inside a key or a value. */
  lemma SentIs(cx: Context, w: Writer, name: string, args: Arguments, p: Part)
    requires Dumps(cx.lib, w) && FreshIn(cx, args, p) && name != "" && !p.NoKey?
    ensures p.InKey? ==>
      PartialCall(cx, name, Set(args, Taken(cx.lib, p.text, cx.form.keyValSep) + Flag(), Text("")))
        == [ToolCall(name, Sent(cx, w, args, p), "")]
    ensures p.InValue? ==>
      PartialCall(cx, name, Set(args, p.arg.key, Text(ValueTaken(cx, p.text, p.plain) + Flag())))
        == [ToolCall(name, Sent(cx, w, args, p), "")]
  {
    hide Set, Flag, CutAtFlag, Dumps, Taken, ValueTaken, FreshKey, Begun, Before, Quoted, WithoutQuote;
    if p.InKey? {
      SentInKey(cx.lib, w, args, Taken(cx.lib, p.text, cx.form.keyValSep));
    } else {
      SentInValue(cx.lib, w, args, p.arg.key, ValueTaken(cx, p.text, p.plain));
    }
  }

  /** The loop over arguments meets a key or a value that is not complete. */
  lemma PartWaits(cx: Context, w: Writer, name: string, args: Arguments, recovery: bool, p: Part, pos: nat)
    requires Good(cx) && cx.partial && Dumps(cx.lib, w) && FreshIn(cx, args, p) && name != "" && !p.NoKey?
    requires GoodPart(cx, p) && EndsAt(cx.input, pos, WrittenPart(cx.form, p))
    ensures ParseArgs(cx, name, args, recovery, pos) == Waiting([ToolCall(name, Sent(cx, w, args, p), "")])
  {
    hide FoundLiteral, PartialCall, Set, Sent, Flag, Dumps, FreshIn, GoodPart, ParseValue, OccursAt, Taken, ValueTaken;
    hide ParseKey, ParseSep2, Ends;
    SentIs(cx, w, name, args, p);
    NoSpaceInNothing();
    var form := cx.form;
    match p {
      case InKey(key, text) =>
        EndsInParts(cx.input, pos, form.keyStart, text);
        FoundHere(cx.input, pos, cx.partial, form.keyStart);
        KeyWaits(cx, name, args, pos + |form.keyStart|, key, text);
      case InValue(arg, text, plain) =>
        EndsInParts(cx.input, pos, Opening(form, arg), text);
        KeyEnds(cx, arg, text, plain);
        KeyRead(cx, name, args, arg.key, pos);
        ValueWaits(cx, name, args, pos + |Opening(form, arg)|, arg, text, plain);
    }
  }

  lemma KeyEnds(cx: Context, arg: Arg, text: string, plain: bool)
    requires GoodPart(cx, InValue(arg, text, plain))
    ensures Ends(arg.key, cx.form.keyValSep)
  {
  }

  /** The marker stands there and not again behind it. */
  predicate LastAt(s: string, marker: string, at: nat) {
    OccursAt(s, marker, at) && forall i: nat :: at < i <= |s| ==> !OccursAt(s, marker, i)
  }

  /** The JSON text is good up to `done`: that is where its marker stands, if it has one. */
  predicate GoodUpTo(w: Writer, json: Json, done: string) {
    var shown := w.show(json);
    if json.dumpMarker == "" then done == shown
    else done <= shown && LastAt(shown + "}", json.dumpMarker, |done|)
  }

  lemma HealedSent(cx: Context, w: Writer, name: string, args: Arguments, key: string, json: Json, done: string)
    requires Dumps(cx.lib, w) && FreshKey(args, key) && name != "" && GoodUpTo(w, json, done)
    ensures HealedCall(cx, name, Set(args, key, Parsed(json)), json)
         == [ToolCall(name, "{" + Before(w, args) + (Quoted(w, key) + ":") + done, "")]
  {
    hide Set, Before, Quoted, RFind, LastAt, Members;
    var (pre, shown) := ("{" + Before(w, args) + (Quoted(w, key) + ":"), w.show(json));
    SetFresh(args, key, Parsed(json));
    DumpOfMore(cx.lib, w, args, key, Parsed(json));
    Rejoined("{" + Before(w, args), Quoted(w, key) + ":", shown, done);
    assert cx.lib.dump(Set(args, key, Parsed(json))) == pre + (shown + "}");
    if json.dumpMarker != "" {
      LastBehind(pre, shown + "}", json.dumpMarker, |done|);
      LastIsFound(pre + (shown + "}"), json.dumpMarker, |pre| + |done|);
    }
  }

  lemma Rejoined(a: string, b: string, c: string, done: string)
    requires done <= c
    ensures a + (b + c) + "}" == (a + b) + (c + "}")
    ensures ((a + b) + (c + "}"))[..|a + b| + |done|] == (a + b) + done
  {
  }

  lemma LastIsFound(s: string, marker: string, at: nat)
    requires LastAt(s, marker, at) && at <= |s|
    ensures RFind(s, marker, |s|) == Some(at)
  {
    hide OccursAt;
    RFindLast(s, marker, at, |s|);
  }

  lemma LastBehind(pre: string, post: string, marker: string, at: nat)
    requires LastAt(post, marker, at)
    ensures LastAt(pre + post, marker, |pre| + at)
  {
    hide OccursAt;
    var s := pre + post;
    assert s[|pre|..] == post;
    OccursBehind(s, |pre|, marker, at);
    forall i: nat | |pre| + at < i <= |s| ensures !OccursAt(s, marker, i) {
      OccursBehind(s, |pre|, marker, i - |pre|);
    }
  }

  /**
   A JSON value that is healed at the end of the input, in a form whose values are JSON: what is sent ends where the
   value was healed, or where its object is still open.
   */
  lemma HealedValueWaits(cx: Context, w: Writer, name: string, args: Arguments, key: string, pos: nat, json: Json,
                         end: nat, done: string)
    requires Good(cx) && pos <= |cx.input| && Dumps(cx.lib, w) && FreshKey(args, key) && name != ""
    requires cx.form.rawArgval == Some(false) && json.structured && ReadJson(cx, pos) == Some((json, end))
    requires end <= |cx.input| && SkipSpaces(cx.input, end) == |cx.input| && GoodUpTo(w, json, done)
    ensures ParseValue(cx, name, args, key, pos)
         == Waiting([ToolCall(name, "{" + Before(w, args) + (Quoted(w, key) + ":") + done, "")])
  {
    hide Set, Before, Quoted, Dumps, HealedCall, ReadJson, GoodUpTo;
    HealedSent(cx, w, name, args, key, json, done);
  }

  // ---- between arguments ---------------------------------------------------------------------

  /** What begins here is not a whole key. */
  lemma NoWholeKey(cx: Context, pos: nat, text: string, b: nat)
    requires Readable(cx.form) && GoodPart(cx, NoKey(text)) && EndsAt(cx.input, pos, text) && pos <= b <= |cx.input|
    requires AllSpace(cx.input[pos..b])
    ensures !OccursAt(cx.input, cx.form.keyStart, b)
  {
    hide LeadsOnce, Readable, OccursAt;
    OccursBehind(cx.input, pos, cx.form.keyStart, b - pos);
    SliceOfRest(cx.input, pos, b);
    NotKeyAtEnd(cx.form, text, b - pos);
  }

  lemma SliceOfRest(s: string, pos: nat, b: nat)
    requires pos <= b <= |s|
    ensures s[pos..][..b - pos] == s[pos..b]
  {
  }

  lemma OccursLetter(s: string, literal: string, at: nat, i: nat)
    requires i < |literal|
    ensures OccursAt(s, literal, at) ==> at + i < |s| && s[at + i] == literal[i]
  {
    if OccursAt(s, literal, at) {
      assert s[at..at + |literal|][i] == s[at + i];
    }
  }

  lemma FirstIsSpace(s: string, k: nat)
    ensures 0 < k <= |s| && AllSpace(s[..k]) ==> IsSpace(s[0])
  {
    if 0 < k <= |s| && AllSpace(s[..k]) {
      assert s[..k][0] == s[0];
    }
  }

  lemma NotKeyAtEnd(form: Form, text: string, k: nat)
    requires Readable(form) && k <= |text| && AllSpace(text[..k])
    requires text == "" || Within(text, form.keyStart) || Within(text, form.toolEnd)
    ensures !OccursAt(text, form.keyStart, k)
  {
    hide OccursAt;
    OccursLetter(text, form.keyStart, k, |form.keyStart| - 1);
    if Within(text, form.toolEnd) {
      FirstIsSpace(text, k);
      var i :| 0 <= i < |form.toolEnd| && i < |form.keyStart| && form.toolEnd[i] != form.keyStart[i];
      OccursLetter(text, form.keyStart, k, i);
      assert i < |text| ==> text[i] == form.toolEnd[i];
    }
  }

  /** The loop over arguments finds a beginning of a key, or nothing. */
  lemma NoKeyFound(cx: Context, pos: nat, text: string)
    requires Readable(cx.form) && cx.partial && GoodPart(cx, NoKey(text)) && EndsAt(cx.input, pos, text)
    ensures var m := FoundLiteral(cx.input, pos, cx.partial, cx.form.keyStart);
      && (m.Some? && AllSpace(m.value.prelude) ==> m.value.end - m.value.begin != |cx.form.keyStart|)
      && (text != "" && Within(text, cx.form.keyStart) ==> m.Some? && m.value.prelude == "")
  {
    hide Find, PartialStop, Readable, OccursAt, HeldBackAt, LeadsOnce;
    var (input, key) := (cx.input, cx.form.keyStart);
    var m := FoundLiteral(input, pos, cx.partial, key);
    FindIsLeast(input, key, pos);
    PartialStopIsLeast(input, key, 0);
    if m.Some? && AllSpace(m.value.prelude) {
      NoWholeKey(cx, pos, text, m.value.begin);
      HeldWhole(input, key, m.value.begin);
    }
    if text != "" && Within(text, key) {
      HeldHere(cx, pos, text, key);
    }
  }

  lemma HeldWhole(s: string, literal: string, i: nat)
    ensures HeldBackAt(s, literal, i) && |s| - i == |literal| ==> OccursAt(s, literal, i)
  {
    if HeldBackAt(s, literal, i) && |s| - i == |literal| {
      assert s[i..i + |literal|] == s[i..];
    }
  }

  /** A beginning of a literal that ends the input is found as such. */
  lemma HeldHere(cx: Context, pos: nat, text: string, literal: string)
    requires cx.partial && EndsAt(cx.input, pos, text) && text != "" && Within(text, literal) && LeadsOnce(literal)
    ensures FoundLiteral(cx.input, pos, cx.partial, literal) == Some(Match("", pos, |cx.input|))
    ensures |text| != |literal|
  {
    hide Find, LeadsOnce, FoundLiteral;
    FindIsLeast(cx.input, literal, pos);
    PartialStopIsLeast(text, literal, 0);
    assert text[0..] == text;
    assert HeldBackAt(text, literal, 0);
    assert PartialStop(text, literal) == Some(0);
    TakenIs(cx, pos, literal);
  }

  /** At the end of the input nothing is found but what is empty. */
  lemma NothingAtEnd(cx: Context, literal: string)
    requires literal != ""
    ensures FoundLiteral(cx.input, |cx.input|, cx.partial, literal) == None
  {
    PartialStopIsLeast(cx.input, literal, 0);
  }

  /** Where a tool could end, its end is not there yet. */
  lemma ToolEndWaits(cx: Context, pos: nat, text: string)
    requires Good(cx) && Readable(cx.form) && cx.partial && EndsAt(cx.input, pos, text) && GoodPart(cx, NoKey(text))
    requires text == "" || Within(text, cx.form.toolEnd)
    ensures var close := FoundToolEnd(cx, pos);
      close.found.Some? ==>
        AllSpace(close.found.value.prelude) && close.found.value.end - close.found.value.begin != close.size
  {
    hide FoundLiteral, LeadsOnce, FoundTwo, AllSpace;
    var form := cx.form;
    NoSpaceInNothing();
    if text == "" {
      NothingAtEnd(cx, form.toolEnd);
      if form.lastToolEnd.Some? {
        NoPairAtEnd(cx, form.lastToolEnd.value, form.scopeEnd);
      }
    } else {
      HeldHere(cx, pos, text, form.toolEnd);
    }
  }

  lemma NoPairAtEnd(cx: Context, first: string, second: string)
    requires second != ""
    ensures FoundTwoFrom(cx, |cx.input|, first, second) == None
  {
    hide FoundLiteral;
    NothingAtEnd(cx, second);
    if first != "" {
      NothingAtEnd(cx, first);
    }
  }

  /** Between arguments and where the tool could end, the call is sent without its closing brace. */
  lemma NoKeyWaits(cx: Context, w: Writer, name: string, args: Arguments, recovery: bool, text: string, pos: nat)
    requires Good(cx) && Readable(cx.form) && cx.partial && Dumps(cx.lib, w) && name != ""
    requires GoodPart(cx, NoKey(text)) && EndsAt(cx.input, pos, text)
    ensures var (g, sent) := (ParseArgs(cx, name, args, recovery, pos),
                              [ToolCall(name, Sent(cx, w, args, NoKey(text)), "")]);
      || g == Waiting(sent)
      || (g == Next(pos, Gathered(args, recovery))
          && ParseToolEnd(cx, name, Gathered(args, recovery), pos) == Waiting(sent))
  {
    hide FoundLiteral, FoundToolEnd, AllSpace, LeadsOnce, Dumps, Readable, OpenObject;
    NoKeyFound(cx, pos, text);
    SentOpen(cx.lib, w, args);
    NoSpaceInNothing();
    assert "{" + Members(w, args) == Sent(cx, w, args, NoKey(text));
    if text == "" || Within(text, cx.form.toolEnd) {
      ToolEndWaits(cx, pos, text);
    }
  }

  // ---- whole calls ---------------------------------------------------------------------------

  /** Arguments that are complete, with more to come. */
  function WrittenMore(form: Form, args: seq<Arg>): string {
    if args == [] then ""
    else (Opening(form, args[0]) + (args[0].text + form.valEnd)) + WrittenMore(form, args[1..])
  }

  ghost predicate AllGood(cx: Context, args: seq<Arg>) {
    forall i :: 0 <= i < |args| ==> GoodArg(cx, args[i], false, cx.form.toolEnd)
  }

  lemma {:induction false} MoreArgsRead(cx: Context, name: string, args: Arguments, recovery: bool, more: seq<Arg>,
                                        tail: string, pos: nat)
    requires Good(cx) && Readable(cx.form) && AllGood(cx, more)
    requires EndsAt(cx.input, pos, WrittenMore(cx.form, more) + tail)
    ensures var next := pos + |WrittenMore(cx.form, more)|;
      && EndsAt(cx.input, next, tail)
      && ParseArgs(cx, name, args, recovery, pos)
           == ParseArgs(cx, name, Stored(args, more), recovery && more == [], next)
    decreases |more|
  {
    hide GoodArg, ParseArgs, Readable, Opening, Set, EndsAt;
    var form := cx.form;
    if more == [] {
      assert "" + tail == tail;
    } else {
      var rest := WrittenMore(form, more[1..]) + tail;
      var one := Opening(form, more[0]) + (more[0].text + form.valEnd);
      assert WrittenMore(form, more) + tail == one + rest;
      OneArgRead(cx, name, args, recovery, more[0], rest, pos);
      assert forall i :: 0 <= i < |more| - 1 ==> more[1..][i] == more[i + 1];
      MoreArgsRead(cx, name, Set(args, more[0].key, more[0].value), false, more[1..], tail, pos + |one|);
    }
  }

  lemma OneArgRead(cx: Context, name: string, args: Arguments, recovery: bool, arg: Arg, rest: string, pos: nat)
    requires Good(cx) && Readable(cx.form) && GoodArg(cx, arg, false, cx.form.toolEnd)
    requires EndsAt(cx.input, pos, (Opening(cx.form, arg) + (arg.text + cx.form.valEnd)) + rest)
    ensures var next := pos + |Opening(cx.form, arg) + (arg.text + cx.form.valEnd)|;
      && EndsAt(cx.input, next, rest)
      && ParseArgs(cx, name, args, recovery, pos) == ParseArgs(cx, name, Set(args, arg.key, arg.value), false, next)
  {
    hide GoodArg, ParseArgs, Readable, Opening, Set, OccursAt;
    var (head, one) := (Opening(cx.form, arg), arg.text + cx.form.valEnd);
    assert (head + one) + rest == head + (one + rest);
    EndOccurs(cx.input, pos, head + (one + rest));
    ArgRead(cx, name, args, recovery, arg, false, cx.form.toolEnd, rest, pos);
    EndsInParts(cx.input, pos, head + one, rest);
  }

  /** Tools that are complete, with more to come. */
  function WrittenFirst(form: Form, tools: seq<Tool>): string {
    if tools == [] then "" else (form.toolStart + WrittenTool(form, tools[0], false)) + WrittenFirst(form, tools[1..])
  }

  ghost predicate AllGoodTools(cx: Context, tools: seq<Tool>) {
    forall i :: 0 <= i < |tools| ==> GoodTool(cx, tools[i], false)
  }

  lemma {:induction false} FirstToolsRead(cx: Context, calls: seq<ToolCall>, recovery: bool, tools: seq<Tool>,
                                          tail: string, pos: nat)
    requires Good(cx) && Readable(cx.form) && AllGoodTools(cx, tools)
    requires EndsAt(cx.input, pos, WrittenFirst(cx.form, tools) + tail)
    ensures var next := pos + |WrittenFirst(cx.form, tools)|;
      && EndsAt(cx.input, next, tail)
      && ParseTools(cx, calls, recovery, pos) == ParseTools(cx, calls + Calls(cx, tools), recovery && tools == [], next)
    decreases |tools|
  {
    hide GoodTool, ParseTools, Readable, WrittenTool, CallOf, OccursAt;
    var form := cx.form;
    EndsInParts(cx.input, pos, WrittenFirst(form, tools), tail);
    if tools == [] {
      assert calls + [] == calls;
    } else {
      var (tool, rest) := (tools[0], WrittenFirst(form, tools[1..]) + tail);
      var body := WrittenTool(form, tool, false);
      assert WrittenFirst(form, tools) + tail == form.toolStart + (body + rest);
      assert WrittenFirst(form, tools) + tail == (form.toolStart + body) + rest;
      EndOccurs(cx.input, pos, form.toolStart + (body + rest));
      ToolStep(cx, calls, recovery, tool, false, rest, pos);
      EndsInParts(cx.input, pos, form.toolStart + body, rest);
      assert forall i :: 0 <= i < |tools| - 1 ==> tools[1..][i] == tools[i + 1];
      FirstToolsRead(cx, calls + [CallOf(cx, tool)], false, tools[1..], tail, pos + |form.toolStart + body|);
      assert calls + [CallOf(cx, tool)] + Calls(cx, tools[1..]) == calls + Calls(cx, tools);
    }
  }

  /** Complete tools, a tool of which j arguments are complete, and the part that is not. */
  datatype Place = Place(tools: seq<Tool>, tool: Tool, j: nat, part: Part)

  function Done(pl: Place): (r: seq<Arg>)
    ensures r <= pl.tool.args
  {
    if pl.j <= |pl.tool.args| then pl.tool.args[..pl.j] else pl.tool.args
  }

  function WrittenTo(form: Form, pl: Place): string {
    form.scopeStart + (WrittenFirst(form, pl.tools) + (form.toolStart + WrittenBegun(form, pl)))
  }

  /** The tool as far as it goes. */
  function WrittenBegun(form: Form, pl: Place): string {
    (pl.tool.name + form.toolSep) + (WrittenMore(form, Done(pl)) + WrittenPart(form, pl.part))
  }

  /** The part belongs to the next argument. */
  predicate Fitting(pl: Place) {
    && pl.j <= |pl.tool.args|
    && (pl.part.InKey? ==> pl.j < |pl.tool.args| && pl.part.key == pl.tool.args[pl.j].key)
    && (pl.part.InValue? ==> pl.j < |pl.tool.args| && pl.part.arg == pl.tool.args[pl.j])
  }

  /** Without a separator the name is only known when a key follows it. */
  ghost predicate GoodPlace(cx: Context, pl: Place) {
    && Fitting(pl) && AllGoodTools(cx, pl.tools) && AllGood(cx, Done(pl)) && GoodPart(cx, pl.part)
    && CallName(cx, pl.tool) != "" && GoodName(cx.form, pl.tool)
    && (AllSpace(cx.form.toolSep) ==> pl.j > 0 || !pl.part.NoKey?)
    && FreshIn(cx, Stored([], Done(pl)), pl.part)
  }

  lemma NameKnown(cx: Context, pl: Place, pos: nat)
    requires Good(cx) && GoodPlace(cx, pl)
    requires EndsAt(cx.input, pos, WrittenBegun(cx.form, pl))
    ensures ParseName(cx, pos) == Next(pos + |pl.tool.name + cx.form.toolSep|, CallName(cx, pl.tool))
  {
    hide AllSpace, GoodPart, AllGood, AllGoodTools, FreshIn, GoodName, ParseName, CallName, OccursAt, WrittenPart;
    var (form, tool) := (cx.form, pl.tool);
    var rest := WrittenMore(form, tool.args[..pl.j]) + WrittenPart(form, pl.part);
    EndsInParts(cx.input, pos, tool.name + form.toolSep, rest);
    if !AllSpace(form.toolSep) {
      NameAtSeparator(cx, tool, pos);
    } else {
      KeyComes(form, pl);
      var tail := rest[|form.keyStart|..];
      assert (tool.name + form.toolSep) + rest == (tool.name + form.toolSep + form.keyStart) + tail;
      EndsInParts(cx.input, pos, tool.name + form.toolSep + form.keyStart, tail);
      NameAtKey(cx, tool, pos);
    }
  }

  lemma KeyComes(form: Form, pl: Place)
    requires Fitting(pl) && (pl.j > 0 || !pl.part.NoKey?)
    ensures form.keyStart <= WrittenMore(form, Done(pl)) + WrittenPart(form, pl.part)
    ensures pl.tool.args != []
  {
    if pl.j > 0 {
      var args := Done(pl);
      assert form.keyStart <= Opening(form, args[0]) + (args[0].text + form.valEnd);
    }
  }

  /** The tool that is not complete. */
  lemma ToolWaits(cx: Context, w: Writer, recovery: bool, pl: Place, pos: nat)
    requires Good(cx) && Readable(cx.form) && cx.partial && Dumps(cx.lib, w) && GoodPlace(cx, pl)
    requires EndsAt(cx.input, pos, WrittenBegun(cx.form, pl))
    ensures ParseTool(cx, recovery, pos)
         == Waiting([ToolCall(CallName(cx, pl.tool), Sent(cx, w, Stored([], Done(pl)), pl.part), "")])
  {
    hide AllSpace, GoodPart, AllGood, AllGoodTools, FreshIn, GoodName, ParseName, ParseArgs, ParseToolEnd, CallName;
    hide WrittenPart, Sent, Dumps, Readable, Stored, Opening;
    var (form, tool, done) := (cx.form, pl.tool, Done(pl));
    var (name, rest) := (tool.name + form.toolSep, WrittenMore(form, done) + WrittenPart(form, pl.part));
    NameKnown(cx, pl, pos);
    EndsInParts(cx.input, pos, name, rest);
    var at := pos + |name|;
    MoreArgsRead(cx, CallName(cx, tool), [], recovery, done, WrittenPart(form, pl.part), at);
    var (next, args) := (at + |WrittenMore(form, done)|, Stored([], done));
    if pl.part.NoKey? {
      PartText(form, pl.part);
      NoKeyWaits(cx, w, CallName(cx, tool), args, recovery && done == [], pl.part.text, next);
    } else {
      PartWaits(cx, w, CallName(cx, tool), args, recovery && done == [], pl.part, next);
    }
  }

  lemma PartText(form: Form, p: Part)
    requires p.NoKey?
    ensures WrittenPart(form, p) == p.text && p == NoKey(p.text)
  {
  }

  /**
   A parse whose input breaks off inside a call waits for more, having added the complete calls and that one: its
   name, and what is known of its arguments.
   */
  lemma BrokenOffCall(cx: Context, w: Writer, pl: Place, pos: nat)
    requires Good(cx) && Readable(cx.form) && cx.partial && Dumps(cx.lib, w) && GoodPlace(cx, pl)
    requires EndsAt(cx.input, pos, WrittenTo(cx.form, pl))
    ensures ParseXml(cx, pos)
         == Waiting(Calls(cx, pl.tools)
                    + [ToolCall(CallName(cx, pl.tool), Sent(cx, w, Stored([], Done(pl)), pl.part), "")])
  {
    hide GoodPlace, CallName, ParseTools, Sent, Dumps, Readable, Stored, Calls, FoundLiteral, WrittenBegun, OccursAt;
    hide ParseScopeStart, EndsAt, WrittenFirst;
    var (form, rest) := (cx.form, cx.form.toolStart + WrittenBegun(cx.form, pl));
    ScopeOpens(cx, pos, WrittenFirst(form, pl.tools) + rest);
    var at := pos + |form.scopeStart|;
    PlaceTools(cx, pl);
    FirstToolsRead(cx, [], true, pl.tools, rest, at);
    CallWaits(cx, w, [] + Calls(cx, pl.tools), pl.tools == [], pl, at + |WrittenFirst(form, pl.tools)|);
    assert [] + Calls(cx, pl.tools) == Calls(cx, pl.tools);
  }

  lemma ScopeOpens(cx: Context, pos: nat, rest: string)
    requires Readable(cx.form) && EndsAt(cx.input, pos, cx.form.scopeStart + rest)
    ensures pos + |cx.form.scopeStart| <= |cx.input| && EndsAt(cx.input, pos + |cx.form.scopeStart|, rest)
    ensures pos <= |cx.input| && ParseScopeStart(cx, pos) == Next(pos + |cx.form.scopeStart|, ())
  {
    hide Readable, FoundLiteral, OccursAt;
    EndsInParts(cx.input, pos, cx.form.scopeStart, rest);
    FoundHere(cx.input, pos, cx.partial, cx.form.scopeStart);
    ScopeStartSpace(cx.form);
    NoSpaceInNothing();
  }

  lemma PlaceTools(cx: Context, pl: Place)
    requires GoodPlace(cx, pl)
    ensures AllGoodTools(cx, pl.tools)
  {
  }

  lemma CallWaits(cx: Context, w: Writer, calls: seq<ToolCall>, recovery: bool, pl: Place, pos: nat)
    requires Good(cx) && Readable(cx.form) && cx.partial && Dumps(cx.lib, w) && GoodPlace(cx, pl)
    requires EndsAt(cx.input, pos, cx.form.toolStart + WrittenBegun(cx.form, pl))
    ensures ParseTools(cx, calls, recovery, pos)
         == Waiting(calls + [ToolCall(CallName(cx, pl.tool),
                                      Sent(cx, w, Stored([], Done(pl)), pl.part), "")])
  {
    hide GoodPlace, CallName, ParseTool, Sent, Dumps, Readable, Stored, FoundLiteral, WrittenBegun, OccursAt;
    EndsInParts(cx.input, pos, cx.form.toolStart, WrittenBegun(cx.form, pl));
    FoundHere(cx.input, pos, cx.partial, cx.form.toolStart);
    NoSpaceInNothing();
    ToolWaits(cx, w, recovery, pl, pos + |cx.form.toolStart|);
  }

  lemma ScopeStartSpace(form: Form)
    requires Readable(form)
    ensures AllSpace(form.scopeStart) <==> form.scopeStart == ""
  {
  }
}

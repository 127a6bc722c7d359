/** The text that is sent for arguments that are not complete: JSON cut off at the flag. */
module XmlDump {
  import opened Wrappers
  import opened Text
  import opened XmlSpec
  import JsonArguments

  // ---- how arguments are written -------------------------------------------------------------

  /** How JSON writes one character, and a value that is not text. */
  datatype Writer = Writer(escape: char -> string, show: Json -> string)

  function Quoted(w: Writer, text: string): string {
    JsonArguments.Dumped(w.escape, text)
  }

  function Begun(w: Writer, text: string): string {
    JsonArguments.OpenString(w.escape, text)
  }

  function Shown(w: Writer, value: Value): string {
    match value case Text(text) => Quoted(w, text) case Parsed(json) => w.show(json)
  }

  function Member(w: Writer, key: string, value: Value): string {
    Quoted(w, key) + ":" + Shown(w, value)
  }

  /** The members of an object and the comma behind them. */
  function Before(w: Writer, args: Arguments): string
    decreases |args|, 1
  {
    if args == [] then "" else Members(w, args) + ","
  }

  function Members(w: Writer, args: Arguments): string
    decreases |args|, 0
  {
    if args == [] then ""
    else
      var k := |args| - 1;
      Before(w, args[..k]) + Member(w, args[k].0, args[k].1)
  }

  /** json::dump writes objects like this; the flag is written as it is, and every character as something. */
  ghost predicate Dumps(lib: Library, w: Writer) {
    && (forall args :: lib.dump(args) == "{" + Members(w, args) + "}")
    && (forall c :: w.escape(c) != "") && (forall c :: c in Flag() ==> w.escape(c) == [c])
  }

  // ---- escaping ------------------------------------------------------------------------------

  lemma {:induction false} EscapedConcat(w: Writer, s: string, t: string)
    ensures JsonArguments.EscapedAll(w.escape, s + t)
         == JsonArguments.EscapedAll(w.escape, s) + JsonArguments.EscapedAll(w.escape, t)
  {
    if s == "" {
      assert s + t == t;
    } else {
      assert (s + t)[1..] == s[1..] + t;
      EscapedConcat(w, s[1..], t);
    }
  }

  lemma {:induction false} EscapedPlain(w: Writer, s: string)
    requires forall c :: c in s ==> w.escape(c) == [c]
    ensures JsonArguments.EscapedAll(w.escape, s) == s
  {
    if s != "" {
      EscapedPlain(w, s[1..]);
      assert s == [s[0]] + s[1..];
    }
  }

  /** A longer text is written longer. */
  lemma BegunGrows(w: Writer, s: string, t: string)
    requires s <= t && forall c :: w.escape(c) != ""
    ensures Begun(w, s) <= Begun(w, t) && (s < t ==> Begun(w, s) < Begun(w, t))
  {
    var more := t[|s|..];
    assert t == s + more;
    EscapedConcat(w, s, more);
    if more != "" {
      assert JsonArguments.EscapedAll(w.escape, more) != "";
    }
  }

  lemma BegunFlag(w: Writer, text: string)
    requires forall c :: c in Flag() ==> w.escape(c) == [c]
    ensures Begun(w, text + Flag()) == Begun(w, text) + Flag()
  {
    hide Flag;
    EscapedConcat(w, text, Flag());
    EscapedPlain(w, Flag());
  }

  // ---- cutting -------------------------------------------------------------------------------

  function WithoutQuote(s: string): (r: string)
    ensures r <= s
  {
    if s != "" && s[|s| - 1] == '"' then s[..|s| - 1] else s
  }

  lemma {:induction false} RFindLast(s: string, needle: string, at: nat, from: nat)
    requires OccursAt(s, needle, at) && at <= from && forall i :: at < i <= from ==> !OccursAt(s, needle, i)
    ensures RFind(s, needle, from) == Some(at)
    decreases from
  {
    if from > at {
      RFindLast(s, needle, at, from - 1);
    }
  }

  lemma FlagOnce(pre: string, post: string, i: nat)
    requires Closes(post) && i > |pre|
    ensures !OccursAt(pre + Flag() + post, Flag(), i)
  {
    hide Flag, OccursAt;
    var s := pre + Flag() + post;
    LetterX();
    NoOtherX(i - |pre|);
    FirstOf(s, Flag(), i);
    var n := |pre| + |Flag()|;
    assert i < n ==> s[i] == Flag()[i - |pre|];
    assert n <= i < |s| ==> s[i] == post[i - n] && post[i - n] in post;
  }

  lemma FirstOf(s: string, needle: string, i: nat)
    requires needle != ""
    ensures OccursAt(s, needle, i) ==> i < |s| && s[i] == needle[0]
  {
    if OccursAt(s, needle, i) {
      assert s[i..i + |needle|][0] == s[i];
    }
  }

  lemma LetterX()
    ensures Flag() != "" && Flag()[0] == 'X'
  {
  }

  lemma NoOtherX(i: nat)
    requires 1 <= i
    ensures i < |Flag()| ==> Flag()[i] != 'X'
  {
  }

  /** All behind the flag is dropped, and the flag, and a quote before it. */
  lemma CutIs(pre: string, post: string)
    requires Closes(post)
    ensures CutAtFlag(pre + Flag() + post) == Some(WithoutQuote(pre))
  {
    hide OccursAt, Closes, RFind, Flag;
    var s := pre + Flag() + post;
    assert s[|pre|..|pre| + |Flag()|] == Flag();
    StandsAt(s, Flag(), |pre|);
    forall i: nat | |pre| < i <= |s| ensures !OccursAt(s, Flag(), i) {
      FlagOnce(pre, post, i);
    }
    RFindLast(s, Flag(), |pre|, |s|);
    assert s[|pre| + |Flag()|..] == post;
    assert s[..|pre|] == pre;
    if pre != "" {
      assert s[..|pre| - 1] == pre[..|pre| - 1];
    }
  }

  // ---- what is sent --------------------------------------------------------------------------

  predicate FreshKey(args: Arguments, key: string) {
    forall i :: 0 <= i < |args| ==> args[i].0 != key
  }

  lemma {:induction false} SetFresh(args: Arguments, key: string, value: Value)
    requires FreshKey(args, key)
    ensures Set(args, key, value) == args + [(key, value)]
  {
    if args != [] {
      assert forall i :: 0 <= i < |args| - 1 ==> args[1..][i] == args[i + 1];
      SetFresh(args[1..], key, value);
    }
  }

  lemma DumpOfMore(lib: Library, w: Writer, args: Arguments, key: string, value: Value)
    requires Dumps(lib, w)
    ensures lib.dump(args + [(key, value)]) == "{" + Before(w, args) + Member(w, key, value) + "}"
  {
    hide Member, Before;
    assert (args + [(key, value)])[..|args|] == args;
    MembersSnoc(w, args, key, value);
    var m := Members(w, args + [(key, value)]);
    assert "{" + m + "}" == "{" + Before(w, args) + Member(w, key, value) + "}";
  }

  lemma MembersSnoc(w: Writer, args: Arguments, key: string, value: Value)
    ensures Members(w, args + [(key, value)]) == Before(w, args) + Member(w, key, value)
  {
    hide Member, Before;
    assert (args + [(key, value)])[..|args|] == args;
  }

  /** Between members: the object without its closing brace. */
  lemma SentOpen(lib: Library, w: Writer, args: Arguments)
    requires Dumps(lib, w)
    ensures OpenObject(lib.dump(args)) == "{" + Members(w, args)
  {
    hide Members;
    var s := "{" + Members(w, args);
    assert (s + "}")[..|s|] == s;
  }

  /** Inside a key: what is known of it. */
  lemma SentInKey(lib: Library, w: Writer, args: Arguments, key: string)
    requires Dumps(lib, w) && FreshKey(args, key + Flag())
    ensures CutAtFlag(lib.dump(Set(args, key + Flag(), Text(""))))
         == Some(WithoutQuote("{" + Before(w, args) + Begun(w, key)))
  {
    hide Before, CutAtFlag, Flag, Begun, Set;
    SetFresh(args, key + Flag(), Text(""));
    DumpOfMore(lib, w, args, key + Flag(), Text(""));
    BegunFlag(w, key);
    var post := "\":\"\"}";
    EmptyMember(w, key + Flag());
    var pre := "{" + Before(w, args) + Begun(w, key);
    assert "{" + Before(w, args) + (Begun(w, key) + Flag() + "\":\"\"") + "}" == pre + Flag() + post;
    CutIs(pre, post);
  }

  lemma EmptyMember(w: Writer, key: string)
    ensures Member(w, key, Text("")) == Begun(w, key) + "\":\"\""
  {
    assert JsonArguments.EscapedAll(w.escape, "") == "";
  }

  lemma TextMember(w: Writer, key: string, text: string)
    ensures Member(w, key, Text(text)) == Quoted(w, key) + ":" + (Begun(w, text) + "\"")
  {
  }

  /** Inside a text value: what is known of it. */
  lemma SentInValue(lib: Library, w: Writer, args: Arguments, key: string, text: string)
    requires Dumps(lib, w) && FreshKey(args, key)
    ensures CutAtFlag(lib.dump(Set(args, key, Text(text + Flag()))))
         == Some(WithoutQuote("{" + Before(w, args) + (Quoted(w, key) + ":") + Begun(w, text)))
  {
    hide Before, CutAtFlag, Flag, Begun, Set, Quoted, Members, WithoutQuote;
    SetFresh(args, key, Text(text + Flag()));
    DumpOfMore(lib, w, args, key, Text(text + Flag()));
    BegunFlag(w, text);
    var (head, post) := (Quoted(w, key) + ":", "\"}");
    TextMember(w, key, text + Flag());
    var pre := "{" + Before(w, args) + head + Begun(w, text);
    Regrouped("{" + Before(w, args), head, Begun(w, text), Flag());
    CutIs(pre, post);
  }

  lemma Regrouped(a: string, b: string, c: string, d: string)
    ensures a + (b + (c + d + "\"")) + "}" == (a + b + c) + d + "\"}"
  {
  }
}

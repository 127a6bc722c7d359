/** A key that comes twice in a call: what is sent then does not add to what was sent, and the stream breaks. */
module XmlRepeatedKeys {
  import opened Wrappers
  import opened Text
  import opened ChatTypes
  import opened ChatDiff
  import opened XmlSpec
  import opened XmlDump

  /** The members behind one, each with its comma. */
  function After(w: Writer, args: Arguments): string {
    if args == [] then "" else "," + Member(w, args[0].0, args[0].1) + After(w, args[1..])
  }

  lemma {:induction false} AfterSnoc(w: Writer, args: Arguments, key: string, value: Value)
    ensures After(w, args + [(key, value)]) == After(w, args) + ("," + Member(w, key, value))
    decreases |args|
  {
    hide Member;
    if args == [] {
      assert ([] + [(key, value)])[1..] == [] && [] + [(key, value)] == [(key, value)];
    } else {
      assert (args + [(key, value)])[1..] == args[1..] + [(key, value)];
      AfterSnoc(w, args[1..], key, value);
    }
  }

  /** The members around one of them. */
  lemma {:induction false} MembersAround(w: Writer, args: Arguments, i: nat)
    requires i < |args|
    ensures Members(w, args) == Before(w, args[..i]) + Member(w, args[i].0, args[i].1) + After(w, args[i + 1..])
    decreases |args|
  {
    hide Member, Before, After;
    var k := |args| - 1;
    if i == k {
      assert args[i + 1..] == [] && args[..k] + [args[k]] == args;
      NothingAfter(w);
      MembersSnoc(w, args[..k], args[k].0, args[k].1);
    } else {
      assert args[..k][..i] == args[..i] && args[..k][i + 1..] + [args[k]] == args[i + 1..];
      MembersAround(w, args[..k], i);
      AfterSnoc(w, args[..k][i + 1..], args[k].0, args[k].1);
      assert args[..k] + [args[k]] == args;
      MembersSnoc(w, args[..k], args[k].0, args[k].1);
      BeforeIs(w, args[..k]);
    }
  }

  lemma NothingAfter(w: Writer)
    ensures After(w, []) == ""
  {
  }

  lemma BeforeIs(w: Writer, args: Arguments)
    requires args != []
    ensures Before(w, args) == Members(w, args) + ","
  {
  }

  /** A key that is there already keeps its place. */
  lemma {:induction false} SetRepeated(args: Arguments, key: string, value: Value) returns (i: nat)
    requires !FreshKey(args, key)
    ensures i < |args| && args[i].0 == key && Set(args, key, value) == args[i := (key, value)]
  {
    if args[0].0 == key {
      i := 0;
    } else {
      assert exists k :: 0 <= k < |args| - 1 && args[1..][k].0 == key by {
        var k :| 0 <= k < |args| && args[k].0 == key;
        assert args[1..][k - 1] == args[k];
      }
      var j := SetRepeated(args[1..], key, value);
      i := j + 1;
      assert args[i := (key, value)] == [args[0]] + args[1..][j := (key, value)];
    }
  }

  /** If the flag does not come again behind it, that is where the text is cut, or nothing is sent. */
  lemma CutOrNothing(pre: string, post: string)
    requires forall i: nat :: !OccursAt(post, Flag(), i)
    ensures CutAtFlag(pre + Flag() + post) == if Closes(post) then Some(WithoutQuote(pre)) else None
  {
    hide OccursAt, Closes, RFind, Flag;
    var s := pre + Flag() + post;
    assert s[|pre|..|pre| + |Flag()|] == Flag();
    StandsAt(s, Flag(), |pre|);
    forall i: nat | |pre| < i <= |s| ensures !OccursAt(s, Flag(), i) {
      FlagNotAgain(pre, post, i);
    }
    RFindLast(s, Flag(), |pre|, |s|);
    assert s[|pre| + |Flag()|..] == post;
    assert s[..|pre|] == pre;
    if pre != "" {
      assert s[..|pre| - 1] == pre[..|pre| - 1];
    }
  }

  lemma FlagNotAgain(pre: string, post: string, i: nat)
    requires i > |pre| && forall k: nat :: !OccursAt(post, Flag(), k)
    ensures !OccursAt(pre + Flag() + post, Flag(), i)
  {
    hide Flag, OccursAt;
    var (s, n) := (pre + Flag() + post, |pre| + |Flag()|);
    LetterX();
    NoOtherX(i - |pre|);
    FirstOf(s, Flag(), i);
    assert i < n ==> s[i] == Flag()[i - |pre|];
    if i >= n {
      assert s[n..] == post;
      OccursBehind(s, n, Flag(), i - n);
    }
  }

  /** The flag is not in the rest of the object, if it was not in the object. */
  lemma RestHasNoFlag(whole: string, front: string, rest: string, i: nat)
    requires whole == front + rest && forall k: nat :: !OccursAt(whole, Flag(), k)
    ensures !OccursAt("\"" + rest, Flag(), i)
  {
    hide Flag, OccursAt;
    LetterX();
    FirstOf("\"" + rest, Flag(), i);
    if i > 0 {
      assert ("\"" + rest)[1..] == rest && whole[|front|..] == rest;
      OccursBehind("\"" + rest, 1, Flag(), i - 1);
      OccursBehind(whole, |front|, Flag(), i - 1);
    }
  }

  /** Inside a value whose key is there already. */
  lemma SentAgain(lib: Library, w: Writer, args: Arguments, key: string) returns (i: nat)
    requires Dumps(lib, w) && !FreshKey(args, key) && forall k: nat :: !OccursAt(lib.dump(args), Flag(), k)
    ensures i < |args| && args[i].0 == key
    ensures var post := "\"" + (After(w, args[i + 1..]) + "}");
      CutAtFlag(lib.dump(Set(args, key, Text(Flag()))))
        == if Closes(post) then Some("{" + Before(w, args[..i]) + (Quoted(w, key) + ":")) else None
  {
    hide Before, After, Members, CutAtFlag, Closes, Set, OccursAt, Flag, Quoted, Begun;
    i := SetRepeated(args, key, Text(Flag()));
    var args' := args[i := (key, Text(Flag()))];
    assert args'[..i] == args[..i] && args'[i + 1..] == args[i + 1..];
    MembersAround(w, args, i);
    MembersAround(w, args', i);
    var (head, rest) := ("{" + Before(w, args[..i]) + (Quoted(w, key) + ":"), After(w, args[i + 1..]) + "}");
    FlagValue(w);
    var front := "{" + Before(w, args[..i]) + Member(w, key, args[i].1);
    assert lib.dump(args) == front + rest;
    forall k: nat ensures !OccursAt("\"" + rest, Flag(), k) {
      RestHasNoFlag(lib.dump(args), front, rest, k);
    }
    assert Member(w, key, Text(Flag())) == (Quoted(w, key) + ":") + ("\"" + Flag() + "\"");
    assert lib.dump(args') == head + "\"" + Flag() + ("\"" + rest);
    CutOrNothing(head + "\"", "\"" + rest);
    assert (head + "\"")[..|head|] == head;
  }

  lemma FlagValue(w: Writer)
    requires forall c :: c in Flag() ==> w.escape(c) == [c]
    ensures Quoted(w, Flag()) == "\"" + Flag() + "\""
  {
    hide Flag;
    EscapedPlain(w, Flag());
  }

  /**
   Where a value begins, what is sent adds to what was sent before its key exactly if the key is new in the call.
   Otherwise the text becomes shorter, or the call is lost.
   */
  lemma RepeatedKeyIff(cx: Context, w: Writer, name: string, args: Arguments, key: string)
    requires Dumps(cx.lib, w) && name != "" && forall k: nat :: !OccursAt(cx.lib.dump(args), Flag(), k)
    requires forall i :: 0 <= i < |args| ==> Shown(w, args[i].1) != ""
    ensures CallsGrow([ToolCall(name, "{" + Members(w, args), "")], PartialCall(cx, name, Set(args, key, Text(Flag()))))
      <==> FreshKey(args, key)
  {
    hide Before, After, Members, CutAtFlag, Closes, Set, OccursAt, Flag, Quoted, FreshKey, Shown, Begun;
    var before := ToolCall(name, "{" + Members(w, args), "");
    if FreshKey(args, key) {
      assert "" + Flag() == Flag();
      SentInValue(cx.lib, w, args, key, "");
      NewKeyAdds(w, args, key);
    } else {
      var i := SentAgain(cx.lib, w, args, key);
      MembersAround(w, args, i);
      var head := Before(w, args[..i]) + (Quoted(w, key) + ":");
      assert Members(w, args) == head + Shown(w, args[i].1) + After(w, args[i + 1..]);
      assert "{" + Before(w, args[..i]) + (Quoted(w, key) + ":") == "{" + head;
      assert !("{" + Members(w, args) <= "{" + head);
    }
  }

  lemma NoMembers(w: Writer)
    ensures Before(w, []) == Members(w, []) == ""
  {
  }

  lemma NewKeyAdds(w: Writer, args: Arguments, key: string)
    ensures "{" + Members(w, args) <= WithoutQuote("{" + Before(w, args) + (Quoted(w, key) + ":") + Begun(w, ""))
  {
    hide Members;
    var s := "{" + Before(w, args) + (Quoted(w, key) + ":");
    assert Begun(w, "") == "\"";
    assert (s + "\"")[..|s|] == s;
    NoMembers(w);
    if args != [] { BeforeIs(w, args); }
    var comma := if args == [] then "" else ",";
    assert Before(w, args) == Members(w, args) + comma;
    assert s == "{" + Members(w, args) + (comma + (Quoted(w, key) + ":"));
  }
}

/**
 make_gbnf_excluding: a grammar that is meant to keep a set of closing literals out of generated text. The
 grammar is built as a term; its rendering as GBNF text is not part of this model.
 */
module GbnfExcluding {
  import opened Wrappers

  /** NotIn is a negated character class, Then a quoted character followed by an expression. */
  datatype Expr = NotIn(chars: seq<char>) | Then(c: char, rest: Expr) | Alt(alts: seq<Expr>)

  predicate Matches(e: Expr, t: string) {
    match e
    case NotIn(chars) => |t| == 1 && t[0] !in chars
    case Then(c, rest) => t != "" && t[0] == c && Matches(rest, t[1..])
    case Alt(alts) => exists k :: 0 <= k < |alts| && Matches(alts[k], t)
  }

  /** The expression that build_expr returns as an empty string matches nothing. */
  predicate MatchesOption(e: Option<Expr>, t: string) {
    e.Some? && Matches(e.value, t)
  }

  /** One of words[l..r] reads `t` from position `depth` on; if `proper`, it does not end there. */
  predicate ReadsAt(words: seq<string>, l: nat, r: nat, depth: nat, t: string, proper: bool)
    requires l <= r <= |words|
  {
    exists k :: l <= k < r && ReadBy(words[k], depth, t, proper)
  }

  predicate ReadBy(w: string, depth: nat, t: string, proper: bool) {
    depth + |t| <= |w| && w[depth..depth + |t|] == t && (proper ==> depth + |t| < |w|)
  }

  /** `t` follows the words for as long as it can, and then leaves all of them with its last character. */
  predicate BlockAt(words: seq<string>, l: nat, r: nat, depth: nat, t: string)
    requires l <= r <= |words|
  {
    t != "" && ReadsAt(words, l, r, depth, t[..|t| - 1], true) && !ReadsAt(words, l, r, depth, t, false)
  }

  /** std::string's operator <=. */
  predicate LexLe(a: string, b: string) {
    a == "" || (b != "" && (a[0] < b[0] || (a[0] == b[0] && LexLe(a[1..], b[1..]))))
  }

  predicate Sorted(words: seq<string>) {
    forall i, j :: 0 <= i < j < |words| ==> LexLe(words[i], words[j])
  }

  /** The words of the range agree on their first `depth` characters. */
  predicate SharePrefix(words: seq<string>, l: nat, r: nat, depth: nat)
    requires l <= r <= |words|
  {
    && (forall k :: l <= k < r ==> depth <= |words[k]|)
    && (forall j, k :: l <= j < k < r ==> words[j][..depth] == words[k][..depth])
  }

  lemma {:induction false} LexBehindPrefix(a: string, b: string, depth: nat)
    requires LexLe(a, b) && depth <= |a| && depth <= |b| && a[..depth] == b[..depth]
    ensures LexLe(a[depth..], b[depth..])
    decreases depth
  {
    if depth == 0 {
      assert a[0..] == a && b[0..] == b;
    } else {
      assert a[0] == a[..depth][0] == b[..depth][0] == b[0];
      assert a[1..][..depth - 1] == a[..depth][1..] && b[1..][..depth - 1] == b[..depth][1..];
      LexBehindPrefix(a[1..], b[1..], depth - 1);
      assert a[1..][depth - 1..] == a[depth..] && b[1..][depth - 1..] == b[depth..];
    }
  }

  /** Within a range that shares a prefix, sorting orders the words by their next character. */
  lemma NextCharsAscend(words: seq<string>, l: nat, r: nat, depth: nat, j: nat, k: nat)
    requires Sorted(words) && l <= j < k < r <= |words| && SharePrefix(words, l, r, depth)
    requires depth < |words[j]|
    ensures depth < |words[k]| && words[j][depth] <= words[k][depth]
  {
    LexBehindPrefix(words[j], words[k], depth);
    assert words[j][depth..][0] == words[j][depth];
    assert depth < |words[k]| ==> words[k][depth..][0] == words[k][depth];
  }

  /** The words of a range that go on with the character `c`. */
  datatype Child = Child(c: char, from: nat, to: nat)

  predicate IsChild(words: seq<string>, l: nat, r: nat, depth: nat, ch: Child)
    requires l <= r <= |words|
  {
    && l <= ch.from < ch.to <= r
    && forall k :: l <= k < r ==> (ch.from <= k < ch.to <==> depth < |words[k]| && words[k][depth] == ch.c)
  }

  /** Every word of words[l..i] that goes on belongs to one of the children. */
  predicate Covers(words: seq<string>, l: nat, i: nat, depth: nat, children: seq<Child>)
    requires l <= i <= |words|
  {
    forall k :: l <= k < i && depth < |words[k]| ==>
      exists x :: 0 <= x < |children| && children[x].from <= k < children[x].to
  }

  predicate AreChildren(words: seq<string>, l: nat, r: nat, depth: nat, children: seq<Child>)
    requires l <= r <= |words|
  {
    forall x :: 0 <= x < |children| ==> IsChild(words, l, r, depth, children[x])
  }

  /** The first loop of build_expr: groups a sorted range by next character. */
  method CollectChildren(words: seq<string>, l: nat, r: nat, depth: nat) returns (children: seq<Child>)
    requires Sorted(words) && l <= r <= |words| && SharePrefix(words, l, r, depth)
    ensures AreChildren(words, l, r, depth, children) && Covers(words, l, r, depth, children)
  {
    children := [];
    var i := l;
    while i < r
      invariant l <= i <= r
      invariant AreChildren(words, l, r, depth, children) && Covers(words, l, i, depth, children)
      invariant forall k :: l <= k < i && depth < |words[k]| ==>
                  forall m :: i <= m < r && depth < |words[m]| ==> words[k][depth] != words[m][depth]
    {
      var s := words[i];
      if |s| == depth {
        i := i + 1;
        continue;
      }
      var c := s[depth];
      var j := i;
      while j < r && |words[j]| > depth && words[j][depth] == c
        invariant i <= j <= r
        invariant forall k :: i <= k < j ==> depth < |words[k]| && words[k][depth] == c
        decreases r - j
      {
        j := j + 1;
      }
      GroupIsComplete(words, l, r, depth, i, j);
      CoversMore(words, l, i, j, depth, children, Child(c, i, j));
      children := children + [Child(c, i, j)];
      i := j;
    }
  }

  lemma CoversMore(words: seq<string>, l: nat, i: nat, j: nat, depth: nat, children: seq<Child>, ch: Child)
    requires l <= i <= j <= |words| && Covers(words, l, i, depth, children) && ch.from == i && ch.to == j
    ensures Covers(words, l, j, depth, children + [ch])
  {
    var more := children + [ch];
    forall k | l <= k < j && depth < |words[k]|
      ensures exists x :: 0 <= x < |more| && more[x].from <= k < more[x].to
    {
      if k < i {
        var x :| 0 <= x < |children| && children[x].from <= k < children[x].to;
        assert more[x] == children[x];
      } else {
        assert more[|children|] == ch;
      }
    }
  }

  lemma GroupIsComplete(words: seq<string>, l: nat, r: nat, depth: nat, i: nat, j: nat)
    requires Sorted(words) && l <= i < j <= r <= |words| && SharePrefix(words, l, r, depth)
    requires depth < |words[i]|
    requires forall k :: i <= k < j ==> depth < |words[k]| && words[k][depth] == words[i][depth]
    requires j < r ==> |words[j]| <= depth || words[j][depth] != words[i][depth]
    ensures forall m :: j <= m < r && depth < |words[m]| ==> words[m][depth] > words[i][depth]
  {
    forall m | j <= m < r && depth < |words[m]|
      ensures words[m][depth] > words[i][depth]
    {
      NextCharsAscend(words, l, r, depth, i, j);
      if j < m {
        NextCharsAscend(words, l, r, depth, j, m);
      }
    }
  }

  function CharsOf(children: seq<Child>): (r: seq<char>)
    ensures |r| == |children|
  {
    seq(|children|, x requires 0 <= x < |children| => children[x].c)
  }

  predicate ViaChild(words: seq<string>, depth: nat, ch: Child, t: string)
    requires ch.from <= ch.to <= |words|
  {
    t != "" && t[0] == ch.c && BlockAt(words, ch.from, ch.to, depth + 1, t[1..])
  }

  predicate AnyMatches(alts: seq<Expr>, t: string) {
    exists k :: 0 <= k < |alts| && Matches(alts[k], t)
  }

  /** What the alternatives for the first `done` children stand for. */
  predicate Meant(words: seq<string>, depth: nat, children: seq<Child>, done: nat, t: string)
    requires done <= |children| && ValidChildren(words, children)
  {
    || (children != [] && |t| == 1 && t[0] !in CharsOf(children))
    || (exists x :: 0 <= x < done && ViaChild(words, depth, children[x], t))
  }

  /** Reading behind a character is the same in the range and in the child for that character. */
  lemma ReadsInChild(words: seq<string>, l: nat, r: nat, depth: nat, ch: Child, t: string, proper: bool)
    requires l <= r <= |words| && IsChild(words, l, r, depth, ch) && t != "" && t[0] == ch.c
    ensures ReadsAt(words, l, r, depth, t, proper) <==> ReadsAt(words, ch.from, ch.to, depth + 1, t[1..], proper)
  {
    forall k | l <= k < r
      ensures ReadBy(words[k], depth, t, proper) <==>
          ch.from <= k < ch.to && ReadBy(words[k], depth + 1, t[1..], proper)
    {
      var w := words[k];
      if depth + |t| <= |w| {
        assert w[depth..depth + |t|] == [w[depth]] + w[depth + 1..depth + |t|];
        assert t == [t[0]] + t[1..];
      }
    }
  }

  lemma NodeMeaning(words: seq<string>, l: nat, r: nat, depth: nat, children: seq<Child>, t: string)
    requires l <= r <= |words| && SharePrefix(words, l, r, depth)
    requires AreChildren(words, l, r, depth, children) && Covers(words, l, r, depth, children)
    requires ValidChildren(words, children)
    ensures Meant(words, depth, children, |children|, t) <==> BlockAt(words, l, r, depth, t)
  {
    hide ReadsAt, Covers;
    if |t| == 1 {
      SingleMeaning(words, l, r, depth, children, t);
    } else if |t| > 1 {
      var u := t[..|t| - 1];
      forall x | 0 <= x < |children| && children[x].c == t[0]
        ensures ViaChild(words, depth, children[x], t) <==> BlockAt(words, l, r, depth, t)
      {
        ReadsInChild(words, l, r, depth, children[x], t, false);
        ReadsInChild(words, l, r, depth, children[x], u, true);
        assert u[1..] == t[1..][..|t[1..]| - 1];
      }
      if BlockAt(words, l, r, depth, t) {
        var x := ChildRead(words, l, r, depth, children, u);
        assert ViaChild(words, depth, children[x], t);
      }
    }
  }

  lemma ChildRead(words: seq<string>, l: nat, r: nat, depth: nat, children: seq<Child>, u: string) returns (x: nat)
    requires l <= r <= |words| && u != "" && ReadsAt(words, l, r, depth, u, true)
    requires AreChildren(words, l, r, depth, children) && Covers(words, l, r, depth, children)
    ensures x < |children| && children[x].c == u[0]
  {
    var k :| l <= k < r && ReadBy(words[k], depth, u, true);
    assert words[k][depth] == words[k][depth..depth + |u|][0] == u[0];
    x :| 0 <= x < |children| && children[x].from <= k < children[x].to;
    assert IsChild(words, l, r, depth, children[x]);
  }

  /** Some word of the range goes on with `c`. */
  predicate GoesOnWith(words: seq<string>, l: nat, r: nat, depth: nat, c: char)
    requires l <= r <= |words|
  {
    exists k :: l <= k < r && depth < |words[k]| && words[k][depth] == c
  }

  lemma CharsGoOn(words: seq<string>, l: nat, r: nat, depth: nat, children: seq<Child>, c: char)
    requires l <= r <= |words|
    requires AreChildren(words, l, r, depth, children) && Covers(words, l, r, depth, children)
    ensures c in CharsOf(children) <==> GoesOnWith(words, l, r, depth, c)
  {
    if c in CharsOf(children) {
      var x :| 0 <= x < |children| && CharsOf(children)[x] == c;
      assert IsChild(words, l, r, depth, children[x]);
      assert depth < |words[children[x].from]|;
    }
    if GoesOnWith(words, l, r, depth, c) {
      var k :| l <= k < r && depth < |words[k]| && words[k][depth] == c;
      var x :| 0 <= x < |children| && children[x].from <= k < children[x].to;
      assert IsChild(words, l, r, depth, children[x]);
      assert CharsOf(children)[x] == c;
    }
  }

  lemma ReadsOne(words: seq<string>, l: nat, r: nat, depth: nat, t: string)
    requires l <= r <= |words| && |t| == 1
    ensures ReadsAt(words, l, r, depth, t, false) <==> GoesOnWith(words, l, r, depth, t[0])
  {
    forall k | l <= k < r
      ensures ReadBy(words[k], depth, t, false) <==> depth < |words[k]| && words[k][depth] == t[0]
    {
      assert depth < |words[k]| ==> words[k][depth..depth + 1] == [words[k][depth]];
    }
  }

  lemma ReadsNothing(words: seq<string>, l: nat, r: nat, depth: nat, children: seq<Child>)
    requires l <= r <= |words|
    requires AreChildren(words, l, r, depth, children) && Covers(words, l, r, depth, children)
    ensures ReadsAt(words, l, r, depth, "", true) <==> children != []
  {
    if children != [] {
      assert IsChild(words, l, r, depth, children[0]);
      assert depth < |words[children[0].from]|;
      assert ReadBy(words[children[0].from], depth, "", true);
    }
  }

  lemma SingleMeaning(words: seq<string>, l: nat, r: nat, depth: nat, children: seq<Child>, t: string)
    requires l <= r <= |words| && |t| == 1
    requires AreChildren(words, l, r, depth, children) && Covers(words, l, r, depth, children)
    requires ValidChildren(words, children)
    ensures Meant(words, depth, children, |children|, t) <==> BlockAt(words, l, r, depth, t)
  {
    hide ReadsAt, CharsOf, Covers;
    assert t[..0] == "";
    CharsGoOn(words, l, r, depth, children, t[0]);
    ReadsOne(words, l, r, depth, t);
    ReadsNothing(words, l, r, depth, children);
  }

  function MaxLength(words: seq<string>): (r: nat)
    ensures forall k :: 0 <= k < |words| ==> |words[k]| <= r
  {
    if words == [] then 0
    else
      var rest := MaxLength(words[1..]);
      assert forall k :: 1 <= k < |words| ==> words[k] == words[1..][k - 1];
      if |words[0]| > rest then |words[0]| else rest
  }

  lemma ChildSharesPrefix(words: seq<string>, l: nat, r: nat, depth: nat, ch: Child)
    requires l <= r <= |words| && SharePrefix(words, l, r, depth) && IsChild(words, l, r, depth, ch)
    ensures SharePrefix(words, ch.from, ch.to, depth + 1)
  {
    forall j, k | ch.from <= j < k < ch.to
      ensures words[j][..depth + 1] == words[k][..depth + 1]
    {
      assert words[j][..depth + 1] == words[j][..depth] + [words[j][depth]];
      assert words[k][..depth + 1] == words[k][..depth] + [words[k][depth]];
    }
  }

  predicate ValidChildren(words: seq<string>, children: seq<Child>) {
    forall x :: 0 <= x < |children| ==> children[x].from < children[x].to <= |words|
  }

  lemma ChildrenAreValid(words: seq<string>, l: nat, r: nat, depth: nat, children: seq<Child>)
    requires l <= r <= |words| && AreChildren(words, l, r, depth, children)
    ensures ValidChildren(words, children)
  {
    forall x | 0 <= x < |children| ensures children[x].from < children[x].to <= |words| {
      assert IsChild(words, l, r, depth, children[x]);
    }
  }

  /** build_expr: the expression for a range matches exactly the blocks of that range. */
  method BuildExpr(words: seq<string>, l: nat, r: nat, depth: nat) returns (e: Option<Expr>)
    requires Sorted(words) && l <= r <= |words| && SharePrefix(words, l, r, depth) && depth <= MaxLength(words)
    ensures forall t :: MatchesOption(e, t) <==> BlockAt(words, l, r, depth, t)
    ensures e == None <==> forall k :: l <= k < r ==> |words[k]| <= depth
    decreases MaxLength(words) - depth
  {
    hide Meant, AnyMatches, BlockAt, Matches, Sorted, SharePrefix, Covers, CharsOf;
    var children := CollectChildren(words, l, r, depth);
    ChildrenAreValid(words, l, r, depth, children);
    var alts: seq<Expr> := [];
    if children != [] {
      alts := [NotIn(CharsOf(children))];
    }
    forall t ensures AnyMatches(alts, t) <==> Meant(words, depth, children, 0, t) {
      FirstAlternative(words, depth, children, alts, t);
    }
    var x := 0;
    while x < |children|
      invariant 0 <= x <= |children| && (alts == [] <==> children == [])
      invariant forall t :: AnyMatches(alts, t) <==> Meant(words, depth, children, x, t)
    {
      var ch := children[x];
      assert IsChild(words, l, r, depth, ch);
      assert depth < |words[ch.from]| <= MaxLength(words);
      ChildSharesPrefix(words, l, r, depth, ch);
      var childExpr := BuildExpr(words, ch.from, ch.to, depth + 1);
      ghost var before := alts;
      if childExpr.Some? {
        alts := alts + [Then(ch.c, childExpr.value)];
      }
      forall t ensures AnyMatches(alts, t) <==> Meant(words, depth, children, x + 1, t) {
        AddedBranch(before, alts, ch.c, childExpr, t);
        MeantNext(words, depth, children, x, t);
      }
      x := x + 1;
    }
    forall t ensures AnyMatches(alts, t) <==> BlockAt(words, l, r, depth, t) {
      NodeMeaning(words, l, r, depth, children, t);
    }
    forall t ensures AnyMatches(alts, t) <==> alts != [] && Matches(Alt(alts), t) {
      AltMatches(alts, t);
    }
    NoChildren(words, l, r, depth, children);
    if alts == [] {
      return None;
    }
    return Some(Alt(alts));
  }

  lemma NoChildren(words: seq<string>, l: nat, r: nat, depth: nat, children: seq<Child>)
    requires l <= r <= |words|
    requires AreChildren(words, l, r, depth, children) && Covers(words, l, r, depth, children)
    ensures children == [] <==> forall k :: l <= k < r ==> |words[k]| <= depth
  {
    if children != [] {
      assert IsChild(words, l, r, depth, children[0]);
      assert depth < |words[children[0].from]|;
    }
  }

  lemma AltMatches(alts: seq<Expr>, t: string)
    ensures AnyMatches(alts, t) <==> alts != [] && Matches(Alt(alts), t)
  {
  }

  lemma FirstAlternative(words: seq<string>, depth: nat, children: seq<Child>, alts: seq<Expr>, t: string)
    requires ValidChildren(words, children)
    requires alts == if children == [] then [] else [NotIn(CharsOf(children))]
    ensures AnyMatches(alts, t) <==> Meant(words, depth, children, 0, t)
  {
    if children != [] {
      assert alts[0] == NotIn(CharsOf(children));
      assert Matches(alts[0], t) ==> AnyMatches(alts, t);
    }
  }

  lemma MeantNext(words: seq<string>, depth: nat, children: seq<Child>, x: nat, t: string)
    requires ValidChildren(words, children) && x < |children|
    ensures Meant(words, depth, children, x + 1, t)
       <==> Meant(words, depth, children, x, t) || ViaChild(words, depth, children[x], t)
  {
  }

  lemma AddedBranch(before: seq<Expr>, alts: seq<Expr>, c: char, child: Option<Expr>, t: string)
    requires alts == if child.Some? then before + [Then(c, child.value)] else before
    ensures AnyMatches(alts, t) <==> AnyMatches(before, t) || (t != "" && t[0] == c && MatchesOption(child, t[1..]))
  {
    if child.Some? {
      assert alts[|before|] == Then(c, child.value);
      if AnyMatches(before, t) {
        var k :| 0 <= k < |before| && Matches(before[k], t);
        assert alts[k] == before[k];
      }
      if Matches(Then(c, child.value), t) {
        assert Matches(alts[|before|], t);
      }
    }
  }

  function Insert(w: string, words: seq<string>): seq<string> {
    if words == [] || LexLe(w, words[0]) then [w] + words else [words[0]] + Insert(w, words[1..])
  }

  /** std::sort on the vector of words. */
  function SortWords(words: seq<string>): seq<string> {
    if words == [] then [] else Insert(words[0], SortWords(words[1..]))
  }

  lemma {:induction false} LexTotal(a: string, b: string)
    ensures LexLe(a, b) || LexLe(b, a)
  {
    if a != "" && b != "" && a[0] == b[0] {
      LexTotal(a[1..], b[1..]);
    }
  }

  lemma {:induction false} LexTransitive(a: string, b: string, c: string)
    requires LexLe(a, b) && LexLe(b, c)
    ensures LexLe(a, c)
  {
    if a != "" && a[0] == b[0] == c[0] {
      LexTransitive(a[1..], b[1..], c[1..]);
    }
  }

  lemma {:induction false} InsertSorts(w: string, words: seq<string>)
    requires Sorted(words)
    ensures Sorted(Insert(w, words)) && multiset(Insert(w, words)) == multiset{w} + multiset(words)
  {
    if words == [] || LexLe(w, words[0]) {
      forall i | 0 <= i < |words| ensures LexLe(w, words[i]) {
        if i > 0 {
          LexTransitive(w, words[0], words[i]);
        }
      }
    } else {
      LexTotal(w, words[0]);
      var rest := Insert(w, words[1..]);
      InsertSorts(w, words[1..]);
      assert words == [words[0]] + words[1..];
      forall i | 0 <= i < |rest| ensures LexLe(words[0], rest[i]) {
        assert rest[i] in multiset(rest);
        assert rest[i] == w || rest[i] in words[1..];
      }
    }
  }

  lemma {:induction false} SortWordsSorts(words: seq<string>)
    ensures Sorted(SortWords(words)) && multiset(SortWords(words)) == multiset(words)
  {
    if words != [] {
      SortWordsSorts(words[1..]);
      InsertSorts(words[0], SortWords(words[1..]));
      assert words == [words[0]] + words[1..];
    }
  }

  /** The whole grammar: any string for an empty set of words, otherwise a repetition. */
  datatype Grammar = AnyString | Star(e: Expr)

  predicate Accepts(g: Grammar, s: string)
    decreases |s|
  {
    match g
    case AnyString => true
    case Star(e) => s == "" || exists k :: 0 < k <= |s| && Matches(e, s[..k]) && Accepts(g, s[k..])
  }

  /** `t` is the beginning of a word. */
  predicate Begins(words: seq<string>, t: string) {
    exists w :: w in words && t <= w
  }

  /** `t` is the beginning of a word that goes on behind it. */
  predicate BeginsProperly(words: seq<string>, t: string) {
    exists w :: w in words && t < w
  }

  /** A proper beginning of a word, then a character that continues no word there. */
  predicate Block(words: seq<string>, t: string) {
    t != "" && BeginsProperly(words, t[..|t| - 1]) && !Begins(words, t)
  }

  /** `s` splits into blocks. */
  predicate Blocks(words: seq<string>, s: string)
    decreases |s|
  {
    s == "" || exists k :: 0 < k <= |s| && Block(words, s[..k]) && Blocks(words, s[k..])
  }

  lemma ReadsFromStart(words: seq<string>, t: string)
    ensures ReadsAt(words, 0, |words|, 0, t, false) <==> Begins(words, t)
    ensures ReadsAt(words, 0, |words|, 0, t, true) <==> BeginsProperly(words, t)
  {
    forall k | 0 <= k < |words|
      ensures ReadBy(words[k], 0, t, false) <==> t <= words[k]
      ensures ReadBy(words[k], 0, t, true) <==> t < words[k]
      ensures words[k] in words
    {
      assert |t| <= |words[k]| ==> words[k][0..0 + |t|] == words[k][..|t|];
    }
    if Begins(words, t) {
      var w :| w in words && t <= w;
      var k :| 0 <= k < |words| && words[k] == w;
      assert ReadBy(words[k], 0, t, false);
    }
    if BeginsProperly(words, t) {
      var w :| w in words && t < w;
      var k :| 0 <= k < |words| && words[k] == w;
      assert ReadBy(words[k], 0, t, true);
    }
  }

  lemma SameMembers(a: seq<string>, b: seq<string>)
    requires multiset(a) == multiset(b)
    ensures forall w :: w in a <==> w in b
  {
    forall w ensures w in a <==> w in b {
      assert w in a <==> w in multiset(a);
      assert w in b <==> w in multiset(b);
    }
  }

  lemma SameWordsSameBlocks(a: seq<string>, b: seq<string>, t: string)
    requires multiset(a) == multiset(b)
    ensures BlockAt(a, 0, |a|, 0, t) <==> Block(b, t)
  {
    SameMembers(a, b);
    if t != "" {
      ReadsFromStart(a, t);
      ReadsFromStart(a, t[..|t| - 1]);
    }
  }

  lemma {:induction false} EveryStringIsAccepted(s: string)
    ensures Accepts(Star(NotIn([])), s)
    decreases |s|
  {
    if s != "" {
      EveryStringIsAccepted(s[1..]);
      assert Matches(NotIn([]), s[..1]);
    }
  }

  method MakeGbnfExcluding(forbids: seq<string>) returns (g: Grammar)
    ensures forbids == [] ==> g == AnyString
    ensures (exists w :: w in forbids && w != "") ==> forall s :: Accepts(g, s) <==> Blocks(forbids, s)
    ensures (forall w :: w in forbids ==> w == "") ==> forall s :: Accepts(g, s)
  {
    if forbids == [] {
      return AnyString;
    }
    var words := SortWords(forbids);
    SortWordsSorts(forbids);
    var expr := BuildExpr(words, 0, |words|, 0);
    forall t ensures BlockAt(words, 0, |words|, 0, t) <==> Block(forbids, t) {
      SameWordsSameBlocks(words, forbids, t);
    }
    if expr == None {
      SameMembers(words, forbids);
      forall s ensures Accepts(Star(NotIn([])), s) {
        EveryStringIsAccepted(s);
      }
      return Star(NotIn([]));
    }
    ghost var k :| 0 <= k < |words| && |words[k]| > 0;
    assert words[k] in forbids by {
      SameMembers(words, forbids);
    }
    g := Star(expr.value);
    forall s ensures Accepts(g, s) <==> Blocks(forbids, s) {
      StarOfBlocks(forbids, expr.value, s);
    }
  }

  lemma {:induction false} StarOfBlocks(words: seq<string>, e: Expr, s: string)
    requires forall t :: Matches(e, t) <==> Block(words, t)
    ensures Accepts(Star(e), s) <==> Blocks(words, s)
    decreases |s|
  {
    forall k | 0 < k <= |s| ensures Accepts(Star(e), s[k..]) <==> Blocks(words, s[k..]) {
      StarOfBlocks(words, e, s[k..]);
    }
  }
}
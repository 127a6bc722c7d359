/**
 What the excluding grammar does and does not exclude. A generator that is held to the grammar produces,
 at any moment, a viable text: blocks followed by a proper beginning of a word.
 */
module GbnfLaws {
  import opened Text
  import opened GbnfExcluding

  predicate NonemptyWords(words: seq<string>) {
    words != [] && "" !in words
  }

  predicate PrefixFree(words: seq<string>) {
    forall v, w :: v in words && w in words && v <= w ==> v == w
  }

  /** No word occurs within another one. */
  ghost predicate FactorFree(words: seq<string>) {
    forall v, w, i: nat :: v in words && w in words && OccursAt(w, v, i) ==> v == w
  }

  ghost predicate ContainsWord(words: seq<string>, s: string) {
    exists w, i: nat :: w in words && OccursAt(s, w, i)
  }

  /** Blocks followed by a proper beginning of a word: what a generator held to the grammar can have produced. */
  predicate Viable(words: seq<string>, s: string)
    decreases |s|
  {
    || BeginsProperly(words, s)
    || exists k :: 0 < k <= |s| && Block(words, s[..k]) && Viable(words, s[k..])
  }

  /** A block can end with what is already the beginning of a word. */
  ghost predicate Overlaps(words: seq<string>) {
    exists t, j :: 1 <= j < |t| && Block(words, t) && Begins(words, t[j..])
  }

  /** For a prefix-free set, no forbidden word starts where a block starts. */
  lemma NoWordAtBoundary(words: seq<string>, s: string)
    requires NonemptyWords(words) && PrefixFree(words) && Blocks(words, s)
    ensures forall w :: w in words ==> !(w <= s)
  {
    forall w | w in words ensures !(w <= s) {
      if s != "" {
        var k :| 0 < k <= |s| && Block(words, s[..k]) && Blocks(words, s[k..]);
        NotAtBlock(words, s, k, w);
      }
    }
  }

  lemma NotAtBlock(words: seq<string>, s: string, k: nat, w: string)
    requires PrefixFree(words) && w in words && 0 < k <= |s| && Block(words, s[..k])
    ensures !(w <= s)
  {
    var u := s[..k][..k - 1];
    var v :| v in words && u < v;
    Straddles(s, k, w, 0);
    OccursInBeginning(u, v, w, 0);
    assert s[..k][0..] == s[..k];
    OccursAtStart(s, w);
    OccursAtStart(v, w);
  }

  lemma OccursAtStart(s: string, w: string)
    ensures OccursAt(s, w, 0) <==> w <= s
  {
    assert |w| <= |s| ==> s[0..0 + |w|] == s[..|w|];
  }

  /** An occurrence that starts within s[..k] ends in it or reaches beyond it. */
  lemma Straddles(s: string, k: nat, w: string, p: nat)
    requires p < k <= |s|
    ensures OccursAt(s, w, p) && p + |w| >= k ==> s[..k][p..] <= w
    ensures OccursAt(s, w, p) && p + |w| < k ==> OccursAt(s[..k][..k - 1], w, p)
  {
    assert OccursAt(s, w, p) && p + |w| >= k ==> s[..k][p..] == s[p..p + |w|][..k - p];
    assert p + |w| < k ==> s[..k][..k - 1][p..p + |w|] == s[p..p + |w|];
  }

  lemma PrependBlock(words: seq<string>, t: string, rest: string)
    requires Block(words, t)
    ensures Blocks(words, rest) ==> Blocks(words, t + rest)
    ensures Viable(words, rest) ==> Viable(words, t + rest)
  {
    assert (t + rest)[..|t|] == t && (t + rest)[|t|..] == rest;
  }

  /** A viable text is an accepted one followed by a proper beginning of a word. */
  lemma {:induction false} ViableSplits(words: seq<string>, s: string) returns (x: string, y: string)
    requires Viable(words, s)
    ensures s == x + y && Blocks(words, x) && BeginsProperly(words, y)
    decreases |s|
  {
    hide Blocks, Block, BeginsProperly;
    if BeginsProperly(words, s) {
      x, y := "", s;
      NothingIsBlocks(words);
    } else {
      var k :| 0 < k <= |s| && Block(words, s[..k]) && Viable(words, s[k..]);
      var x', y' := ViableSplits(words, s[k..]);
      PrependBlock(words, s[..k], x');
      x, y := s[..k] + x', y';
      Regroup(s, k, x', y');
    }
  }

  lemma Regroup(s: string, k: nat, x: string, y: string)
    requires k <= |s| && s[k..] == x + y
    ensures s == (s[..k] + x) + y
  {
    assert s == s[..k] + s[k..];
  }

  lemma NothingIsBlocks(words: seq<string>)
    ensures Blocks(words, "")
  {
  }

  lemma {:induction false} AcceptedIsViable(words: seq<string>, s: string)
    requires NonemptyWords(words) && Blocks(words, s)
    ensures Viable(words, s)
    decreases |s|
  {
    if s == "" {
      assert words[0] in words && "" < words[0];
    } else {
      var k :| 0 < k <= |s| && Block(words, s[..k]) && Blocks(words, s[k..]);
      AcceptedIsViable(words, s[k..]);
    }
  }

  /** How far `s` follows the words, from position k on. */
  function Followed(words: seq<string>, s: string, k: nat): (r: nat)
    requires k <= |s| && Begins(words, s[..k])
    ensures k <= r <= |s| && Begins(words, s[..r])
    ensures r < |s| ==> !Begins(words, s[..r + 1])
    decreases |s| - k
  {
    if k < |s| && Begins(words, s[..k + 1]) then Followed(words, s, k + 1) else k
  }

  /** Nothing that avoids the words is lost: it is accepted, up to a leftover proper beginning of a word. */
  lemma {:induction false} WordFreeIsViable(words: seq<string>, s: string)
    requires NonemptyWords(words) && !ContainsWord(words, s)
    ensures Viable(words, s)
    decreases |s|
  {
    assert words[0] in words && s[..0] <= words[0];
    var k := Followed(words, s, 0);
    var w :| w in words && s[..k] <= w;
    if s[..k] == w {
      assert OccursAt(s, w, 0);
    }
    assert BeginsProperly(words, s[..k]);
    if k == |s| {
      assert s == s[..k];
    } else {
      assert s[..k + 1][..k] == s[..k];
      var rest := s[k + 1..];
      forall v, i: nat | v in words ensures !OccursAt(rest, v, i) {
        OccursBehind(s, k + 1, v, i);
      }
      WordFreeIsViable(words, rest);
    }
  }

  lemma OccursInBeginning(u: string, v: string, w: string, i: nat)
    requires u <= v
    ensures OccursAt(u, w, i) ==> OccursAt(v, w, i)
  {
    assert i + |w| <= |u| ==> u[i..i + |w|] == v[i..i + |w|];
  }

  /** The word v occurs in w and ends before w does: it is still a proper beginning there. */
  predicate EndsWithin(words: seq<string>, v: string, w: string, i: nat) {
    v in words && w in words && OccursAt(w, v, i) && i + |v| < |w|
  }

  /** The block t ends with a beginning of w, and the rest of w may follow. */
  predicate Continues(words: seq<string>, t: string, j: nat, w: string) {
    1 <= j < |t| && w in words && Block(words, t) && t[j..] <= w && Viable(words, w[|t| - j..])
  }

  /** How a word can get through. */
  ghost predicate Admits(words: seq<string>) {
    (exists v, w, i :: EndsWithin(words, v, w, i)) || exists t, j, w :: Continues(words, t, j, w)
  }

  lemma {:induction false} PrefixIsViable(words: seq<string>, p: string, s: string)
    requires Viable(words, s) && p <= s
    ensures Viable(words, p)
    decreases |s|
  {
    if !BeginsProperly(words, s) {
      var k :| 0 < k <= |s| && Block(words, s[..k]) && Viable(words, s[k..]);
      if |p| < k {
        var u := s[..k][..k - 1];
        var v :| v in words && u < v;
        assert p <= u < v;
      } else {
        assert p[..k] == s[..k] && p[k..] <= s[k..];
        PrefixIsViable(words, p[k..], s[k..]);
      }
    } else {
      var v :| v in words && s < v;
      assert p < v;
    }
  }

  /** If no word can get through, no viable text ever contains one. */
  lemma {:induction false} NotAdmittedExcludes(words: seq<string>, s: string)
    requires !Admits(words) && Viable(words, s)
    ensures !ContainsWord(words, s)
    decreases |s|
  {
    hide Admits, Block, OccursAt;
    if BeginsProperly(words, s) {
      var v :| v in words && s < v;
      forall w, p: nat | w in words ensures !OccursAt(s, w, p) {
        NotInBeginning(words, s, v, w, p);
      }
    } else {
      var k :| 0 < k <= |s| && Block(words, s[..k]) && Viable(words, s[k..]);
      NotAdmittedExcludes(words, s[k..]);
      forall w, p: nat | w in words ensures !OccursAt(s, w, p) {
        if p >= k {
          OccursBehind(s, k, w, p - k);
        } else {
          NotInsideBlock(words, s, k, w, p);
        }
      }
    }
  }

  lemma NotInBeginning(words: seq<string>, u: string, v: string, w: string, p: nat)
    requires !Admits(words) && v in words && u < v && w in words
    ensures !OccursAt(u, w, p)
  {
    OccursInBeginning(u, v, w, p);
    assert !EndsWithin(words, w, v, p);
  }

  lemma NotInsideBlock(words: seq<string>, s: string, k: nat, w: string, p: nat)
    requires !Admits(words) && w in words
    requires p < k <= |s| && Block(words, s[..k]) && Viable(words, s[k..])
    ensures !OccursAt(s, w, p)
  {
    hide Admits, Viable;
    var t := s[..k];
    var u := t[..k - 1];
    var v :| v in words && u < v;
    Straddles(s, k, w, p);
    if OccursAt(s, w, p) && p + |w| < k {
      NotInBeginning(words, u, v, w, p);
    } else if OccursAt(s, w, p) {
      assert t[0..] == t;
      BeginsBy(words, w, t[p..]);
      assert s[p..p + |w|][k - p..] == s[k..p + |w|] == s[k..][..p + |w| - k];
      PrefixIsViable(words, w[k - p..], s[k..]);
      NotOverBlock(words, t, p, w);
    }
  }

  lemma NotOverBlock(words: seq<string>, t: string, j: nat, w: string)
    requires !Admits(words) && 1 <= j < |t| && w in words && Block(words, t) && t[j..] <= w
    ensures !Viable(words, w[|t| - j..])
  {
    assert !Continues(words, t, j, w);
  }

  lemma BeginsBy(words: seq<string>, w: string, t: string)
    requires w in words
    ensures t <= w ==> Begins(words, t)
  {
  }

  /** An overlap lets a word through if the rest of it may follow. */
  lemma OverlapAdmitsWord(words: seq<string>, t: string, j: nat, w: string) returns (s: string)
    requires Continues(words, t, j, w)
    ensures Viable(words, s) && ContainsWord(words, s)
  {
    var rest := w[|t| - j..];
    s := t + rest;
    PrependBlock(words, t, rest);
    OverlapOccurs(t, j, w);
  }

  lemma RestIsViable(words: seq<string>, w: string, n: nat)
    requires NonemptyWords(words) && FactorFree(words) && w in words && 0 < n <= |w|
    ensures Viable(words, w[n..])
  {
    var rest := w[n..];
    forall v, i: nat | v in words ensures !OccursAt(rest, v, i) {
      OccursBehind(w, n, v, i);
    }
    WordFreeIsViable(words, rest);
  }

  lemma OverlapOccurs(t: string, j: nat, w: string)
    requires j < |t| && t[j..] <= w
    ensures OccursAt(t + w[|t| - j..], w, j)
  {
    var n := |t| - j;
    assert w == t[j..] + w[n..];
    assert (t + w[n..])[j..j + |w|] == t[j..] + w[n..];
  }

  lemma InnerWordGetsThrough(words: seq<string>, v: string, w: string, i: nat) returns (s: string)
    requires EndsWithin(words, v, w, i)
    ensures Viable(words, s) && ContainsWord(words, s)
  {
    s := w[..i + |v|];
    assert s[i..i + |v|] == w[i..i + |v|];
    assert OccursAt(s, v, i) && BeginsProperly(words, s);
  }

  /** For any nonempty words: unfinished generations keep them out exactly if none can get through. */
  lemma UnfinishedExcludeIffNotAdmitted(words: seq<string>)
    requires NonemptyWords(words)
    ensures (forall s :: Viable(words, s) ==> !ContainsWord(words, s)) <==> !Admits(words)
  {
    hide Viable, ContainsWord, Admits;
    if Admits(words) {
      var s := AdmittedWord(words);
    } else {
      forall s | Viable(words, s) ensures !ContainsWord(words, s) {
        NotAdmittedExcludes(words, s);
      }
    }
  }

  lemma AdmittedWord(words: seq<string>) returns (s: string)
    requires Admits(words)
    ensures Viable(words, s) && ContainsWord(words, s)
  {
    hide EndsWithin, Continues, Viable, ContainsWord;
    if v, w, i :| EndsWithin(words, v, w, i) {
      s := InnerWordGetsThrough(words, v, w, i);
    } else {
      var t, j, w :| Continues(words, t, j, w);
      s := OverlapAdmitsWord(words, t, j, w);
    }
  }

  lemma OverlapAdmits(words: seq<string>, t: string, j: nat)
    requires NonemptyWords(words) && FactorFree(words)
    requires 1 <= j < |t| && Block(words, t) && Begins(words, t[j..])
    ensures Admits(words)
  {
    hide Block, Viable, FactorFree;
    var w :| w in words && t[j..] <= w;
    RestIsViable(words, w, |t| - j);
    assert Continues(words, t, j, w);
  }

  lemma AdmitsByOverlap(words: seq<string>)
    requires FactorFree(words) && Admits(words)
    ensures Overlaps(words)
  {
    hide Block, Viable;
    assert forall v, w, i :: !EndsWithin(words, v, w, i);
    var t, j, w :| Continues(words, t, j, w);
    BeginsBy(words, w, t[j..]);
  }

  /** For words none of which occurs within another, that is exactly when no block overlaps a word. */
  lemma UnfinishedExcludeIffNoOverlap(words: seq<string>)
    requires NonemptyWords(words) && FactorFree(words)
    ensures (forall s :: Viable(words, s) ==> !ContainsWord(words, s)) <==> !Overlaps(words)
  {
    hide Block, Viable, Admits, ContainsWord, FactorFree;
    UnfinishedExcludeIffNotAdmitted(words);
    if t, j :| 1 <= j < |t| && Block(words, t) && Begins(words, t[j..]) {
      OverlapAdmits(words, t, j);
    } else if Admits(words) {
      AdmitsByOverlap(words);
    }
  }

  /** A single word overlaps itself unless it repeats one character. */
  lemma SingleWordOverlaps(w: string)
    requires w != ""
    ensures Overlaps([w]) <==> exists i :: 0 <= i < |w| && w[i] != w[0]
  {
    if exists i :: 0 <= i < |w| && w[i] != w[0] {
      var n := FirstOther(w, 0);
      var t := w[..n] + [w[0]];
      assert t[..n] == w[..n] && w[..n] < w && w in [w];
      assert t[n] != w[n];
      assert Block([w], t);
      forall k | 0 <= k < n ensures t[1..][k] == w[k] {
      }
      assert t[1..] == w[..n];
      assert Begins([w], t[1..]);
    }
    if Overlaps([w]) {
      var t, j :| 1 <= j < |t| && Block([w], t) && Begins([w], t[j..]);
      OverlapNeedsOther(w, t, j);
    }
  }

  lemma OverlapNeedsOther(w: string, t: string, j: nat)
    requires w != "" && 1 <= j < |t| && Block([w], t) && Begins([w], t[j..])
    ensures exists i :: 0 <= i < |w| && w[i] != w[0]
  {
    var n := |t| - 1;
    assert t[..n] < w && t[j..] <= w;
    assert t == t[..n] + [t[n]] && w[..n + 1] == w[..n] + [w[n]];
    assert w in [w];
    assert t[n] != w[n];
    assert t[n] == t[j..][n - j] == w[n - j];
    assert w[n] != w[0] || w[n - j] != w[0];
  }

  function FirstOther(w: string, k: nat): (n: nat)
    requires k < |w| && forall i :: 0 <= i <= k ==> w[i] == w[0]
    requires exists i :: 0 <= i < |w| && w[i] != w[0]
    ensures 0 < n < |w| && w[n] != w[0] && forall i :: 0 <= i < n ==> w[i] == w[0]
    decreases |w| - k
  {
    if k + 1 < |w| && w[k + 1] == w[0] then FirstOther(w, k + 1) else k + 1
  }

  /** So one closing literal is kept out of them exactly if it repeats a character. */
  lemma UnfinishedExcludeWordIff(w: string)
    requires w != ""
    ensures (forall s :: Viable([w], s) ==> !ContainsWord([w], s)) <==> forall i :: 0 <= i < |w| ==> w[i] == w[0]
  {
    assert FactorFree([w]) by {
      forall i: nat ensures OccursAt(w, w, i) ==> i == 0 {
      }
    }
    UnfinishedExcludeIffNoOverlap([w]);
    SingleWordOverlaps(w);
  }

  // ---- the empty word ------------------------------------------------------------------------

  function WithoutEmpty(words: seq<string>): (r: seq<string>)
    ensures forall w :: w in r <==> w in words && w != ""
  {
    if words == [] then []
    else (if words[0] == "" then [] else [words[0]]) + WithoutEmpty(words[1..])
  }

  lemma SameBlock(words: seq<string>, t: string)
    requires exists w :: w in words && w != ""
    ensures BeginsProperly(words, t) <==> BeginsProperly(WithoutEmpty(words), t)
    ensures Block(words, t) <==> Block(WithoutEmpty(words), t)
  {
    var kept := WithoutEmpty(words);
    forall u ensures BeginsProperly(words, u) <==> BeginsProperly(kept, u) {
      if BeginsProperly(words, u) {
        var w :| w in words && u < w;
        assert w in kept;
      }
    }
    if t != "" && Begins(words, t) {
      var w :| w in words && t <= w;
      assert w in kept;
    }
  }

  /** Beside other words the empty word changes nothing: the grammar and its viable texts are those without it. */
  lemma {:induction false} EmptyWordsChangeNothing(words: seq<string>, s: string)
    requires exists w :: w in words && w != ""
    ensures NonemptyWords(WithoutEmpty(words))
    ensures Blocks(words, s) <==> Blocks(WithoutEmpty(words), s)
    ensures Viable(words, s) <==> Viable(WithoutEmpty(words), s)
    decreases |s|
  {
    hide Block, BeginsProperly;
    SameBlock(words, s);
    forall k | 0 < k <= |s|
      ensures Block(words, s[..k]) <==> Block(WithoutEmpty(words), s[..k])
      ensures Blocks(words, s[k..]) <==> Blocks(WithoutEmpty(words), s[k..])
      ensures Viable(words, s[k..]) <==> Viable(WithoutEmpty(words), s[k..])
    {
      SameBlock(words, s[..k]);
      EmptyWordsChangeNothing(words, s[k..]);
    }
  }

  /** So the condition covers every set of words, those with an empty one too. */
  lemma UnfinishedExcludeIff(words: seq<string>)
    requires exists w :: w in words && w != ""
    ensures var kept := WithoutEmpty(words);
      (forall s :: Viable(words, s) ==> !ContainsWord(kept, s)) <==> !Admits(kept)
  {
    var kept := WithoutEmpty(words);
    forall s ensures Viable(words, s) <==> Viable(kept, s) {
      EmptyWordsChangeNothing(words, s);
    }
    EmptyWordsChangeNothing(words, "");
    UnfinishedExcludeIffNotAdmitted(kept);
  }

  lemma WordAndEmptyKeeps(w: string)
    requires w != ""
    ensures WithoutEmpty([w, ""]) == [w]
  {
    assert [w, ""][1..] == [""] && [""][1..] == [];
  }

  /** The pair of words that a form with an empty alternative end passes. */
  lemma UnfinishedExcludeWordAndEmptyIff(w: string)
    requires w != ""
    ensures (forall s :: Viable([w, ""], s) ==> !ContainsWord([w], s)) <==> forall i :: 0 <= i < |w| ==> w[i] == w[0]
  {
    WordAndEmptyKeeps(w);
    assert w in [w, ""];
    forall s ensures Viable([w, ""], s) <==> Viable([w], s) {
      EmptyWordsChangeNothing([w, ""], s);
    }
    UnfinishedExcludeWordIff(w);
  }

  lemma {:induction false} NoLeadIsBlocks(w: string, s: string)
    requires w != "" && forall i :: 0 <= i < |s| ==> s[i] != w[0]
    ensures Blocks([w], s)
    decreases |s|
  {
    if s != "" {
      assert s[..1][..0] == "" && "" < w && w in [w];
      assert s[..1][0] != w[0];
      assert Block([w], s[..1]);
      NoLeadIsBlocks(w, s[1..]);
    }
  }

  /** A word whose first character does not recur slips through when that character comes twice. */
  lemma DoubledLeadSlipsThrough(w: string)
    requires |w| >= 2 && forall i :: 1 <= i < |w| ==> w[i] != w[0]
    ensures Blocks([w], [w[0]] + w) && ContainsWord([w], [w[0]] + w)
  {
    hide Blocks, Block, OccursAt;
    DoubledLeadIsBlock(w);
    NoLeadIsBlocks(w, w[1..]);
    PrependBlock([w], [w[0], w[0]], w[1..]);
    assert [w[0]] + w == [w[0], w[0]] + w[1..];
    OverlapOccurs([w[0], w[0]], 1, w);
    assert w in [w];
  }

  lemma DoubledLeadIsBlock(w: string)
    requires |w| >= 2 && w[1] != w[0]
    ensures Block([w], [w[0], w[0]])
  {
    var t := [w[0], w[0]];
    assert t[..1] == w[..1] && t[..1] < w && w in [w];
    assert t[1] != w[1];
  }

  /** The grammar that should keep out `</parameter>` accepts `<</parameter>`. */
  lemma ClosingTagSlipsThrough()
    ensures Blocks(["</parameter>"], "<</parameter>") && ContainsWord(["</parameter>"], "<</parameter>")
  {
    hide Blocks, ContainsWord;
    DoubledLeadSlipsThrough("</parameter>");
    assert ['<'] + "</parameter>" == "<</parameter>";
  }
}

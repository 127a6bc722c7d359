/**
 When the comment of make_gbnf_excluding is true: exactly which sets of words no accepted string contains. A word
 that an unfinished generation contains need not be in an accepted string, since not every generation can be finished.
 */
module GbnfAccepted {
  import opened Text
  import opened GbnfExcluding
  import opened GbnfLaws

  // ---- what can be finished ------------------------------------------------------------------

  ghost predicate BeginsBlock(words: seq<string>, x: string) {
    exists t :: Block(words, t) && x <= t
  }

  /** Blocks followed by the beginning of one. */
  ghost predicate Continuable(words: seq<string>, x: string)
    decreases |x|
  {
    || x == "" || BeginsBlock(words, x)
    || exists k :: 0 < k <= |x| && Block(words, x[..k]) && Continuable(words, x[k..])
  }

  lemma {:induction false} PrefixIsContinuable(words: seq<string>, p: string, s: string)
    requires Blocks(words, s) && p <= s
    ensures Continuable(words, p)
    decreases |s|
  {
    hide Block;
    if p != "" {
      var k :| 0 < k <= |s| && Block(words, s[..k]) && Blocks(words, s[k..]);
      if |p| <= k {
        assert p <= s[..k];
      } else {
        assert p[..k] == s[..k] && p[k..] <= s[k..];
        PrefixIsContinuable(words, p[k..], s[k..]);
      }
    }
  }

  lemma {:induction false} Finished(words: seq<string>, x: string) returns (s: string)
    requires Continuable(words, x)
    ensures Blocks(words, s) && x <= s
    decreases |x|
  {
    hide Block;
    if x == "" {
      s := "";
    } else if BeginsBlock(words, x) {
      s :| Block(words, s) && x <= s;
      BlockIsAccepted(words, s);
    } else {
      var k :| 0 < k <= |x| && Block(words, x[..k]) && Continuable(words, x[k..]);
      var rest := Finished(words, x[k..]);
      s := x[..k] + rest;
      PrependBlock(words, x[..k], rest);
      assert x == x[..k] + x[k..];
    }
  }

  lemma BlockIsAccepted(words: seq<string>, t: string)
    requires Block(words, t)
    ensures Blocks(words, t)
  {
    PrependBlock(words, t, "");
    assert t + "" == t;
  }

  /** What can be finished is what begins an accepted string. */
  lemma ContinuableIff(words: seq<string>, x: string)
    ensures Continuable(words, x) <==> exists s :: Blocks(words, s) && x <= s
  {
    hide Continuable, Blocks;
    if Continuable(words, x) {
      var s := Finished(words, x);
    }
    if s :| Blocks(words, s) && x <= s {
      PrefixIsContinuable(words, x, s);
    }
  }

  // ---- how a word slips through --------------------------------------------------------------

  /** A word occurs in a block, before its last character. */
  predicate InsideBlock(words: seq<string>, t: string, w: string, i: nat) {
    w in words && Block(words, t) && OccursAt(t[..|t| - 1], w, i)
  }

  /** A block ends with a beginning of a word, and the rest of that can be finished. */
  ghost predicate RunsOver(words: seq<string>, t: string, j: nat, w: string) {
    1 <= j < |t| && w in words && Block(words, t) && t[j..] <= w && Continuable(words, w[|t| - j..])
  }

  ghost predicate Slips(words: seq<string>) {
    (exists t, w, i :: InsideBlock(words, t, w, i)) || exists t, j, w :: RunsOver(words, t, j, w)
  }

  lemma {:induction false} NothingSlips(words: seq<string>, s: string)
    requires NonemptyWords(words) && !Slips(words) && Blocks(words, s)
    ensures !ContainsWord(words, s)
    decreases |s|
  {
    hide Slips, Block, OccursAt;
    if s == "" {
      forall w, p: nat | w in words ensures !OccursAt(s, w, p) {
        NotInNothing(w, p);
      }
    } else {
      var k :| 0 < k <= |s| && Block(words, s[..k]) && Blocks(words, s[k..]);
      NothingSlips(words, s[k..]);
      forall w, p: nat | w in words ensures !OccursAt(s, w, p) {
        if p >= k {
          OccursBehind(s, k, w, p - k);
        } else {
          NotFromBlock(words, s, k, w, p);
        }
      }
    }
  }

  lemma NotInNothing(w: string, p: nat)
    requires w != ""
    ensures !OccursAt("", w, p)
  {
  }

  lemma NotFromBlock(words: seq<string>, s: string, k: nat, w: string, p: nat)
    requires !Slips(words) && w in words
    requires p < k <= |s| && Block(words, s[..k]) && Blocks(words, s[k..])
    ensures !OccursAt(s, w, p)
  {
    hide Continuable, Blocks;
    var t := s[..k];
    assert !InsideBlock(words, t, w, p);
    Straddles(s, k, w, p);
    if OccursAt(s, w, p) {
      assert t[0..] == t;
      BeginsBy(words, w, t[p..]);
      assert s[p..p + |w|][k - p..] == s[k..p + |w|] == s[k..][..p + |w| - k];
      PrefixIsContinuable(words, w[k - p..], s[k..]);
      NotRunsOver(words, t, p, w);
    }
  }

  lemma NotRunsOver(words: seq<string>, t: string, j: nat, w: string)
    requires !Slips(words) && 1 <= j < |t| && w in words && Block(words, t) && t[j..] <= w
    ensures !Continuable(words, w[|t| - j..])
  {
    assert !RunsOver(words, t, j, w);
  }

  lemma SlippedWord(words: seq<string>) returns (s: string)
    requires Slips(words)
    ensures Blocks(words, s) && ContainsWord(words, s)
  {
    hide Blocks, ContainsWord, InsideBlock, RunsOver;
    if t, w, i :| InsideBlock(words, t, w, i) {
      s := WordInBlock(words, t, w, i);
    } else {
      var t, j, w :| RunsOver(words, t, j, w);
      s := WordOverBlock(words, t, j, w);
    }
  }

  lemma WordInBlock(words: seq<string>, t: string, w: string, i: nat) returns (s: string)
    requires InsideBlock(words, t, w, i)
    ensures Blocks(words, s) && ContainsWord(words, s)
  {
    hide Blocks;
    s := t;
    BlockIsAccepted(words, t);
    OccursInBeginning(t[..|t| - 1], t, w, i);
  }

  lemma WordOverBlock(words: seq<string>, t: string, j: nat, w: string) returns (s: string)
    requires RunsOver(words, t, j, w)
    ensures Blocks(words, s) && ContainsWord(words, s)
  {
    hide Blocks, Block, Continuable;
    var rest := w[|t| - j..];
    var finished := Finished(words, rest);
    s := t + finished;
    PrependBlock(words, t, finished);
    OverlapOccurs(t, j, w);
    assert t + rest <= s;
    OccursInBeginning(t + rest, s, w, j);
  }

  lemma NonemptyExcludedIff(words: seq<string>)
    requires NonemptyWords(words)
    ensures (forall s :: Blocks(words, s) ==> !ContainsWord(words, s)) <==> !Slips(words)
  {
    hide Blocks, ContainsWord, Slips;
    if Slips(words) {
      var s := SlippedWord(words);
    } else {
      forall s | Blocks(words, s) ensures !ContainsWord(words, s) {
        NothingSlips(words, s);
      }
    }
  }

  /** For every set of words, also with empty ones: the comment is true exactly if no word slips through. */
  lemma ExcludesIff(words: seq<string>)
    requires exists w :: w in words && w != ""
    ensures var kept := WithoutEmpty(words);
      (forall s :: Blocks(words, s) ==> !ContainsWord(kept, s)) <==> !Slips(kept)
  {
    hide Slips, ContainsWord, Blocks;
    var kept := WithoutEmpty(words);
    forall s ensures Blocks(words, s) <==> Blocks(kept, s) {
      EmptyWordsChangeNothing(words, s);
    }
    EmptyWordsChangeNothing(words, "");
    NonemptyExcludedIff(kept);
  }

  // ---- where every generation can be finished ------------------------------------------------

  /** Behind every proper beginning of a word some character leads out of all of them. */
  ghost predicate Open(words: seq<string>) {
    forall u :: BeginsProperly(words, u) ==> exists c :: !Begins(words, u + [c])
  }

  /** So it is if some character occurs in no word. */
  lemma ForeignIsOpen(words: seq<string>, c: char)
    requires forall w :: w in words ==> c !in w
    ensures Open(words)
  {
    forall u | BeginsProperly(words, u) ensures !Begins(words, u + [c]) {
      assert (u + [c])[|u|] == c;
    }
  }

  lemma SingleIsOpen(w: string)
    ensures Open([w])
  {
    forall u | BeginsProperly([w], u) ensures exists c :: !Begins([w], u + [c]) {
      var c := if w[|u|] == 'a' then 'b' else 'a';
      assert (u + [c])[|u|] == c;
      assert !Begins([w], u + [c]);
    }
  }

  lemma LeadsOut(words: seq<string>, u: string) returns (t: string)
    requires Open(words) && BeginsProperly(words, u)
    ensures Block(words, t) && u <= t && t[..|t| - 1] == u
  {
    var c :| !Begins(words, u + [c]);
    t := u + [c];
    assert t[..|t| - 1] == u;
  }

  lemma {:induction false} ViableIsContinuable(words: seq<string>, x: string)
    requires Open(words) && Viable(words, x)
    ensures Continuable(words, x)
    decreases |x|
  {
    hide Open, Block;
    if BeginsProperly(words, x) {
      var t := LeadsOut(words, x);
    } else {
      var k :| 0 < k <= |x| && Block(words, x[..k]) && Viable(words, x[k..]);
      ViableIsContinuable(words, x[k..]);
    }
  }

  lemma ContinuableIsViable(words: seq<string>, x: string)
    requires NonemptyWords(words) && Continuable(words, x)
    ensures Viable(words, x)
  {
    hide Continuable, Blocks, Viable, NonemptyWords;
    var s := Finished(words, x);
    AcceptedIsViable(words, s);
    PrefixIsViable(words, x, s);
  }

  /** Then a word slips through exactly if it gets through in an unfinished generation. */
  lemma SlipsIffAdmitted(words: seq<string>)
    requires NonemptyWords(words) && Open(words)
    ensures Slips(words) <==> Admits(words)
  {
    hide Open, NonemptyWords, InsideBlock, RunsOver, EndsWithin, Continues;
    if t, w, i :| InsideBlock(words, t, w, i) {
      InsideEndsWithin(words, t, w, i);
    }
    if v, w, i :| EndsWithin(words, v, w, i) {
      EndsWithinInside(words, v, w, i);
    }
    forall t, j: nat, w ensures RunsOver(words, t, j, w) <==> Continues(words, t, j, w) {
      RunsOverIff(words, t, j, w);
    }
  }

  lemma InsideEndsWithin(words: seq<string>, t: string, w: string, i: nat)
    requires InsideBlock(words, t, w, i)
    ensures Admits(words)
  {
    var u := t[..|t| - 1];
    var v :| v in words && u < v;
    OccursInBeginning(u, v, w, i);
    assert EndsWithin(words, w, v, i);
  }

  lemma EndsWithinInside(words: seq<string>, v: string, w: string, i: nat)
    requires Open(words) && EndsWithin(words, v, w, i)
    ensures Slips(words)
  {
    hide Open, Block;
    var u := w[..i + |v|];
    assert u[i..i + |v|] == w[i..i + |v|];
    assert u < w && BeginsProperly(words, u);
    var t := LeadsOut(words, u);
    assert InsideBlock(words, t, v, i);
  }

  lemma RunsOverIff(words: seq<string>, t: string, j: nat, w: string)
    requires NonemptyWords(words) && Open(words)
    ensures RunsOver(words, t, j, w) <==> Continues(words, t, j, w)
  {
    hide Continuable, Viable, Block, Open, NonemptyWords;
    if RunsOver(words, t, j, w) {
      ContinuableIsViable(words, w[|t| - j..]);
    }
    if Continues(words, t, j, w) {
      ViableIsContinuable(words, w[|t| - j..]);
    }
  }

  /** Where every generation can be finished, the comment is true exactly if no word can get through. */
  lemma ExcludesIffNotAdmitted(words: seq<string>)
    requires NonemptyWords(words) && Open(words)
    ensures (forall s :: Blocks(words, s) ==> !ContainsWord(words, s)) <==> !Admits(words)
  {
    hide Slips, Admits, ContainsWord, Blocks, Open;
    SlipsIffAdmitted(words);
    NonemptyExcludedIff(words);
  }

  /** In particular if some character occurs in no word. */
  lemma ForeignExcludesIff(words: seq<string>, c: char)
    requires NonemptyWords(words) && forall w :: w in words ==> c !in w
    ensures (forall s :: Blocks(words, s) ==> !ContainsWord(words, s)) <==> !Admits(words)
  {
    hide *;
    ForeignIsOpen(words, c);
    ExcludesIffNotAdmitted(words);
  }

  /** For words none of which occurs within another, exactly if no block overlaps a word. */
  lemma ExcludesIffNoOverlap(words: seq<string>)
    requires NonemptyWords(words) && FactorFree(words) && Open(words)
    ensures (forall s :: Blocks(words, s) ==> !ContainsWord(words, s)) <==> !Overlaps(words)
  {
    hide *;
    ExcludesIffNotAdmitted(words);
    UnfinishedExcludeIffNotAdmitted(words);
    UnfinishedExcludeIffNoOverlap(words);
  }

  /** For one closing literal, exactly if it repeats a character. */
  lemma SingleWordExcludedIff(w: string)
    requires w != ""
    ensures (forall s :: Blocks([w], s) ==> !ContainsWord([w], s)) <==> forall i :: 0 <= i < |w| ==> w[i] == w[0]
  {
    hide Open, Admits, Blocks, Viable, ContainsWord;
    SingleIsOpen(w);
    ExcludesIffNotAdmitted([w]);
    UnfinishedExcludeIffNotAdmitted([w]);
    UnfinishedExcludeWordIff(w);
  }

  /** The pair of words that a form with an empty alternative end passes: the same. */
  lemma WordAndEmptyExcludedIff(w: string)
    requires w != ""
    ensures (forall s :: Blocks([w, ""], s) ==> !ContainsWord([w], s)) <==> forall i :: 0 <= i < |w| ==> w[i] == w[0]
  {
    hide Blocks, ContainsWord;
    WordAndEmptyKeeps(w);
    forall s ensures Blocks([w, ""], s) <==> Blocks([w], s) {
      assert w in [w, ""];
      EmptyWordsChangeNothing([w, ""], s);
    }
    SingleWordExcludedIff(w);
  }
}

/** common_lcs of common.cpp: despite its name, the length of the longest common contiguous block. */
module CommonBlocks {
  import opened Wrappers

  type Token = int

  /** The last k tokens before a[i] are the last k tokens before b[j]. */
  predicate CommonBlock(a: seq<Token>, b: seq<Token>, i: nat, j: nat, k: nat) {
    k <= i <= |a| && k <= j <= |b| && a[i - k..i] == b[j - k..j]
  }

  /** The length of the longest common block that ends before a[i] and b[j]. */
  function Run(a: seq<Token>, b: seq<Token>, i: nat, j: nat): (r: nat)
    requires i <= |a| && j <= |b|
    ensures r <= i && r <= j
  {
    if i == 0 || j == 0 || a[i - 1] != b[j - 1] then 0 else Run(a, b, i - 1, j - 1) + 1
  }

  lemma {:induction false} RunIsLongest(a: seq<Token>, b: seq<Token>, i: nat, j: nat, k: nat)
    requires k <= i <= |a| && k <= j <= |b|
    ensures CommonBlock(a, b, i, j, k) <==> k <= Run(a, b, i, j)
  {
    if k > 0 {
      var (x, y) := (a[i - k..i], b[j - k..j]);
      SliceOfSlice(a, i - k, i, 0, k - 1);
      SliceOfSlice(b, j - k, j, 0, k - 1);
      assert x == x[0..k - 1] + [a[i - 1]] && y == y[0..k - 1] + [b[j - 1]];
      RunIsLongest(a, b, i - 1, j - 1, k - 1);
    } else {
      assert a[i..i] == b[j..j];
    }
  }

  /** What has been seen: no cell before (i, j), row by row, has a longer run than `best`. */
  predicate Bounded(a: seq<Token>, b: seq<Token>, i: nat, j: nat, best: nat) {
    forall x, y :: 0 <= x <= |a| && 0 <= y <= |b| && (x < i || (x == i && y < j)) ==> Run(a, b, x, y) <= best
  }

  method CommonLcs(a: seq<Token>, b: seq<Token>) returns (best: nat)
    ensures exists i: nat, j: nat :: CommonBlock(a, b, i, j, best)
    ensures forall i: nat, j: nat, k: nat :: CommonBlock(a, b, i, j, k) ==> k <= best
  {
    if a == [] || b == [] {
      assert CommonBlock(a, b, 0, 0, 0);
      return 0;
    }
    best := 0;
    ghost var p: nat, q: nat := 0, 0;
    var prev := new nat[|b| + 1](_ => 0);
    var curr := new nat[|b| + 1](_ => 0);
    var i := 1;
    while i <= |a|
      invariant 1 <= i <= |a| + 1 && p <= |a| && q <= |b| && Run(a, b, p, q) == best
      invariant forall y :: 0 <= y <= |b| ==> prev[y] == Run(a, b, i - 1, y)
      invariant curr[0] == 0 && Bounded(a, b, i, 0, best)
    {
      var j := 1;
      while j <= |b|
        invariant 1 <= j <= |b| + 1 && p <= |a| && q <= |b| && Run(a, b, p, q) == best
        invariant forall y :: 0 <= y <= |b| ==> prev[y] == Run(a, b, i - 1, y)
        invariant forall y :: 0 <= y < j ==> curr[y] == Run(a, b, i, y)
        invariant Bounded(a, b, i, j, best)
      {
        assert Run(a, b, i, j) == if a[i - 1] == b[j - 1] then Run(a, b, i - 1, j - 1) + 1 else 0;
        if a[i - 1] == b[j - 1] {
          if i == 1 || j == 1 {
            curr[j] := 1;
          } else {
            curr[j] := prev[j - 1] + 1;
          }
          if curr[j] > best {
            best := curr[j];
            p, q := i, j;
          }
        } else {
          curr[j] := 0;
        }
        j := j + 1;
      }
      forall y | 0 <= y <= |b| {
        prev[y] := curr[y];
      }
      i := i + 1;
    }
    RunIsLongest(a, b, p, q, best);
    forall x: nat, y: nat, k: nat | CommonBlock(a, b, x, y, k) ensures k <= best {
      RunIsLongest(a, b, x, y, k);
    }
  }

  /** What is left of `b` once some of its tokens are dropped. */
  predicate Subsequence(a: seq<Token>, b: seq<Token>) {
    a == [] || (b != [] && ((a[0] == b[0] && Subsequence(a[1..], b[1..])) || Subsequence(a, b[1..])))
  }

  /** A longer common subsequence is not what is measured: [1, 3] is common here, but no block of two tokens is. */
  lemma BlockIsNotSubsequence()
    ensures var (a, b) := ([1, 2, 3], [1, 3]);
      && Subsequence([1, 3], a) && Subsequence([1, 3], b)
      && (exists i: nat, j: nat :: CommonBlock(a, b, i, j, 1))
      && (forall i: nat, j: nat, k: nat :: CommonBlock(a, b, i, j, k) ==> k <= 1)
  {
    var (a, b) := ([1, 2, 3], [1, 3]);
    assert a[1..] == [2, 3] && a[1..][1..] == [3] && b[1..] == [3] && [1, 3][1..] == [3] && [3][1..] == [];
    assert Subsequence([3], [3]) && Subsequence([3], [2, 3]);
    assert a[0..1] == b[0..1];
    assert CommonBlock(a, b, 1, 1, 1);
    forall i: nat, j: nat, k: nat | CommonBlock(a, b, i, j, k) ensures k <= 1 {
      RunIsLongest(a, b, i, j, k);
      assert Run(a, b, i, j) <= 1;
    }
  }
}

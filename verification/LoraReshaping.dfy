/** Reshaping, permuting, stacking and concatenating low-rank pairs against the same on dense tensors. */
module LoraReshaping {
  import opened Wrappers
  import opened Tensors
  import opened LoraTensor
  import opened LoraSlicing

  // ---- reshape -------------------------------------------------------------------------------

  function Zeros(n: nat): (r: Position)
    ensures |r| == n && forall i :: 0 <= i < n ==> r[i] == 0
  {
    seq(n, i => 0)
  }

  lemma {:induction false} ProductOfOnes(n: nat)
    ensures Product(Ones(n)) == 1
  {
    if n > 0 {
      ProductOfOnes(n - 1);
      assert Ones(n)[..n - 1] == Ones(n - 1);
    }
  }

  lemma {:induction false} OnlyOnes(shape: Shape)
    requires Product(shape) == 1
    ensures forall i :: 0 <= i < |shape| ==> shape[i] == 1
  {
    if shape != [] {
      var k := |shape| - 1;
      FactorsOfOne(Product(shape[..k]), shape[k]);
      OnlyOnes(shape[..k]);
      assert forall i :: 0 <= i < k ==> shape[i] == shape[..k][i];
    }
  }

  lemma ProductIsOneIff(shape: Shape)
    ensures Product(shape) == 1 <==> forall i :: 0 <= i < |shape| ==> shape[i] == 1
  {
    hide Product, Ones;
    ProductOfOnes(|shape|);
    if Product(shape) == 1 {
      OnlyOnes(shape);
    }
    assert (forall i :: 0 <= i < |shape| ==> shape[i] == 1) ==> shape == Ones(|shape|);
  }

  lemma FactorsOfOne(x: nat, y: nat)
    requires x * y == 1
    ensures x == 1 && y == 1
  {
    assert x != 0 && y != 0;
    AtLeastFactors(x, y);
  }

  lemma AtLeastFactors(x: nat, y: nat)
    requires x > 0 && y > 0
    ensures x * y >= x && x * y >= y
  {
  }

  /** Offset zero is the first position, whatever the shape. */
  lemma {:induction false} UnflatZero(shape: Shape)
    ensures Unflat(0, shape) == Zeros(|shape|)
    decreases |shape|
  {
    if shape != [] {
      UnflatZero(shape[..|shape| - 1]);
      assert Zeros(|shape|) == Zeros(|shape| - 1) + [0];
    }
  }

  lemma {:induction false} FlatZeros(shape: Shape)
    ensures Flat(Zeros(|shape|), shape) == 0
    decreases |shape|
  {
    if shape != [] {
      FlatZeros(shape[..|shape| - 1]);
      assert Zeros(|shape|)[..|shape| - 1] == Zeros(|shape| - 1);
    }
  }

  /** An entry of B keeps its rank index under reshaping, and its row is the reshaped dense row. */
  lemma ReshapedB(t: Lora, p: Position, shape: Shape, k: nat)
    requires Valid(t) && |p| == |shape| && k < Rank(t)
    requires Reshaped(t.B, shape + [Rank(t)]).Ok?
    ensures Reshaped(t.B, shape + [Rank(t)]).value.at(p + [k])
         == t.B.at(Unflat(Flat(p, shape), t.B.shape[..|t.B.shape| - 1]) + [k])
  {
    hide Flat, Unflat;
    var lead := t.B.shape[..|t.B.shape| - 1];
    assert t.B.shape == lead + [Rank(t)];
    FlatSnoc(p, shape, k, Rank(t));
    UnflatSnoc(Flat(p, shape), lead, k, Rank(t));
  }

  /** Without real batch axes, A keeps its matrix under reshaping. */
  lemma ReshapedA(t: Lora, d: nat, k: nat, y: nat)
    requires Valid(t) && k < Rank(t) && y < t.A.shape[|t.A.shape| - 1]
    requires Reshaped(t.A, Ones(d) + [Rank(t)] + [t.A.shape[|t.A.shape| - 1]]).Ok?
    ensures Reshaped(t.A, Ones(d) + [Rank(t)] + [t.A.shape[|t.A.shape| - 1]]).value.at(Zeros(d) + [k] + [y])
         == t.A.at(Zeros(|t.A.shape| - 2) + [k] + [y])
  {
    hide Flat, Unflat, Zeros, Ones;
    var n := t.A.shape[|t.A.shape| - 1];
    var la := Batch(t.A.shape);
    MatrixParts(t.A.shape);
    FlatOverOnes(d);
    FlatSnoc(Zeros(d), Ones(d), k, Rank(t));
    FlatSnoc(Zeros(d) + [k], Ones(d) + [Rank(t)], y, n);
    UnflatSnoc(k, la + [Rank(t)], y, n);
    UnflatZero(la);
    UnflatSnoc(0, la, k, Rank(t));
  }

  lemma FlatOverOnes(d: nat)
    ensures Flat(Zeros(d), Ones(d)) == 0
  {
    FlatZeros(Ones(d));
  }

  /** A's batch extents are all one, or there is nothing to multiply. */
  lemma ReshapedOnes(t: Lora, d: nat)
    requires Valid(t) && Rank(t) > 0 && t.A.shape[|t.A.shape| - 1] > 0
    ensures Reshaped(t.A, Ones(d) + [Rank(t)] + [t.A.shape[|t.A.shape| - 1]]).Ok?
      <==> Product(Batch(t.A.shape)) == 1
  {
    hide Ones, Product;
    var n := t.A.shape[|t.A.shape| - 1];
    MatrixParts(t.A.shape);
    ProductSnoc(Batch(t.A.shape), Rank(t));
    ProductSnoc(Batch(t.A.shape) + [Rank(t)], n);
    ProductSnoc(Ones(d), Rank(t));
    ProductSnoc(Ones(d) + [Rank(t)], n);
    ProductOfOnes(d);
    SameFactor(Product(Batch(t.A.shape)), 1, Rank(t), n);
  }

  lemma SameFactor(x: nat, y: nat, r: nat, n: nat)
    requires r > 0 && n > 0
    ensures x * r * n == y * r * n <==> x == y
  {
    if x < y {
      Strict(x, y, r);
      Strict(x * r, y * r, n);
    } else if y < x {
      Strict(y, x, r);
      Strict(y * r, x * r, n);
    }
  }

  lemma Strict(x: nat, y: nat, r: nat)
    requires x < y && r > 0
    ensures x * r < y * r
  {
  }

  lemma RepeatedOverOnes(lead: Position, a: Shape)
    requires |lead| == |a| && forall i :: 0 <= i < |a| ==> a[i] == 1
    ensures Repeated(lead, a) == Zeros(|a|)
  {
  }

  lemma ReshapeToUnfolds(t: Lora, shape: Shape)
    requires Valid(t) && |shape| >= 2 && ReshapeTo(t, shape).Ok?
    ensures shape[|shape| - 1] == t.A.shape[|t.A.shape| - 1]
    ensures var (a, b, r) := (Reshaped(t.A, Ones(|shape| - 2) + [Rank(t)] + [t.A.shape[|t.A.shape| - 1]]),
                              Reshaped(t.B, shape[..|shape| - 1] + [Rank(t)]), ReshapeTo(t, shape).value);
      && a == Ok(r.A) && b == Ok(r.B) && Coherent(r) && Rank(r) == Rank(t)
      && Batch(r.A.shape) == Ones(|shape| - 2)
      && Dense(r).shape == shape
      && Product(t.B.shape[..|t.B.shape| - 1]) * Rank(t) == Product(shape[..|shape| - 1]) * Rank(t)
  {
    hide Reshaped, Product, Ones;
    var n := t.A.shape[|t.A.shape| - 1];
    var (a, b) := (Reshaped(t.A, Ones(|shape| - 2) + [Rank(t)] + [n]), Reshaped(t.B, shape[..|shape| - 1] + [Rank(t)]));
    assert a.Ok? && b.Ok?;
    ReshapedShape(t.A, Ones(|shape| - 2) + [Rank(t)] + [n]);
    ReshapedShape(t.B, shape[..|shape| - 1] + [Rank(t)]);
    SnocTwice(Ones(|shape| - 2), Rank(t), n);
    ProductSnoc(shape[..|shape| - 1], Rank(t));
    ProductSnoc(t.B.shape[..|t.B.shape| - 1], Rank(t));
    assert t.B.shape == t.B.shape[..|t.B.shape| - 1] + [Rank(t)];
    assert shape == shape[..|shape| - 1] + [n];
  }

  lemma ReshapedShape(t: Tensor, shape: Shape)
    ensures Reshaped(t, shape).Ok? <==> Product(shape) == Product(t.shape)
    ensures Reshaped(t, shape).Ok? ==> Reshaped(t, shape).value.shape == shape
  {
  }

  /** If A has no batch of its own, a term reads the matrix at its beginning. */
  lemma TermOverOnes(t: Lora, q: Position, y: nat, k: nat)
    requires Valid(t) && |q| + 1 == |t.B.shape|
    requires forall i :: 0 <= i < |t.A.shape| - 2 ==> Batch(t.A.shape)[i] == 1
    ensures Term(t, q + [y], k) == t.B.at(q + [k]) * t.A.at(Zeros(|t.A.shape| - 2) + [k] + [y])
  {
    hide Repeated, Zeros;
    var (p, z) := (q + [y], Zeros(|t.A.shape| - 2));
    assert p[..|q|] == q && p[..|q| - 1] == q[..|q| - 1];
    RepeatedOverOnes(q[..|q| - 1], Batch(t.A.shape));
    assert z + [k, y] == z + [k] + [y];
  }

  lemma ReshapedTerm(t: Lora, shape: Shape, p: Position, k: nat)
    requires Coherent(t) && |shape| >= 2 && ReshapeTo(t, shape).Ok? && Within(p, shape) && k < Rank(t)
    ensures var from := Unflat(Flat(p, shape), DenseShape(t));
      |from| == |t.B.shape| && |p| == |ReshapeTo(t, shape).value.B.shape|
      && Term(ReshapeTo(t, shape).value, p, k) == Term(t, from, k)
  {
    hide Flat, Unflat, Reshaped, ReshapeTo, Zeros, Repeated, Product, Term, Ones;
    var (d, n) := (|shape|, t.A.shape[|t.A.shape| - 1]);
    ReshapeToUnfolds(t, shape);
    var r := ReshapeTo(t, shape).value;
    ReshapedOnes(t, d - 2);
    OnlyOnes(Batch(t.A.shape));
    var (q, y) := (p[..d - 1], p[d - 1]);
    var (rows, lead) := (shape[..d - 1], t.B.shape[..|t.B.shape| - 1]);
    assert p == q + [y] && shape == rows + [n];
    FlatSnoc(q, rows, y, n);
    UnflatSnoc(Flat(q, rows), lead, y, n);
    ReshapedB(t, q, rows, k);
    ReshapedA(t, d - 2, k, y);
    TermOverOnes(r, q, y, k);
    TermOverOnes(t, Unflat(Flat(q, rows), lead), y, k);
  }

  /** Reshaping the pair is reshaping the dense tensor, and for a positive rank it is never more permissive. */
  lemma ReshapeIsFaithful(t: Lora, shape: Shape)
    requires Coherent(t) && |shape| >= 2 && ReshapeTo(t, shape).Ok?
    ensures Rank(t) > 0 ==> Product(shape) == Product(DenseShape(t))
    ensures StandsFor(ReshapeTo(t, shape), Reshaped(Dense(t), shape)) <==> Product(shape) == Product(DenseShape(t))
  {
    hide Flat, Unflat, Ones, ReshapeTo, Term, Sum, Product;
    ReshapeToUnfolds(t, shape);
    ReshapedShape(Dense(t), shape);
    var r := ReshapeTo(t, shape).value;
    var (n, rows, lead) := (t.A.shape[|t.A.shape| - 1], shape[..|shape| - 1], t.B.shape[..|t.B.shape| - 1]);
    assert shape == rows + [n] && DenseShape(t) == lead + [n];
    ProductSnoc(rows, n);
    ProductSnoc(lead, n);
    if Rank(t) > 0 {
      SameFactor(Product(rows), Product(lead), Rank(t), 1);
    }
    forall p | Within(p, shape) ensures Dense(r).at(p) == Dense(t).at(Unflat(Flat(p, shape), DenseShape(t))) {
      var from := Unflat(Flat(p, shape), DenseShape(t));
      forall k: nat | k < Rank(t) ensures Term(r, p, k) == Term(t, from, k) {
        ReshapedTerm(t, shape, p, k);
      }
      SumsEqual(r, p, t, from, Rank(t));
    }
  }

  lemma ReshapesRowsIff(t: Lora, rows: Shape)
    requires Valid(t) && Rank(t) > 0
    ensures Reshaped(t.B, rows + [Rank(t)]).Ok? <==> Product(rows) == Product(t.B.shape[..|t.B.shape| - 1])
  {
    hide Product;
    var lead := t.B.shape[..|t.B.shape| - 1];
    assert t.B.shape == lead + [Rank(t)];
    ProductSnoc(lead, Rank(t));
    ProductSnoc(rows, Rank(t));
    SameFactor(Product(rows), Product(lead), Rank(t), 1);
  }

  lemma SameElementsIff(rows: Shape, lead: Shape, n: nat)
    requires n > 0
    ensures Product(rows + [n]) == Product(lead + [n]) <==> Product(rows) == Product(lead)
  {
    hide Product;
    ProductSnoc(rows, n);
    ProductSnoc(lead, n);
    SameFactor(Product(rows), Product(lead), n, 1);
  }

  /** With something to multiply, a reshape that keeps the last axis succeeds exactly if A has no batch of its own. */
  lemma ReshapeSucceedsIff(t: Lora, shape: Shape)
    requires Coherent(t) && |shape| >= 2 && Rank(t) > 0 && t.A.shape[|t.A.shape| - 1] > 0
    ensures ReshapeTo(t, shape).Ok? <==>
      && shape[|shape| - 1] == t.A.shape[|t.A.shape| - 1]
      && Product(shape) == Product(DenseShape(t))
      && (forall i :: 0 <= i < |t.A.shape| - 2 ==> t.A.shape[i] == 1)
  {
    hide Product, Ones, Reshaped, ReshapeTo;
    var (n, rows, la) := (t.A.shape[|t.A.shape| - 1], shape[..|shape| - 1], Batch(t.A.shape));
    assert forall i :: 0 <= i < |t.A.shape| - 2 ==> t.A.shape[i] == la[i];
    ProductIsOneIff(la);
    ReshapesRowsIff(t, rows);
    ReshapedOnes(t, |shape| - 2);
    SameElementsIff(rows, t.B.shape[..|t.B.shape| - 1], n);
    assert shape[|shape| - 1] == n ==> shape == rows + [n];
    ReshapeToIff(t, shape);
  }

  /** The factors that are reshaped always fit together. */
  lemma ReshapeToIff(t: Lora, shape: Shape)
    requires Valid(t) && |shape| >= 2
    ensures var n := t.A.shape[|t.A.shape| - 1];
      ReshapeTo(t, shape).Ok? <==>
        && shape[|shape| - 1] == n
        && Reshaped(t.A, Ones(|shape| - 2) + [Rank(t)] + [n]).Ok?
        && Reshaped(t.B, shape[..|shape| - 1] + [Rank(t)]).Ok?
  {
    hide Product, Ones, Reshaped;
    var n := t.A.shape[|t.A.shape| - 1];
    ReshapedShape(t.A, Ones(|shape| - 2) + [Rank(t)] + [n]);
    ReshapedShape(t.B, shape[..|shape| - 1] + [Rank(t)]);
    SnocTwice(Ones(|shape| - 2), Rank(t), n);
  }

  /** With unknown extents: the result keeps the known ones, and is the dense tensor in its own shape. */
  lemma ReshapeFillsUnknowns(t: Lora, shape: seq<int>)
    requires Coherent(t) && Rank(t) > 0 && Reshape(t, shape).Ok?
    ensures Valid(Reshape(t, shape).value)
    ensures var filled := DenseShape(Reshape(t, shape).value);
      && |filled| == |shape|
      && (forall i :: 0 <= i < |shape| && shape[i] != -1 ==> filled[i] == shape[i])
      && StandsFor(Reshape(t, shape), Reshaped(Dense(t), filled))
  {
    hide ReshapeTo, Product, ProductOfKnown, StandsFor, Reshaped, Dense;
    var e := Expanded(shape, Product(DenseShape(t))).value;
    var filled := AsShape(e);
    ReshapeIsFaithful(t, filled);
    ReshapedDenseShape(t, filled);
  }

  lemma ReshapedDenseShape(t: Lora, shape: Shape)
    requires Valid(t) && |shape| >= 2 && ReshapeTo(t, shape).Ok?
    ensures Valid(ReshapeTo(t, shape).value) && DenseShape(ReshapeTo(t, shape).value) == shape
  {
    hide Reshaped, Product, Ones, ReshapeTo;
    ReshapeToUnfolds(t, shape);
  }

  // ---- permute and transpose -----------------------------------------------------------------

  lemma PermutationFromEnd(dims: seq<int>, n: nat)
    requires IsPermutation(dims, n)
    ensures IsPermutation(FromEnd(dims, n), n)
    ensures forall i :: 0 <= i < n ==> Axis(FromEnd(dims, n)[i], n) == Axis(dims[i], n)
  {
    var back := FromEnd(dims, n);
    forall i | 0 <= i < n ensures Axis(back[i], n) == Axis(dims[i], n) {
      assert 0 <= Axis(dims[i], n) < n;
    }
  }

  lemma {:induction false} WhereSame(dims: seq<int>, back: seq<int>, n: nat, axis: int)
    requires |dims| == |back| && forall i :: 0 <= i < |dims| ==> Axis(back[i], n) == Axis(dims[i], n)
    ensures Where(dims, n, axis) == Where(back, n, axis)
  {
    if |dims| > 1 {
      WhereSame(dims[..|dims| - 1], back[..|dims| - 1], n, axis);
    }
  }

  /** A permutation counted from the end permutes in the same way. */
  lemma PermutedFromEnd(t: Tensor, dims: seq<int>)
    requires IsPermutation(dims, |t.shape|)
    ensures var back := FromEnd(dims, |t.shape|);
      && Permuted(t, back).Ok? && Permuted(t, dims).Ok?
      && Permuted(t, back).value.shape == Permuted(t, dims).value.shape
      && forall p :: |p| == |dims| ==> Permuted(t, back).value.at(p) == Permuted(t, dims).value.at(p)
  {
    hide IsPermutation, Where, Axis;
    var n := |t.shape|;
    var back := FromEnd(dims, n);
    assert |dims| == n by { PermutationLength(dims, n); }
    PermutationFromEnd(dims, n);
    forall p: Position | |p| == n ensures Unpermuted(back, p) == Unpermuted(dims, p) {
      forall axis | 0 <= axis < n ensures Where(back, n, axis) == Where(dims, n, axis) {
        WhereSame(dims, back, n, axis);
      }
    }
  }

  lemma PermutationLength(dims: seq<int>, n: nat)
    requires IsPermutation(dims, n)
    ensures |dims| == n
  {
  }

  /** A permutation that keeps the last axis carries the last index over. */
  lemma UnpermutedLast(dims: seq<int>, q: Position, x: nat)
    requires |dims| == |q| + 1 && |q| > 0 && Axis(dims[|q|], |dims|) == |q|
    ensures Unpermuted(dims, q + [x]) == UnpermutedRest(dims, q) + [x]
  {
    var n := |dims|;
    var p := q + [x];
    assert Where(dims, n, |q|) == |q|;
    forall axis | 0 <= axis < |q| ensures p[Where(dims, n, axis)] == q[Where(dims[..|q|], n, axis)] {
    }
  }

  function UnpermutedRest(dims: seq<int>, q: Position): (r: Position)
    requires |dims| == |q| + 1 && |q| > 0
    ensures |r| == |q|
  {
    seq(|q|, axis requires 0 <= axis < |q| => q[Where(dims[..|q|], |dims|, axis)])
  }

  lemma PermutedAt(t: Tensor, dims: seq<int>, p: Position)
    requires IsPermutation(dims, |t.shape|) && |p| == |t.shape|
    ensures Permuted(t, dims).Ok? && |Permuted(t, dims).value.shape| == |t.shape|
    ensures Permuted(t, dims).value.at(p) == t.at(Unpermuted(dims, p))
  {
  }

  lemma PermutedExtent(t: Tensor, dims: seq<int>, i: nat)
    requires IsPermutation(dims, |t.shape|) && i < |t.shape|
    ensures Permuted(t, dims).Ok? && |Permuted(t, dims).value.shape| == |t.shape|
    ensures Permuted(t, dims).value.shape[i] == t.shape[Axis(dims[i], |t.shape|)]
  {
  }

  predicate KeepsColumns(t: Lora, dims: seq<int>)
    requires Valid(t)
  {
    && |dims| > 0
    && Axis(dims[|dims| - 1], |t.B.shape|) == |t.B.shape| - 1
    && forall i :: 0 <= i < |t.A.shape| - 2 ==> t.A.shape[i] == 1
  }

  predicate SwapsMatrix(t: Lora, dims: seq<int>)
    requires Valid(t)
  {
    |t.B.shape| == 2 == |dims| && Axis(dims[0], 2) == 1 && Axis(dims[1], 2) == 0
  }

  /** The two permutations that are supported, and what they return. */
  lemma PermuteUnfolds(t: Lora, dims: seq<int>)
    requires Valid(t) && IsPermutation(dims, |t.B.shape|)
    ensures var back := FromEnd(dims, |t.B.shape|);
      && IsPermutation(back, |t.B.shape|)
      && (Permute(t, dims).Ok? <==> KeepsColumns(t, dims) || SwapsMatrix(t, dims))
      && (KeepsColumns(t, dims) ==> Axis(back[|back| - 1], |t.B.shape|) == |t.B.shape| - 1
                                    && Permuted(t.B, back) == Ok(Permute(t, dims).value.B)
                                    && t.A == Permute(t, dims).value.A)
      && (SwapsMatrix(t, dims) ==> Permuted(t.A, back) == Ok(Permute(t, dims).value.B)
                                    && Permuted(t.B, back) == Ok(Permute(t, dims).value.A))
  {
    hide Permuted, IsPermutation;
    var n := |t.B.shape|;
    var back := FromEnd(dims, n);
    PermutationLength(dims, n);
    PermutationFromEnd(dims, n);
    AxisInRange(dims, n, n - 1);
    AxisInRange(dims, n, 0);
    PermutedExtent(t.B, back, n - 1);
    PermutedExtent(t.B, back, 0);
    PermutedExtent(t.A, back, n - 1);
    PermutedExtent(t.A, back, n - 2);
  }

  lemma AxisInRange(dims: seq<int>, n: nat, i: nat)
    requires IsPermutation(dims, n) && i < n
    ensures |dims| == n && 0 <= Axis(dims[i], n) < n
    ensures FromEnd(dims, n)[i] == Axis(dims[i], n) - n
    ensures i > 0 ==> Axis(dims[i], n) != Axis(dims[0], n)
  {
  }

  lemma KeptColumnsTerm(t: Lora, dims: seq<int>, p: Position, k: nat)
    requires Coherent(t) && IsPermutation(dims, |t.B.shape|) && KeepsColumns(t, dims) && |p| == |t.B.shape|
    ensures var (r, from) := (Permute(t, dims), Unpermuted(FromEnd(dims, |p|), p));
      r.Ok? && |r.value.B.shape| == |p| && Term(r.value, p, k) == Term(t, from, k)
  {
    hide Permuted, IsPermutation, Permute, KeepsColumns, Axis, Unpermuted, Repeated, Zeros, Term;
    PermuteUnfolds(t, dims);
    PermutationLength(dims, |p|);
    var back := FromEnd(dims, |p|);
    var (q, y) := (p[..|p| - 1], p[|p| - 1]);
    assert p == q + [y];
    PermutedAt(t.B, back, q + [k]);
    UnpermutedLast(back, q, k);
    UnpermutedLast(back, q, y);
    OwnBatchesAreOne(t, dims);
    TermOverOnes(Permute(t, dims).value, q, y, k);
    TermOverOnes(t, UnpermutedRest(back, q), y, k);
  }

  lemma OwnBatchesAreOne(t: Lora, dims: seq<int>)
    requires Valid(t) && KeepsColumns(t, dims)
    ensures forall i :: 0 <= i < |t.A.shape| - 2 ==> Batch(t.A.shape)[i] == 1
  {
  }

  lemma SwappedTerm(t: Lora, dims: seq<int>, p: Position, k: nat)
    requires Coherent(t) && IsPermutation(dims, |t.B.shape|) && SwapsMatrix(t, dims) && |p| == |t.B.shape|
    ensures var (r, from) := (Permute(t, dims), Unpermuted(FromEnd(dims, |p|), p));
      r.Ok? && |r.value.B.shape| == |p| && Term(r.value, p, k) == Term(t, from, k)
  {
    hide Permuted, Permute, KeepsColumns;
    PermuteUnfolds(t, dims);
    var back := FromEnd(dims, 2);
    var (x, y) := (p[0], p[1]);
    Swapped(back, [x, k]);
    Swapped(back, [k, y]);
    Swapped(back, p);
    PermutedAt(t.A, back, [x, k]);
    PermutedAt(t.B, back, [k, y]);
    var r := Permute(t, dims).value;
    assert Term(r, p, k) == r.B.at([x, k]) * r.A.at([k, y]) by {
      assert p[..1] + [k] == [x, k] && Repeated(p[..0], Batch(r.A.shape)) + [k, y] == [k, y];
    }
    assert Term(t, [y, x], k) == t.B.at([y, k]) * t.A.at([k, x]) by {
      assert [y, x][..1] + [k] == [y, k] && Repeated([y, x][..0], Batch(t.A.shape)) + [k, x] == [k, x];
    }
  }

  lemma Swapped(dims: seq<int>, p: Position)
    requires |dims| == 2 == |p| && Axis(dims[0], 2) == 1 && Axis(dims[1], 2) == 0
    ensures Unpermuted(dims, p) == [p[1], p[0]]
  {
    WhereFinds(dims, 2, 0);
    WhereFinds(dims, 2, 1);
  }

  lemma PermutedShape(t: Lora, dims: seq<int>)
    requires Coherent(t) && IsPermutation(dims, |t.B.shape|) && Permute(t, dims).Ok?
    ensures var r := Permute(t, dims).value;
      Coherent(r) && Rank(r) == Rank(t)
      && Permuted(Dense(t), dims).Ok? && Dense(r).shape == Permuted(Dense(t), dims).value.shape
  {
    hide Permuted, IsPermutation, Permute;
    var n := |t.B.shape|;
    var back := FromEnd(dims, n);
    PermuteUnfolds(t, dims);
    PermutationLength(dims, n);
    var r := Permute(t, dims).value;
    PermutedExtent(Dense(t), dims, 0);
    PermutedExtent(t.A, back, n - 1);
    PermutedExtent(t.B, back, n - 1);
    AxisInRange(dims, n, n - 1);
    AxisInRange(dims, n, 0);
    forall i | 0 <= i < n ensures DenseShape(r)[i] == Permuted(Dense(t), dims).value.shape[i] {
      PermutedDenseExtent(t, dims, i);
    }
  }

  lemma PermutedDenseExtent(t: Lora, dims: seq<int>, i: nat)
    requires Coherent(t) && IsPermutation(dims, |t.B.shape|) && Permute(t, dims).Ok? && i < |t.B.shape|
    ensures var (r, d) := (Permute(t, dims).value, Permuted(Dense(t), dims));
      |DenseShape(r)| == |t.B.shape| && d.Ok? && |d.value.shape| == |t.B.shape|
      && DenseShape(r)[i] == d.value.shape[i]
  {
    hide Permuted, IsPermutation, Permute;
    var n := |t.B.shape|;
    var back := FromEnd(dims, n);
    PermuteUnfolds(t, dims);
    PermutationLength(dims, n);
    PermutedExtent(Dense(t), dims, i);
    PermutedExtent(t.A, back, i);
    PermutedExtent(t.A, back, n - 1);
    PermutedExtent(t.B, back, i);
    AxisInRange(dims, n, i);
    AxisInRange(dims, n, n - 1);
    if i < n - 1 {
      AxesDiffer(dims, n, i, n - 1);
    }
  }

  lemma AxesDiffer(dims: seq<int>, n: nat, i: nat, j: nat)
    requires IsPermutation(dims, n) && i < j < n
    ensures Axis(dims[i], n) != Axis(dims[j], n)
  {
  }

  /** Permuting the pair is permuting the dense tensor, for the permutations that are supported. */
  lemma PermuteIsFaithful(t: Lora, dims: seq<int>)
    requires Coherent(t) && IsPermutation(dims, |t.B.shape|)
    ensures Permute(t, dims).Ok? <==> KeepsColumns(t, dims) || SwapsMatrix(t, dims)
    ensures Permute(t, dims).Ok? ==> StandsFor(Permute(t, dims), Permuted(Dense(t), dims))
  {
    assert |dims| == |t.B.shape|;
    hide Permuted, IsPermutation, Permute, Term, Sum, KeepsColumns, SwapsMatrix;
    PermuteUnfolds(t, dims);
    if Permute(t, dims).Ok? {
      PermutedShape(t, dims);
      PermutedFromEnd(Dense(t), dims);
      PermutationLength(dims, |t.B.shape|);
      var (r, d) := (Permute(t, dims).value, Permuted(Dense(t), dims).value);
      forall p | Within(p, d.shape) ensures Dense(r).at(p) == d.at(p) {
        var from := Unpermuted(FromEnd(dims, |p|), p);
        PermutedAt(Dense(t), FromEnd(dims, |p|), p);
        forall k: nat | k < Rank(t) ensures Term(r, p, k) == Term(t, from, k) {
          if KeepsColumns(t, dims) {
            KeptColumnsTerm(t, dims, p, k);
          } else {
            SwappedTerm(t, dims, p, k);
          }
        }
        SumsEqual(r, p, t, from, Rank(t));
      }
    }
  }

  lemma ExchangedIsPermutation(n: nat, i: nat, j: nat)
    requires i < n && j < n
    ensures IsPermutation(Exchanged(n, i, j), n)
  {
  }
}

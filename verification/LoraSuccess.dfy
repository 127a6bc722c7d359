/** Exactly when transposing, joining and reshaping with unknown extents succeed. */
module LoraSuccess {
  import opened Wrappers
  import opened Tensors
  import opened LoraTensor
  import opened LoraSlicing
  import opened LoraReshaping
  import opened LoraJoining

  // ---- transpose -----------------------------------------------------------------------------

  /** A has no batch of its own. */
  predicate SharesBatches(t: Lora)
    requires Valid(t)
  {
    forall i :: 0 <= i < |t.A.shape| - 2 ==> t.A.shape[i] == 1
  }

  /** The last axis stays where it is and A has no batch of its own, or a matrix is turned over. */
  predicate Transposable(t: Lora, i: nat, j: nat)
    requires Valid(t)
  {
    var last := |t.B.shape| - 1;
    (SharesBatches(t) && (i == j || (i != last && j != last))) || (last == 1 && i != j)
  }

  /** transpose and swapaxes work exactly then, and exchange two axes of the dense tensor. */
  lemma TransposeSucceedsIff(t: Lora, dim0: int, dim1: int)
    requires Coherent(t)
    ensures var n := |t.B.shape|;
      Transpose(t, dim0, dim1).Ok? <==>
        InRange(dim0, n) && InRange(dim1, n) && Transposable(t, Normal(dim0, n), Normal(dim1, n))
    ensures var (n, r) := (|t.B.shape|, Transpose(t, dim0, dim1));
      r.Ok? ==> StandsFor(r, Permuted(Dense(t), Exchanged(n, Normal(dim0, n), Normal(dim1, n))))
  {
    hide Permute, Permuted, StandsFor, IsPermutation;
    var n := |t.B.shape|;
    if InRange(dim0, n) && InRange(dim1, n) {
      var (i, j) := (Normal(dim0, n), Normal(dim1, n));
      ExchangedIsPermutation(n, i, j);
      PermuteIsFaithful(t, Exchanged(n, i, j));
    }
  }

  // ---- joining -------------------------------------------------------------------------------

  /** Behind the first axis all As have the same extents, and so have all Bs. */
  predicate SameTails(ts: seq<Lora>)
    requires ts != [] && AllCoherent(ts)
  {
    forall i :: 0 <= i < |ts| ==>
      Valid(ts[i]) && ts[i].A.shape[1..] == ts[0].A.shape[1..] && ts[i].B.shape[1..] == ts[0].B.shape[1..]
  }

  /** Matrices are joined exactly if they share A; batches if both factors fit behind the first axis. */
  lemma CatSucceedsIff(ts: seq<Lora>)
    requires AllCoherent(ts)
    ensures Cat(ts).Ok? <==>
      && ts != []
      && if |ts[0].B.shape| == 2 then forall i :: 0 <= i < |ts| ==> SameTensor(ts[0].A, ts[i].A)
         else SameTails(ts)
  {
    if ts != [] && |ts[0].B.shape| == 2 {
      MatricesJoin(ts);
    } else if ts != [] {
      BatchesJoin(ts);
    }
  }

  lemma MatricesJoin(ts: seq<Lora>)
    requires AllCoherent(ts) && ts != [] && |ts[0].B.shape| == 2
    ensures Cat(ts).Ok? <==> forall i :: 0 <= i < |ts| ==> SameTensor(ts[0].A, ts[i].A)
  {
    hide Concatenated;
    var bs := FactorsB(ts);
    if forall i :: 0 <= i < |ts| ==> SameTensor(ts[0].A, ts[i].A) {
      forall i | 0 <= i < |ts| ensures |bs[i].shape| == 2 && bs[i].shape[1..] == bs[0].shape[1..] {
        assert SameTensor(ts[0].A, ts[i].A) && Valid(ts[i]);
        assert bs[i].shape[1..] == [bs[i].shape[1]] && bs[0].shape[1..] == [bs[0].shape[1]];
      }
      ConcatenatedShape(bs);
    }
  }

  lemma BatchesJoin(ts: seq<Lora>)
    requires AllCoherent(ts) && ts != [] && |ts[0].B.shape| > 2
    ensures Cat(ts).Ok? <==> SameTails(ts)
  {
    hide SameTensor;
    var (fa, bs) := (FactorsA(ts), FactorsB(ts));
    assert forall i :: 0 <= i < |ts| ==> fa[i] == ts[i].A && bs[i] == ts[i].B && Valid(ts[i]);
    JoinsIff(fa);
    JoinsIff(bs);
    if SameTails(ts) {
      forall i | 0 <= i < |ts| ensures fa[i].shape[1..] == fa[0].shape[1..] && bs[i].shape[1..] == bs[0].shape[1..] {
        assert ts[i].A.shape[1..] == ts[0].A.shape[1..];
      }
      ConcatenatedShape(fa);
      ConcatenatedShape(bs);
      TailOf(Total(Extents(fa)), fa[0].shape);
      TailOf(Total(Extents(bs)), bs[0].shape);
      JoinedFit(ts[0], Concatenated(fa).value.shape, Concatenated(bs).value.shape);
    }
  }

  lemma JoinsIff(ts: seq<Tensor>)
    requires ts != [] && forall i :: 0 <= i < |ts| ==> |ts[i].shape| > 0
    ensures Concatenated(ts).Ok? <==> Joinable(ts)
    ensures Joinable(ts) <==> forall i :: 0 <= i < |ts| ==> ts[i].shape[1..] == ts[0].shape[1..]
  {
  }

  lemma TailOf(n: nat, shape: Shape)
    requires shape != []
    ensures ([n] + shape[1..])[1..] == shape[1..]
  {
  }

  lemma JoinedFit(t: Lora, a: Shape, b: Shape)
    requires Valid(t) && |t.B.shape| > 2 && a != [] && b != []
    requires a[1..] == t.A.shape[1..] && b[1..] == t.B.shape[1..]
    ensures |a| == |b| == |t.B.shape| && a[|a| - 2] == b[|b| - 1]
  {
    var n := |t.B.shape|;
    assert |a[1..]| == n - 1 && |b[1..]| == n - 1;
    assert a[n - 2] == a[1..][n - 3] == t.A.shape[n - 2];
    assert b[n - 1] == b[1..][n - 2] == t.B.shape[n - 1];
  }

  // ---- reshaping with unknown extents --------------------------------------------------------

  /** The extents with q for every -1. */
  function FilledWith(shape: seq<int>, q: nat): (r: seq<int>)
    ensures |r| == |shape|
  {
    seq(|shape|, i requires 0 <= i < |shape| => if shape[i] == -1 then q else shape[i])
  }

  lemma {:induction false} KnownProduct(shape: seq<int>)
    requires IsShape(FilledWith(shape, 1))
    ensures ProductOfKnown(shape) == Product(AsShape(FilledWith(shape, 1)))
    decreases |shape|
  {
    if shape != [] {
      var k := |shape| - 1;
      var (all, front) := (FilledWith(shape, 1), FilledWith(shape[..k], 1));
      assert all[..k] == front;
      forall i | 0 <= i < k ensures front[i] >= 0 {
        assert all[i] == front[i];
      }
      KnownProduct(shape[..k]);
      assert AsShape(all)[..k] == AsShape(front);
    }
  }

  /** q fills the unknown extents: it is what the known ones leave over, and nothing but the last axis must match. */
  predicate Fills(t: Lora, shape: seq<int>, q: nat)
    requires Valid(t) && |shape| >= 2
  {
    var (filled, total) := (FilledWith(shape, q), Product(DenseShape(t)));
    && IsShape(filled) && IsShape(FilledWith(shape, 1))
    && filled[|shape| - 1] == t.A.shape[|t.A.shape| - 1]
    && Product(AsShape(filled)) == total
    && (-1 in shape ==>
          Product(AsShape(FilledWith(shape, 1))) > 0 && Product(AsShape(FilledWith(shape, 1))) * q == total)
  }

  lemma ReshapeIsReshapeTo(t: Lora, shape: seq<int>, q: nat)
    requires Valid(t) && |shape| >= 2 && IsShape(FilledWith(shape, q))
    requires -1 in shape ==> ProductOfKnown(shape) > 0 && ProductOfKnown(shape) * q == Product(DenseShape(t))
    ensures Reshape(t, shape) == ReshapeTo(t, AsShape(FilledWith(shape, q)))
  {
    hide ReshapeTo, Product, ProductOfKnown, Expanded;
    ExpandsTo(shape, Product(DenseShape(t)), q);
  }

  lemma ExpandsTo(shape: seq<int>, total: nat, q: nat)
    requires -1 in shape ==> ProductOfKnown(shape) > 0 && ProductOfKnown(shape) * q == total
    ensures Expanded(shape, total) == Ok(FilledWith(shape, q))
  {
    hide ProductOfKnown;
    if -1 in shape {
      Divides(total, ProductOfKnown(shape), q);
    } else {
      assert FilledWith(shape, q) == shape;
    }
  }

  lemma Divides(total: nat, known: int, q: nat)
    requires known > 0 && known * q == total
    ensures total % known == 0 && total / known == q
  {
    var d := total / known;
    assert known * (q - d) == total % known;
    Multiple(known, q - d);
  }

  lemma Multiple(known: int, k: int)
    requires known > 0
    ensures k > 0 ==> known * k >= known
    ensures k < 0 ==> known * k <= -known
  {
  }

  /** With something to multiply, reshape succeeds exactly if something fills the shape and A has no own batch. */
  lemma ReshapeWithUnknownsSucceedsIff(t: Lora, shape: seq<int>)
    requires Coherent(t) && |shape| >= 2 && Rank(t) > 0 && t.A.shape[|t.A.shape| - 1] > 0
    ensures Reshape(t, shape).Ok? <==> SharesBatches(t) && exists q :: Fills(t, shape, q)
  {
    hide ReshapeTo, Product, ProductOfKnown, Reshape;
    if Reshape(t, shape).Ok? {
      var q := FillingOf(t, shape);
    }
    if SharesBatches(t) && exists q :: Fills(t, shape, q) {
      var q :| Fills(t, shape, q);
      KnownProduct(shape);
      ReshapeIsReshapeTo(t, shape, q);
      ReshapeSucceedsIff(t, AsShape(FilledWith(shape, q)));
    }
  }

  lemma FillingOf(t: Lora, shape: seq<int>) returns (q: nat)
    requires Coherent(t) && |shape| >= 2 && Rank(t) > 0 && t.A.shape[|t.A.shape| - 1] > 0 && Reshape(t, shape).Ok?
    ensures Fills(t, shape, q) && SharesBatches(t)
  {
    hide ReshapeTo, Product, ProductOfKnown;
    var (total, known) := (Product(DenseShape(t)), ProductOfKnown(shape));
    var e := Expanded(shape, total).value;
    assert IsShape(e);
    KnownsAreShape(shape, e);
    KnownProduct(shape);
    q := 0;
    if -1 in shape {
      q := Quotients(total, known, shape, e);
    }
    assert e == FilledWith(shape, q);
    ReshapeIsReshapeTo(t, shape, q);
    ReshapeSucceedsIff(t, AsShape(e));
  }

  lemma KnownsAreShape(shape: seq<int>, e: seq<int>)
    requires |e| == |shape| && IsShape(e) && forall i :: 0 <= i < |shape| ==> shape[i] == -1 || e[i] == shape[i]
    ensures IsShape(FilledWith(shape, 1))
  {
    forall i | 0 <= i < |shape| ensures FilledWith(shape, 1)[i] >= 0 {
      assert e[i] >= 0;
    }
  }

  lemma Quotients(total: nat, known: int, shape: seq<int>, e: seq<int>) returns (q: nat)
    requires -1 in shape && known >= 0 && known == ProductOfKnown(shape)
    requires Expanded(shape, total) == Ok(e) && IsShape(e)
    ensures known > 0 && known * q == total && q == total / known
  {
    hide ProductOfKnown;
    q := total / known;
  }
}

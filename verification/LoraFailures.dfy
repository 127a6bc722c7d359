/** One input for each condition under which an operation on a pair does not give the tensor that it should. */
module LoraFailures {
  import opened Tensors
  import opened LoraTensor
  import opened LoraIndexing
  import opened LoraSlicing
  import opened LoraJoining
  import opened LoraEllipsis

  function AllOnes(shape: Shape): Tensor {
    Tensor(shape, p => 1)
  }

  const BATCHED := Lora(AllOnes([2, 1, 1]), AllOnes([2, 1, 1]))

  lemma BatchedIsCoherent()
    ensures Coherent(BATCHED) && DenseShape(BATCHED) == [2, 1, 1]
    ensures Batch(BATCHED.A.shape) == Batch(BATCHED.B.shape) == [2]
  {
    assert [2, 1, 1][..1] == [2] && [2, 1, 1][..2] == [2, 1];
  }

  /** t[0:1, :, :] where A has both batches of its own: A keeps two batches and B one. */
  lemma BatchSliceFails()
    ensures Valid(BATCHED)
    ensures !StandsFor(GetAxes(BATCHED, [FIRST, FULL, FULL]), Indexed(Dense(BATCHED), [FIRST, FULL, FULL]))
  {
    hide GetAxes, Indexed, StandsFor, Selected;
    BatchedIsCoherent();
    FirstPicksOne(2);
    assert [FIRST] + [FULL] + [FULL] == [FIRST, FULL, FULL];
    assert !Whole([FIRST][0], [2][0]);
    IndexingIsFaithfulIff(BATCHED, [FIRST], FULL, FULL);
  }

  const SHARED := Lora(AllOnes([1, 1, 1]), AllOnes([2, 1, 1]))

  /** Joining a pair with itself where both of its batches share one A: four batches of B are left with two of A. */
  lemma SharedBatchesFail()
    ensures Coherent(SHARED) && Cat([SHARED, SHARED]).Ok? && Concatenated(Denses([SHARED, SHARED])).Ok?
    ensures !StandsFor(Cat([SHARED, SHARED]), Concatenated(Denses([SHARED, SHARED])))
  {
    hide StandsFor, Dense;
    var ts := [SHARED, SHARED];
    assert Coherent(SHARED);
    CatOfBatchesIsFaithfulIff(ts);
  }

  const RANKLESS := Lora(AllOnes([0, 1]), AllOnes([1, 0]))

  /** A pair of rank zero for one entry can be reshaped to two. */
  lemma RanklessReshapeFails()
    ensures Coherent(RANKLESS) && ReshapeTo(RANKLESS, [2, 1]).Ok?
    ensures Reshaped(Dense(RANKLESS), [2, 1]).Err?
  {
    hide Product;
    ProductOfTwo(0, 1);
    ProductOfTwo(1, 0);
    ProductOfTwo(1, 1);
    ProductOfTwo(2, 0);
    ProductOfTwo(2, 1);
    assert DenseShape(RANKLESS) == [1, 1];
    assert Ones(0) + [0] + [1] == [0, 1] && [2, 1][..1] + [0] == [2, 0];
  }

  lemma ProductOfTwo(m: nat, n: nat)
    ensures Product([m, n]) == m * n
  {
    ProductSnoc([], m);
    ProductSnoc([m], n);
    assert [] + [m] == [m] && [m] + [n] == [m, n];
  }
}

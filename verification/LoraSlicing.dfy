/** Tuple indexing of a low-rank pair: exactly when it is indexing of the dense tensor. */
module LoraSlicing {
  import opened Wrappers
  import opened Tensors
  import opened LoraTensor
  import opened LoraIndexing

  /** The result stands for a tensor, and it is the tensor that was meant. */
  ghost predicate StandsFor(r: Result<Lora>, d: Result<Tensor>) {
    r.Ok? && d.Ok? && Coherent(r.value) && SameTensor(Dense(r.value), d.value)
  }

  lemma SnocTwice(s: Shape, x: nat, y: nat)
    ensures |s + [x] + [y]| == |s| + 2
    ensures (s + [x] + [y])[..|s| + 1] == s + [x]
    ensures (s + [x] + [y])[..|s|] == s
    ensures (s + [x] + [y])[|s|] == x && (s + [x] + [y])[|s| + 1] == y
  {
  }

  /** A shape of rank two or more ends in the extents of a matrix. */
  lemma MatrixParts(shape: Shape)
    requires |shape| >= 2
    ensures shape == Batch(shape) + [shape[|shape| - 2]] + [shape[|shape| - 1]]
  {
  }

  lemma IndexedShapeTwice(ixs: seq<Index>, shape: Shape, ix: Index, iy: Index, m: nat, n: nat)
    requires Indexable(ixs, shape) && Selects(ix, m) && Selects(iy, n) && ix.Slice? && iy.Slice?
    ensures Indexable(ixs + [ix] + [iy], shape + [m] + [n])
    ensures IndexedShape(ixs + [ix] + [iy], shape + [m] + [n])
         == IndexedShape(ixs, shape) + [|Selected(ix, m)|] + [|Selected(iy, n)|]
  {
    hide Indexable, Selected, IndexedShape, Selects;
    IndexedShapeSnoc(ixs, shape, ix, m);
    IndexedShapeSnoc(ixs + [ix], shape + [m], iy, n);
  }

  lemma SourceTwice(ixs: seq<Index>, shape: Shape, ix: Index, iy: Index, m: nat, n: nat, p: Position, x: nat, y: nat)
    requires Indexable(ixs, shape) && Selects(ix, m) && Selects(iy, n) && ix.Slice? && iy.Slice?
    requires Within(p, IndexedShape(ixs, shape)) && x < |Selected(ix, m)| && y < |Selected(iy, n)|
    ensures Indexable(ixs + [ix] + [iy], shape + [m] + [n])
    ensures Within(p + [x] + [y], IndexedShape(ixs + [ix] + [iy], shape + [m] + [n]))
    ensures Source(ixs + [ix] + [iy], shape + [m] + [n], p + [x] + [y])
         == Source(ixs, shape, p) + [Selected(ix, m)[x]] + [Selected(iy, n)[y]]
  {
    hide Indexable, Selected, IndexedShape, Selects, Source;
    SourceSnoc(ixs, shape, ix, m, p, x);
    SourceSnoc(ixs + [ix], shape + [m], iy, n, p + [x], y);
  }

  /** Indexing a tensor with a slice for each of its last two axes. */
  lemma IndexedMatrix(t: Tensor, ixs: seq<Index>, ix: Index, iy: Index)
    requires |t.shape| >= 2 && Indexable(ixs, Batch(t.shape)) && ix.Slice? && iy.Slice?
    requires Selects(ix, t.shape[|t.shape| - 2]) && Selects(iy, t.shape[|t.shape| - 1])
    ensures Indexed(t, ixs + [ix] + [iy]).Ok?
    ensures var (m, n) := (t.shape[|t.shape| - 2], t.shape[|t.shape| - 1]);
      Indexed(t, ixs + [ix] + [iy]).value.shape
        == IndexedShape(ixs, Batch(t.shape)) + [|Selected(ix, m)|] + [|Selected(iy, n)|]
  {
    hide Indexable, Selected, IndexedShape, Selects, Source;
    MatrixParts(t.shape);
    IndexedShapeTwice(ixs, Batch(t.shape), ix, iy, t.shape[|t.shape| - 2], t.shape[|t.shape| - 1]);
  }

  lemma IndexedMatrixAt(t: Tensor, ixs: seq<Index>, ix: Index, iy: Index, p: Position, x: nat, y: nat)
    requires |t.shape| >= 2 && Indexable(ixs, Batch(t.shape)) && ix.Slice? && iy.Slice?
    requires Selects(ix, t.shape[|t.shape| - 2]) && Selects(iy, t.shape[|t.shape| - 1])
    requires Within(p, IndexedShape(ixs, Batch(t.shape)))
    requires x < |Selected(ix, t.shape[|t.shape| - 2])| && y < |Selected(iy, t.shape[|t.shape| - 1])|
    ensures Indexed(t, ixs + [ix] + [iy]).Ok?
    ensures var (m, n) := (t.shape[|t.shape| - 2], t.shape[|t.shape| - 1]);
      Indexed(t, ixs + [ix] + [iy]).value.at(p + [x] + [y])
        == t.at(Source(ixs, Batch(t.shape), p) + [Selected(ix, m)[x]] + [Selected(iy, n)[y]])
  {
    hide Indexable, Selected, IndexedShape, Selects, Source;
    MatrixParts(t.shape);
    SourceTwice(ixs, Batch(t.shape), ix, iy, t.shape[|t.shape| - 2], t.shape[|t.shape| - 1], p, x, y);
  }

  // ---- the result of GetAxes -----------------------------------------------------------------

  /** The index of the batch axes, the row axis and the column axis, each good for the dense tensor. */
  predicate ProperAxes(t: Lora, ixs: seq<Index>, row: Index, col: Index) {
    && Coherent(t)
    && Indexable(ixs, Batch(t.B.shape))
    && Selects(row, t.B.shape[|t.B.shape| - 2])
    && Selects(col, t.A.shape[|t.A.shape| - 1])
  }

  function IndexOfA(t: Lora, ixs: seq<Index>): seq<Index>
    requires Coherent(t) && Indexable(ixs, Batch(t.B.shape))
  {
    IndexedBatchesWrap(ixs, Batch(t.A.shape), Batch(t.B.shape));
    BatchOfA(ixs, Batch(t.A.shape))
  }

  /** GetAxes without the error branches that indices in range cannot reach. */
  lemma GetAxesUnfolds(t: Lora, ixs: seq<Index>, row: Index, col: Index)
    requires ProperAxes(t, ixs, row, col)
    ensures Indexable(IndexOfA(t, ixs), Batch(t.A.shape))
    ensures var (a, b) := (Indexed(t.A, IndexOfA(t, ixs) + [FULL] + [col]), Indexed(t.B, ixs + [row] + [FULL]));
      GetAxes(t, ixs + [row] + [col])
        == if a.Err? then Err(a.error) else if b.Err? then Err(b.error) else Make(a.value, b.value)
  {
    hide Indexed, Make;
    var all := ixs + [row] + [col];
    var n := |all|;
    IndexedBatchesWrap(ixs, Batch(t.A.shape), Batch(t.B.shape));
    assert all[..n - 2] == ixs && all[..n - 1] == ixs + [row] && all[n - 1] == col;
    assert forall i :: 0 <= i < n - 2 ==> all[i] == ixs[i] && t.A.shape[i] == Batch(t.A.shape)[i];
    assert BatchOfA(ixs, t.A.shape) == IndexOfA(t, ixs);
    assert IndexOfA(t, ixs) + [FULL, col] == IndexOfA(t, ixs) + [FULL] + [col];
  }

  /** With a slice for the row and one for the column, the factors are indexed separately. */
  lemma SlicedFactors(t: Lora, ixs: seq<Index>, row: Index, col: Index)
    requires ProperAxes(t, ixs, row, col) && row.Slice? && col.Slice?
    ensures var r := GetAxes(t, ixs + [row] + [col]);
      && r.Ok?
      && Indexable(IndexOfA(t, ixs), Batch(t.A.shape))
      && r.value.A.shape == IndexedShape(IndexOfA(t, ixs), Batch(t.A.shape)) + [Rank(t)]
                            + [|Selected(col, t.A.shape[|t.A.shape| - 1])|]
      && r.value.B.shape == IndexedShape(ixs, Batch(t.B.shape)) + [|Selected(row, t.B.shape[|t.B.shape| - 2])|]
                            + [Rank(t)]
      && Indexed(t.A, IndexOfA(t, ixs) + [FULL] + [col]) == Ok(r.value.A)
      && Indexed(t.B, ixs + [row] + [FULL]) == Ok(r.value.B)
  {
    hide Indexable, Selected, IndexedShape, Indexed, IndexOfA, GetAxes;
    GetAxesUnfolds(t, ixs, row, col);
    IndexedMatrix(t.A, IndexOfA(t, ixs), FULL, col);
    IndexedMatrix(t.B, ixs, row, FULL);
    FullSlice(Rank(t));
    assert |IndexedShape(IndexOfA(t, ixs), Batch(t.A.shape))| == |IndexedShape(ixs, Batch(t.B.shape))| by {
      BatchShapes(ixs, Batch(t.A.shape), Batch(t.B.shape));
      assert IndexOfA(t, ixs) == BatchOfA(ixs, Batch(t.A.shape)) by { IndexOfAIs(t, ixs); }
    }
  }

  lemma IndexOfAIs(t: Lora, ixs: seq<Index>)
    requires Coherent(t) && Indexable(ixs, Batch(t.B.shape))
    ensures Wraps(ixs, Batch(t.A.shape)) && IndexOfA(t, ixs) == BatchOfA(ixs, Batch(t.A.shape))
  {
    IndexedBatchesWrap(ixs, Batch(t.A.shape), Batch(t.B.shape));
  }

  lemma SlicedCoherent(t: Lora, ixs: seq<Index>, row: Index, col: Index)
    requires ProperAxes(t, ixs, row, col) && row.Slice? && col.Slice?
    ensures var r := GetAxes(t, ixs + [row] + [col]);
      && r.Ok? && Valid(r.value) && Rank(r.value) == Rank(t)
      && Indexable(IndexOfA(t, ixs), Batch(t.A.shape))
      && Batch(r.value.A.shape) == IndexedShape(IndexOfA(t, ixs), Batch(t.A.shape))
      && Batch(r.value.B.shape) == IndexedShape(ixs, Batch(t.B.shape))
      && (Coherent(r.value) <==> WholeBatches(ixs, Batch(t.A.shape), Batch(t.B.shape)))
  {
    hide Indexable, Selected, IndexedShape, Indexed, IndexOfA, GetAxes, Broadcasts, WholeBatches;
    SlicedFactors(t, ixs, row, col);
    BatchShapes(ixs, Batch(t.A.shape), Batch(t.B.shape));
    IndexOfAIs(t, ixs);
    var r := GetAxes(t, ixs + [row] + [col]).value;
    SnocTwice(IndexedShape(IndexOfA(t, ixs), Batch(t.A.shape)), Rank(t), |Selected(col, t.A.shape[|t.A.shape| - 1])|);
    SnocTwice(IndexedShape(ixs, Batch(t.B.shape)), |Selected(row, t.B.shape[|t.B.shape| - 2])|, Rank(t));
  }

  /** One product of the sum, read through the two indexed factors and read directly. */
  lemma SlicedTerm(t: Lora, ixs: seq<Index>, row: Index, col: Index, q: Position, x: nat, y: nat, k: nat)
    requires ProperAxes(t, ixs, row, col) && row.Slice? && col.Slice?
    requires WholeBatches(ixs, Batch(t.A.shape), Batch(t.B.shape))
    requires Within(q, IndexedShape(ixs, Batch(t.B.shape))) && k < Rank(t)
    requires x < |Selected(row, t.B.shape[|t.B.shape| - 2])| && y < |Selected(col, t.A.shape[|t.A.shape| - 1])|
    ensures var r := GetAxes(t, ixs + [row] + [col]);
      && r.Ok? && Valid(r.value) && |q + [x] + [y]| == |r.value.B.shape|
      && var from := Source(ixs, Batch(t.B.shape), q) + [Selected(row, t.B.shape[|t.B.shape| - 2])[x]]
                     + [Selected(col, t.A.shape[|t.A.shape| - 1])[y]];
         |from| == |t.B.shape| && Term(r.value, q + [x] + [y], k) == Term(t, from, k)
  {
    hide Indexable, Selected, IndexedShape, Indexed, IndexOfA, GetAxes, Broadcasts, WholeBatches, Source, Repeated;
    var (la, lb) := (Batch(t.A.shape), Batch(t.B.shape));
    SlicedFactors(t, ixs, row, col);
    var r := GetAxes(t, ixs + [row] + [col]).value;
    SlicedCoherent(t, ixs, row, col);
    IndexOfAIs(t, ixs);
    BatchSource(ixs, la, lb, q);
    WholeAxis(Rank(t), k);
    var ia := IndexOfA(t, ixs);
    var sa := IndexedShape(ia, la);
    IndexedMatrixAt(t.A, ia, FULL, col, Repeated(q, sa), k, y);
    IndexedMatrixAt(t.B, ixs, row, FULL, q, x, k);
    var from := Source(ixs, lb, q);
    SnocTwice(q, x, y);
    SnocTwice(from, Selected(row, t.B.shape[|t.B.shape| - 2])[x], Selected(col, t.A.shape[|t.A.shape| - 1])[y]);
    TermAt(r, q, x, y, k);
    TermAt(t, from, Selected(row, t.B.shape[|t.B.shape| - 2])[x], Selected(col, t.A.shape[|t.A.shape| - 1])[y], k);
  }

  lemma WholeAxis(n: nat, k: nat)
    requires k < n
    ensures |Selected(FULL, n)| == n && Selected(FULL, n)[k] == k
  {
    FullSlice(n);
    WholeSelection(FULL, n, k);
  }

  lemma TermAt(t: Lora, q: Position, x: nat, y: nat, k: nat)
    requires Valid(t) && |q| + 2 == |t.B.shape|
    ensures Term(t, q + [x] + [y], k)
         == t.B.at(q + [x] + [k]) * t.A.at(Repeated(q, Batch(t.A.shape)) + [k] + [y])
  {
    hide Repeated;
    SnocTwice(q, x, y);
    var rq := Repeated(q, Batch(t.A.shape));
    assert rq + [k, y] == rq + [k] + [y];
  }

  /** Slices of rows and columns: the result stands for the slice if the batch axes are kept whole. */
  lemma SlicesStandForSlices(t: Lora, ixs: seq<Index>, row: Index, col: Index)
    requires ProperAxes(t, ixs, row, col) && row.Slice? && col.Slice?
    requires WholeBatches(ixs, Batch(t.A.shape), Batch(t.B.shape))
    ensures StandsFor(GetAxes(t, ixs + [row] + [col]), Indexed(Dense(t), ixs + [row] + [col]))
  {
    hide Indexable, Selected, IndexedShape, Indexed, IndexOfA, GetAxes, Broadcasts, WholeBatches, Source, Repeated,
         Sum, Term;
    SlicedFactors(t, ixs, row, col);
    var r := GetAxes(t, ixs + [row] + [col]).value;
    SlicedCoherent(t, ixs, row, col);
    DenseParts(t);
    IndexedMatrix(Dense(t), ixs, row, col);
    var d := Indexed(Dense(t), ixs + [row] + [col]).value;
    var sb := IndexedShape(ixs, Batch(t.B.shape));
    var (m, n) := (|Selected(row, t.B.shape[|t.B.shape| - 2])|, |Selected(col, t.A.shape[|t.A.shape| - 1])|);
    SnocTwice(sb, m, Rank(t));
    assert Dense(r).shape == sb + [m] + [n] == d.shape;
    forall p | Within(p, d.shape) ensures Dense(r).at(p) == d.at(p) {
      var (q, x, y) := (p[..|p| - 2], p[|p| - 2], p[|p| - 1]);
      WithinMatrix(p, sb, m, n);
      SlicedEntry(t, ixs, row, col, q, x, y);
    }
  }

  lemma WithinMatrix(p: Position, shape: Shape, m: nat, n: nat)
    requires Within(p, shape + [m] + [n])
    ensures |p| >= 2 && Within(p[..|p| - 2], shape) && p[|p| - 2] < m && p[|p| - 1] < n
    ensures p == p[..|p| - 2] + [p[|p| - 2]] + [p[|p| - 1]]
  {
    SnocTwice(shape, m, n);
  }

  lemma DenseParts(t: Lora)
    requires Valid(t)
    ensures |Dense(t).shape| == |t.B.shape| && Batch(Dense(t).shape) == Batch(t.B.shape)
    ensures Dense(t).shape[|t.B.shape| - 2] == t.B.shape[|t.B.shape| - 2]
    ensures Dense(t).shape[|t.B.shape| - 1] == t.A.shape[|t.A.shape| - 1]
  {
  }

  lemma SlicedEntry(t: Lora, ixs: seq<Index>, row: Index, col: Index, q: Position, x: nat, y: nat)
    requires ProperAxes(t, ixs, row, col) && row.Slice? && col.Slice?
    requires WholeBatches(ixs, Batch(t.A.shape), Batch(t.B.shape))
    requires Within(q, IndexedShape(ixs, Batch(t.B.shape)))
    requires x < |Selected(row, t.B.shape[|t.B.shape| - 2])| && y < |Selected(col, t.A.shape[|t.A.shape| - 1])|
    ensures var (r, d) := (GetAxes(t, ixs + [row] + [col]), Indexed(Dense(t), ixs + [row] + [col]));
      r.Ok? && d.Ok? && Valid(r.value) && Dense(r.value).at(q + [x] + [y]) == d.value.at(q + [x] + [y])
  {
    hide Indexable, Selected, IndexedShape, Indexed, IndexOfA, GetAxes, Broadcasts, WholeBatches, Source, Repeated,
         Sum, Term;
    SlicedCoherent(t, ixs, row, col);
    DenseParts(t);
    IndexedMatrixAt(Dense(t), ixs, row, col, q, x, y);
    var r := GetAxes(t, ixs + [row] + [col]).value;
    var from := Source(ixs, Batch(t.B.shape), q) + [Selected(row, t.B.shape[|t.B.shape| - 2])[x]]
                + [Selected(col, t.A.shape[|t.A.shape| - 1])[y]];
    SnocTwice(q, x, y);
    SlicedLengths(t, ixs, row, col, q, x, y);
    forall k: nat | k < Rank(t) ensures Term(r, q + [x] + [y], k) == Term(t, from, k) {
      SlicedTerm(t, ixs, row, col, q, x, y, k);
    }
    SumsEqual(r, q + [x] + [y], t, from, Rank(t));
  }

  lemma SlicedLengths(t: Lora, ixs: seq<Index>, row: Index, col: Index, q: Position, x: nat, y: nat)
    requires ProperAxes(t, ixs, row, col) && row.Slice? && col.Slice?
    requires Within(q, IndexedShape(ixs, Batch(t.B.shape)))
    ensures var r := GetAxes(t, ixs + [row] + [col]);
      r.Ok? && Valid(r.value) && |q + [x] + [y]| == |r.value.B.shape|
    ensures |Source(ixs, Batch(t.B.shape), q) + [x] + [y]| == |t.B.shape|
  {
    hide Indexable, Selected, IndexedShape, Indexed, IndexOfA, GetAxes, Broadcasts, Source;
    SlicedFactors(t, ixs, row, col);
    SlicedCoherent(t, ixs, row, col);
  }

  // ---- exactly when it is right --------------------------------------------------------------

  lemma RankTwice(ixs: seq<Index>, shape: Shape, ix: Index, iy: Index, m: nat, n: nat)
    requires Indexable(ixs, shape) && Selects(ix, m) && Selects(iy, n)
    ensures Indexable(ixs + [ix] + [iy], shape + [m] + [n])
    ensures |IndexedShape(ixs + [ix] + [iy], shape + [m] + [n])|
         == |IndexedShape(ixs, shape)| + (if ix.At? then 0 else 1) + if iy.At? then 0 else 1
  {
    hide Indexable, Selected, IndexedShape, Selects;
    IndexedShapeSnoc(ixs, shape, ix, m);
    IndexedShapeSnoc(ixs + [ix], shape + [m], iy, n);
  }

  lemma IndexedRank(t: Tensor, ixs: seq<Index>, ix: Index, iy: Index)
    requires |t.shape| >= 2 && Indexable(ixs, Batch(t.shape))
    requires Selects(ix, t.shape[|t.shape| - 2]) && Selects(iy, t.shape[|t.shape| - 1])
    ensures Indexed(t, ixs + [ix] + [iy]).Ok?
    ensures |Indexed(t, ixs + [ix] + [iy]).value.shape|
         == |IndexedShape(ixs, Batch(t.shape))| + (if ix.At? then 0 else 1) + if iy.At? then 0 else 1
  {
    hide Indexable, Selected, IndexedShape, Selects, Source;
    MatrixParts(t.shape);
    RankTwice(ixs, Batch(t.shape), ix, iy, t.shape[|t.shape| - 2], t.shape[|t.shape| - 1]);
  }

  /** An integer for the row or the column either fails or leaves a tensor with an axis too many. */
  lemma IntegersDoNotStand(t: Lora, ixs: seq<Index>, row: Index, col: Index)
    requires ProperAxes(t, ixs, row, col) && (row.At? || col.At?)
    ensures row.At? != col.At? ==> GetAxes(t, ixs + [row] + [col]).Err?
    ensures var (r, d) := (GetAxes(t, ixs + [row] + [col]), Indexed(Dense(t), ixs + [row] + [col]));
      d.Ok? && (r.Ok? ==> Valid(r.value) && |DenseShape(r.value)| == |d.value.shape| + 1)
    ensures !StandsFor(GetAxes(t, ixs + [row] + [col]), Indexed(Dense(t), ixs + [row] + [col]))
  {
    hide Indexable, Selected, IndexedShape, Indexed, IndexOfA, GetAxes, Broadcasts, WholeBatches, Source, Repeated,
         Sum, Term;
    GetAxesUnfolds(t, ixs, row, col);
    IndexedRank(t.A, IndexOfA(t, ixs), FULL, col);
    IndexedRank(t.B, ixs, row, FULL);
    DenseParts(t);
    IndexedRank(Dense(t), ixs, row, col);
    BatchShapes(ixs, Batch(t.A.shape), Batch(t.B.shape));
    IndexOfAIs(t, ixs);
  }

  /**
   * Tuple indexing is indexing of the dense tensor exactly if rows and columns are sliced and every batch
   * axis that A has for itself is either given an integer or taken whole.
   */
  lemma IndexingIsFaithfulIff(t: Lora, ixs: seq<Index>, row: Index, col: Index)
    requires ProperAxes(t, ixs, row, col)
    ensures StandsFor(GetAxes(t, ixs + [row] + [col]), Indexed(Dense(t), ixs + [row] + [col])) <==>
      row.Slice? && col.Slice? && WholeBatches(ixs, Batch(t.A.shape), Batch(t.B.shape))
  {
    assert |ixs| == |Batch(t.A.shape)| == |Batch(t.B.shape)|;
    hide Indexable, Selected, IndexedShape, Indexed, IndexOfA, GetAxes, WholeBatches, SameTensor;
    if row.At? || col.At? {
      IntegersDoNotStand(t, ixs, row, col);
    } else {
      SlicedCoherent(t, ixs, row, col);
      if WholeBatches(ixs, Batch(t.A.shape), Batch(t.B.shape)) {
        SlicesStandForSlices(t, ixs, row, col);
      }
    }
  }
}

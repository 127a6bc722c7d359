/** Exactly when an ellipsis with indices behind it gives the tensor that it gives in PyTorch. */
module LoraEllipsis {
  import opened Wrappers
  import opened Tensors
  import opened LoraTensor
  import opened LoraIndexing
  import opened LoraSlicing
  import opened LoraShorthand

  // ---- shapes of pairs -----------------------------------------------------------------------

  predicate FitShapes(a: Shape, b: Shape) {
    && |a| == |b| >= 2 && a[|a| - 2] == b[|b| - 1]
    && Broadcasts(Batch(a), Batch(b))
  }

  function ShapeOf(a: Shape, b: Shape): Shape
    requires |a| == |b| >= 2
  {
    b[..|b| - 1] + [a[|a| - 1]]
  }

  predicate HasShapes(t: Lora, a: Shape, b: Shape) {
    t.A.shape == a && t.B.shape == b
  }

  lemma PairOfShapes(t: Lora, a: Shape, b: Shape)
    requires FitShapes(a, b) && HasShapes(t, a, b)
    ensures Coherent(t) && DenseShape(t) == ShapeOf(a, b) == Dense(t).shape
  {
  }

  // ---- two entries of a dense tensor can differ ----------------------------------------------

  /** The pair whose dense tensor has a single one, at p. */
  function UnitPair(a: Shape, b: Shape, p: Position): Lora
    requires FitShapes(a, b) && |p| == |b|
  {
    var n := |p|;
    var (y, x) := (Repeated(p[..n - 2], Batch(a)) + [0, p[n - 1]], p[..n - 1] + [0]);
    Lora(Tensor(a, q => if q == y then 1 else 0), Tensor(b, q => if q == x then 1 else 0))
  }

  lemma UnitTerm(a: Shape, b: Shape, p: Position, q: Position, k: nat)
    requires FitShapes(a, b) && |p| == |b| == |q|
    ensures Term(UnitPair(a, b, p), q, k) == if p == q && k == 0 then 1 else 0
  {
    var n := |p|;
    var (x, x') := (p[..n - 1] + [0], q[..n - 1] + [k]);
    var (y, y') := (Repeated(p[..n - 2], Batch(a)) + [0, p[n - 1]], Repeated(q[..n - 2], Batch(a)) + [k, q[n - 1]]);
    assert x == x' ==> p[..n - 1] == x[..n - 1] == x'[..n - 1] == q[..n - 1] && k == x[n - 1] == 0;
    assert y[n - 1] == p[n - 1] && y'[n - 1] == q[n - 1];
    assert p[..n - 1] == q[..n - 1] && p[n - 1] == q[n - 1] ==> p == q by {
      assert p == p[..n - 1] + [p[n - 1]] && q == q[..n - 1] + [q[n - 1]];
    }
  }

  lemma {:induction false} UnitSum(a: Shape, b: Shape, p: Position, q: Position, n: nat)
    requires FitShapes(a, b) && |p| == |b| == |q|
    ensures Sum(UnitPair(a, b, p), q, n) == if p == q && n > 0 then 1 else 0
  {
    hide Term, UnitPair;
    if n > 0 {
      assert Valid(UnitPair(a, b, p)) by { UnitIsValid(a, b, p); }
      UnitSum(a, b, p, q, n - 1);
      UnitTerm(a, b, p, q, n - 1);
    }
  }

  lemma UnitIsValid(a: Shape, b: Shape, p: Position)
    requires FitShapes(a, b) && |p| == |b|
    ensures Valid(UnitPair(a, b, p)) && HasShapes(UnitPair(a, b, p), a, b)
  {
  }

  /** With a positive rank, some pair of the given shapes tells any two positions apart. */
  lemma UnitTellsApart(a: Shape, b: Shape, p: Position, q: Position)
    requires FitShapes(a, b) && |p| == |b| == |q| && b[|b| - 1] > 0 && p != q
    ensures HasShapes(UnitPair(a, b, p), a, b) && Valid(UnitPair(a, b, p))
    ensures Dense(UnitPair(a, b, p)).at(p) != Dense(UnitPair(a, b, p)).at(q)
  {
    hide Sum, UnitPair;
    UnitIsValid(a, b, p);
    UnitSum(a, b, p, p, b[|b| - 1]);
    UnitSum(a, b, p, q, b[|b| - 1]);
  }

  // ---- the index that is applied -------------------------------------------------------------

  /** One index for every axis that tuple indexing treats as PyTorch does: see IndexingIsFaithfulIff. */
  predicate GoodAxes(a: Shape, b: Shape, ixs: seq<Index>)
    requires FitShapes(a, b)
  {
    var n := |b|;
    && |ixs| == n && Indexable(ixs, ShapeOf(a, b)) && Indexable(ixs[..n - 2], Batch(b))
    && ixs[n - 2].Slice? && ixs[n - 1].Slice?
    && WholeBatches(ixs[..n - 2], Batch(a), Batch(b))
  }

  function SliceCount(ixs: seq<Index>): nat {
    if ixs == [] then 0 else SliceCount(ixs[..|ixs| - 1]) + if ixs[|ixs| - 1].At? then 0 else 1
  }

  lemma {:induction false} SliceCountConcat(x: seq<Index>, y: seq<Index>)
    ensures SliceCount(x + y) == SliceCount(x) + SliceCount(y)
    decreases |y|
  {
    if y == [] {
      assert x + y == x;
    } else {
      var k := |y| - 1;
      assert (x + y)[..|x| + k] == x + y[..k] && (x + y)[|x| + k] == y[k];
      SliceCountConcat(x, y[..k]);
    }
  }

  lemma {:induction false} FullsCount(n: nat)
    ensures SliceCount(Fulls(n)) == n
  {
    if n > 0 {
      FullsCount(n - 1);
      assert Fulls(n)[..n - 1] == Fulls(n - 1);
    }
  }

  lemma {:induction false} RankIsSliceCount(ixs: seq<Index>, shape: Shape)
    requires Indexable(ixs, shape)
    ensures |IndexedShape(ixs, shape)| == SliceCount(ixs)
    decreases |ixs|
  {
    hide Selected;
    if ixs != [] {
      var k := |ixs| - 1;
      IndexablePrefix(ixs, shape);
      RankIsSliceCount(ixs[..k], shape[..k]);
    }
  }

  lemma IndexablePrefix(ixs: seq<Index>, shape: Shape)
    requires Indexable(ixs, shape) && ixs != []
    ensures var k := |ixs| - 1; Indexable(ixs[..k], shape[..k]) && Selects(ixs[k], shape[k])
  {
    hide Selects;
  }

  lemma AxesSplit(ixs: seq<Index>, n: nat)
    requires |ixs| == n >= 2
    ensures ixs == ixs[..n - 2] + [ixs[n - 2]] + [ixs[n - 1]]
  {
  }

  /** An index that does not fit the dense tensor fails. */
  lemma UnfitAxesFail(t: Lora, ixs: seq<Index>)
    requires Coherent(t) && !Indexable(ixs, DenseShape(t))
    ensures GetAxes(t, ixs).Err?
  {
    hide Selects, IndexedShape, BatchOfA, Make;
    var n := |ixs|;
    if n == |t.B.shape| {
      var i :| 0 <= i < n && !Selects(ixs[i], DenseShape(t)[i]);
      if i < n - 1 {
        assert (ixs[..n - 1] + [FULL])[i] == ixs[i] && DenseShape(t)[i] == t.B.shape[i];
        assert !Indexable(ixs[..n - 1] + [FULL], t.B.shape);
      }
    }
  }

  lemma FitAxesAreProper(t: Lora, ixs: seq<Index>)
    requires Coherent(t) && Indexable(ixs, DenseShape(t))
    ensures var n := |ixs|; n == |t.B.shape| && ProperAxes(t, ixs[..n - 2], ixs[n - 2], ixs[n - 1])
  {
    hide Selects;
    var n := |ixs|;
    forall i | 0 <= i < n ensures Selects(ixs[i], DenseShape(t)[i]) {
    }
    assert DenseShape(t)[n - 2] == t.B.shape[n - 2] && DenseShape(t)[n - 1] == t.A.shape[n - 1];
    forall i | 0 <= i < n - 2 ensures Selects(ixs[..n - 2][i], Batch(t.B.shape)[i]) {
      assert Selects(ixs[i], DenseShape(t)[i]);
    }
  }

  lemma SameTensorVia(x: Tensor, y: Tensor, z: Tensor)
    requires SameTensor(x, y)
    ensures SameTensor(x, z) <==> SameTensor(y, z)
  {
  }

  /** If the result stands for a tensor of the right rank, the index was treated as in PyTorch. */
  lemma StandingNeedsGoodAxes(t: Lora, ixs: seq<Index>, d: Result<Tensor>)
    requires Coherent(t) && StandsFor(GetAxes(t, ixs), d) && |d.value.shape| == SliceCount(ixs)
    ensures GoodAxes(t.A.shape, t.B.shape, ixs)
  {
    hide GetAxes, SameTensor, WholeBatches, Indexable, IndexedShape, Selects;
    if !Indexable(ixs, DenseShape(t)) {
      UnfitAxesFail(t, ixs);
    } else {
      FitAxesAreProper(t, ixs);
      var n := |ixs|;
      var (lead, row, col) := (ixs[..n - 2], ixs[n - 2], ixs[n - 1]);
      AxesSplit(ixs, n);
      RankOfIndexed(t, ixs);
      SameShapeOf(t, ixs, d);
      if row.At? || col.At? {
        IntegersDoNotStand(t, lead, row, col);
      } else {
        NoEllipsisSelected(row, t.B.shape[n - 2]);
        NoEllipsisSelected(col, t.A.shape[n - 1]);
        SlicedCoherent(t, lead, row, col);
      }
    }
  }

  lemma NoEllipsisSelected(ix: Index, n: nat)
    requires Selects(ix, n)
    ensures !ix.Ellipsis?
  {
  }

  lemma RankOfIndexed(t: Lora, ixs: seq<Index>)
    requires Valid(t) && Indexable(ixs, DenseShape(t))
    ensures Indexed(Dense(t), ixs).Ok? && |Indexed(Dense(t), ixs).value.shape| == SliceCount(ixs)
  {
    hide Indexable, Selected, IndexedShape, Selects;
    RankIsSliceCount(ixs, DenseShape(t));
  }

  lemma SameShapeOf(t: Lora, ixs: seq<Index>, d: Result<Tensor>)
    requires Valid(t) && StandsFor(GetAxes(t, ixs), d)
    ensures DenseShape(GetAxes(t, ixs).value) == d.value.shape
  {
    hide GetAxes;
  }

  /** A result stands for a tensor of the right rank exactly if the index is good and gives that tensor. */
  lemma AxesStandForIff(t: Lora, ixs: seq<Index>, d: Result<Tensor>)
    requires Coherent(t) && d.Ok? && |d.value.shape| == SliceCount(ixs)
    ensures StandsFor(GetAxes(t, ixs), d) <==>
      && GoodAxes(t.A.shape, t.B.shape, ixs)
      && Indexed(Dense(t), ixs).Ok? && SameTensor(Indexed(Dense(t), ixs).value, d.value)
  {
    hide GetAxes, SameTensor, WholeBatches, Indexable, IndexedShape, Selects, Indexed;
    if StandsFor(GetAxes(t, ixs), d) {
      StandingNeedsGoodAxes(t, ixs, d);
    }
    if GoodAxes(t.A.shape, t.B.shape, ixs) {
      FitAxesAreProper(t, ixs);
      var n := |ixs|;
      AxesSplit(ixs, n);
      IndexingIsFaithfulIff(t, ixs[..n - 2], ixs[n - 2], ixs[n - 1]);
      SameTensorVia(Dense(GetAxes(t, ixs).value), Indexed(Dense(t), ixs).value, d.value);
    }
  }

  // ---- what an ellipsis gives ----------------------------------------------------------------

  /** Two indices pick the same entries of every tensor of this shape, in the same arrangement. */
  ghost predicate SameChoice(x: seq<Index>, y: seq<Index>, shape: Shape)
    requires Indexable(x, shape) && Indexable(y, shape)
  {
    && IndexedShape(x, shape) == IndexedShape(y, shape)
    && forall p :: Within(p, IndexedShape(x, shape)) ==> Source(x, shape, p) == Source(y, shape, p)
  }

  lemma SameChoiceGivesSame(d: Tensor, x: seq<Index>, y: seq<Index>)
    requires Indexable(x, d.shape) && Indexable(y, d.shape) && SameChoice(x, y, d.shape)
    ensures Indexed(d, x).Ok? && Indexed(d, y).Ok? && SameTensor(Indexed(d, x).value, Indexed(d, y).value)
  {
    hide Indexable, IndexedShape, Source;
  }

  /** If two indices differ in what they pick, some pair of these shapes shows it. */
  lemma OtherChoiceShows(a: Shape, b: Shape, x: seq<Index>, y: seq<Index>) returns (t: Lora)
    requires FitShapes(a, b) && b[|b| - 1] > 0
    requires Indexable(x, ShapeOf(a, b)) && Indexable(y, ShapeOf(a, b)) && !SameChoice(x, y, ShapeOf(a, b))
    ensures HasShapes(t, a, b) && Valid(t)
    ensures Indexed(Dense(t), x).Ok? && Indexed(Dense(t), y).Ok?
    ensures !SameTensor(Indexed(Dense(t), x).value, Indexed(Dense(t), y).value)
  {
    hide Indexable, IndexedShape, Source, UnitPair, Sum;
    var shape := ShapeOf(a, b);
    var p: Position := seq(|b|, i => 0);
    if IndexedShape(x, shape) != IndexedShape(y, shape) {
      t := UnitPair(a, b, p);
      UnitIsValid(a, b, p);
      PairOfShapes(t, a, b);
    } else {
      var q :| Within(q, IndexedShape(x, shape)) && Source(x, shape, q) != Source(y, shape, q);
      p := Source(x, shape, q);
      t := UnitPair(a, b, p);
      UnitTellsApart(a, b, p, Source(y, shape, q));
      PairOfShapes(t, a, b);
    }
  }

  /** What an ellipsis is given and what is meant by it take as many slices. */
  lemma SameSliceCount(pre: seq<Index>, post: seq<Index>, rank: nat)
    requires |pre| + |post| <= rank && |Given(pre, post, rank)| == rank
    ensures SliceCount(Given(pre, post, rank)) == SliceCount(Meant(pre, post, rank))
  {
    hide Fulls, SliceCount;
    var given := |pre| + |post|;
    var (x, y) := (pre + Fulls(given) + post, pre + Fulls(rank - given) + post);
    FullsCount(given);
    FullsCount(rank - given);
    SliceCountConcat(pre, Fulls(given));
    SliceCountConcat(pre + Fulls(given), post);
    SliceCountConcat(pre, Fulls(rank - given));
    SliceCountConcat(pre + Fulls(rank - given), post);
    if |x| < rank {
      FullsCount(rank - |x|);
      SliceCountConcat(x, Fulls(rank - |x|));
    }
  }

  /** For one pair: the tuple stands for what is meant exactly if its index is good and picks the same tensor. */
  lemma EllipsisOfPairIff(t: Lora, pre: seq<Index>, post: seq<Index>)
    requires Coherent(t) && NoEllipsis(pre) && NoEllipsis(post) && post != [] && |pre| + |post| <= |t.B.shape|
    requires Indexable(Meant(pre, post, |t.B.shape|), DenseShape(t))
    ensures var (given, meant) := (Given(pre, post, |t.B.shape|), Meant(pre, post, |t.B.shape|));
      StandsFor(GetTuple(t, pre + [Ellipsis] + post), Indexed(Dense(t), meant)) <==>
        && GoodAxes(t.A.shape, t.B.shape, given)
        && Indexed(Dense(t), given).Ok? && Indexed(Dense(t), meant).Ok?
        && SameTensor(Indexed(Dense(t), given).value, Indexed(Dense(t), meant).value)
  {
    hide GetAxes, SameTensor, WholeBatches, Indexable, IndexedShape, Selects, Indexed, Given, Meant, GetTuple,
         SliceCount;
    var (given, meant) := (Given(pre, post, |t.B.shape|), Meant(pre, post, |t.B.shape|));
    EllipsisTuple(t, pre, post);
    RankOfIndexed(t, meant);
    if |given| == |t.B.shape| {
      SameSliceCount(pre, post, |t.B.shape|);
      AxesStandForIff(t, given, Indexed(Dense(t), meant));
    } else {
      WrongLengthFails(t, given);
    }
  }

  lemma WrongLengthFails(t: Lora, ixs: seq<Index>)
    requires Valid(t) && |ixs| != |t.B.shape|
    ensures GetAxes(t, ixs).Err?
  {
  }

  /**
   * An ellipsis with indices behind it gives what it gives in PyTorch, for every pair of the given shapes,
   * exactly if the index that it is expanded to is treated as in PyTorch and picks the same entries.
   */
  lemma EllipsisStandsForMeantIff(a: Shape, b: Shape, pre: seq<Index>, post: seq<Index>)
    requires FitShapes(a, b) && b[|b| - 1] > 0
    requires NoEllipsis(pre) && NoEllipsis(post) && post != [] && |pre| + |post| <= |b|
    requires Indexable(Meant(pre, post, |b|), ShapeOf(a, b))
    ensures var (given, meant) := (Given(pre, post, |b|), Meant(pre, post, |b|));
      (forall t: Lora :: HasShapes(t, a, b) && Valid(t) ==>
         StandsFor(GetTuple(t, pre + [Ellipsis] + post), Indexed(Dense(t), meant)))
      <==> GoodAxes(a, b, given) && SameChoice(given, meant, ShapeOf(a, b))
  {
    hide SameTensor, WholeBatches, Indexable, IndexedShape, Selects, Indexed, Given, Meant, GetTuple, SameChoice,
         StandsFor;
    var (given, meant) := (Given(pre, post, |b|), Meant(pre, post, |b|));
    forall t: Lora | HasShapes(t, a, b) && Valid(t)
      ensures StandsFor(GetTuple(t, pre + [Ellipsis] + post), Indexed(Dense(t), meant)) <==>
        && GoodAxes(a, b, given)
        && Indexed(Dense(t), given).Ok? && Indexed(Dense(t), meant).Ok?
        && SameTensor(Indexed(Dense(t), given).value, Indexed(Dense(t), meant).value)
    {
      PairOfShapes(t, a, b);
      EllipsisOfPairIff(t, pre, post);
    }
    if GoodAxes(a, b, given) {
      if SameChoice(given, meant, ShapeOf(a, b)) {
        forall t: Lora | HasShapes(t, a, b) && Valid(t)
          ensures StandsFor(GetTuple(t, pre + [Ellipsis] + post), Indexed(Dense(t), meant))
        {
          PairOfShapes(t, a, b);
          SameChoiceGivesSame(Dense(t), given, meant);
        }
      } else {
        var t := OtherChoiceShows(a, b, given, meant);
        assert !StandsFor(GetTuple(t, pre + [Ellipsis] + post), Indexed(Dense(t), meant));
      }
    } else {
      var p: Position := seq(|b|, i => 0);
      UnitIsValid(a, b, p);
      assert !StandsFor(GetTuple(UnitPair(a, b, p), pre + [Ellipsis] + post), Indexed(Dense(UnitPair(a, b, p)), meant));
    }
  }

  /** Axis by axis the same index, or slices that select the same. */
  predicate SameSelections(x: seq<Index>, y: seq<Index>, shape: Shape)
    requires Indexable(x, shape) && Indexable(y, shape)
  {
    forall i :: 0 <= i < |x| ==> x[i] == y[i] || SameSlice(x[i], y[i], shape[i])
  }

  predicate SameSlice(x: Index, y: Index, n: nat)
    requires Selects(x, n) && Selects(y, n)
  {
    x.Slice? && y.Slice? && Selected(x, n) == Selected(y, n)
  }

  lemma {:induction false} SameSelectionsChooseSame(x: seq<Index>, y: seq<Index>, shape: Shape)
    requires Indexable(x, shape) && Indexable(y, shape) && SameSelections(x, y, shape)
    ensures SameChoice(x, y, shape)
    decreases |x|
  {
    hide Selected, Selects;
    if x != [] {
      var k := |x| - 1;
      var (x', y', front) := (x[..k], y[..k], shape[..k]);
      IndexablePrefix(x, shape);
      IndexablePrefix(y, shape);
      SelectionsPrefix(x, y, shape);
      SameSelectionsChooseSame(x', y', front);
      forall p | Within(p, IndexedShape(x, shape)) ensures Source(x, shape, p) == Source(y, shape, p) {
        if x[k].At? {
          assert Within(p, IndexedShape(x', front));
        } else {
          assert Within(p[..|p| - 1], IndexedShape(x', front));
        }
      }
    }
  }

  lemma SelectionsPrefix(x: seq<Index>, y: seq<Index>, shape: Shape)
    requires Indexable(x, shape) && Indexable(y, shape) && SameSelections(x, y, shape) && x != []
    ensures var k := |x| - 1;
      && Indexable(x[..k], shape[..k]) && Indexable(y[..k], shape[..k])
      && SameSelections(x[..k], y[..k], shape[..k])
      && Selects(x[k], shape[k]) && Selects(y[k], shape[k])
      && (x[k] == y[k] || SameSlice(x[k], y[k], shape[k]))
  {
    hide Selected, Selects;
    var k := |x| - 1;
    forall i | 0 <= i < k ensures x[i] == y[i] || SameSlice(x[i], y[i], shape[i]) {
    }
  }

  const FROM_START := Slice(Some(0), None, 1)

  /** The expansion of t[..., 0:] is not what is meant, but on four axes it gives the same tensor. */
  lemma WholeSliceIsHarmless(a: Shape, b: Shape)
    requires FitShapes(a, b) && |b| == 4 && b[3] > 0
    ensures Given([], [FROM_START], 4) != Meant([], [FROM_START], 4)
    ensures Indexable(Meant([], [FROM_START], 4), ShapeOf(a, b))
    ensures forall t: Lora :: HasShapes(t, a, b) && Valid(t) ==>
      StandsFor(GetTuple(t, [Ellipsis, FROM_START]), Indexed(Dense(t), Meant([], [FROM_START], 4)))
  {
    hide StandsFor, GetTuple, SameChoice, Indexed;
    var (given, meant) := ([FULL, FROM_START, FULL, FULL], [FULL, FULL, FULL, FROM_START]);
    GivenIsMeantIff([], [FROM_START], 4);
    assert [FROM_START][0] != FULL;
    assert Given([], [FROM_START], 4) == given && Meant([], [FROM_START], 4) == meant;
    assert [] + [Ellipsis] + [FROM_START] == [Ellipsis, FROM_START];
    FourSlicesAreGood(a, b, given);
    assert SameSelections(given, meant, ShapeOf(a, b));
    SameSelectionsChooseSame(given, meant, ShapeOf(a, b));
    EllipsisStandsForMeantIff(a, b, [], [FROM_START]);
  }

  lemma FourSlicesAreGood(a: Shape, b: Shape, ixs: seq<Index>)
    requires FitShapes(a, b) && |b| == 4 == |ixs|
    requires forall i :: 0 <= i < 4 ==> ixs[i] == FULL || ixs[i] == FROM_START
    ensures GoodAxes(a, b, ixs)
  {
    hide Selected;
    assert forall i :: 0 <= i < 2 ==> ixs[..2][i] == ixs[i];
    forall i | 0 <= i < 2 ensures Whole(ixs[i], b[i]) {
      FullSlice(b[i]);
      FromStartIsFull(b[i]);
    }
  }

  lemma FromStartIsFull(n: nat)
    ensures Selected(FROM_START, n) == Selected(FULL, n)
  {
  }

  const FIRST := Slice(Some(0), Some(1), 1)

  lemma FirstPicksOne(n: nat)
    requires n > 0
    ensures |Selected(FIRST, n)| == 1
  {
    assert Range(1, 1, 1) == [];
  }

  /** On four axes t[..., 0:1] cuts the second axis and not the last, which shows if the last is longer than one. */
  lemma EllipsisCutsOtherAxis(a: Shape, b: Shape)
    requires FitShapes(a, b) && |b| == 4 && b[3] > 0 && a[3] > 1
    ensures Indexable(Meant([], [FIRST], 4), ShapeOf(a, b))
    ensures exists t: Lora :: (HasShapes(t, a, b) && Valid(t)
      && !StandsFor(GetTuple(t, [Ellipsis, FIRST]), Indexed(Dense(t), Meant([], [FIRST], 4))))
  {
    hide StandsFor, GetTuple, Indexed, Selected, GoodAxes, FitShapes, Valid;
    var (given, meant) := ([FULL, FIRST, FULL, FULL], [FULL, FULL, FULL, FIRST]);
    assert Given([], [FIRST], 4) == given && Meant([], [FIRST], 4) == meant;
    assert |a| == 4 by { hide *; FourAxes(a, b); }
    var shape := ShapeOf(a, b);
    assert shape[3] == a[3];
    assert forall i :: 0 <= i < 4 ==> Selects(meant[i], shape[i]);
    OtherLastExtent(given, meant, shape);
    assert [] + [Ellipsis] + [FIRST] == [Ellipsis, FIRST];
    EllipsisStandsForMeantIff(a, b, [], [FIRST]);
  }

  lemma FourAxes(a: Shape, b: Shape)
    requires FitShapes(a, b)
    ensures |a| == |b|
  {
  }

  lemma OtherLastExtent(given: seq<Index>, meant: seq<Index>, shape: Shape)
    requires |given| == |meant| == |shape| == 4 && shape[3] > 1 && given[3] == FULL && meant[3] == FIRST
    requires Indexable(meant, shape)
    ensures Indexable(given, shape) ==> !SameChoice(given, meant, shape)
  {
    hide Selected;
    FirstPicksOne(shape[3]);
    FullSlice(shape[3]);
    LastExtent(meant, shape);
    if Indexable(given, shape) {
      LastExtent(given, shape);
    }
  }

  lemma LastExtent(ixs: seq<Index>, shape: Shape)
    requires Indexable(ixs, shape) && |ixs| > 0 && ixs[|ixs| - 1].Slice?
    ensures var (r, k) := (IndexedShape(ixs, shape), |ixs| - 1);
      |r| > 0 && r[|r| - 1] == |Selected(ixs[k], shape[k])|
  {
    hide Selected;
  }
}

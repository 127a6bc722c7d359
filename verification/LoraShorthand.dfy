/** The shorthand forms of an index: a single integer or slice, a short tuple, an ellipsis. */
module LoraShorthand {
  import opened Wrappers
  import opened Tensors
  import opened LoraTensor
  import opened LoraIndexing
  import opened LoraSlicing
  import opened LoraJoining

  // ---- one integer or slice ------------------------------------------------------------------

  /** What indexing the first axis leaves of it. */
  function Left(ix: Index, n: nat): Shape
    requires Selects(ix, n)
  {
    if ix.At? then [] else [|Selected(ix, n)|]
  }

  /** Where a position of the result comes from if only the first axis is indexed. */
  function FirstFrom(ix: Index, n: nat, p: Position): Position
    requires Selects(ix, n) && (ix.Slice? ==> |p| > 0 && p[0] < |Selected(ix, n)|)
  {
    if ix.At? then [Normal(ix.j, n)] + p else [Selected(ix, n)[p[0]]] + p[1..]
  }

  lemma {:induction false} FirstAxisShape(ix: Index, shape: Shape)
    requires |shape| > 0 && Selects(ix, shape[0])
    ensures Indexable([ix] + Fulls(|shape| - 1), shape)
    ensures IndexedShape([ix] + Fulls(|shape| - 1), shape) == Left(ix, shape[0]) + shape[1..]
    decreases |shape|
  {
    hide Selected, Indexable, IndexedShape;
    var k := |shape| - 1;
    NothingIsIndexable();
    if k == 0 {
      assert [ix] + Fulls(0) == [] + [ix] && shape == [] + [shape[0]];
      IndexedShapeSnoc([], [], ix, shape[0]);
    } else {
      var (front, n) := (shape[..k], shape[k]);
      assert shape == front + [n] && shape[1..] == front[1..] + [n];
      assert [ix] + Fulls(k) == [ix] + Fulls(k - 1) + [FULL];
      FullSlice(n);
      FirstAxisShape(ix, front);
      IndexedShapeSnoc([ix] + Fulls(k - 1), front, FULL, n);
    }
  }

  lemma NothingIsIndexable()
    ensures Indexable([], []) && IndexedShape([], []) == [] && Source([], [], []) == []
  {
  }

  lemma {:induction false} FirstAxisSource(ix: Index, shape: Shape, p: Position)
    requires |shape| > 0 && Selects(ix, shape[0]) && Within(p, Left(ix, shape[0]) + shape[1..])
    ensures Indexable([ix] + Fulls(|shape| - 1), shape)
    ensures Within(p, IndexedShape([ix] + Fulls(|shape| - 1), shape))
    ensures ix.Slice? ==> |p| > 0 && p[0] < |Selected(ix, shape[0])|
    ensures Source([ix] + Fulls(|shape| - 1), shape, p) == FirstFrom(ix, shape[0], p)
    decreases |shape|
  {
    hide Selected, Indexable, Normal, IndexedShape, Source, FirstFrom;
    var k := |shape| - 1;
    FirstAxisShape(ix, shape);
    if k == 0 {
      FirstAxisAlone(ix, shape, p);
    } else {
      var (front, n) := (shape[..k], shape[k]);
      var left := Left(ix, shape[0]);
      assert left + shape[1..] == left + front[1..] + [n];
      WithinParts(p, left + front[1..] + [n]);
      assert (left + front[1..] + [n])[..|left + front[1..]|] == left + front[1..];
      var (q, x) := (p[..|p| - 1], p[|p| - 1]);
      FirstAxisSource(ix, front, q);
      FirstAxisShape(ix, front);
      WholeAxis(n, x);
      SourceSnoc([ix] + Fulls(k - 1), front, FULL, n, q, x);
      assert shape == front + [n] && [ix] + Fulls(k) == [ix] + Fulls(k - 1) + [FULL];
      FirstFromSnoc(ix, shape[0], q, x);
    }
  }

  lemma FirstFromSnoc(ix: Index, n: nat, q: Position, x: nat)
    requires Selects(ix, n) && (ix.Slice? ==> |q| > 0 && q[0] < |Selected(ix, n)|)
    ensures FirstFrom(ix, n, q + [x]) == FirstFrom(ix, n, q) + [x]
  {
  }

  lemma FirstAxisAlone(ix: Index, shape: Shape, p: Position)
    requires |shape| == 1 && Selects(ix, shape[0]) && Within(p, Left(ix, shape[0]))
    ensures Indexable([ix] + Fulls(0), shape)
    ensures Within(p, IndexedShape([ix] + Fulls(0), shape))
    ensures ix.Slice? ==> |p| > 0 && p[0] < |Selected(ix, shape[0])|
    ensures Source([ix] + Fulls(0), shape, p) == FirstFrom(ix, shape[0], p)
  {
    hide Selected, Indexable, Normal, IndexedShape, Source;
    NothingIsIndexable();
    assert [ix] + Fulls(0) == [] + [ix] && shape == [] + [shape[0]];
    if ix.At? {
      assert p == [];
      SourceSnocAt([], [], ix, shape[0], p);
    } else {
      assert p == [] + [p[0]];
      SourceSnoc([], [], ix, shape[0], [], p[0]);
    }
  }

  lemma FirstIndexed(t: Tensor, ix: Index)
    requires |t.shape| > 0
    ensures Padded([ix], |t.shape|) == [ix] + Fulls(|t.shape| - 1)
    ensures Indexed(t, Padded([ix], |t.shape|)).Ok? <==> Selects(ix, t.shape[0])
    ensures Selects(ix, t.shape[0]) ==>
      Indexed(t, Padded([ix], |t.shape|)).value.shape == Left(ix, t.shape[0]) + t.shape[1..]
  {
    assert |t.shape| == 1 ==> [ix] + Fulls(0) == [ix];
    if Selects(ix, t.shape[0]) {
      FirstAxisShape(ix, t.shape);
    }
  }

  lemma FirstIndexedAt(t: Tensor, ix: Index, p: Position)
    requires |t.shape| > 0 && Selects(ix, t.shape[0]) && Within(p, Left(ix, t.shape[0]) + t.shape[1..])
    ensures Indexed(t, Padded([ix], |t.shape|)).Ok?
    ensures ix.Slice? ==> |p| > 0 && p[0] < |Selected(ix, t.shape[0])|
    ensures Indexed(t, Padded([ix], |t.shape|)).value.at(p) == t.at(FirstFrom(ix, t.shape[0], p))
  {
    hide Selected, FirstFrom, Left;
    FirstIndexed(t, ix);
    FirstAxisSource(ix, t.shape, p);
  }

  /** The entries that a term multiplies exist. */
  lemma TermWithin(t: Lora, p: Position, k: nat)
    requires Coherent(t) && Within(p, DenseShape(t)) && k < Rank(t)
    ensures var n := |p|;
      && Within(p[..n - 1] + [k], t.B.shape)
      && Within(Repeated(p[..n - 2], Batch(t.A.shape)) + [k, p[n - 1]], t.A.shape)
  {
    var n := |p|;
    var la := Batch(t.A.shape);
    var v := Repeated(p[..n - 2], la) + [k, p[n - 1]];
    forall i | 0 <= i < n - 2 ensures v[i] < t.A.shape[i] {
      assert v[i] == Repeated(p[..n - 2], la)[i] && t.A.shape[i] == la[i];
      assert la[i] == 1 || la[i] == Batch(t.B.shape)[i];
      assert p[i] < DenseShape(t)[i] == t.B.shape[i];
    }
    var u := p[..n - 1] + [k];
    forall i | 0 <= i < n - 1 ensures u[i] < t.B.shape[i] {
      assert p[i] < DenseShape(t)[i] == t.B.shape[i];
    }
  }

  /** The first axis can be indexed in both factors, and A still broadcasts. */
  predicate FirstFits(t: Lora, ix: Index)
    requires Valid(t)
  {
    var (a, b) := (t.A.shape[0], t.B.shape[0]);
    match ix
    case At(j) => |t.B.shape| > 2 && InRange(j, a)
    case Slice(_, _, step) =>
      |t.B.shape| > 2 ==> step > 0 && (|Selected(ix, a)| == 1 || |Selected(ix, a)| == |Selected(ix, b)|)
    case Ellipsis => false
  }

  lemma GetFirstUnfolds(t: Lora, ix: Index)
    requires Coherent(t) && |t.B.shape| > 2 && Selects(ix, t.B.shape[0])
    ensures GetFirst(t, ix).Ok? <==> Selects(ix, t.A.shape[0])
    ensures Selects(ix, t.A.shape[0]) ==>
      var r := GetFirst(t, ix).value;
      && Valid(r) && Rank(r) == Rank(t)
      && r.A.shape == Left(ix, t.A.shape[0]) + t.A.shape[1..] && r.B.shape == Left(ix, t.B.shape[0]) + t.B.shape[1..]
      && Indexed(t.A, Padded([ix], |t.A.shape|)) == Ok(r.A) && Indexed(t.B, Padded([ix], |t.B.shape|)) == Ok(r.B)
      && (Coherent(r) <==> FirstFits(t, ix))
  {
    hide Indexed, Selected, Padded;
    FirstIndexed(t.A, ix);
    FirstIndexed(t.B, ix);
    if Selects(ix, t.A.shape[0]) {
      var (a, b) := (Indexed(t.A, Padded([ix], |t.A.shape|)).value, Indexed(t.B, Padded([ix], |t.B.shape|)).value);
      assert |a.shape| == |b.shape| >= 2;
      assert a.shape[|a.shape| - 2] == b.shape[|b.shape| - 1] == Rank(t);
      if ix.At? {
        TailCoherent(t, GetFirst(t, ix).value);
      } else {
        CatCoherent(t, GetFirst(t, ix).value, |Selected(ix, t.A.shape[0])|, |Selected(ix, t.B.shape[0])|);
      }
    }
  }

  lemma TailCoherent(t: Lora, r: Lora)
    requires Coherent(t) && |t.B.shape| > 2 && Valid(r) && r.A.shape == t.A.shape[1..] && r.B.shape == t.B.shape[1..]
    ensures Coherent(r) && Batch(r.A.shape) == Batch(t.A.shape)[1..] && Batch(r.B.shape) == Batch(t.B.shape)[1..]
  {
    var (la, lb) := (Batch(r.A.shape), Batch(r.B.shape));
    forall i | 0 <= i < |la| ensures la[i] == 1 || la[i] == lb[i] {
      assert la[i] == Batch(t.A.shape)[i + 1] && lb[i] == Batch(t.B.shape)[i + 1];
    }
  }

  lemma TakenTerm(t: Lora, ix: Index, p: Position, k: nat)
    requires Coherent(t) && |t.B.shape| > 2 && ix.At? && InRange(ix.j, t.B.shape[0]) && FirstFits(t, ix)
    requires GetFirst(t, ix).Ok? && Valid(GetFirst(t, ix).value)
    requires Within(p, DenseShape(GetFirst(t, ix).value)) && k < Rank(t)
    ensures |p| + 1 == |t.B.shape|
    ensures Term(GetFirst(t, ix).value, p, k) == Term(t, [Normal(ix.j, t.B.shape[0])] + p, k)
  {
    hide Indexed, Padded, GetFirst, Repeated, Within;
    GetFirstUnfolds(t, ix);
    var r := GetFirst(t, ix).value;
    assert |p| == |r.B.shape| by { TermWithin(r, p, k); WithinLength(p, DenseShape(r)); }
    TermWithin(r, p, k);
    TailCoherent(t, r);
    var (n, la) := (|p|, Batch(t.A.shape)[1..]);
    var (u, v) := (p[..n - 1] + [k], Repeated(p[..n - 2], la) + [k, p[n - 1]]);
    assert Left(ix, t.A.shape[0]) + t.A.shape[1..] == r.A.shape && Left(ix, t.B.shape[0]) + t.B.shape[1..] == r.B.shape;
    FirstIndexedAt(t.B, ix, u);
    FirstIndexedAt(t.A, ix, v);
    TermCons(t, Normal(ix.j, t.B.shape[0]), p, k);
    FirstBroadcasts(t);
  }

  lemma WithinLength(p: Position, shape: Shape)
    requires Within(p, shape)
    ensures |p| == |shape|
  {
  }

  lemma SlicedFirstTerm(t: Lora, ix: Index, x: nat, q: Position, k: nat)
    requires Coherent(t) && |t.B.shape| > 2 && ix.Slice? && ix.step > 0 && FirstFits(t, ix)
    requires GetFirst(t, ix).Ok? && Valid(GetFirst(t, ix).value)
    requires Within([x] + q, DenseShape(GetFirst(t, ix).value)) && k < Rank(t)
    ensures |q| + 1 == |t.B.shape| == |GetFirst(t, ix).value.B.shape| && x < |Selected(ix, t.B.shape[0])|
    ensures Term(GetFirst(t, ix).value, [x] + q, k) == Term(t, [Selected(ix, t.B.shape[0])[x]] + q, k)
  {
    hide Indexed, Padded, GetFirst, Repeated, Within, Selected;
    GetFirstUnfolds(t, ix);
    var r := GetFirst(t, ix).value;
    WithinLength([x] + q, DenseShape(r));
    TermWithin(r, [x] + q, k);
    var (n, la) := (|q|, Batch(t.A.shape)[1..]);
    BatchTails(r.A.shape, t.A.shape);
    var first := if r.A.shape[0] == 1 then 0 else x;
    var (u, v) := (q[..n - 1] + [k], Repeated(q[..n - 2], la) + [k, q[n - 1]]);
    ConsParts(x, q);
    assert ([x] + q)[..n] + [k] == [x] + u;
    ReadsA(r, x, q, k);
    FirstIndexedAt(t.B, ix, [x] + u);
    FirstIndexedAt(t.A, ix, [first] + v);
    assert ([x] + u)[1..] == u && ([first] + v)[1..] == v;
    TermCons(r, x, q, k);
    FirstBroadcasts(t);
    TermCons(t, Selected(ix, t.B.shape[0])[x], q, k);
    SelectedFits(ix, t.A.shape[0], t.B.shape[0], x);
  }

  /** Where a term reads A, with the first axis apart. */
  lemma ReadsA(t: Lora, x: nat, q: Position, k: nat)
    requires Valid(t) && |t.B.shape| > 2 && |q| + 1 == |t.B.shape|
    ensures Repeated(([x] + q)[..|q| - 1], Batch(t.A.shape)) + [k, ([x] + q)[|q|]]
         == [if t.A.shape[0] == 1 then 0 else x] + (Repeated(q[..|q| - 2], Batch(t.A.shape)[1..]) + [k, q[|q| - 1]])
  {
    hide Repeated;
    ConsParts(x, q);
    var la := Batch(t.A.shape);
    assert la == [la[0]] + la[1..];
    RepeatedCons(x, q[..|q| - 2], la[0], la[1..]);
  }

  lemma SelectedFits(ix: Index, a: nat, b: nat, x: nat)
    requires ix.Slice? && ix.step > 0 && (a == 1 || a == b) && x < |Selected(ix, b)|
    requires |Selected(ix, a)| == 1 || |Selected(ix, a)| == |Selected(ix, b)|
    ensures var first := if |Selected(ix, a)| == 1 then 0 else x;
      first < |Selected(ix, a)| && Selected(ix, a)[first] == if a == 1 then 0 else Selected(ix, b)[x]
  {
    hide Selected;
  }

  lemma SlicedRowsTerm(t: Lora, ix: Index, x: nat, y: nat, k: nat)
    requires Coherent(t) && |t.B.shape| == 2 && ix.Slice? && ix.step > 0 && k < Rank(t)
    requires x < |Selected(ix, t.B.shape[0])|
    ensures GetFirst(t, ix).Ok? && Valid(GetFirst(t, ix).value) && |GetFirst(t, ix).value.B.shape| == 2
    ensures GetFirst(t, ix).value.A == t.A
    ensures GetFirst(t, ix).value.B.shape == [|Selected(ix, t.B.shape[0])|, Rank(t)]
    ensures Term(GetFirst(t, ix).value, [x, y], k) == Term(t, [Selected(ix, t.B.shape[0])[x], y], k)
  {
    hide Indexed, Padded, Selected;
    FirstIndexed(t.B, ix);
    FirstIndexedAt(t.B, ix, [x, k]);
    var from := Selected(ix, t.B.shape[0])[x];
    assert [from] + [x, k][1..] == [from, k];
    MatrixTerm(GetFirst(t, ix).value, x, y, k);
    MatrixTerm(t, Selected(ix, t.B.shape[0])[x], y, k);
  }

  lemma FirstEntryOfBatches(t: Lora, ix: Index, p: Position)
    requires Coherent(t) && |t.B.shape| > 2 && Selects(ix, t.B.shape[0]) && FirstFits(t, ix)
    requires GetFirst(t, ix).Ok? && Valid(GetFirst(t, ix).value) && Within(p, DenseShape(GetFirst(t, ix).value))
    requires Rank(GetFirst(t, ix).value) == Rank(t)
    ensures ix.Slice? ==> |p| > 0 && p[0] < |Selected(ix, t.B.shape[0])|
    ensures Dense(GetFirst(t, ix).value).at(p) == Dense(t).at(FirstFrom(ix, t.B.shape[0], p))
  {
    hide GetFirst, Term, Sum, Selected, Within, DenseShape, FirstFits;
    var r := GetFirst(t, ix).value;
    WithinLength(p, DenseShape(r));
    if ix.At? {
      TakenLength(t, ix, p);
      var from := [Normal(ix.j, t.B.shape[0])] + p;
      forall k: nat | k < Rank(t) ensures Term(r, p, k) == Term(t, from, k) {
        TakenTerm(t, ix, p, k);
      }
      SumsEqual(r, p, t, from, Rank(t));
    } else {
      var (x, q) := (p[0], p[1..]);
      assert p == [x] + q;
      SlicedLength(t, ix, x, q);
      var from := [Selected(ix, t.B.shape[0])[x]] + q;
      forall k: nat | k < Rank(t) ensures Term(r, p, k) == Term(t, from, k) {
        SlicedFirstTerm(t, ix, x, q, k);
      }
      SumsEqual(r, p, t, from, Rank(t));
    }
  }

  lemma TakenLength(t: Lora, ix: Index, p: Position)
    requires Coherent(t) && |t.B.shape| > 2 && ix.At? && Selects(ix, t.B.shape[0]) && FirstFits(t, ix)
    requires GetFirst(t, ix).Ok? && Valid(GetFirst(t, ix).value) && |p| == |GetFirst(t, ix).value.B.shape|
    ensures |p| + 1 == |t.B.shape|
  {
    hide GetFirst;
    GetFirstUnfolds(t, ix);
  }

  lemma SlicedLength(t: Lora, ix: Index, x: nat, q: Position)
    requires Coherent(t) && |t.B.shape| > 2 && ix.Slice? && Selects(ix, t.B.shape[0]) && FirstFits(t, ix)
    requires GetFirst(t, ix).Ok? && Valid(GetFirst(t, ix).value) && Within([x] + q, DenseShape(GetFirst(t, ix).value))
    ensures |q| + 1 == |t.B.shape| && x < |Selected(ix, t.B.shape[0])|
  {
    hide GetFirst, Selected;
    GetFirstUnfolds(t, ix);
    assert ([x] + q)[0] == x;
  }

  lemma FirstEntryOfMatrix(t: Lora, ix: Index, p: Position)
    requires Coherent(t) && |t.B.shape| == 2 && ix.Slice? && Selects(ix, t.B.shape[0])
    requires |p| == 2 && p[0] < |Selected(ix, t.B.shape[0])|
    ensures GetFirst(t, ix).Ok? && Valid(GetFirst(t, ix).value) && |GetFirst(t, ix).value.B.shape| == 2
    ensures Dense(GetFirst(t, ix).value).at(p) == Dense(t).at(FirstFrom(ix, t.B.shape[0], p))
  {
    hide Term, Sum, Selected, Indexed;
    FirstIndexed(t.B, ix);
    var r := GetFirst(t, ix).value;
    var (x, y) := (p[0], p[1]);
    var from := Selected(ix, t.B.shape[0])[x];
    assert p == [x, y] && [from] + p[1..] == [from, y];
    forall k: nat | k < Rank(t) ensures Term(r, [x, y], k) == Term(t, [from, y], k) {
      SlicedRowsTerm(t, ix, x, y, k);
    }
    SumsEqual(r, [x, y], t, [from, y], Rank(t));
  }

  /** Indexing with one integer or slice is indexing of the dense tensor exactly if A's first axis fits. */
  lemma FirstIsFaithfulIff(t: Lora, ix: Index)
    requires Coherent(t) && Selects(ix, t.B.shape[0])
    ensures StandsFor(GetFirst(t, ix), Indexed(Dense(t), Padded([ix], |t.B.shape|))) <==> FirstFits(t, ix)
  {
    hide GetFirst, Indexed, Selected, Padded, Sum, Within;
    FirstIndexed(Dense(t), ix);
    if |t.B.shape| > 2 {
      GetFirstUnfolds(t, ix);
      if FirstFits(t, ix) {
        FirstOfBatchesStands(t, ix);
      }
    } else if ix.Slice? {
      FirstOfMatrixStands(t, ix);
    } else {
      MatrixRowIsNotSupported(t, ix);
    }
  }

  lemma MatrixRowIsNotSupported(t: Lora, ix: Index)
    requires Valid(t) && |t.B.shape| == 2 && ix.At?
    ensures GetFirst(t, ix) == Err("NotImplementedError")
  {
  }

  lemma FirstOfBatchesStands(t: Lora, ix: Index)
    requires Coherent(t) && |t.B.shape| > 2 && Selects(ix, t.B.shape[0]) && FirstFits(t, ix)
    ensures StandsFor(GetFirst(t, ix), Indexed(Dense(t), Padded([ix], |t.B.shape|)))
  {
    hide GetFirst, Indexed, Selected, Padded, Sum, Term, FirstFrom, FirstFits;
    assert Selects(ix, t.A.shape[0]) by { FitsSelects(t, ix); }
    GetFirstUnfolds(t, ix);
    FirstIndexed(Dense(t), ix);
    var (r, d) := (GetFirst(t, ix).value, Indexed(Dense(t), Padded([ix], |t.B.shape|)).value);
    DenseTail(t);
    FirstShape(t, r, Left(ix, t.A.shape[0]), Left(ix, t.B.shape[0]));
    forall p | Within(p, d.shape) ensures Dense(r).at(p) == d.at(p) {
      FirstIndexedAt(Dense(t), ix, p);
      FirstEntryOfBatches(t, ix, p);
    }
  }

  lemma FitsSelects(t: Lora, ix: Index)
    requires Valid(t) && |t.B.shape| > 2 && FirstFits(t, ix)
    ensures Selects(ix, t.A.shape[0])
  {
  }

  lemma FirstShape(t: Lora, r: Lora, a: Shape, b: Shape)
    requires Valid(t) && |t.B.shape| > 2 && Valid(r) && |a| == |b|
    requires r.A.shape == a + t.A.shape[1..] && r.B.shape == b + t.B.shape[1..]
    ensures DenseShape(r) == b + DenseShape(t)[1..]
  {
  }

  lemma FirstOfMatrixStands(t: Lora, ix: Index)
    requires Coherent(t) && |t.B.shape| == 2 && Selects(ix, t.B.shape[0]) && ix.Slice?
    ensures StandsFor(GetFirst(t, ix), Indexed(Dense(t), Padded([ix], |t.B.shape|)))
  {
    hide GetFirst, Indexed, Selected, Padded, Sum, Term, FirstFrom;
    FirstIndexed(Dense(t), ix);
    var (r, d) := (GetFirst(t, ix), Indexed(Dense(t), Padded([ix], 2)).value);
    SlicedRows(t, ix);
    forall p | Within(p, d.shape) ensures Dense(r.value).at(p) == d.at(p) {
      FirstIndexedAt(Dense(t), ix, p);
      FirstEntryOfMatrix(t, ix, p);
    }
  }

  lemma SlicedRows(t: Lora, ix: Index)
    requires Coherent(t) && |t.B.shape| == 2 && Selects(ix, t.B.shape[0]) && ix.Slice?
    ensures var r := GetFirst(t, ix);
      r.Ok? && Coherent(r.value) && DenseShape(r.value) == [|Selected(ix, t.B.shape[0])|] + DenseShape(t)[1..]
  {
    hide Indexed, Selected;
    FirstIndexed(t.B, ix);
  }

  // ---- short tuples and ellipses -------------------------------------------------------------

  predicate NoEllipsis(ixs: seq<Index>) {
    forall i :: 0 <= i < |ixs| ==> !ixs[i].Ellipsis?
  }

  lemma {:induction false} ExpandPlain(ixs: seq<Index>, n: nat)
    requires NoEllipsis(ixs)
    ensures ExpandEllipses(ixs, n) == ixs
  {
    if ixs != [] {
      ExpandPlain(ixs[1..], n);
    }
  }

  lemma {:induction false} ExpandOne(pre: seq<Index>, post: seq<Index>, n: nat)
    requires NoEllipsis(pre) && NoEllipsis(post)
    ensures ExpandEllipses(pre + [Ellipsis] + post, n) == pre + Fulls(n) + post
  {
    var all := pre + [Ellipsis] + post;
    if pre == [] {
      assert all[1..] == post;
      ExpandPlain(post, n);
    } else {
      assert all[1..] == pre[1..] + [Ellipsis] + post;
      ExpandOne(pre[1..], post, n);
    }
  }

  /** Full slices can be moved across an index only if it consists of full slices. */
  lemma {:induction false} OnlyFullsShift(ixs: seq<Index>, g: nat)
    requires g > 0
    ensures ixs + Fulls(g) == Fulls(g) + ixs <==> ixs == Fulls(|ixs|)
  {
    var (l, r) := (ixs + Fulls(g), Fulls(g) + ixs);
    if ixs != [] {
      var rest := ixs[1..];
      OnlyFullsShift(rest, g);
      assert l[0] == ixs[0] && r[0] == FULL;
      assert l[1..] == rest + Fulls(g);
      if ixs[0] == FULL {
        assert r[1..] == Fulls(g) + rest by { assert Fulls(g)[1..] + [FULL] == Fulls(g); }
        assert l == [FULL] + l[1..] && r == [FULL] + r[1..];
        assert Fulls(|ixs|) == [FULL] + Fulls(|rest|) && ixs == [FULL] + rest;
        assert rest == Fulls(|rest|) ==> ixs == Fulls(|ixs|);
        assert ixs == Fulls(|ixs|) ==> rest == Fulls(|ixs|)[1..];
      }
    }
  }

  /** Tuples without an ellipsis mean what they mean in PyTorch. */
  lemma PlainTuple(t: Lora, ixs: seq<Index>)
    requires Valid(t) && NoEllipsis(ixs) && |ixs| > 0
    ensures GetTuple(t, ixs) == GetAxes(t, Padded(ixs, |t.B.shape|))
  {
    hide GetAxes, Padded, ExpandEllipses;
    ExpandPlain(ixs, |ixs| - 1);
  }

  /** The index that an ellipsis stands for: as many full slices as there are axes left. */
  function Meant(pre: seq<Index>, post: seq<Index>, rank: nat): seq<Index>
    requires |pre| + |post| <= rank
  {
    pre + Fulls(rank - |pre| - |post|) + post
  }

  /** An ellipsis at the end stands for what is meant, except that it is refused on its own. */
  lemma TrailingEllipsisIsMeant(t: Lora, pre: seq<Index>)
    requires Valid(t) && NoEllipsis(pre) && |pre| <= |t.B.shape|
    ensures pre != [] ==> GetTuple(t, pre + [Ellipsis]) == GetAxes(t, Meant(pre, [], |t.B.shape|))
    ensures pre == [] ==> GetTuple(t, pre + [Ellipsis]).Err?
  {
    hide GetAxes, ExpandEllipses;
    var rank := |t.B.shape|;
    assert (pre + [Ellipsis])[..|pre|] == pre;
    if pre != [] {
      PlainTuple(t, pre);
      assert Meant(pre, [], rank) == pre + Fulls(rank - |pre|);
      assert rank == |pre| ==> pre + Fulls(0) == pre;
    }
  }

  /** The index that it is given: as many full slices as there are other indices. */
  function Given(pre: seq<Index>, post: seq<Index>, rank: nat): seq<Index> {
    Padded(pre + Fulls(|pre| + |post|) + post, rank)
  }

  lemma EllipsisTuple(t: Lora, pre: seq<Index>, post: seq<Index>)
    requires Valid(t) && NoEllipsis(pre) && NoEllipsis(post) && post != []
    ensures GetTuple(t, pre + [Ellipsis] + post) == GetAxes(t, Given(pre, post, |t.B.shape|))
  {
    hide GetAxes, ExpandEllipses, Padded;
    var all := pre + [Ellipsis] + post;
    assert all[|all| - 1] == post[|post| - 1];
    ExpandOne(pre, post, |pre| + |post|);
  }

  /**
   * What an ellipsis with indices after it is given is literally what was meant exactly if the other indices make
   * up half of the axes, or less than half and everything after the ellipsis is written as a full slice.
   */
  lemma GivenIsMeantIff(pre: seq<Index>, post: seq<Index>, rank: nat)
    requires |pre| + |post| <= rank
    ensures var given := |pre| + |post|;
      Given(pre, post, rank) == Meant(pre, post, rank) <==>
        2 * given == rank || (2 * given < rank && post == Fulls(|post|))
  {
    var given := |pre| + |post|;
    if 2 * given < rank {
      hide Fulls;
      var g := rank - 2 * given;
      OnlyFullsShift(post, g);
      FullsJoin(given, g);
      SameTail(pre + Fulls(given), post + Fulls(g), Fulls(g) + post);
      assert Given(pre, post, rank) == pre + Fulls(given) + (post + Fulls(g));
      assert Meant(pre, post, rank) == pre + Fulls(given) + (Fulls(g) + post);
    }
  }

  lemma FullsJoin(m: nat, n: nat)
    ensures Fulls(m + n) == Fulls(m) + Fulls(n)
  {
  }

  lemma SameTail(a: seq<Index>, b: seq<Index>, c: seq<Index>)
    requires |b| == |c|
    ensures a + b == a + c <==> b == c
  {
    if a + b == a + c {
      assert (a + b)[|a|..] == b && (a + c)[|a|..] == c;
    }
  }
}

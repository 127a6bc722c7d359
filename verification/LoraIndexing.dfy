/** Indexing a low-rank pair against indexing the dense tensor that it stands for. */
module LoraIndexing {
  import opened Tensors
  import opened LoraTensor

  // ---- the last axis of an index -------------------------------------------------------------

  lemma {:induction false} IndexableSnoc(ixs: seq<Index>, shape: Shape, ix: Index, n: nat)
    requires |ixs| == |shape|
    ensures Indexable(ixs + [ix], shape + [n]) <==> Indexable(ixs, shape) && Selects(ix, n)
  {
    hide Selects;
    var (all, extents) := (ixs + [ix], shape + [n]);
    assert forall i :: 0 <= i < |ixs| ==> all[i] == ixs[i] && extents[i] == shape[i];
    assert all[|ixs|] == ix && extents[|ixs|] == n;
    if Indexable(all, extents) {
      forall i | 0 <= i < |ixs| ensures Selects(ixs[i], shape[i]) {
        assert Selects(all[i], extents[i]);
      }
    }
  }

  lemma {:induction false} IndexedShapeSnoc(ixs: seq<Index>, shape: Shape, ix: Index, n: nat)
    requires Indexable(ixs, shape) && Selects(ix, n)
    ensures Indexable(ixs + [ix], shape + [n])
    ensures IndexedShape(ixs + [ix], shape + [n])
         == IndexedShape(ixs, shape) + if ix.At? then [] else [|Selected(ix, n)|]
  {
    assert |ixs| == |shape|;
    hide Indexable, Selects, Selected;
    IndexableSnoc(ixs, shape, ix, n);
    assert (ixs + [ix])[..|ixs|] == ixs && (shape + [n])[..|shape|] == shape;
  }

  lemma {:induction false} SourceSnoc(ixs: seq<Index>, shape: Shape, ix: Index, n: nat, p: Position, x: nat)
    requires Indexable(ixs, shape) && Selects(ix, n) && ix.Slice?
    requires Within(p, IndexedShape(ixs, shape)) && x < |Selected(ix, n)|
    ensures Indexable(ixs + [ix], shape + [n])
    ensures Within(p + [x], IndexedShape(ixs + [ix], shape + [n]))
    ensures Source(ixs + [ix], shape + [n], p + [x]) == Source(ixs, shape, p) + [Selected(ix, n)[x]]
  {
    hide Selected, IndexedShape, Selects;
    IndexedShapeSnoc(ixs, shape, ix, n);
    var (all, extents, q) := (ixs + [ix], shape + [n], p + [x]);
    assert all[..|ixs|] == ixs && extents[..|shape|] == shape && q[..|p|] == p;
    assert all[|ixs|] == ix && extents[|shape|] == n && q[|p|] == x;
  }

  lemma {:induction false} SourceSnocAt(ixs: seq<Index>, shape: Shape, ix: Index, n: nat, p: Position)
    requires Indexable(ixs, shape) && Selects(ix, n) && ix.At?
    requires Within(p, IndexedShape(ixs, shape))
    ensures Indexable(ixs + [ix], shape + [n])
    ensures Within(p, IndexedShape(ixs + [ix], shape + [n]))
    ensures Source(ixs + [ix], shape + [n], p) == Source(ixs, shape, p) + [Normal(ix.j, n)]
  {
    hide Selected, IndexedShape, Selects;
    IndexedShapeSnoc(ixs, shape, ix, n);
    var (all, extents) := (ixs + [ix], shape + [n]);
    assert all[..|ixs|] == ixs && extents[..|shape|] == shape;
    assert all[|ixs|] == ix && extents[|shape|] == n;
  }

  // ---- the batch axes ------------------------------------------------------------------------

  /** Every slice of a batch axis that A really has takes the whole axis. */
  predicate WholeBatches(ixs: seq<Index>, a: Shape, b: Shape)
    requires |ixs| == |a| == |b|
    requires Indexable(ixs, b)
  {
    forall i :: 0 <= i < |ixs| ==> a[i] == 1 || Whole(ixs[i], b[i])
  }

  predicate Whole(ix: Index, n: nat)
    requires Selects(ix, n)
  {
    ix.Slice? ==> |Selected(ix, n)| == n
  }

  /** A batch axis of B that takes an integer is not empty, so A's is not either. */
  predicate Wraps(ixs: seq<Index>, a: Shape) {
    |ixs| <= |a| && forall i :: 0 <= i < |ixs| ==> ixs[i].At? ==> a[i] > 0
  }

  lemma IndexedBatchesWrap(ixs: seq<Index>, a: Shape, b: Shape)
    requires Broadcasts(a, b) && Indexable(ixs, b)
    ensures Wraps(ixs, a)
    ensures Indexable(BatchOfA(ixs, a), a)
  {
    forall i | 0 <= i < |ixs| && ixs[i].At? ensures a[i] > 0 {
      assert Selects(ixs[i], b[i]);
    }
  }

  lemma {:induction false} BatchOfASnoc(ixs: seq<Index>, a: Shape, ix: Index, n: nat)
    requires |ixs| == |a| && Wraps(ixs, a) && (ix.At? ==> n > 0)
    ensures Wraps(ixs + [ix], a + [n])
    ensures BatchOfA(ixs + [ix], a + [n]) == BatchOfA(ixs, a) + [if ix.At? then At(ix.j % n) else FULL]
  {
    assert forall i :: 0 <= i < |ixs| ==> (ixs + [ix])[i] == ixs[i] && (a + [n])[i] == a[i];
  }

  /** The factors agree on which batch axes are left, and broadcast exactly if the slices take whole axes. */
  lemma {:induction false} BatchShapes(ixs: seq<Index>, a: Shape, b: Shape)
    requires Broadcasts(a, b) && Indexable(ixs, b)
    ensures Wraps(ixs, a) && Indexable(BatchOfA(ixs, a), a)
    ensures |IndexedShape(BatchOfA(ixs, a), a)| == |IndexedShape(ixs, b)|
    ensures Broadcasts(IndexedShape(BatchOfA(ixs, a), a), IndexedShape(ixs, b)) <==> WholeBatches(ixs, a, b)
    decreases |ixs|
  {
    hide Selected, BatchOfA, IndexedShape, Broadcasts, WholeBatches;
    IndexedBatchesWrap(ixs, a, b);
    if ixs == [] {
      NoBatches(a, b);
    } else {
      var k := |ixs| - 1;
      var (ixs', a', b') := (ixs[..k], a[..k], b[..k]);
      assert ixs == ixs' + [ixs[k]];
      BroadcastsSnoc(a, b);
      assert a == a' + [a[k]] && b == b' + [b[k]];
      BatchShapes(ixs', a', b');
      BatchOfASnoc(ixs', a', ixs[k], a[k]);
      IndexedShapeSnoc(ixs', b', ixs[k], b[k]);
      var ix := if ixs[k].At? then At(ixs[k].j % a[k]) else FULL;
      assert Selects(ix, a[k]);
      IndexedShapeSnoc(BatchOfA(ixs', a'), a', ix, a[k]);
      FullSlice(a[k]);
      WholeBatchesSnoc(ixs, a, b);
      var (sa, sb) := (IndexedShape(BatchOfA(ixs', a'), a'), IndexedShape(ixs', b'));
      if ixs[k].Slice? {
        BroadcastsLast(sa, sb, a[k], |Selected(ixs[k], b[k])|);
      } else {
        assert sa + [] == sa && sb + [] == sb;
      }
    }
  }

  lemma NoBatches(a: Shape, b: Shape)
    requires |a| == 0 == |b|
    ensures Wraps([], a) && BatchOfA([], a) == []
    ensures IndexedShape([], a) == [] == IndexedShape([], b)
    ensures Broadcasts([], []) && WholeBatches([], a, b)
  {
  }

  lemma BroadcastsSnoc(a: Shape, b: Shape)
    requires Broadcasts(a, b) && |a| > 0
    ensures Broadcasts(a[..|a| - 1], b[..|a| - 1])
    ensures a[|a| - 1] == 1 || a[|a| - 1] == b[|a| - 1]
  {
  }

  lemma BroadcastsLast(a: Shape, b: Shape, x: nat, y: nat)
    requires |a| == |b|
    ensures Broadcasts(a + [x], b + [y]) <==> Broadcasts(a, b) && (x == 1 || x == y)
  {
    var (xs, ys) := (a + [x], b + [y]);
    assert forall i :: 0 <= i < |a| ==> xs[i] == a[i] && ys[i] == b[i];
    assert xs[|a|] == x && ys[|a|] == y;
  }

  lemma WholeBatchesSnoc(ixs: seq<Index>, a: Shape, b: Shape)
    requires |ixs| == |a| == |b| > 0 && Indexable(ixs, b)
    ensures var k := |ixs| - 1; WholeBatches(ixs, a, b) <==>
      WholeBatches(ixs[..k], a[..k], b[..k])
      && (a[k] == 1 || Whole(ixs[k], b[k]))
  {
    hide Whole;
    var k := |ixs| - 1;
    var (ixs', a', b') := (ixs[..k], a[..k], b[..k]);
    assert forall i :: 0 <= i < k ==> ixs'[i] == ixs[i] && a'[i] == a[i] && b'[i] == b[i];
    if WholeBatches(ixs, a, b) {
      forall i | 0 <= i < k ensures a'[i] == 1 || Whole(ixs'[i], b'[i]) {
        assert a[i] == 1 || Whole(ixs[i], b[i]);
      }
    }
  }

  // ---- where a batch position comes from -----------------------------------------------------

  lemma RepeatedSnoc(lead: Position, a: Shape, x: nat, n: nat)
    requires |lead| == |a|
    ensures Repeated(lead + [x], a + [n]) == Repeated(lead, a) + [if n == 1 then 0 else x]
  {
    assert forall i :: 0 <= i < |a| ==> (lead + [x])[i] == lead[i] && (a + [n])[i] == a[i];
  }

  /** Python's remainder of an index in range is the index counted from the start. */
  lemma NormalIsRemainder(j: int, n: nat)
    requires InRange(j, n)
    ensures j % n == Normal(j, n)
  {
    var (q, r) := (j / n, j % n);
    assert n * q + r == j;
    TimesAtLeast(n, q);
  }

  lemma TimesAtLeast(n: nat, q: int)
    ensures q >= 1 ==> n * q >= n
    ensures q <= -1 ==> n * q <= 0 - n
    ensures q <= -2 ==> n * q <= 0 - 2 * n
  {
  }

  lemma WithinParts(p: Position, shape: Shape)
    requires Within(p, shape) && |p| > 0
    ensures Within(p[..|p| - 1], shape[..|p| - 1]) && p[|p| - 1] < shape[|p| - 1]
    ensures p == p[..|p| - 1] + [p[|p| - 1]]
  {
  }

  /** A slice that takes a whole axis takes every entry from where it was. */
  lemma WholeSelection(ix: Index, n: nat, x: nat)
    requires Selects(ix, n) && ix.Slice? && Whole(ix, n) && x < n
    ensures Selected(ix, n)[x] == x
  {
    FullSelection(ix, n);
  }

  /** One batch axis: what A is read at, against where B's row came from. */
  function AxisOfA(ix: Index, a: nat): Index
    requires ix.At? ==> a > 0
  {
    if ix.At? then At(ix.j % a) else FULL
  }

  /** The result reads A where the dense tensor did. */
  lemma {:induction false} BatchSource(ixs: seq<Index>, a: Shape, b: Shape, q: Position)
    requires Broadcasts(a, b) && Indexable(ixs, b) && WholeBatches(ixs, a, b)
    requires Within(q, IndexedShape(ixs, b))
    ensures Wraps(ixs, a) && Indexable(BatchOfA(ixs, a), a)
    ensures |IndexedShape(BatchOfA(ixs, a), a)| == |q|
    ensures Within(Repeated(q, IndexedShape(BatchOfA(ixs, a), a)), IndexedShape(BatchOfA(ixs, a), a))
    ensures Source(BatchOfA(ixs, a), a, Repeated(q, IndexedShape(BatchOfA(ixs, a), a)))
         == Repeated(Source(ixs, b, q), a)
    decreases |ixs|
  {
    hide Selected, BatchOfA, IndexedShape, Broadcasts, WholeBatches, Source, Repeated, Normal;
    BatchShapes(ixs, a, b);
    if ixs == [] {
      NoBatches(a, b);
      NoSource(a, b, q);
    } else {
      var k := |ixs| - 1;
      var (ixs', a', b') := (ixs[..k], a[..k], b[..k]);
      assert ixs == ixs' + [ixs[k]] && a == a' + [a[k]] && b == b' + [b[k]];
      BroadcastsSnoc(a, b);
      WholeBatchesSnoc(ixs, a, b);
      BatchShapes(ixs', a', b');
      BatchOfASnoc(ixs', a', ixs[k], a[k]);
      IndexedShapeSnoc(ixs', b', ixs[k], b[k]);
      var (ix, ia) := (AxisOfA(ixs[k], a[k]), BatchOfA(ixs', a'));
      IndexedShapeSnoc(ia, a', ix, a[k]);
      var (sa, sb) := (IndexedShape(ia, a'), IndexedShape(ixs', b'));
      if ixs[k].At? {
        assert sa + [] == sa && sb + [] == sb;
        BatchSource(ixs', a', b', q);
        SourceSnocAt(ixs', b', ixs[k], b[k], q);
        SourceSnocAt(ia, a', ix, a[k], Repeated(q, sa));
        RepeatedSnoc(Source(ixs', b', q), a', Normal(ixs[k].j, b[k]), a[k]);
        AtAxis(ixs[k].j, a[k], b[k]);
      } else {
        var m := |Selected(ixs[k], b[k])|;
        WithinParts(q, sb + [m]);
        var (q', x) := (q[..|q| - 1], q[|q| - 1]);
        assert (sb + [m])[..|sb|] == sb;
        BatchSource(ixs', a', b', q');
        SourceSnoc(ixs', b', ixs[k], b[k], q', x);
        FullSlice(a[k]);
        RepeatedSnoc(q', sa, x, a[k]);
        SliceAxis(ixs[k], a[k], b[k], x);
        SourceSnoc(ia, a', ix, a[k], Repeated(q', sa), if a[k] == 1 then 0 else x);
        RepeatedSnoc(Source(ixs', b', q'), a', Selected(ixs[k], b[k])[x], a[k]);
      }
    }
  }

  lemma AtAxis(j: int, a: nat, b: nat)
    requires InRange(j, b) && (a == 1 || a == b)
    ensures InRange(j % a, a) && Normal(j % a, a) == if a == 1 then 0 else Normal(j, b)
  {
    if a != 1 {
      NormalIsRemainder(j, a);
    }
  }

  lemma SliceAxis(ix: Index, a: nat, b: nat, x: nat)
    requires ix.Slice? && Selects(ix, b) && (a == 1 || (a == b && Whole(ix, b))) && x < |Selected(ix, b)|
    ensures var y := if a == 1 then 0 else x;
      y < |Selected(FULL, a)| && Selected(FULL, a)[y] == if a == 1 then 0 else Selected(ix, b)[x]
  {
    FullSlice(a);
    WholeSelection(FULL, a, if a == 1 then 0 else x);
    if a != 1 {
      WholeSelection(ix, b, x);
    }
  }

  lemma NoSource(a: Shape, b: Shape, q: Position)
    requires |a| == 0 == |b| && Within(q, IndexedShape([], b))
    ensures Indexable([], a) && IndexedShape([], a) == [] && q == []
    ensures Within(Repeated(q, []), []) && Source([], a, Repeated(q, [])) == Repeated(Source([], b, q), a)
  {
  }
}

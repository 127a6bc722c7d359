/** Axis by axis: exactly when two indices pick the same entries of every tensor of a shape. */
module LoraChoices {
  import opened Tensors
  import opened LoraTensor
  import opened LoraSlicing
  import opened LoraShorthand
  import opened LoraEllipsis

  // ---- what an index picks on one axis -------------------------------------------------------

  /** The entries of an axis that an index picks, in order: an integer picks one. */
  function Picks(ix: Index, n: nat): seq<nat>
    requires Selects(ix, n)
  {
    if ix.At? then [Normal(ix.j, n)] else Selected(ix, n)
  }

  predicate SamePicks(x: seq<Index>, y: seq<Index>, shape: Shape)
    requires Indexable(x, shape) && Indexable(y, shape)
  {
    forall i :: 0 <= i < |shape| ==> Picks(x[i], shape[i]) == Picks(y[i], shape[i])
  }

  /** The same shape is left, and it is empty, or on every axis the same entries are picked. */
  predicate PicksSame(x: seq<Index>, y: seq<Index>, shape: Shape)
    requires Indexable(x, shape) && Indexable(y, shape)
  {
    && IndexedShape(x, shape) == IndexedShape(y, shape)
    && (0 in IndexedShape(x, shape) || SamePicks(x, y, shape))
  }

  // ---- equal picks give equal sources --------------------------------------------------------

  /** A position without the axes that have a single entry. */
  function Squeezed(p: Position, shape: Shape): Position
    requires |p| == |shape|
  {
    if p == [] then []
    else
      var k := |p| - 1;
      Squeezed(p[..k], shape[..k]) + if shape[k] == 1 then [] else [p[k]]
  }

  lemma SqueezedSnoc(p: Position, shape: Shape, i: nat, n: nat)
    requires |p| == |shape|
    ensures Squeezed(p + [i], shape + [n]) == Squeezed(p, shape) + if n == 1 then [] else [i]
  {
    assert (p + [i])[..|p|] == p && (shape + [n])[..|p|] == shape;
  }

  /** One step of Source from the last axis. */
  lemma SourceStep(x: seq<Index>, shape: Shape, p: Position) returns (front: Position, i: nat)
    requires Indexable(x, shape) && x != [] && Within(p, IndexedShape(x, shape))
    ensures var k := |x| - 1;
      && Indexable(x[..k], shape[..k]) && Selects(x[k], shape[k]) && Within(front, IndexedShape(x[..k], shape[..k]))
      && i < |Picks(x[k], shape[k])|
      && Source(x, shape, p) == Source(x[..k], shape[..k], front) + [Picks(x[k], shape[k])[i]]
      && (x[k].At? ==> i == 0)
      && Squeezed(p, IndexedShape(x, shape))
           == Squeezed(front, IndexedShape(x[..k], shape[..k])) + if |Picks(x[k], shape[k])| == 1 then [] else [i]
  {
    hide Selected;
    var k := |x| - 1;
    IndexablePrefix(x, shape);
    if x[k].At? {
      front, i := p, 0;
    } else {
      front, i := p[..|p| - 1], p[|p| - 1];
      assert Within(front, IndexedShape(x[..k], shape[..k]));
      assert p == front + [i];
      SqueezedSnoc(front, IndexedShape(x[..k], shape[..k]), i, |Selected(x[k], shape[k])|);
    }
  }

  lemma {:induction false} SameSource(x: seq<Index>, y: seq<Index>, shape: Shape, p: Position, q: Position)
    requires Indexable(x, shape) && Indexable(y, shape)
    requires SamePicks(x, y, shape)
    requires Within(p, IndexedShape(x, shape)) && Within(q, IndexedShape(y, shape))
    requires Squeezed(p, IndexedShape(x, shape)) == Squeezed(q, IndexedShape(y, shape))
    ensures Source(x, shape, p) == Source(y, shape, q)
    decreases |shape|
  {
    hide Indexable, Picks, SamePicks, IndexedShape, Squeezed, Source;
    Lengths(x, y, shape);
    if shape != [] {
      var k := |shape| - 1;
      var front, i := SourceStep(x, shape, p);
      var front', i' := SourceStep(y, shape, q);
      SamePicksPrefix(x, y, shape);
      LastOfBoth(Squeezed(front, IndexedShape(x[..k], shape[..k])), i,
                 Squeezed(front', IndexedShape(y[..k], shape[..k])), i', |Picks(x[k], shape[k])| == 1);
      SameSource(x[..k], y[..k], shape[..k], front, front');
    } else {
      NoAxes(x, shape, p);
      NoAxes(y, shape, q);
    }
  }

  lemma Lengths(x: seq<Index>, y: seq<Index>, shape: Shape)
    requires Indexable(x, shape) && Indexable(y, shape)
    ensures |x| == |y| == |shape|
  {
  }

  lemma SamePicksPrefix(x: seq<Index>, y: seq<Index>, shape: Shape)
    requires Indexable(x, shape) && Indexable(y, shape) && SamePicks(x, y, shape) && shape != []
    ensures var k := |shape| - 1;
      && Indexable(x[..k], shape[..k]) && Indexable(y[..k], shape[..k]) && SamePicks(x[..k], y[..k], shape[..k])
      && Selects(x[k], shape[k]) && Selects(y[k], shape[k]) && Picks(x[k], shape[k]) == Picks(y[k], shape[k])
  {
    hide Picks, Selects;
    var k := |shape| - 1;
    assert Selects(x[k], shape[k]) && Selects(y[k], shape[k]);
    forall m | 0 <= m < k
      ensures Selects(x[..k][m], shape[..k][m]) && Selects(y[..k][m], shape[..k][m])
    {
      assert Selects(x[m], shape[m]) && Selects(y[m], shape[m]);
    }
  }

  lemma NoAxes(x: seq<Index>, shape: Shape, p: Position)
    requires Indexable(x, shape) && shape == [] && Within(p, IndexedShape(x, shape))
    ensures Source(x, shape, p) == []
  {
  }

  lemma LastOfBoth(a: Position, i: nat, b: Position, j: nat, single: bool)
    requires a + (if single then [] else [i]) == b + (if single then [] else [j])
    ensures a == b && (!single ==> i == j)
  {
    var (u, v) := (a + if single then [] else [i], b + if single then [] else [j]);
    assert u[..|a|] == a && v[..|b|] == b;
    if !single {
      assert u[|u| - 1] == i && v[|v| - 1] == j;
    }
  }

  // ---- equal sources come from equal picks ---------------------------------------------------

  /** What an axis of the source depends on: nothing, or the position on the axis that it becomes. */
  lemma {:induction false} SourceAt(x: seq<Index>, shape: Shape, p: Position, i: nat)
    requires Indexable(x, shape) && Within(p, IndexedShape(x, shape)) && i < |shape|
    ensures var (r, s) := (SliceCount(x[..i]), Source(x, shape, p));
      && (x[i].At? ==> s[i] == Normal(x[i].j, shape[i]))
      && (x[i].Slice? ==>
            && r < |p| && IndexedShape(x, shape)[r] == |Selected(x[i], shape[i])|
            && s[i] == Selected(x[i], shape[i])[p[r]])
    decreases |shape|
  {
    hide Selected, Selects, SliceCount;
    var k := |shape| - 1;
    IndexablePrefix(x, shape);
    RankIsSliceCount(x[..k], shape[..k]);
    var front := if x[k].At? then p else p[..|p| - 1];
    if i < k {
      SourceAt(x[..k], shape[..k], front, i);
      assert x[..k][..i] == x[..i];
    }
  }

  lemma FirstTwo(ix: Index, n: nat)
    requires ix.Slice? && ix.step > 0 && |Selected(ix, n)| >= 2
    ensures Selected(ix, n)[0] != Selected(ix, n)[1]
  {
  }

  function Zeros(n: nat): (p: Position)
    ensures |p| == n && forall i :: 0 <= i < n ==> p[i] == 0
  {
    seq(n, i => 0)
  }

  /** An axis of which x picks several entries is sliced by y as well, and becomes the same axis. */
  lemma SameAxis(x: seq<Index>, y: seq<Index>, shape: Shape, i: nat)
    requires Indexable(x, shape) && Indexable(y, shape) && SameChoice(x, y, shape)
    requires 0 !in IndexedShape(x, shape) && i < |shape| && x[i].Slice? && |Selected(x[i], shape[i])| >= 2
    ensures y[i].Slice? && SliceCount(y[..i]) == SliceCount(x[..i])
  {
    hide Selected, Source, SliceCount, IndexedShape;
    var extents := IndexedShape(x, shape);
    var (z, r) := (Zeros(|extents|), SliceCount(x[..i]));
    SourceAt(x, shape, z, i);
    var p := z[r := 1];
    SourceAt(x, shape, p, i);
    SourceAt(y, shape, z, i);
    SourceAt(y, shape, p, i);
    FirstTwo(x[i], shape[i]);
    assert Source(x, shape, z) == Source(y, shape, z) && Source(x, shape, p) == Source(y, shape, p);
  }

  lemma PicksAgree(x: seq<Index>, y: seq<Index>, shape: Shape, i: nat)
    requires Indexable(x, shape) && Indexable(y, shape) && SameChoice(x, y, shape)
    requires 0 !in IndexedShape(x, shape) && i < |shape|
    ensures Picks(x[i], shape[i]) == Picks(y[i], shape[i])
  {
    hide Selected, Source, SliceCount, IndexedShape;
    var (extents, n) := (IndexedShape(x, shape), shape[i]);
    var (z, r) := (Zeros(|extents|), SliceCount(x[..i]));
    SourceAt(x, shape, z, i);
    SourceAt(y, shape, z, i);
    assert Source(x, shape, z) == Source(y, shape, z);
    if x[i].Slice? && |Selected(x[i], n)| >= 2 {
      SameAxis(x, y, shape, i);
      forall e | 0 <= e < |Selected(x[i], n)| ensures Selected(x[i], n)[e] == Selected(y[i], n)[e] {
        var p := z[r := e];
        SourceAt(x, shape, p, i);
        SourceAt(y, shape, p, i);
        assert Source(x, shape, p) == Source(y, shape, p);
      }
    } else if y[i].Slice? && |Selected(y[i], n)| >= 2 {
      SameAxis(y, x, shape, i);
      assert false;
    }
  }

  /** Two indices pick the same entries, in the same arrangement, exactly if they do so axis by axis. */
  lemma SameChoiceIff(x: seq<Index>, y: seq<Index>, shape: Shape)
    requires Indexable(x, shape) && Indexable(y, shape)
    ensures SameChoice(x, y, shape) <==> PicksSame(x, y, shape)
  {
    hide Picks, Source, IndexedShape, Indexable;
    var extents := IndexedShape(x, shape);
    if SameChoice(x, y, shape) && 0 !in extents {
      AllPicksAgree(x, y, shape);
    }
    if PicksSame(x, y, shape) {
      forall p | Within(p, extents) ensures Source(x, shape, p) == Source(y, shape, p) {
        NoZeroExtent(p, extents);
        SameSource(x, y, shape, p, p);
      }
    }
  }

  lemma NoZeroExtent(p: Position, shape: Shape)
    requires Within(p, shape)
    ensures 0 !in shape
  {
  }

  lemma AllPicksAgree(x: seq<Index>, y: seq<Index>, shape: Shape)
    requires Indexable(x, shape) && Indexable(y, shape) && SameChoice(x, y, shape) && 0 !in IndexedShape(x, shape)
    ensures SamePicks(x, y, shape)
  {
    hide Picks, Source, IndexedShape, SameChoice;
    forall i | 0 <= i < |shape| ensures Picks(x[i], shape[i]) == Picks(y[i], shape[i]) {
      PicksAgree(x, y, shape, i);
    }
  }

  /**
   An ellipsis with indices behind it gives what it gives in PyTorch, for every pair of the given shapes, exactly if
   the index that it is expanded to is treated as in PyTorch and picks the same on every axis.
   */
  lemma EllipsisByAxesIff(a: Shape, b: Shape, pre: seq<Index>, post: seq<Index>)
    requires FitShapes(a, b) && b[|b| - 1] > 0
    requires NoEllipsis(pre) && NoEllipsis(post) && post != [] && |pre| + |post| <= |b|
    requires Indexable(Meant(pre, post, |b|), ShapeOf(a, b))
    ensures var (given, meant) := (Given(pre, post, |b|), Meant(pre, post, |b|));
      (forall t: Lora :: HasShapes(t, a, b) && Valid(t) ==>
         StandsFor(GetTuple(t, pre + [Ellipsis] + post), Indexed(Dense(t), meant)))
      <==> GoodAxes(a, b, given) && PicksSame(given, meant, ShapeOf(a, b))
  {
    hide StandsFor, GetTuple, Indexed, SameChoice, PicksSame, Indexable, Meant, Given;
    EllipsisStandsForMeantIff(a, b, pre, post);
    var (given, meant) := (Given(pre, post, |b|), Meant(pre, post, |b|));
    if GoodAxes(a, b, given) {
      SameChoiceIff(given, meant, ShapeOf(a, b));
    }
  }
}

/** The part of PyTorch's tensor semantics that LoraTorchTensor relies on. Entries are integers. */
module Tensors {
  import opened Wrappers

  type Shape = seq<nat>
  type Position = seq<nat>

  /** Only the entries at valid positions mean anything. */
  datatype Tensor = Tensor(shape: Shape, at: Position -> int)

  predicate Within(p: Position, shape: Shape) {
    |p| == |shape| && forall i :: 0 <= i < |p| ==> p[i] < shape[i]
  }

  ghost predicate SameTensor(a: Tensor, b: Tensor) {
    a.shape == b.shape && forall p :: Within(p, a.shape) ==> a.at(p) == b.at(p)
  }

  function Product(shape: Shape): nat {
    if shape == [] then 1 else Product(shape[..|shape| - 1]) * shape[|shape| - 1]
  }

  lemma {:induction false} ProductSnoc(shape: Shape, n: nat)
    ensures Product(shape + [n]) == Product(shape) * n
  {
    assert (shape + [n])[..|shape|] == shape;
  }

  /** One component of an index expression. */
  datatype Index = At(j: int) | Slice(start: Option<int>, stop: Option<int>, step: nat) | Ellipsis

  const FULL := Slice(None, None, 1)

  function Clamp(x: int, n: nat): (r: nat)
    ensures r <= n
  {
    var y := if x < 0 then x + n else x;
    if y < 0 then 0 else if y > n then n else y
  }

  function Range(start: nat, stop: nat, step: nat): (r: seq<nat>)
    requires step > 0
    ensures forall i :: 0 <= i < |r| ==> start <= r[i] < stop
    decreases stop - start
  {
    if start >= stop then [] else [start] + Range(start + step, stop, step)
  }

  /** The positions that a slice selects along an axis of n entries: slice.indices(n). */
  function Selected(ix: Index, n: nat): (r: seq<nat>)
    requires ix.Slice? && ix.step > 0
    ensures forall i :: 0 <= i < |r| ==> r[i] < n
  {
    var start := match ix.start { case None => 0 case Some(x) => Clamp(x, n) };
    var stop := match ix.stop { case None => n case Some(x) => Clamp(x, n) };
    Range(start, stop, ix.step)
  }

  lemma {:induction false} RangeLength(start: nat, stop: nat, step: nat)
    requires step > 0 && start <= stop
    ensures |Range(start, stop, step)| <= stop - start
    ensures |Range(start, stop, step)| == stop - start ==>
              forall i :: 0 <= i < |Range(start, stop, step)| ==> Range(start, stop, step)[i] == start + i
    decreases stop - start
  {
    if start < stop {
      if start + step <= stop {
        RangeLength(start + step, stop, step);
      } else {
        assert Range(start + step, stop, step) == [];
      }
    }
  }

  /** A slice that selects as many entries as there are selects them all, in order. */
  lemma FullSelection(ix: Index, n: nat)
    requires ix.Slice? && ix.step > 0
    ensures |Selected(ix, n)| <= n
    ensures |Selected(ix, n)| == n ==> forall i :: 0 <= i < n ==> Selected(ix, n)[i] == i
  {
    var start := match ix.start { case None => 0 case Some(x) => Clamp(x, n) };
    var stop := match ix.stop { case None => n case Some(x) => Clamp(x, n) };
    if start <= stop {
      RangeLength(start, stop, ix.step);
    }
  }

  lemma {:induction false} UnitRange(start: nat, stop: nat)
    requires start <= stop
    ensures |Range(start, stop, 1)| == stop - start
    decreases stop - start
  {
    if start < stop {
      UnitRange(start + 1, stop);
    }
  }

  lemma FullSlice(n: nat)
    ensures |Selected(FULL, n)| == n
  {
    UnitRange(0, n);
  }

  /** An integer index counts from the end if it is negative. */
  predicate InRange(j: int, n: nat) {
    0 - n <= j < n
  }

  function Normal(j: int, n: nat): (r: nat)
    requires InRange(j, n)
    ensures r < n
  {
    if j < 0 then j + n else j
  }

  /** PyTorch refuses slices with a step below one. */
  predicate Selects(ix: Index, n: nat) {
    match ix
    case At(j) => InRange(j, n)
    case Slice(_, _, step) => step > 0
    case Ellipsis => false
  }

  predicate Indexable(ixs: seq<Index>, shape: Shape) {
    && |ixs| == |shape|
    && forall i :: 0 <= i < |ixs| ==> Selects(ixs[i], shape[i])
  }

  /** The shape that is left after indexing: integer indices drop their axis. */
  function IndexedShape(ixs: seq<Index>, shape: Shape): (r: Shape)
    requires Indexable(ixs, shape)
  {
    if ixs == [] then []
    else
      var (ix, n) := (ixs[|ixs| - 1], shape[|shape| - 1]);
      var rest := IndexedShape(ixs[..|ixs| - 1], shape[..|shape| - 1]);
      if ix.At? then rest else rest + [|Selected(ix, n)|]
  }

  /** The position in the indexed tensor that position p of the result comes from. */
  function Source(ixs: seq<Index>, shape: Shape, p: Position): (r: Position)
    requires Indexable(ixs, shape) && Within(p, IndexedShape(ixs, shape))
    ensures Within(r, shape)
  {
    if ixs == [] then []
    else
      var k := |ixs| - 1;
      if ixs[k].At? then Source(ixs[..k], shape[..k], p) + [Normal(ixs[k].j, shape[k])]
      else Source(ixs[..k], shape[..k], p[..|p| - 1]) + [Selected(ixs[k], shape[k])[p[|p| - 1]]]
  }

  /** t[ixs]; an index that is out of range is an IndexError. */
  function Indexed(t: Tensor, ixs: seq<Index>): Result<Tensor> {
    if !Indexable(ixs, t.shape) then Err("IndexError")
    else
      var shape := IndexedShape(ixs, t.shape);
      Ok(Tensor(shape, p => if Within(p, shape) then t.at(Source(ixs, t.shape, p)) else 0))
  }

  /** The offset of a position in row-major order. */
  function Flat(p: Position, shape: Shape): nat
    requires |p| == |shape|
  {
    if p == [] then 0
    else Flat(p[..|p| - 1], shape[..|shape| - 1]) * shape[|shape| - 1] + p[|p| - 1]
  }

  function Unflat(offset: nat, shape: Shape): (p: Position)
    ensures |p| == |shape|
    decreases |shape|
  {
    if shape == [] then []
    else
      var n := shape[|shape| - 1];
      Unflat(Quotient(offset, n), shape[..|shape| - 1]) + [Remainder(offset, n)]
  }

  function Quotient(x: nat, n: nat): nat {
    if n == 0 || x < n then 0 else 1 + Quotient(x - n, n)
  }

  function Remainder(x: nat, n: nat): nat {
    if n == 0 then 0 else if x < n then x else Remainder(x - n, n)
  }

  /** t.reshape(shape): the same entries in the same row-major order. */
  function Reshaped(t: Tensor, shape: Shape): Result<Tensor> {
    if Product(shape) != Product(t.shape) then Err("RuntimeError")
    else Ok(Tensor(shape, p => if |p| == |shape| then t.at(Unflat(Flat(p, shape), t.shape)) else 0))
  }

  /** Along the last axis, reshaping does nothing but carry the index over. */
  lemma {:induction false} FlatSnoc(p: Position, shape: Shape, k: nat, n: nat)
    requires |p| == |shape|
    ensures Flat(p + [k], shape + [n]) == Flat(p, shape) * n + k
  {
    assert (p + [k])[..|p|] == p && (shape + [n])[..|shape|] == shape;
  }

  lemma {:induction false} UnflatSnoc(offset: nat, shape: Shape, k: nat, n: nat)
    requires k < n
    ensures Unflat(offset * n + k, shape + [n]) == Unflat(offset, shape) + [k]
  {
    hide Quotient, Remainder;
    DivMod(offset, k, n);
    assert (shape + [n])[..|shape|] == shape;
  }

  lemma {:induction false} DivMod(offset: nat, k: nat, n: nat)
    requires k < n
    ensures Quotient(offset * n + k, n) == offset && Remainder(offset * n + k, n) == k
    decreases offset
  {
    if offset > 0 {
      DivMod(offset - 1, k, n);
      var x := (offset - 1) * n + k;
      assert offset * n + k == x + n;
    }
  }

  // ---- permuting, stacking, concatenating ----------------------------------------------------

  /** A negative axis counts from the end. */
  function Axis(dim: int, n: nat): int {
    if dim < 0 then dim + n else dim
  }

  predicate IsPermutation(dims: seq<int>, n: nat) {
    && |dims| == n
    && (forall i :: 0 <= i < n ==> 0 <= Axis(dims[i], n) < n)
    && (forall i, j :: 0 <= i < j < n ==> Axis(dims[i], n) != Axis(dims[j], n))
  }

  /** The place of an axis in a permutation. */
  function Where(dims: seq<int>, n: nat, axis: int): (i: nat)
    ensures dims != [] ==> i < |dims|
  {
    if |dims| <= 1 then 0
    else if Axis(dims[|dims| - 1], n) == axis then |dims| - 1
    else Where(dims[..|dims| - 1], n, axis)
  }

  lemma {:induction false} WhereFinds(dims: seq<int>, n: nat, i: nat)
    requires i < |dims|
    requires forall a, b :: 0 <= a < b < |dims| ==> Axis(dims[a], n) != Axis(dims[b], n)
    ensures Where(dims, n, Axis(dims[i], n)) == i
  {
    if i < |dims| - 1 {
      WhereFinds(dims[..|dims| - 1], n, i);
    }
  }

  /** The position in t of the entry at p in t.permute(dims): axis dims[i] of t is axis i of the result. */
  function Unpermuted(dims: seq<int>, p: Position): (r: Position)
    requires |p| == |dims|
    ensures |r| == |p|
  {
    seq(|p|, axis requires 0 <= axis < |p| => p[Where(dims, |p|, axis)])
  }

  function Permuted(t: Tensor, dims: seq<int>): Result<Tensor> {
    var n := |t.shape|;
    if !IsPermutation(dims, n) then Err("RuntimeError")
    else
      Ok(Tensor(seq(n, i requires 0 <= i < n => t.shape[Axis(dims[i], n)]),
                p => if |p| == n then t.at(Unpermuted(dims, p)) else 0))
  }

  function Stacked(ts: seq<Tensor>): Result<Tensor> {
    if ts == [] || exists i :: 0 <= i < |ts| && ts[i].shape != ts[0].shape then Err("RuntimeError")
    else
      Ok(Tensor([|ts|] + ts[0].shape, p => if |p| > 0 && p[0] < |ts| then ts[p[0]].at(p[1..]) else 0))
  }

  function Total(extents: seq<nat>): nat {
    if extents == [] then 0 else extents[0] + Total(extents[1..])
  }

  /** Which tensor the i-th row of a concatenation comes from, and which row of it. */
  function Locate(extents: seq<nat>, i: nat): (r: (nat, nat))
    requires i < Total(extents)
    ensures r.0 < |extents| && r.1 < extents[r.0]
    ensures i == Total(extents[..r.0]) + r.1
  {
    if i < extents[0] then (0, i)
    else
      var (j, row) := Locate(extents[1..], i - extents[0]);
      assert extents[..j + 1] == [extents[0]] + extents[1..][..j];
      (j + 1, row)
  }

  function Extents(ts: seq<Tensor>): (r: seq<nat>)
    requires forall i :: 0 <= i < |ts| ==> |ts[i].shape| > 0
    ensures |r| == |ts|
  {
    seq(|ts|, i requires 0 <= i < |ts| => ts[i].shape[0])
  }

  predicate Joinable(ts: seq<Tensor>) {
    && |ts| > 0 && |ts[0].shape| > 0
    && forall i :: 0 <= i < |ts| ==> |ts[i].shape| > 0 && ts[i].shape[1..] == ts[0].shape[1..]
  }

  /** torch.cat along the first axis. */
  function Concatenated(ts: seq<Tensor>): Result<Tensor> {
    if !Joinable(ts) then Err("RuntimeError")
    else
      var extents := Extents(ts);
      Ok(Tensor([Total(extents)] + ts[0].shape[1..], p =>
        if |p| > 0 && p[0] < Total(extents) then
          var (j, row) := Locate(extents, p[0]);
          ts[j].at([row] + p[1..])
        else 0))
  }
}

/**
 * LoraTorchTensor of convert_lora_to_gguf.py: a pair of low-rank factors that stands for the dense
 * tensor B @ A. Every method returns a new pair and never computes the product.
 */
module LoraTensor {
  import opened Wrappers
  import opened Tensors

  datatype Lora = Lora(A: Tensor, B: Tensor)

  /** What the assertions of the constructor leave standing. */
  predicate Valid(t: Lora) {
    && |t.A.shape| == |t.B.shape| >= 2
    && t.A.shape[|t.A.shape| - 2] == t.B.shape[|t.B.shape| - 1]
  }

  function Make(A: Tensor, B: Tensor): (r: Result<Lora>)
    ensures r.Ok? <==> Valid(Lora(A, B))
    ensures r.Ok? ==> r.value == Lora(A, B)
  {
    if |A.shape| != |B.shape| || |A.shape| < 2 || A.shape[|A.shape| - 2] != B.shape[|B.shape| - 1] then
      Err("AssertionError")
    else
      Ok(Lora(A, B))
  }

  function Batch(shape: Shape): Shape
    requires |shape| >= 2
  {
    shape[..|shape| - 2]
  }

  function Rank(t: Lora): nat
    requires Valid(t)
  {
    t.B.shape[|t.B.shape| - 1]
  }

  /** The property shape: the rows of B and the columns of A. */
  function DenseShape(t: Lora): (r: Shape)
    requires Valid(t)
    ensures |r| == |t.B.shape|
  {
    t.B.shape[..|t.B.shape| - 1] + [t.A.shape[|t.A.shape| - 1]]
  }

  /** The product is defined, and has the shape that is claimed, if A's batch extents broadcast to B's. */
  predicate Coherent(t: Lora) {
    Valid(t) && Broadcasts(Batch(t.A.shape), Batch(t.B.shape))
  }

  predicate Broadcasts(a: Shape, b: Shape) {
    |a| == |b| && forall i :: 0 <= i < |a| ==> a[i] == 1 || a[i] == b[i]
  }

  /** Where a batch position reads A: an extent of one is repeated. */
  function Repeated(lead: Position, a: Shape): (r: Position)
    requires |lead| == |a|
    ensures |r| == |a|
  {
    seq(|lead|, i requires 0 <= i < |lead| => if a[i] == 1 then 0 else lead[i])
  }

  function Term(t: Lora, p: Position, k: nat): int
    requires Valid(t) && |p| == |t.B.shape|
  {
    var n := |p|;
    t.B.at(p[..n - 1] + [k]) * t.A.at(Repeated(p[..n - 2], Batch(t.A.shape)) + [k, p[n - 1]])
  }

  function Sum(t: Lora, p: Position, n: nat): int
    requires Valid(t) && |p| == |t.B.shape|
  {
    if n == 0 then 0 else Sum(t, p, n - 1) + Term(t, p, n - 1)
  }

  /** The dense tensor that the pair stands for. */
  function Dense(t: Lora): (d: Tensor)
    requires Valid(t)
    ensures |d.shape| == |t.B.shape|
    ensures d.shape[..|d.shape| - 1] == t.B.shape[..|t.B.shape| - 1]
    ensures d.shape[|d.shape| - 1] == t.A.shape[|t.A.shape| - 1]
  {
    Tensor(DenseShape(t), p => if |p| == |t.B.shape| then Sum(t, p, Rank(t)) else 0)
  }

  lemma {:induction false} SumsEqual(t: Lora, p: Position, u: Lora, q: Position, n: nat)
    requires Valid(t) && |p| == |t.B.shape|
    requires Valid(u) && |q| == |u.B.shape|
    requires forall k: nat :: k < n ==> Term(t, p, k) == Term(u, q, k)
    ensures Sum(t, p, n) == Sum(u, q, n)
  {
    hide Term;
    if n > 0 {
      SumsEqual(t, p, u, q, n - 1);
    }
  }

  // ---- indexing ------------------------------------------------------------------------------

  /** Indexing with one integer or one slice. */
  function GetFirst(t: Lora, ix: Index): Result<Lora>
    requires Valid(t) && !ix.Ellipsis?
  {
    if |t.A.shape| > 2 then
      var a := Indexed(t.A, Padded([ix], |t.A.shape|));
      var b := Indexed(t.B, Padded([ix], |t.B.shape|));
      if a.Err? then Err(a.error) else if b.Err? then Err(b.error)
      else Make(a.value, b.value)
    else if ix.At? then
      Err("NotImplementedError")
    else
      var b := Indexed(t.B, Padded([ix], 2));
      if b.Err? then Err(b.error) else Make(t.A, b.value)
  }

  /** The axes that are not mentioned are taken whole. */
  function Padded(ixs: seq<Index>, rank: nat): (r: seq<Index>)
    ensures |ixs| <= rank ==> |r| == rank
    ensures |ixs| >= rank ==> r == ixs
  {
    if |ixs| < rank then ixs + Fulls(rank - |ixs|) else ixs
  }

  function Fulls(n: nat): (r: seq<Index>)
    ensures |r| == n && forall i :: 0 <= i < n ==> r[i] == FULL
  {
    seq(n, i => FULL)
  }

  /** An ellipsis that is not last becomes as many slices as there are other indices. */
  function ExpandEllipses(ixs: seq<Index>, n: nat): seq<Index> {
    if ixs == [] then []
    else (if ixs[0].Ellipsis? then Fulls(n) else [ixs[0]]) + ExpandEllipses(ixs[1..], n)
  }

  function GetTuple(t: Lora, ixs: seq<Index>): Result<Lora>
    requires Valid(t)
    decreases |ixs|
  {
    if |ixs| == 0 then Err("AssertionError")
    else if ixs[|ixs| - 1].Ellipsis? then GetTuple(t, ixs[..|ixs| - 1])
    else GetAxes(t, Padded(ExpandEllipses(ixs, |ixs| - 1), |t.B.shape|))
  }

  /** The index for the batch axes of A: integers are wrapped to its extent, slices are not applied. */
  function BatchOfA(ixs: seq<Index>, a: Shape): (r: seq<Index>)
    requires |ixs| <= |a|
    requires forall i :: 0 <= i < |ixs| ==> ixs[i].At? ==> a[i] > 0
    ensures |r| == |ixs|
  {
    seq(|ixs|, i requires 0 <= i < |ixs| => if ixs[i].At? then At(ixs[i].j % a[i]) else FULL)
  }

  /** Tuple indexing once every axis has its index. */
  function GetAxes(t: Lora, ixs: seq<Index>): Result<Lora>
    requires Valid(t)
  {
    var n := |ixs|;
    if n != |t.B.shape| then Err("IndexError")
    else if exists i :: 0 <= i < n - 2 && ixs[i].At? && t.A.shape[i] == 0 then Err("ZeroDivisionError")
    else
      var a := Indexed(t.A, BatchOfA(ixs[..n - 2], t.A.shape) + [FULL, ixs[n - 1]]);
      var b := Indexed(t.B, ixs[..n - 1] + [FULL]);
      if a.Err? then Err(a.error) else if b.Err? then Err(b.error)
      else Make(a.value, b.value)
  }

  // ---- reshaping -----------------------------------------------------------------------------

  function ProductOfKnown(shape: seq<int>): int {
    if shape == [] then 1
    else ProductOfKnown(shape[..|shape| - 1]) * (if shape[|shape| - 1] == -1 then 1 else shape[|shape| - 1])
  }

  /** Every -1 is replaced by what the other extents leave over. */
  function Expanded(shape: seq<int>, total: nat): Result<seq<int>> {
    if -1 !in shape then Ok(shape)
    else
      var known := ProductOfKnown(shape);
      if known == 0 then Err("ZeroDivisionError")
      else if total % known != 0 then Err("AssertionError")
      else Ok(seq(|shape|, i requires 0 <= i < |shape| => if shape[i] == -1 then total / known else shape[i]))
  }

  function Ones(n: nat): (r: Shape)
    ensures |r| == n && forall i :: 0 <= i < n ==> r[i] == 1
  {
    seq(n, i => 1)
  }

  predicate IsShape(shape: seq<int>) {
    forall i :: 0 <= i < |shape| ==> shape[i] >= 0
  }

  function AsShape(shape: seq<int>): (r: Shape)
    requires IsShape(shape)
    ensures |r| == |shape| && forall i :: 0 <= i < |shape| ==> r[i] == shape[i]
  {
    seq(|shape|, i requires 0 <= i < |shape| => shape[i])
  }

  /** Reshaping to extents that are all known; a negative one is an error in PyTorch. */
  function ReshapeTo(t: Lora, shape: Shape): Result<Lora>
    requires Valid(t) && |shape| >= 2
  {
    var (n, d) := (DenseShape(t)[|t.B.shape| - 1], |shape|);
    if shape[d - 1] != n then Err("NotImplementedError")
    else
      var a := Reshaped(t.A, Ones(d - 2) + [Rank(t)] + [n]);
      var b := Reshaped(t.B, shape[..d - 1] + [Rank(t)]);
      if a.Err? then Err(a.error) else if b.Err? then Err(b.error)
      else Make(a.value, b.value)
  }

  function Reshape(t: Lora, shape: seq<int>): Result<Lora>
    requires Valid(t)
  {
    if |shape| < 2 then Err("NotImplementedError")
    else
      var e := Expanded(shape, Product(DenseShape(t)));
      if e.Err? then Err(e.error)
      else if !IsShape(e.value) then Err("RuntimeError")
      else ReshapeTo(t, AsShape(e.value))
  }

  // ---- permuting, stacking, concatenating ----------------------------------------------------

  function FromEnd(dims: seq<int>, n: nat): (r: seq<int>)
    ensures |r| == |dims|
  {
    seq(|dims|, i requires 0 <= i < |dims| => if dims[i] >= 0 then dims[i] - n else dims[i])
  }

  function Permute(t: Lora, dims: seq<int>): (r: Result<Lora>)
    requires Valid(t)
    ensures r.Ok? ==> Valid(r.value)
  {
    var (n, d) := (|t.B.shape|, |dims|);
    var back := FromEnd(dims, n);
    if d == 0 then Err("IndexError")
    else if back[d - 1] == -1 then
      if exists i :: 0 <= i < n - 2 && t.A.shape[i] != 1 then Err("AssertionError")
      else
        var b := Permuted(t.B, back);
        if b.Err? then Err(b.error) else Make(t.A, b.value)
    else if n == 2 && back[d - 1] == -2 && d == 1 then Err("IndexError")
    else if n == 2 && back[d - 1] == -2 && back[d - 2] == -1 then
      var (a, b) := (Permuted(t.A, back), Permuted(t.B, back));
      if b.Err? then Err(b.error) else if a.Err? then Err(a.error) else Make(b.value, a.value)
    else Err("NotImplementedError")
  }

  /** The identity permutation with two axes exchanged. */
  function Exchanged(n: nat, i: nat, j: nat): (dims: seq<int>)
    requires i < n && j < n
    ensures |dims| == n
  {
    seq(n, k => if k == i then j else if k == j then i else k)
  }

  function Transpose(t: Lora, dim0: int, dim1: int): Result<Lora>
    requires Valid(t)
  {
    var n := |t.B.shape|;
    if !InRange(dim0, n) || !InRange(dim1, n) then Err("IndexError")
    else Permute(t, Exchanged(n, Normal(dim0, n), Normal(dim1, n)))
  }

  function FactorsA(ts: seq<Lora>): (r: seq<Tensor>)
    ensures |r| == |ts|
  {
    seq(|ts|, i requires 0 <= i < |ts| => ts[i].A)
  }

  function FactorsB(ts: seq<Lora>): (r: seq<Tensor>)
    ensures |r| == |ts|
  {
    seq(|ts|, i requires 0 <= i < |ts| => ts[i].B)
  }

  /** torch.stack with dim=0. */
  function Stack(ts: seq<Lora>): Result<Lora> {
    var (a, b) := (Stacked(FactorsA(ts)), Stacked(FactorsB(ts)));
    if a.Err? then Err(a.error) else if b.Err? then Err(b.error) else Make(a.value, b.value)
  }

  /** torch.cat with dim=0. Matrices must share the factor A. */
  ghost function Cat(ts: seq<Lora>): Result<Lora>
    requires forall i :: 0 <= i < |ts| ==> Valid(ts[i])
  {
    if ts == [] then Err("IndexError")
    else
      var b := Concatenated(FactorsB(ts));
      if |ts[0].B.shape| > 2 then
        var a := Concatenated(FactorsA(ts));
        if a.Err? then Err(a.error) else if b.Err? then Err(b.error) else Make(a.value, b.value)
      else if forall i :: 0 <= i < |ts| ==> SameTensor(ts[0].A, ts[i].A) then
        if b.Err? then Err(b.error) else Make(ts[0].A, b.value)
      else Err("NotImplementedError")
  }
}

/** Stacking and concatenating low-rank pairs against the same on dense tensors. */
module LoraJoining {
  import opened Wrappers
  import opened Tensors
  import opened LoraTensor
  import opened LoraSlicing

  predicate AllCoherent(ts: seq<Lora>) {
    forall i :: 0 <= i < |ts| ==> Coherent(ts[i])
  }

  function Denses(ts: seq<Lora>): (r: seq<Tensor>)
    requires AllCoherent(ts)
    ensures |r| == |ts|
  {
    seq(|ts|, i requires 0 <= i < |ts| => Dense(ts[i]))
  }

  /** A position with one more axis in front. */
  lemma ConsParts(x: nat, p: Position)
    requires |p| >= 2
    ensures var (q, n) := ([x] + p, |p|);
      && q[..n] == [x] + p[..n - 1] && q[..n - 1] == [x] + p[..n - 2] && q[n] == p[n - 1] && q[1..] == p
  {
  }

  lemma RepeatedCons(x: nat, lead: Position, n: nat, a: Shape)
    requires |lead| == |a|
    ensures Repeated([x] + lead, [n] + a) == [if n == 1 then 0 else x] + Repeated(lead, a)
  {
  }

  /** A term of a pair with one more axis in front. */
  lemma TermCons(t: Lora, x: nat, p: Position, k: nat)
    requires Valid(t) && |t.B.shape| >= 3 && |p| + 1 == |t.B.shape|
    ensures var (n, extent, a) := (|p|, t.A.shape[0], Batch(t.A.shape)[1..]);
      Term(t, [x] + p, k) == t.B.at([x] + (p[..n - 1] + [k]))
        * t.A.at([if extent == 1 then 0 else x] + (Repeated(p[..n - 2], a) + [k, p[n - 1]]))
  {
    hide Repeated;
    var n := |p|;
    var la := Batch(t.A.shape);
    ConsParts(x, p);
    assert la == [la[0]] + la[1..];
    RepeatedCons(x, p[..n - 2], la[0], la[1..]);
    assert [x] + p[..n - 1] + [k] == [x] + (p[..n - 1] + [k]);
    var r := Repeated(p[..n - 2], la[1..]);
    var y := if la[0] == 1 then 0 else x;
    assert [y] + r + [k, p[n - 1]] == [y] + (r + [k, p[n - 1]]);
  }

  // ---- stack ---------------------------------------------------------------------------------

  predicate SameShapes(ts: seq<Lora>) {
    && |ts| > 0
    && forall i :: 0 <= i < |ts| ==> ts[i].A.shape == ts[0].A.shape && ts[i].B.shape == ts[0].B.shape
  }

  lemma StackUnfolds(ts: seq<Lora>)
    requires AllCoherent(ts)
    ensures Stack(ts).Ok? <==> SameShapes(ts)
    ensures SameShapes(ts) ==>
      var r := Stack(ts).value;
      && Coherent(r) && Rank(r) == Rank(ts[0])
      && r.A.shape == [|ts|] + ts[0].A.shape && r.B.shape == [|ts|] + ts[0].B.shape
      && Batch(r.A.shape)[1..] == Batch(ts[0].A.shape)
      && Stacked(FactorsA(ts)) == Ok(r.A) && Stacked(FactorsB(ts)) == Ok(r.B)
  {
    var (a, b) := (FactorsA(ts), FactorsB(ts));
    if Stacked(a).Ok? && Stacked(b).Ok? {
      forall i | 0 <= i < |ts| ensures ts[i].A.shape == ts[0].A.shape && ts[i].B.shape == ts[0].B.shape {
        assert a[i].shape == a[0].shape && b[i].shape == b[0].shape;
      }
    }
  }

  lemma StackedTerm(ts: seq<Lora>, i: nat, p: Position, k: nat)
    requires AllCoherent(ts) && SameShapes(ts) && i < |ts| && |p| == |ts[0].B.shape|
    ensures Stack(ts).Ok? && Valid(Stack(ts).value) && |Stack(ts).value.B.shape| == |p| + 1
    ensures Valid(ts[i]) && |ts[i].B.shape| == |p|
    ensures Term(Stack(ts).value, [i] + p, k) == Term(ts[i], p, k)
  {
    hide Repeated, Stacked, Stack;
    StackUnfolds(ts);
    var r := Stack(ts).value;
    var n := |p|;
    TermCons(r, i, p, k);
    StackedAt(FactorsA(ts), i, Repeated(p[..n - 2], Batch(ts[i].A.shape)) + [k, p[n - 1]]);
    StackedAt(FactorsB(ts), i, p[..n - 1] + [k]);
  }

  lemma StackedAt(ts: seq<Tensor>, i: nat, p: Position)
    requires Stacked(ts).Ok? && i < |ts|
    ensures Stacked(ts).value.at([i] + p) == ts[i].at(p)
  {
    assert ([i] + p)[1..] == p;
  }

  lemma StackedEntry(ts: seq<Lora>, i: nat, q: Position)
    requires AllCoherent(ts) && SameShapes(ts) && i < |ts| && |q| == |ts[0].B.shape| && Stacked(Denses(ts)).Ok?
    ensures Stack(ts).Ok? && Valid(Stack(ts).value)
    ensures Dense(Stack(ts).value).at([i] + q) == Stacked(Denses(ts)).value.at([i] + q)
  {
    hide Stacked, Stack, Term, Sum;
    StackUnfolds(ts);
    StackedAt(Denses(ts), i, q);
    var r := Stack(ts).value;
    forall k: nat | k < Rank(r) ensures Term(r, [i] + q, k) == Term(ts[i], q, k) {
      StackedTerm(ts, i, q, k);
    }
    SumsEqual(r, [i] + q, ts[i], q, Rank(r));
  }

  lemma StackedDenses(ts: seq<Lora>)
    requires AllCoherent(ts) && SameShapes(ts)
    ensures Stacked(Denses(ts)).Ok? && Stacked(Denses(ts)).value.shape == [|ts|] + DenseShape(ts[0])
  {
    var ds := Denses(ts);
    assert forall i :: 0 <= i < |ts| ==> ds[i].shape == ds[0].shape;
  }

  /** Stacking pairs is stacking the dense tensors. */
  lemma StackIsFaithful(ts: seq<Lora>)
    requires AllCoherent(ts)
    ensures Stack(ts).Ok? <==> SameShapes(ts)
    ensures SameShapes(ts) ==> StandsFor(Stack(ts), Stacked(Denses(ts)))
  {
    hide Stack, Stacked, Term, Sum, Denses;
    StackUnfolds(ts);
    if SameShapes(ts) {
      var (r, ds) := (Stack(ts).value, Denses(ts));
      StackedDenses(ts);
      assert DenseShape(r) == [|ts|] + DenseShape(ts[0]);
      forall p | Within(p, DenseShape(r)) ensures Dense(r).at(p) == Stacked(ds).value.at(p) {
        var (i, q) := (p[0], p[1..]);
        assert p == [i] + q;
        StackedEntry(ts, i, q);
      }
    }
  }

  // ---- cat -----------------------------------------------------------------------------------

  lemma ConcatenatedAt(ts: seq<Tensor>, i: nat, p: Position)
    requires Joinable(ts) && i < Total(Extents(ts))
    ensures Concatenated(ts).Ok?
    ensures var (j, row) := Locate(Extents(ts), i);
      j < |ts| && row < ts[j].shape[0] && Concatenated(ts).value.at([i] + p) == ts[j].at([row] + p)
  {
    assert ([i] + p)[1..] == p;
  }

  lemma JoinableDenses(ts: seq<Lora>)
    requires AllCoherent(ts) && Joinable(FactorsB(ts))
    requires forall i :: 0 <= i < |ts| ==> ts[i].A.shape[1..] == ts[0].A.shape[1..]
    ensures Joinable(Denses(ts)) && Extents(Denses(ts)) == Extents(FactorsB(ts))
  {
    var (bs, ds) := (FactorsB(ts), Denses(ts));
    forall i | 0 <= i < |ts| ensures ds[i].shape[1..] == ds[0].shape[1..] && ds[i].shape[0] == bs[i].shape[0] {
      assert bs[i].shape[1..] == bs[0].shape[1..];
      DenseTail(ts[i]);
      DenseTail(ts[0]);
    }
  }

  lemma DenseTail(t: Lora)
    requires Valid(t)
    ensures var n := |t.B.shape|;
      Dense(t).shape[1..] == t.B.shape[1..][..n - 2] + [t.A.shape[1..][n - 2]]
  {
  }

  /** Matrices that share A: concatenating the rows of the Bs concatenates the rows of the products. */
  lemma CatOfMatricesIsFaithful(ts: seq<Lora>)
    requires AllCoherent(ts) && Cat(ts).Ok? && |ts[0].B.shape| == 2
    ensures StandsFor(Cat(ts), Concatenated(Denses(ts)))
  {
    hide Repeated, Term, Sum, Concatenated, Joinable, SameTensor, Locate;
    var (bs, ds) := (FactorsB(ts), Denses(ts));
    JoinableB(ts);
    SharedShapes(ts);
    JoinableDenses(ts);
    ConcatenatedShape(bs);
    ConcatenatedShape(ds);
    var r := Cat(ts).value;
    MatrixCatEntries(ts);
    SameByEntries(r, Concatenated(ds).value);
  }

  lemma SameByEntries(r: Lora, d: Tensor)
    requires Valid(r) && Dense(r).shape == d.shape
    requires forall p :: Within(p, d.shape) ==> Dense(r).at(p) == d.at(p)
    ensures SameTensor(Dense(r), d)
  {
  }

  lemma JoinableB(ts: seq<Lora>)
    requires AllCoherent(ts) && Cat(ts).Ok?
    ensures Joinable(FactorsB(ts)) && Concatenated(FactorsB(ts)).Ok?
    ensures |ts[0].B.shape| > 2 ==> Joinable(FactorsA(ts)) && Concatenated(FactorsA(ts)).Ok?
  {
  }

  lemma ConcatenatedShape(ts: seq<Tensor>)
    requires Joinable(ts)
    ensures Concatenated(ts).Ok?
    ensures Concatenated(ts).value.shape == [Total(Extents(ts))] + ts[0].shape[1..]
  {
  }

  lemma SharedShapes(ts: seq<Lora>)
    requires AllCoherent(ts) && Cat(ts).Ok? && |ts[0].B.shape| == 2
    ensures forall i :: 0 <= i < |ts| ==> SameTensor(ts[0].A, ts[i].A) && ts[i].A.shape == ts[0].A.shape
    ensures Cat(ts).value.A == ts[0].A && Concatenated(FactorsB(ts)) == Ok(Cat(ts).value.B)
  {
    hide Concatenated;
  }

  lemma MatrixCatEntries(ts: seq<Lora>)
    requires AllCoherent(ts) && Cat(ts).Ok? && |ts[0].B.shape| == 2
    requires Joinable(Denses(ts)) && Extents(Denses(ts)) == Extents(FactorsB(ts))
    ensures Valid(Cat(ts).value) && Concatenated(Denses(ts)).Ok?
    ensures forall p :: Within(p, Concatenated(Denses(ts)).value.shape) ==>
      Dense(Cat(ts).value).at(p) == Concatenated(Denses(ts)).value.at(p)
  {
    hide Repeated, Term, Sum, Concatenated, Joinable, SameTensor, Locate, Cat;
    var (bs, ds) := (FactorsB(ts), Denses(ts));
    JoinableB(ts);
    CatIsValid(ts);
    ConcatenatedShape(ds);
    ConcatenatedShape(bs);
    SharedShapes(ts);
    var (r, d) := (Cat(ts).value, Concatenated(ds).value);
    forall p | Within(p, d.shape) ensures Dense(r).at(p) == d.at(p) {
      assert p == [p[0]] + [p[1]];
      var (j, row) := Locate(Extents(bs), p[0]);
      ConcatenatedAt(ds, p[0], [p[1]]);
      var q := [row] + [p[1]];
      forall k: nat | k < Rank(r) ensures Term(r, p, k) == Term(ts[j], q, k) {
        MatrixCatTerm(ts, p, k);
      }
      SumsEqual(r, p, ts[j], q, Rank(r));
    }
  }

  lemma CatIsValid(ts: seq<Lora>)
    requires AllCoherent(ts) && Cat(ts).Ok?
    ensures Valid(Cat(ts).value)
  {
  }

  lemma MatrixCatTerm(ts: seq<Lora>, p: Position, k: nat)
    requires AllCoherent(ts) && Cat(ts).Ok? && |ts[0].B.shape| == 2 && k < Rank(ts[0])
    requires |p| == 2 && p[0] < Total(Extents(FactorsB(ts))) && p[1] < ts[0].A.shape[1]
    ensures var (r, (j, row)) := (Cat(ts).value, Locate(Extents(FactorsB(ts)), p[0]));
      && Valid(r) && |r.B.shape| == 2 && |ts[j].B.shape| == 2
      && Term(r, p, k) == Term(ts[j], [row] + [p[1]], k)
  {
    hide Concatenated, Joinable, SameTensor, Locate, Cat;
    var bs := FactorsB(ts);
    var (j, row) := Locate(Extents(bs), p[0]);
    JoinableB(ts);
    CatIsValid(ts);
    SharedShapes(ts);
    ConcatenatedShape(bs);
    ConcatenatedAt(bs, p[0], [k]);
    var r := Cat(ts).value;
    MatrixTerm(r, p[0], p[1], k);
    MatrixTerm(ts[j], row, p[1], k);
    assert p == [p[0], p[1]] && [row] + [p[1]] == [row, p[1]] && [p[0]] + [k] == [p[0], k] && [row] + [k] == [row, k];
    SharedEntry(ts[0].A, ts[j].A, k, p[1]);
  }

  lemma SharedEntry(a: Tensor, b: Tensor, x: nat, y: nat)
    requires SameTensor(a, b) && |a.shape| == 2 && x < a.shape[0] && y < a.shape[1]
    ensures a.at([x, y]) == b.at([x, y])
  {
  }

  lemma MatrixTerm(t: Lora, x: nat, y: nat, k: nat)
    requires Valid(t) && |t.B.shape| == 2
    ensures Term(t, [x, y], k) == t.B.at([x, k]) * t.A.at([k, y])
  {
    var p := [x, y];
    assert p[..1] + [k] == [x, k];
    assert Repeated(p[..0], Batch(t.A.shape)) + [k, y] == [k, y];
  }

  /** Along the first axis A has an extent of its own everywhere. */
  predicate OwnBatches(ts: seq<Lora>) {
    forall i :: 0 <= i < |ts| ==> Valid(ts[i]) && ts[i].A.shape[0] == ts[i].B.shape[0]
  }

  lemma BatchCatUnfolds(ts: seq<Lora>)
    requires AllCoherent(ts) && Cat(ts).Ok? && |ts[0].B.shape| > 2
    ensures |ts| > 0
    ensures var (fa, bs, r) := (FactorsA(ts), FactorsB(ts), Cat(ts).value);
      && Valid(r) && Joinable(fa) && Joinable(bs)
      && Concatenated(fa) == Ok(r.A) && Concatenated(bs) == Ok(r.B)
      && r.A.shape == [Total(Extents(fa))] + ts[0].A.shape[1..]
      && r.B.shape == [Total(Extents(bs))] + ts[0].B.shape[1..]
    ensures forall i :: 0 <= i < |ts| ==>
      ts[i].A.shape[1..] == ts[0].A.shape[1..] && ts[i].B.shape[1..] == ts[0].B.shape[1..]
  {
    hide Concatenated;
    CatIsValid(ts);
    JoinableB(ts);
    ConcatenatedShape(FactorsA(ts));
    ConcatenatedShape(FactorsB(ts));
    JoinableTails(FactorsA(ts));
    JoinableTails(FactorsB(ts));
    assert forall i :: 0 <= i < |ts| ==> FactorsA(ts)[i] == ts[i].A && FactorsB(ts)[i] == ts[i].B;
  }

  lemma JoinableTails(ts: seq<Tensor>)
    requires Joinable(ts)
    ensures forall i :: 0 <= i < |ts| ==> |ts[i].shape| > 0 && ts[i].shape[1..] == ts[0].shape[1..]
  {
  }

  lemma {:induction false} TotalBounds(a: seq<nat>, b: seq<nat>)
    requires |a| == |b| && forall i :: 0 <= i < |a| ==> a[i] == b[i] || (a[i] == 1 && b[i] > 0)
    ensures Total(a) <= Total(b)
    ensures Total(a) == Total(b) <==> a == b
  {
    if a != [] {
      TotalBounds(a[1..], b[1..]);
      assert a == [a[0]] + a[1..] && b == [b[0]] + b[1..];
      assert a[1..] == b[1..] && a[0] == b[0] ==> a == b;
    }
  }

  lemma TotalAtLeastTwo(a: seq<nat>)
    requires |a| >= 2 && forall i :: 0 <= i < |a| ==> a[i] > 0
    ensures Total(a) >= 2
  {
    assert Total(a) == a[0] + (a[1] + Total(a[1..][1..]));
  }

  /** The batches of the result broadcast exactly if every A has its own. */
  lemma CatBroadcastsIff(ts: seq<Lora>)
    requires AllCoherent(ts) && Cat(ts).Ok? && |ts[0].B.shape| > 2
    ensures OwnBatches(ts) ==> Extents(FactorsA(ts)) == Extents(FactorsB(ts)) && Coherent(Cat(ts).value)
    ensures |ts| >= 2 && (forall i :: 0 <= i < |ts| ==> ts[i].B.shape[0] > 0) ==>
      (Coherent(Cat(ts).value) <==> OwnBatches(ts))
  {
    hide Concatenated, Cat, Joinable;
    BatchCatUnfolds(ts);
    var (ea, eb, r) := (Extents(FactorsA(ts)), Extents(FactorsB(ts)), Cat(ts).value);
    assert forall i :: 0 <= i < |ts| ==> ea[i] == ts[i].A.shape[0] && eb[i] == ts[i].B.shape[0];
    assert OwnBatches(ts) <==> ea == eb;
    CatCoherent(ts[0], r, Total(ea), Total(eb));
    if |ts| >= 2 && forall i :: 0 <= i < |ts| ==> ts[i].B.shape[0] > 0 {
      forall i | 0 <= i < |ts| ensures ea[i] == eb[i] || ea[i] == 1 {
        FirstBroadcasts(ts[i]);
      }
      TotalBounds(ea, eb);
      TotalAtLeastTwo(ea);
    }
  }

  lemma FirstBroadcasts(t: Lora)
    requires Coherent(t) && |t.B.shape| > 2
    ensures t.A.shape[0] == 1 || t.A.shape[0] == t.B.shape[0]
  {
    assert Batch(t.A.shape)[0] == t.A.shape[0];
  }

  /** Changing only the first extents. */
  lemma CatCoherent(t: Lora, r: Lora, x: nat, y: nat)
    requires Coherent(t) && |t.B.shape| > 2 && Valid(r)
    requires r.A.shape == [x] + t.A.shape[1..] && r.B.shape == [y] + t.B.shape[1..]
    ensures Coherent(r) <==> x == 1 || x == y
  {
    var (la, lb) := (Batch(r.A.shape), Batch(r.B.shape));
    assert la[0] == x && lb[0] == y;
    forall i | 1 <= i < |la| ensures la[i] == 1 || la[i] == lb[i] {
      assert la[i] == Batch(t.A.shape)[i] && lb[i] == Batch(t.B.shape)[i];
    }
  }

  lemma BatchCatTerm(ts: seq<Lora>, i: nat, q: Position, k: nat)
    requires AllCoherent(ts) && Cat(ts).Ok? && |ts[0].B.shape| > 2 && OwnBatches(ts)
    requires |q| + 1 == |ts[0].B.shape| && i < Total(Extents(FactorsB(ts)))
    ensures var (r, (j, row)) := (Cat(ts).value, Locate(Extents(FactorsB(ts)), i));
      && Valid(r) && |r.B.shape| == |q| + 1 == |ts[j].B.shape|
      && Term(r, [i] + q, k) == Term(ts[j], [row] + q, k)
  {
    hide Concatenated, Joinable, Locate, Cat, Repeated, Term, Broadcasts;
    var n := |q|;
    var (j, row) := Locate(Extents(FactorsB(ts)), i);
    BatchCatUnfolds(ts);
    assert ts[j].B.shape[1..] == ts[0].B.shape[1..];
    var la := Batch(ts[j].A.shape)[1..];
    JoinedEntries(ts, i, q[..n - 1] + [k], Repeated(q[..n - 2], la) + [k, q[n - 1]]);
    TermCons(Cat(ts).value, i, q, k);
    TermCons(ts[j], row, q, k);
  }

  /** Both factors of the result come from the factors of the same tensor, at the same row. */
  lemma JoinedEntries(ts: seq<Lora>, i: nat, u: Position, v: Position)
    requires AllCoherent(ts) && Cat(ts).Ok? && |ts[0].B.shape| > 2 && OwnBatches(ts)
    requires i < Total(Extents(FactorsB(ts)))
    ensures var (r, (j, row)) := (Cat(ts).value, Locate(Extents(FactorsB(ts)), i));
      && j < |ts| && Valid(r) && Valid(ts[j]) && |r.B.shape| == |ts[0].B.shape| == |ts[j].B.shape|
      && i < r.A.shape[0] && row < ts[j].A.shape[0]
      && Batch(r.A.shape)[1..] == Batch(ts[j].A.shape)[1..]
      && r.B.at([i] + u) == ts[j].B.at([row] + u) && r.A.at([i] + v) == ts[j].A.at([row] + v)
  {
    hide Concatenated, Joinable, Locate, Cat, Repeated, Term, Broadcasts;
    BatchCatUnfolds(ts);
    CatBroadcastsIff(ts);
    var (r, (j, row)) := (Cat(ts).value, Locate(Extents(FactorsB(ts)), i));
    assert ts[j].B.shape[1..] == ts[0].B.shape[1..] && ts[j].A.shape[1..] == ts[0].A.shape[1..];
    assert r.A.shape[1..] == ts[0].A.shape[1..];
    BatchTails(r.A.shape, ts[j].A.shape);
    ConcatenatedAt(FactorsB(ts), i, u);
    ConcatenatedAt(FactorsA(ts), i, v);
  }

  lemma BatchTails(a: Shape, b: Shape)
    requires |a| > 2 && |b| > 2 && a[1..] == b[1..]
    ensures Batch(a)[1..] == Batch(b)[1..]
  {
    assert Batch(a)[1..] == a[1..][..|a| - 3];
    assert Batch(b)[1..] == b[1..][..|b| - 3];
  }

  lemma CatOfBatchesIsFaithful(ts: seq<Lora>)
    requires AllCoherent(ts) && Cat(ts).Ok? && |ts[0].B.shape| > 2 && OwnBatches(ts)
    ensures StandsFor(Cat(ts), Concatenated(Denses(ts)))
  {
    hide Repeated, Term, Sum, Concatenated, Joinable, SameTensor, Locate, Cat;
    BatchCatUnfolds(ts);
    CatBroadcastsIff(ts);
    JoinableDenses(ts);
    var (bs, ds, r) := (FactorsB(ts), Denses(ts), Cat(ts).value);
    ConcatenatedShape(ds);
    DenseTail(r);
    DenseTail(ts[0]);
    var d := Concatenated(ds).value;
    assert Dense(r).shape == [Total(Extents(bs))] + ds[0].shape[1..] by { assert Dense(r).shape[0] == r.B.shape[0]; }
    forall p | Within(p, d.shape) ensures Dense(r).at(p) == d.at(p) {
      var q := p[1..];
      assert p == [p[0]] + q;
      var (j, row) := Locate(Extents(bs), p[0]);
      ConcatenatedAt(ds, p[0], q);
      assert ts[j].B.shape[1..] == ts[0].B.shape[1..];
      forall k: nat | k < Rank(r) ensures Term(r, p, k) == Term(ts[j], [row] + q, k) {
        BatchCatTerm(ts, p[0], q, k);
      }
      SumsEqual(r, p, ts[j], [row] + q, Rank(r));
    }
    SameByEntries(r, d);
  }

  /** With batches, concatenation is right exactly if no A is repeated along the axis that is joined. */
  lemma CatOfBatchesIsFaithfulIff(ts: seq<Lora>)
    requires AllCoherent(ts) && Cat(ts).Ok? && |ts[0].B.shape| > 2
    requires |ts| >= 2 && forall i :: 0 <= i < |ts| ==> ts[i].B.shape[0] > 0
    ensures StandsFor(Cat(ts), Concatenated(Denses(ts))) <==> OwnBatches(ts)
  {
    hide Concatenated, Cat, SameTensor;
    CatBroadcastsIff(ts);
    if OwnBatches(ts) {
      CatOfBatchesIsFaithful(ts);
    }
  }
}

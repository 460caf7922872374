/** NumPy-style broadcasting for element-wise integer addition: rank
    alignment, broadcast shape computation, stretched indexing and the
    element-wise sum. */
module Broadcasting {
  import opened Arrays

  /** Raised when two shapes cannot be broadcast together; it carries the
      two shapes that were compared. */
  datatype BroadcastError = BroadcastError(shape: Shape, shape2: Shape)

  datatype Result<T> = Ok(value: T) | Err(error: BroadcastError)

  // ---------------------------------------------------------------------
  // Shape aligner
  // ---------------------------------------------------------------------

  /** The smaller and the larger of two items under `key`; as with Python's
      `min` and `max`, the first argument wins a tie. */
  function MinMax<T(==)>(arg: T, arg2: T, key: T -> int): (r: (T, T))
    ensures (r.0 == arg || r.0 == arg2) && (r.1 == arg || r.1 == arg2)
    ensures key(r.0) <= key(arg) && key(r.0) <= key(arg2)
    ensures key(r.1) >= key(arg) && key(r.1) >= key(arg2)
    ensures key(arg) == key(arg2) ==> r == (arg, arg)
  {
    (if key(arg2) < key(arg) then arg2 else arg,
     if key(arg2) > key(arg) then arg2 else arg)
  }

  /** `a` viewed with `k` extra leading axes of size 1: the element count is
      unchanged, so the row-major data is kept as it is. */
  function Pad(a: NdArray, k: nat): (r: NdArray)
    ensures Rank(r) == Rank(a) + k
    ensures (forall i :: 0 <= i < k ==> r.shape[i] == 1) && r.shape[k..] == a.shape
    ensures r.data == a.data
    ensures r.Valid() <==> a.Valid()
  {
    ProductOnes(k, a.shape);
    NdArray(Ones(k) + a.shape, a.data)
  }

  /** Both arrays with equal rank: the lower-rank one padded with leading
      axes of size 1, returned first; equal ranks leave both untouched. */
  function MatchDimensions(arr: NdArray, arr2: NdArray): (r: (NdArray, NdArray))
    ensures Rank(r.0) == Rank(r.1)
    ensures Rank(r.0) == if Rank(arr) < Rank(arr2) then Rank(arr2) else Rank(arr)
    ensures Rank(arr) == Rank(arr2) ==> r == (arr, arr2)
    ensures Rank(arr) < Rank(arr2) ==> r == (Pad(arr, Rank(arr2) - Rank(arr)), arr2)
    ensures Rank(arr2) < Rank(arr) ==> r == (Pad(arr2, Rank(arr) - Rank(arr2)), arr)
    ensures arr.Valid() && arr2.Valid() ==> r.0.Valid() && r.1.Valid()
  {
    if Rank(arr) == Rank(arr2) then (arr, arr2)
    else
      var (toPrepend, larger) := MinMax(arr, arr2, x => Rank(x));
      var difference := Rank(larger) - Rank(toPrepend);
      (Pad(toPrepend, difference), larger)
  }

  // ---------------------------------------------------------------------
  // Shape broadcaster
  // ---------------------------------------------------------------------

  /** Two axis sizes match when they are equal or one of them is 1. */
  predicate DimsMatch(dim: nat, dim2: nat)
  {
    dim == dim2 || dim == 1 || dim2 == 1
  }

  /** The broadcast size of two matching axes. */
  function AxisSize(dim: nat, dim2: nat): nat
    requires DimsMatch(dim, dim2)
  {
    if dim == dim2 || dim2 == 1 then dim else dim2
  }

  /** The length of a pairwise zip of `s` and `s2`. */
  function MinRank(s: Shape, s2: Shape): nat
  {
    if |s| <= |s2| then |s| else |s2|
  }

  /** The last `k` axes of `s`. */
  function Suffix(s: Shape, k: nat): Shape
    requires k <= |s|
  {
    s[|s| - k..]
  }

  /** The axis `k` places from the innermost one. */
  function FromRight(s: Shape, k: nat): nat
    requires k < |s|
  {
    s[|s| - 1 - k]
  }

  predicate AxesMatch(t: Shape, t2: Shape)
    requires |t| == |t2|
  {
    forall j :: 0 <= j < |t| ==> DimsMatch(t[j], t2[j])
  }

  function CombineAxes(t: Shape, t2: Shape): Shape
    requires |t| == |t2| && AxesMatch(t, t2)
  {
    seq(|t|, j requires 0 <= j < |t| => AxisSize(t[j], t2[j]))
  }

  /** The broadcast shape of `s` and `s2`. The shapes are compared pairwise
      from the innermost axis outward; pairing stops at the shorter shape,
      so only the last `MinRank(s, s2)` axes of each take part. */
  function BroadcastShape(s: Shape, s2: Shape): Result<Shape>
  {
    var m := MinRank(s, s2);
    var t, t2 := Suffix(s, m), Suffix(s2, m);
    if AxesMatch(t, t2) then Ok(CombineAxes(t, t2)) else Err(BroadcastError(s, s2))
  }

  /** Position `m - 1 - k` of the last `m` axes is the axis `k` places from
      the innermost one. */
  lemma SuffixFromRight(s: Shape, m: nat, k: nat)
    requires k < m <= |s|
    ensures Suffix(s, m)[m - 1 - k] == FromRight(s, k)
  {
  }

  /** One more axis of suffix puts that axis in front. */
  lemma SuffixStep(s: Shape, k: nat)
    requires k < |s|
    ensures Suffix(s, k + 1) == [FromRight(s, k)] + Suffix(s, k)
  {
  }

  /** Combining pairs axis by axis, with one more pair in front. */
  lemma CombineAxesCons(d: nat, d2: nat, t: Shape, t2: Shape)
    requires |t| == |t2| && AxesMatch(t, t2)
    ensures AxesMatch([d] + t, [d2] + t2) <==> DimsMatch(d, d2)
    ensures DimsMatch(d, d2) ==> CombineAxes([d] + t, [d2] + t2) == [AxisSize(d, d2)] + CombineAxes(t, t2)
  {
    var u, u2 := [d] + t, [d2] + t2;
    assert u[0] == d && u2[0] == d2;
    assert forall j :: 0 < j < |u| ==> u[j] == t[j - 1] && u2[j] == t2[j - 1];
  }

  /** A mismatched pair anywhere among the last `m` axes defeats them all. */
  lemma PairMismatch(s: Shape, s2: Shape, m: nat, k: nat)
    requires k < m <= |s| && m <= |s2|
    requires !DimsMatch(FromRight(s, k), FromRight(s2, k))
    ensures !AxesMatch(Suffix(s, m), Suffix(s2, m))
  {
    SuffixFromRight(s, m, k);
    SuffixFromRight(s2, m, k);
  }

  /** Computes the broadcast shape axis by axis from the innermost one,
      prepending each result axis, and fails on the first pair that does not
      match. */
  method BroadcastedShape(shape: Shape, shape2: Shape) returns (r: Result<Shape>)
    ensures r == BroadcastShape(shape, shape2)
  {
    var newShape: Shape := [];
    var m := MinRank(shape, shape2);
    var k := 0;
    while k < m
      invariant 0 <= k <= m
      invariant AxesMatch(Suffix(shape, k), Suffix(shape2, k))
      invariant newShape == CombineAxes(Suffix(shape, k), Suffix(shape2, k))
    {
      var dim, dim2 := shape[|shape| - 1 - k], shape2[|shape2| - 1 - k];
      SuffixStep(shape, k);
      SuffixStep(shape2, k);
      CombineAxesCons(dim, dim2, Suffix(shape, k), Suffix(shape2, k));
      if dim == dim2 || dim2 == 1 {
        newShape := [dim] + newShape;
      } else if dim == 1 {
        newShape := [dim2] + newShape;
      } else {
        PairMismatch(shape, shape2, m, k);
        return Err(BroadcastError(shape, shape2));
      }
      k := k + 1;
    }
    r := Ok(newShape);
  }

  // ---------------------------------------------------------------------
  // Stretched indexer
  // ---------------------------------------------------------------------

  /** The coordinate with every position on an axis of size 1 replaced by 0;
      as with a pairwise zip, it is as long as the shorter of the two. */
  function StretchIndex(shape: Shape, indices: Coord): (r: Coord)
    ensures |r| == MinRank(shape, indices)
    ensures forall i :: 0 <= i < |r| ==> r[i] == 0 || r[i] == indices[i]
    ensures forall i :: 0 <= i < |r| && shape[i] != 1 ==> r[i] == indices[i]
    ensures InStretchedBounds(shape, indices) ==> InBounds(shape, r)
  {
    var n := MinRank(shape, indices);
    seq(n, i requires 0 <= i < n => if shape[i] == 1 then 0 else indices[i])
  }

  /** `indices` has one position per axis of `shape`, and each position is in
      bounds on every axis that is not stretched. */
  predicate InStretchedBounds(shape: Shape, indices: Coord)
  {
    |indices| == |shape| && forall i :: 0 <= i < |shape| ==> shape[i] == 1 || indices[i] < shape[i]
  }

  /** The element a broadcast reads at `indices`. */
  function GetItem(arr: NdArray, indices: Coord): (r: int)
    requires arr.Valid() && InStretchedBounds(arr.shape, indices)
    ensures r == At(arr, StretchIndex(arr.shape, indices))
  {
    var modified := StretchIndex(arr.shape, indices);
    At(arr, modified)
  }

  // ---------------------------------------------------------------------
  // Element-wise adder
  // ---------------------------------------------------------------------

  /** Every axis of `s` is 1 or equal to the axis of `out`. */
  predicate Stretches(s: Shape, out: Shape)
  {
    |s| == |out| && forall i :: 0 <= i < |s| ==> s[i] == 1 || s[i] == out[i]
  }

  /** Both inputs of a successful equal-rank broadcast stretch to its result. */
  lemma BroadcastStretches(s: Shape, s2: Shape, out: Shape)
    requires |s| == |s2| && BroadcastShape(s, s2) == Ok(out)
    ensures Stretches(s, out) && Stretches(s2, out)
  {
    assert Suffix(s, |s|) == s && Suffix(s2, |s2|) == s2;
  }

  /** A coordinate of the output is a valid stretched coordinate of every
      array that stretches to the output. */
  lemma StretchInBounds(s: Shape, out: Shape, c: Coord)
    requires Stretches(s, out) && InBounds(out, c)
    ensures InStretchedBounds(s, c) && InBounds(s, StretchIndex(s, c))
  {
  }

  /** The sum `add` stores at output coordinate `c`. */
  function SumAt(x: NdArray, y: NdArray, out: Shape, c: Coord): int
    requires x.Valid() && y.Valid() && Stretches(x.shape, out) && Stretches(y.shape, out)
    requires InBounds(out, c)
  {
    StretchInBounds(x.shape, out, c);
    StretchInBounds(y.shape, out, c);
    GetItem(x, c) + GetItem(y, c)
  }

  /** The output data: the sum at every coordinate, in row-major order. */
  function Cells(x: NdArray, y: NdArray, out: Shape): seq<int>
    requires x.Valid() && y.Valid() && Stretches(x.shape, out) && Stretches(y.shape, out)
  {
    seq(Product(out), p requires 0 <= p < Product(out) => SumAt(x, y, out, Unravel(out, p)))
  }

  /** The element-wise sum of two arrays under broadcasting. */
  function Sum(arr: NdArray, arr2: NdArray): Result<NdArray>
    requires arr.Valid() && arr2.Valid()
  {
    var aligned := MatchDimensions(arr, arr2);
    var x, y := aligned.0, aligned.1;
    var outputShape := BroadcastShape(x.shape, y.shape);
    if outputShape.Err? then Err(outputShape.error)
    else
      BroadcastStretches(x.shape, y.shape, outputShape.value);
      Ok(NdArray(outputShape.value, Cells(x, y, outputShape.value)))
  }

  /** Fills a fresh buffer of the output's size, visiting the output
      coordinates in row-major order and storing at each the sum of the two
      stretched lookups. */
  method Fill(x: NdArray, y: NdArray, shape: Shape) returns (data: seq<int>)
    requires x.Valid() && y.Valid() && Stretches(x.shape, shape) && Stretches(y.shape, shape)
    ensures data == Cells(x, y, shape)
  {
    var n := Product(shape);
    var out := new int[n];
    var p := 0;
    while p < n
      invariant 0 <= p <= n
      invariant forall q :: 0 <= q < p ==> out[q] == SumAt(x, y, shape, Unravel(shape, q))
    {
      var indices := Unravel(shape, p);
      StretchInBounds(x.shape, shape, indices);
      StretchInBounds(y.shape, shape, indices);
      out[Offset(shape, indices)] := GetItem(x, indices) + GetItem(y, indices);
      assert out[p] == SumAt(x, y, shape, indices);
      p := p + 1;
    }
    data := out[..];
  }

  /** Aligns the ranks, computes the output shape, and fills the output. */
  method Add(arr: NdArray, arr2: NdArray) returns (r: Result<NdArray>)
    requires arr.Valid() && arr2.Valid()
    ensures r == Sum(arr, arr2)
  {
    var aligned := MatchDimensions(arr, arr2);
    var x, y := aligned.0, aligned.1;
    var outputShape := BroadcastedShape(x.shape, y.shape);
    if outputShape.Err? {
      return Err(outputShape.error);
    }
    var shape := outputShape.value;
    BroadcastStretches(x.shape, y.shape, shape);
    var data := Fill(x, y, shape);
    r := Ok(NdArray(shape, data));
  }
}
